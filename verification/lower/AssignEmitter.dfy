/** The emitter's walk over an assignment, a compound assignment or ++/--, appending to the code under construction. */
module AssignEmitter {
  import opened Lvalues
  import opened LvaluesProof

  class Emitter {
    var code: seq<Ins>

    constructor ()
      ensures code == []
    {
      code := [];
    }

    method Op(i: Ins)
      modifies this
      ensures code == old(code) + [i]
    {
      code := code + [i];
    }

    /** A primitive conversion: everything narrower than int is on the stack as an int, and narrows through int. */
    method Primitive(from: Kind, to: Kind)
      modifies this
      ensures code == old(code) + Convs(Lvalues.Primitive(from, to))
    {
      if from == to { return; }
      match from
      case KBool => FromInt(to);
      case KByte => FromInt(to);
      case KShort => FromInt(to);
      case KChar => FromInt(to);
      case KInt => FromInt(to);
      case KLong =>
        match to {
          case KInt => Op(Conv(L2I));
          case KFloat => Op(Conv(L2F));
          case KDouble => Op(Conv(L2D));
          case KByte => Narrow(L2I, to);
          case KShort => Narrow(L2I, to);
          case KChar => Narrow(L2I, to);
          case _ =>
        }
      case KFloat =>
        match to {
          case KInt => Op(Conv(F2I));
          case KLong => Op(Conv(F2L));
          case KDouble => Op(Conv(F2D));
          case KByte => Narrow(F2I, to);
          case KShort => Narrow(F2I, to);
          case KChar => Narrow(F2I, to);
          case _ =>
        }
      case KDouble =>
        match to {
          case KInt => Op(Conv(D2I));
          case KLong => Op(Conv(D2L));
          case KFloat => Op(Conv(D2F));
          case KByte => Narrow(D2I, to);
          case KShort => Narrow(D2I, to);
          case KChar => Narrow(D2I, to);
          case _ =>
        }
      case KRef =>
    }

    method Narrow(first: ConvOp, to: Kind)
      modifies this
      ensures code == old(code) + Convs([first] + Lvalues.FromInt(to))
    {
      Op(Conv(first));
      FromInt(to);
    }

    method FromInt(to: Kind)
      modifies this
      ensures code == old(code) + Convs(Lvalues.FromInt(to))
    {
      match to
      case KLong => Op(Conv(I2L));
      case KFloat => Op(Conv(I2F));
      case KDouble => Op(Conv(I2D));
      case KByte => Op(Conv(I2B));
      case KChar => Op(Conv(I2C));
      case KShort => Op(Conv(I2S));
      case _ =>
    }

    method ExprAs(id: nat, from: Kind, to: Kind)
      modifies this
      ensures code == old(code) + EvalAs(id, from, to)
    {
      Op(Eval(id, from));
      Primitive(from, to);
    }

    /** Pushes what the load and the store of the location need beneath the value. */
    method Lvalue(it: Item)
      modifies this
      ensures code == old(code) + Address(it)
    {
      match it
      case Local(_, _) =>
      case Static(_, _, _) =>
      case Field(recv, _, _) => Op(Eval(recv, KRef));
      case Element(arr, idx, ik, _) =>
        Op(Eval(arr, KRef));
        ExprAs(idx, ik, KInt);
    }

    method DupAddr(it: Item)
      modifies this
      ensures code == old(code) + DupAddress(it)
    {
      match it
      case Local(_, _) =>
      case Static(_, _, _) =>
      case Field(_, _, _) => Op(Dup);
      case Element(_, _, _, _) => Op(Dup2);
    }

    method Fetch(it: Item)
      modifies this
      ensures code == old(code) + (DupAddress(it) + [Load(it)])
    {
      hide *;
      DupAddr(it);
      Op(Load(it));
    }

    /** Keeps a copy for the enclosing expression if one is wanted, then stores. */
    method Finish(it: Item, value: bool)
      modifies this
      ensures code == old(code) + (StashIf(it, value) + [Store(it)])
    {
      hide StashIf, Store;
      StashWanted(it, value);
      Op(Store(it));
    }

    method StashWanted(it: Item, value: bool)
      modifies this
      ensures code == old(code) + StashIf(it, value)
    {
      if value { Op(Stash(it)); }
    }

    method Operation(op: Lvalues.Op, k: Kind, rhs: nat, rk: Kind)
      modifies this
      ensures code == old(code) + Operate(op, k, rhs, rk)
    {
      hide Lvalues.Primitive, EvalAs, Convs, Promoted, Promoted2;
      if IsShift(op) {
        ExprAs(rhs, rk, KInt);
        Op(Shift(op, Promoted(k)));
      } else {
        var p := Promoted2(k, rk);
        Primitive(k, p);
        ExprAs(rhs, rk, p);
        Op(Arith(op, p));
        Primitive(p, k);
      }
    }

    method Assign(it: Item, rhs: nat, rk: Kind, value: bool)
      modifies this
      ensures code == old(code) + EmitAssign(it, rhs, rk, value)
    {
      hide Address, EvalAs, StashIf, Store;
      Lvalue(it);
      ExprAs(rhs, rk, it.kind);
      Finish(it, value);
    }

    method Compound(it: Item, op: Lvalues.Op, rhs: nat, rk: Kind, value: bool)
      modifies this
      ensures code == old(code) + EmitCompound(it, op, rhs, rk, value)
    {
      hide Address, DupAddress, Load, Operate, StashIf, Store;
      Lvalue(it);
      Fetch(it);
      Operation(op, it.kind, rhs, rk);
      Finish(it, value);
    }

    method StepByOne(k: Kind, delta: int)
      modifies this
      ensures code == old(code) + Increment(k, delta)
    {
      hide Lvalues.Primitive, Convs;
      var p := Promoted(k);
      Primitive(k, p);
      Op(PushOne(p, delta));
      Op(Arith(Add, p));
      Primitive(p, k);
    }

    method IncDec(it: Item, simple: bool, delta: int, value: bool, postfix: bool)
      modifies this
      ensures code == old(code) + EmitIncDec(it, simple, delta, value, postfix)
    {
      hide EmitStep, Load, Store, Stash;
      if simple && it.Local? && it.kind == KInt {
        if value && postfix { Op(LoadLocal(it.slot, KInt)); }
        Op(Iinc(it.slot, delta));
        if value && !postfix { Op(LoadLocal(it.slot, KInt)); }
      } else {
        ReadModifyWrite(it, delta, value, postfix);
      }
    }

    method ReadModifyWrite(it: Item, delta: int, value: bool, postfix: bool)
      modifies this
      ensures code == old(code) + EmitStep(it, delta, value, postfix)
    {
      hide Address, DupAddress, Load, Increment, Store, StashIf, EmitStep;
      StepParts(it, delta, value, postfix);
      Lvalue(it);
      Fetch(it);
      StashWanted(it, value && postfix);
      StepByOne(it.kind, delta);
      Finish(it, value && !postfix);
    }
  }
}
