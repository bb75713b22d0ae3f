/** The emitter that walks a condition and appends its branches to the code under construction. */
module Emitter {
  import opened Conditions

  class CondEmitter {
    var code: seq<Ins>
    var next: nat

    constructor ()
      ensures code == [] && next == 0
    {
      code, next := [], 0;
    }

    method NewLabel() returns (l: nat)
      modifies this
      ensures l == old(next) && next == old(next) + 1 && code == old(code)
    {
      l := next;
      next := next + 1;
    }

    method Put(part: seq<Ins>)
      modifies this
      ensures code == old(code) + part && next == old(next)
    {
      code := code + part;
    }

    method Operand(a: Operand)
      modifies this
      ensures code == old(code) + Fetch(a) && next == old(next)
    {
      match a
      case Null => Put([PushNull]);
      case Operand(id, ty) => Put([Load(id, ty)]);
    }

    method OperandAs(a: Operand, t: Ty)
      requires a.Operand?
      modifies this
      ensures code == old(code) + FetchAs(a, t) && next == old(next)
    {
      Operand(a);
      if a.ty != t { Put([Widen(a.ty, t)]); }
    }

    /** Branches to target when e evaluates to `when`. */
    method Cond(e: Expr, target: nat, when: bool)
      requires Typed(e)
      modifies this
      ensures (code, next) == (old(code) + EmitCond(e, target, when, old(next)).0, EmitCond(e, target, when, old(next)).1)
      decreases e, if Materialised(e) then 3 else 1
    {
      match e
      case Folded(b) =>
        if b == when { Put([Goto(target)]); } else { assert code == old(code) + []; }
      case Paren(e') => Cond(e', target, when);
      case Not(e') => Cond(e', target, !when);
      case And(_, _) => CondAnd(e, target, when);
      case Or(_, _) => CondOr(e, target, when);
      case Compare(k, a, b) => CompareOperands(k, a, b, target, when);
      case Same(eq, a, b) => CompareReferences(eq, a, b, target, when);
      case SameBool(eq, x, y) =>
        ghost var start, n := code, next;
        Value(x);
        Value(y);
        Put([IfInts(if eq == when then EQ else NE, target)]);
        assert code == start + EmitCond(e, target, when, n).0;
      case InstanceOf(a, cls) =>
        ghost var start, n := code, next;
        Operand(a);
        Put([TypeTest(cls)]);
        Put([TestZero(target, when)]);
        assert code == start + EmitCond(e, target, when, n).0;
      case _ =>
        ghost var start, n := code, next;
        Value(e);
        Put([TestZero(target, when)]);
        assert code == start + EmitCond(e, target, when, n).0;
    }

    method CondAnd(e: Expr, target: nat, when: bool)
      requires e.And? && Typed(e)
      modifies this
      ensures (code, next) == (old(code) + EmitCond(e, target, when, old(next)).0, EmitCond(e, target, when, old(next)).1)
      decreases e, 0
    {
      AndEmits(e, target, when, next);
      hide EmitCond, EmitValue;
      ghost var cx := EmitCond(e.x, if when then next else target, false, if when then next + 1 else next);
      ghost var cy := EmitCond(e.y, target, when, cx.1);
      Regroup(code, cx.0, cy.0);
      if when {
        var skip := NewLabel();
        Regroup(code, cx.0 + cy.0, [Mark(skip)]);
        Cond(e.x, skip, false);
        Cond(e.y, target, true);
        Put([Mark(skip)]);
      } else {
        Cond(e.x, target, false);
        Cond(e.y, target, false);
      }
    }

    method CondOr(e: Expr, target: nat, when: bool)
      requires e.Or? && Typed(e)
      modifies this
      ensures (code, next) == (old(code) + EmitCond(e, target, when, old(next)).0, EmitCond(e, target, when, old(next)).1)
      decreases e, 0
    {
      OrEmits(e, target, when, next);
      hide EmitCond, EmitValue;
      ghost var cx := EmitCond(e.x, if when then target else next, true, if when then next else next + 1);
      ghost var cy := EmitCond(e.y, target, when, cx.1);
      Regroup(code, cx.0, cy.0);
      if when {
        Cond(e.x, target, true);
        Cond(e.y, target, true);
      } else {
        var skip := NewLabel();
        Regroup(code, cx.0 + cy.0, [Mark(skip)]);
        Cond(e.x, skip, true);
        Cond(e.y, target, false);
        Put([Mark(skip)]);
      }
    }

    /** Promotes both operands, then fuses the test or goes through a three-way comparison. */
    method CompareOperands(k: Rel, a: Operand, b: Operand, target: nat, when: bool)
      requires a.Operand? && b.Operand?
      modifies this
      ensures code == old(code) + EmitCompare(k, a, b, target, when) && next == old(next)
    {
      var t := Promoted(a.ty, b.ty);
      OperandAs(a, t);
      OperandAs(b, t);
      var test := k;
      if !when { test := Opposite(k); }
      if t == TInt {
        Put([IfInts(test, target)]);
      } else {
        Put([Cmp(t, Variant(test)), IfZero(test, target)]);
      }
      assert code == old(code) + EmitCompare(k, a, b, target, when);
    }

    method CompareReferences(eq: bool, a: Operand, b: Operand, target: nat, when: bool)
      modifies this
      ensures code == old(code) + EmitSame(eq, a, b, target, when) && next == old(next)
    {
      if b.Null? {
        Operand(a);
        Put([IfNull(eq == when, target)]);
      } else if a.Null? {
        Operand(b);
        Put([IfNull(eq == when, target)]);
      } else {
        Operand(a);
        Operand(b);
        Put([IfRefs(eq == when, target)]);
      }
      assert code == old(code) + EmitSame(eq, a, b, target, when);
    }

    /** The boolean as an int on the stack. */
    method Value(e: Expr)
      requires Typed(e)
      modifies this
      ensures (code, next) == (old(code) + EmitValue(e, old(next)).0, EmitValue(e, old(next)).1)
      decreases e, if Materialised(e) then 1 else 3
    {
      match e
      case Folded(b) => Put([PushInt(if b then 1 else 0)]);
      case Paren(e') => Value(e');
      case InstanceOf(a, cls) =>
        ghost var start, n := code, next;
        Operand(a);
        Put([TypeTest(cls)]);
        assert code == start + EmitValue(e, n).0;
      case Choose(_, _, _) => Conditional(e);
      case Bits(op, x, y) =>
        ghost var start, n := code, next;
        Value(x);
        Value(y);
        Put([Logic(op)]);
        assert code == start + EmitValue(e, n).0;
      case Other(id) => Put([Load(id, TBool)]);
      case _ => CondValue(e);
    }

    method CondValue(e: Expr)
      requires Typed(e) && !Materialised(e) && !e.Folded? && !e.Paren? && !e.InstanceOf?
      modifies this
      ensures (code, next) == (old(code) + EmitValue(e, old(next)).0, EmitValue(e, old(next)).1)
      decreases e, 2
    {
      var t := NewLabel();
      var done := NewLabel();
      Cond(e, t, true);
      Put([PushInt(0), Goto(done), Mark(t), PushInt(1), Mark(done)]);
      assert code == old(code) + EmitValue(e, old(next)).0;
    }

    method Conditional(e: Expr)
      requires e.Choose? && Typed(e)
      modifies this
      ensures (code, next) == (old(code) + EmitValue(e, old(next)).0, EmitValue(e, old(next)).1)
      decreases e, 0
    {
      ChooseEmits(e, next);
      hide EmitCond, EmitValue;
      ghost var n := next;
      ghost var cc := EmitCond(e.c, n, false, n + 2);
      ghost var cx := EmitValue(e.x, cc.1);
      ghost var cy := EmitValue(e.y, cx.1);
      Regroup(code, cc.0, cx.0);
      Regroup(code, cc.0 + cx.0, [Goto(n + 1), Mark(n)]);
      Regroup(code, cc.0 + cx.0 + [Goto(n + 1), Mark(n)], cy.0);
      Regroup(code, cc.0 + cx.0 + [Goto(n + 1), Mark(n)] + cy.0, [Mark(n + 1)]);
      var els := NewLabel();
      var done := NewLabel();
      Cond(e.c, els, false);
      Value(e.x);
      Put([Goto(done), Mark(els)]);
      Value(e.y);
      Put([Mark(done)]);
    }
  }

  lemma Regroup(s: seq<Ins>, a: seq<Ins>, b: seq<Ins>)
    ensures s + a + b == s + (a + b)
  {
  }

  // ---- the shape of the emitted code, one constructor at a time -----------

  lemma AndEmits(e: Expr, target: nat, when: bool, n: nat)
    requires e.And? && Typed(e)
    ensures var cx := EmitCond(e.x, if when then n else target, false, if when then n + 1 else n);
            var cy := EmitCond(e.y, target, when, cx.1);
            EmitCond(e, target, when, n) == (if when then cx.0 + cy.0 + [Mark(n)] else cx.0 + cy.0, cy.1)
  {
  }

  lemma OrEmits(e: Expr, target: nat, when: bool, n: nat)
    requires e.Or? && Typed(e)
    ensures var cx := EmitCond(e.x, if when then target else n, true, if when then n else n + 1);
            var cy := EmitCond(e.y, target, when, cx.1);
            EmitCond(e, target, when, n) == (if when then cx.0 + cy.0 else cx.0 + cy.0 + [Mark(n)], cy.1)
  {
  }

  lemma ChooseEmits(e: Expr, n: nat)
    requires e.Choose? && Typed(e)
    ensures var cc := EmitCond(e.c, n, false, n + 2);
            var cx := EmitValue(e.x, cc.1);
            var cy := EmitValue(e.y, cx.1);
            EmitValue(e, n) == (cc.0 + cx.0 + [Goto(n + 1), Mark(n)] + cy.0 + [Mark(n + 1)], cy.1)
  {
  }
}
