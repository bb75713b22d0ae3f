/** Reading instructions back from a code array. */
module Decode {
  import opened Bytes
  import opened Opcode
  import opened Layout
  import opened Calls

  /** One decoded instruction: a slice of the code array, opcode and prefix included. */
  datatype Instr = Instr(op: byte, pc: nat, wide: bool, raw: seq<byte>)

  datatype Option<T> = None | Some(value: T)

  type Case = (int, int)

  // ---- the accessors ------------------------------------------------------

  predicate HasOperands(ins: Instr) { |ins.raw| >= if ins.wide then 2 else 1 }

  function Operands(ins: Instr): seq<byte>
    requires HasOperands(ins)
  {
    if ins.wide then ins.raw[2..] else ins.raw[1..]
  }

  /** The operand bytes every accessor may read are present. */
  predicate Complete(ins: Instr) {
    && HasOperands(ins)
    && (ins.wide ==> if ins.op == IINC then |ins.raw| == 6 else |ins.raw| == 4)
    && (!ins.wide && LenOf(ins.op) >= 0 ==> |ins.raw| == LenOf(ins.op))
    && (ins.wide ==> KindOf(ins.op).LocalIndex? || KindOf(ins.op).IincK?)
    && (KindOf(ins.op).TableswitchK? || KindOf(ins.op).LookupswitchK? ==> |ins.raw| >= 1 + Pad(ins.pc))
  }

  function Index(ins: Instr): nat
    requires Complete(ins)
  {
    var b := Operands(ins);
    match KindOf(ins.op)
    case ConstU1 => b[0]
    case ConstU2 => Be16(b, 0)
    case MultiK => Be16(b, 0)
    case InterfaceK => Be16(b, 0)
    case DynamicK => Be16(b, 0)
    case _ => 0
  }

  /** The local slot, honouring a wide prefix and the forms with the slot in the opcode. */
  function LocalSlot(ins: Instr): nat
    requires Complete(ins)
  {
    var b := Operands(ins);
    if KindOf(ins.op).LocalIndex? || KindOf(ins.op).IincK? then if ins.wide then Be16(b, 0) else b[0]
    else if ILOAD_0 <= ins.op <= ALOAD_3 then (ins.op - ILOAD_0) % 4
    else if ISTORE_0 <= ins.op <= ASTORE_3 then (ins.op - ISTORE_0) % 4
    else 0
  }

  function Increment(ins: Instr): int
    requires Complete(ins)
  {
    if ins.op != IINC then 0
    else if ins.wide then S16(Be16(Operands(ins), 2)) else S8(Operands(ins)[1])
  }

  function Immediate(ins: Instr): int
    requires Complete(ins)
  {
    if ins.op == BIPUSH then S8(Operands(ins)[0])
    else if ins.op == SIPUSH then S16(Be16(Operands(ins), 0))
    else 0
  }

  /** The absolute branch destination. */
  function Target(ins: Instr): int
    requires Complete(ins)
  {
    match KindOf(ins.op)
    case Branch2 => ins.pc + S16(Be16(Operands(ins), 0))
    case Branch4 => ins.pc + Be32(Operands(ins), 0)
    case _ => 0
  }

  /** Default target and cases; a hand-made instruction that is too short yields fewer, never an overrun. */
  function Switch(ins: Instr): (int, seq<Case>)
    requires Complete(ins) && (ins.op == TABLESWITCH || ins.op == LOOKUPSWITCH)
  {
    var b := ins.raw[1 + Pad(ins.pc)..];
    if |b| < 4 then (0, [])
    else
      var def := ins.pc + Be32(b, 0);
      if ins.op == TABLESWITCH then
        if |b| < 12 then (def, [])
        else
          var low, high := Be32(b, 4), Be32(b, 8);
          var n := high - low + 1;
          if high < low || 12 + 4 * n > |b| then (def, [])
          else (def, seq(n, i requires 0 <= i < n => (low + i, ins.pc + Be32(b, 12 + 4 * i))))
      else
        if |b| < 8 then (def, [])
        else
          var n := Be32(b, 4);
          if n < 0 || 8 + 8 * n > |b| then (def, [])
          else (def, seq(n, i requires 0 <= i < n => (Be32(b, 8 + 8 * i), ins.pc + Be32(b, 12 + 8 * i))))
  }

  /** The case list is filled by a loop. */
  method ReadSwitch(ins: Instr) returns (def: int, cases: seq<Case>)
    requires Complete(ins) && (ins.op == TABLESWITCH || ins.op == LOOKUPSWITCH)
    ensures (def, cases) == Switch(ins)
  {
    hide Be32, Pad;
    var b := ins.raw[1 + Pad(ins.pc)..];
    if |b| < 4 { return 0, []; }
    def, cases := ins.pc + Be32(b, 0), [];
    if ins.op == TABLESWITCH {
      if |b| < 12 { return; }
      var low, high := Be32(b, 4), Be32(b, 8);
      if high < low { return; }
      var n := high - low + 1;
      if 12 + 4 * n > |b| { return; }
      for i := 0 to n
        invariant |cases| == i && forall k :: 0 <= k < i ==> cases[k] == (low + k, ins.pc + Be32(b, 12 + 4 * k))
      {
        cases := cases + [(low + i, ins.pc + Be32(b, 12 + 4 * i))];
      }
      assert cases == Switch(ins).1;
    } else {
      if |b| < 8 { return; }
      var n := Be32(b, 4);
      if n < 0 || 8 + 8 * n > |b| { return; }
      for i := 0 to n
        invariant |cases| == i && forall k :: 0 <= k < i ==> cases[k] == (Be32(b, 8 + 8 * k), ins.pc + Be32(b, 12 + 8 * k))
      {
        cases := cases + [(Be32(b, 8 + 8 * i), ins.pc + Be32(b, 12 + 8 * i))];
      }
      assert cases == Switch(ins).1;
    }
  }

  // ---- decoding -----------------------------------------------------------

  /** The encoded length, or None where the operands are malformed. */
  function InstrLen(code: seq<byte>, pc: nat, o: byte, wide: bool): (r: Option<nat>)
    requires pc < |code|
    ensures r.Some? && !KindOf(o).Unused? ==> r.value >= 1
  {
    if wide then Some(if o == IINC then 6 else 4)
    else if LenOf(o) >= 0 then Some(LenOf(o))
    else
      var base := pc + 1 + Pad(pc);
      if o == TABLESWITCH then
        if base + 12 > |code| then None
        else
          var low, high := Be32(code, base + 4), Be32(code, base + 8);
          if high < low || high - low + 1 > |code| then None else Some(1 + Pad(pc) + 12 + 4 * (high - low + 1))
      else if o == LOOKUPSWITCH then
        if base + 8 > |code| then None
        else
          var n := Be32(code, base + 4);
          if n < 0 || n * 8 > |code| then None else Some(1 + Pad(pc) + 8 + 8 * n)
      else None
  }

  /** The instruction at pc, or None where decoding must stop with an error. */
  function At(code: seq<byte>, pc: nat): (r: Option<Instr>)
    requires pc < |code|
    ensures r.Some? ==> r.value.pc == pc && |r.value.raw| >= 1 && pc + |r.value.raw| <= |code|
    ensures r.Some? ==> r.value.raw == code[pc..pc + |r.value.raw|] && Complete(r.value)
  {
    var first := code[pc];
    if KindOf(first).Unused? then None
    else
      var wide := first == WIDE;
      if wide && (pc + 1 >= |code| || !(KindOf(code[pc + 1]).LocalIndex? || KindOf(code[pc + 1]).IincK?)) then None
      else
        var o := if wide then code[pc + 1] else first;
        match InstrLen(code, pc, o, wide)
        case None => None
        case Some(n) => if pc + n > |code| then None else Some(Instr(o, pc, wide, code[pc..pc + n]))
  }

  /** All instructions from pc on, or None if decoding stops early. */
  function Walk(code: seq<byte>, pc: nat): Option<seq<Instr>>
    requires pc <= |code|
    decreases |code| - pc
  {
    if pc == |code| then Some([])
    else match At(code, pc)
      case None => None
      case Some(ins) =>
        match Walk(code, pc + |ins.raw|)
        case None => None
        case Some(rest) => Some([ins] + rest)
  }

  /** The instructions already collected, followed by the rest of the walk. */
  function Then(done: seq<Instr>, rest: Option<seq<Instr>>): Option<seq<Instr>> {
    if rest.None? then None else Some(done + rest.value)
  }

  lemma ThenNext(done: seq<Instr>, code: seq<byte>, pc: nat)
    requires pc < |code| && At(code, pc).Some?
    ensures var ins := At(code, pc).value; Then(done, Walk(code, pc)) == Then(done + [ins], Walk(code, pc + |ins.raw|))
  {
    hide At;
    var ins := At(code, pc).value;
    var rest := Walk(code, pc + |ins.raw|);
    if rest.Some? { assert done + ([ins] + rest.value) == (done + [ins]) + rest.value; }
  }

  class Iter {
    const code: seq<byte>
    var pc: nat
    var cur: Option<Instr>
    var err: bool

    constructor (code: seq<byte>)
      ensures this.code == code && pc == 0 && !err && cur == None
    {
      this.code := code;
      pc, cur, err := 0, None, false;
    }

    /** Advances to the next instruction; a malformed one sets err and stops the iteration for good. */
    method Next() returns (more: bool)
      requires pc <= |code|
      modifies this
      ensures pc <= |code|
      ensures more == (!old(err) && old(pc) < |code| && At(code, old(pc)).Some?)
      ensures more ==> cur == At(code, old(pc)) && pc == old(pc) + |cur.value.raw| && !err
      ensures !more ==> pc == old(pc) && cur == old(cur)
      ensures err == (old(err) || (old(pc) < |code| && At(code, old(pc)).None?))
    {
      if err || pc >= |code| { return false; }
      var o := code[pc];
      if KindOf(o).Unused? {
        err := true;
        return false;
      }
      var wide := false;
      if o == WIDE {
        if pc + 1 >= |code| {
          err := true;
          return false;
        }
        var inner := code[pc + 1];
        if !KindOf(inner).LocalIndex? && !KindOf(inner).IincK? {
          err := true;
          return false;
        }
        wide := true;
        o := inner;
      }
      var len := InstrLen(code, pc, o, wide);
      if len.None? || pc + len.value > |code| {
        err := true;
        return false;
      }
      cur := Some(Instr(o, pc, wide, code[pc..pc + len.value]));
      pc := pc + len.value;
      return true;
    }

    /** The loop every client runs. */
    method Collect() returns (all: seq<Instr>)
      requires pc == 0 && !err
      modifies this
      ensures err == Walk(code, 0).None?
      ensures !err ==> Walk(code, 0) == Some(all)
    {
      hide At;
      all := [];
      ghost var whole := Walk(code, 0);
      if whole.Some? { assert [] + whole.value == whole.value; }
      var more := true;
      while more
        invariant pc <= |code|
        invariant err ==> !more && Walk(code, 0).None?
        invariant !err && !more ==> pc == |code|
        invariant !err ==> Walk(code, 0) == Then(all, Walk(code, pc))
        decreases |code| - pc, more
      {
        ghost var at, before := pc, all;
        more := Next();
        if more {
          all := all + [cur.value];
          ThenNext(before, code, at);
        }
      }
      assert all + [] == all;
    }
  }

  // ---- what an instruction means ------------------------------------------

  /** An instruction's operation and operands, whichever encoding carried it. */
  datatype View =
    | LocalAccess(op: byte, slot: int)
    | Increase(slot: int, delta: int)
    | PushInt(v: int)
    | PushConst(idx: nat, slots: nat)
    | NoOperands(op: byte)
    | Pooled(op: byte, idx: nat)
    | Interface(idx: nat, count: nat)
    | NewPrimitive(code: nat)
    | NewMulti(idx: nat, dims: nat)
    | BranchTo(op: byte, target: int)
    | SwitchTo(def: int, cases: seq<Case>)
    | Other

  function Meaning(ins: Instr): View
    requires Complete(ins)
  {
    var o := ins.op;
    if ICONST_0 - 1 <= o <= ICONST_0 + 5 then PushInt(o - ICONST_0)
    else if o == BIPUSH || o == SIPUSH then PushInt(Immediate(ins))
    else if o == LDC || o == LDC_W then PushConst(Index(ins), 1)
    else if o == LDC2_W then PushConst(Index(ins), 2)
    else if IsLocalGeneral(o) then LocalAccess(o, LocalSlot(ins))
    else if ILOAD_0 <= o <= ALOAD_3 then LocalAccess(ILOAD + (o - ILOAD_0) / 4, LocalSlot(ins))
    else if ISTORE_0 <= o <= ASTORE_3 then LocalAccess(ISTORE + (o - ISTORE_0) / 4, LocalSlot(ins))
    else if o == IINC then Increase(LocalSlot(ins), Increment(ins))
    else match KindOf(o)
      case NoOperand => NoOperands(o)
      case Branch2 => BranchTo(o, Target(ins))
      case Branch4 => BranchTo(if o == GOTO_W then GOTO else o, Target(ins))
      case ConstU2 => Pooled(o, Index(ins))
      case InterfaceK => Interface(Index(ins), Operands(ins)[2])
      case NewarrayK => NewPrimitive(Operands(ins)[0])
      case MultiK => NewMulti(Index(ins), Operands(ins)[2])
      case TableswitchK => SwitchTo(Switch(ins).0, Switch(ins).1)
      case LookupswitchK => SwitchTo(Switch(ins).0, Switch(ins).1)
      case _ => Other
  }

  /** What a call that branches nowhere asks for. */
  function Intent(c: Call): View
    requires Typed(c)
  {
    match c
    case Local(op, slot) => LocalAccess(op, slot)
    case Inc(slot, delta) => Increase(slot, delta)
    case Iconst(v, idx) => if IsInt16(v) then PushInt(v) else PushConst(idx, 1)
    case Ldc(idx, wide) => PushConst(idx, if wide then 2 else 1)
    case Op(op) => if ICONST_0 - 1 <= op <= ICONST_0 + 5 then PushInt(op - ICONST_0) else NoOperands(op)
    case Field(op, idx, _) => Pooled(op, idx)
    case Invoke(op, idx, args, _) => if op == INVOKEINTERFACE then Interface(idx, args) else Pooled(op, idx)
    case TypeRef(op, idx) => Pooled(op, idx)
    case NewArray(code) => NewPrimitive(code)
    case MultiNewArray(idx, dims, _) => NewMulti(idx, if dims < 0 then 0 else dims)
    case _ => Other
  }

  /** `e` stands in the code array at pc. */
  predicate Stands(code: seq<byte>, pc: nat, e: seq<byte>) {
    pc + |e| <= |code| && code[pc..pc + |e|] == e
  }

  lemma StandsAt(code: seq<byte>, pc: nat, e: seq<byte>, k: nat)
    requires Stands(code, pc, e) && k < |e|
    ensures code[pc + k] == e[k]
  {
    assert code[pc + k] == code[pc..pc + |e|][k];
  }

  /** Reading back a u2 operand at offset k of an encoding. */
  lemma OperandU2(e: seq<byte>, k: nat, v: int, tail: seq<byte>)
    requires k <= |e| && e[k..] == U2(v) + tail
    ensures k + 2 <= |e| && Be16(e, k) == v % 0x1_0000
    ensures IsInt16(v) ==> S16(Be16(e, k)) == v
  {
    assert e[k..][..2] == U2(v);
    assert e[k..k + 2] == U2(v);
    ReadU2(e, k, v);
  }

  /** An instruction whose length its opcode fixes decodes as itself. */
  lemma FixedDecodes(code: seq<byte>, pc: nat, e: seq<byte>)
    requires e != [] && Stands(code, pc, e) && e[0] != WIDE && !KindOf(e[0]).Unused? && LenOf(e[0]) == |e|
    ensures At(code, pc) == Some(Instr(e[0], pc, false, e))
  {
    StandsAt(code, pc, e, 0);
  }

  lemma WideDecodes(code: seq<byte>, pc: nat, e: seq<byte>)
    requires |e| >= 4 && Stands(code, pc, e) && e[0] == WIDE
    requires (e[1] == IINC && |e| == 6) || (IsLocalGeneral(e[1]) && |e| == 4)
    ensures At(code, pc) == Some(Instr(e[1], pc, true, e))
  {
    StandsAt(code, pc, e, 0);
    StandsAt(code, pc, e, 1);
  }

  lemma LocalRoundTrip(code: seq<byte>, pc: nat, op: byte, slot: int)
    requires IsLocalGeneral(op) && SlotFits(slot, LocalWidth(op)) && Stands(code, pc, LocalEnc(op, slot))
    ensures At(code, pc).Some? && At(code, pc).value.raw == LocalEnc(op, slot)
    ensures Meaning(At(code, pc).value) == LocalAccess(op, slot) && !Terminates(At(code, pc).value.op)
  {
    hide At, Meaning, LocalEnc, Stands;
    if slot < 4 {
      CompactLocalRoundTrip(code, pc, op, slot);
    } else if slot < 0x100 {
      ByteLocalRoundTrip(code, pc, op, slot);
    } else {
      WideLocalRoundTrip(code, pc, op, slot);
    }
  }

  lemma CompactLocalRoundTrip(code: seq<byte>, pc: nat, op: byte, slot: int)
    requires IsLocalGeneral(op) && 0 <= slot < 4 && Stands(code, pc, LocalEnc(op, slot))
    ensures At(code, pc).Some? && At(code, pc).value.raw == LocalEnc(op, slot)
    ensures Meaning(At(code, pc).value) == LocalAccess(op, slot) && !Terminates(At(code, pc).value.op)
  {
    hide At, Stands;
    CompactShape(op, slot);
    FixedDecodes(code, pc, LocalEnc(op, slot));
    CompactMeans(op, slot, pc);
  }

  lemma CompactShape(op: byte, slot: int)
    requires IsLocalGeneral(op) && 0 <= slot < 4
    ensures var e := LocalEnc(op, slot); |e| == 1 && e[0] == CompactBase(op) as int + slot && LenOf(e[0]) == 1 && !Terminates(e[0])
  {
  }

  lemma CompactMeans(op: byte, slot: int, pc: nat)
    requires IsLocalGeneral(op) && 0 <= slot < 4 && |LocalEnc(op, slot)| == 1
    ensures var i := Instr(LocalEnc(op, slot)[0], pc, false, LocalEnc(op, slot)); Complete(i) && Meaning(i) == LocalAccess(op, slot)
  {
    hide Meaning, LocalEnc, LocalSlot, Complete, IsLocalGeneral, CompactBase;
    CompactParts(op, slot);
    CompactMeaning(Instr(LocalEnc(op, slot)[0], pc, false, LocalEnc(op, slot)));
  }

  lemma CompactParts(op: byte, slot: int)
    requires IsLocalGeneral(op) && 0 <= slot < 4
    ensures var e := LocalEnc(op, slot);
            && |e| == 1 && (ILOAD_0 <= e[0] <= ALOAD_3 || ISTORE_0 <= e[0] <= ASTORE_3)
            && var from := if e[0] <= ALOAD_3 then ILOAD_0 else ISTORE_0;
               (if e[0] <= ALOAD_3 then ILOAD else ISTORE) + (e[0] - from) / 4 == op && (e[0] - from) % 4 == slot
  {
    var k := if IsLoad(op) then op - ILOAD else op - ISTORE;
    assert (4 * k + slot) / 4 == k && (4 * k + slot) % 4 == slot;
  }

  lemma CompactMeaning(i: Instr)
    requires !i.wide && |i.raw| == 1 && (ILOAD_0 <= i.op <= ALOAD_3 || ISTORE_0 <= i.op <= ASTORE_3)
    ensures Complete(i)
    ensures var from := if i.op <= ALOAD_3 then ILOAD_0 else ISTORE_0;
            Meaning(i) == LocalAccess((if i.op <= ALOAD_3 then ILOAD else ISTORE) + (i.op - from) / 4, (i.op - from) % 4)
  {
  }

  lemma ByteLocalRoundTrip(code: seq<byte>, pc: nat, op: byte, slot: int)
    requires IsLocalGeneral(op) && 4 <= slot < 0x100 && Stands(code, pc, LocalEnc(op, slot))
    ensures At(code, pc).Some? && At(code, pc).value.raw == LocalEnc(op, slot)
    ensures Meaning(At(code, pc).value) == LocalAccess(op, slot) && !Terminates(At(code, pc).value.op)
  {
    FixedDecodes(code, pc, LocalEnc(op, slot));
  }

  lemma WideLocalRoundTrip(code: seq<byte>, pc: nat, op: byte, slot: int)
    requires IsLocalGeneral(op) && SlotFits(slot, LocalWidth(op)) && slot >= 0x100 && Stands(code, pc, LocalEnc(op, slot))
    ensures At(code, pc).Some? && At(code, pc).value.raw == LocalEnc(op, slot)
    ensures Meaning(At(code, pc).value) == LocalAccess(op, slot) && !Terminates(At(code, pc).value.op)
  {
    var e := LocalEnc(op, slot);
    WideDecodes(code, pc, e);
    assert e[2..] == U2(slot) + [];
    OperandU2(e[2..], 0, slot, []);
  }

  lemma IncRoundTrip(code: seq<byte>, pc: nat, slot: int, delta: int)
    requires SlotFits(slot, 1) && IsInt16(delta) && Stands(code, pc, IncEnc(slot, delta))
    ensures At(code, pc).Some? && At(code, pc).value.raw == IncEnc(slot, delta)
    ensures Meaning(At(code, pc).value) == Increase(slot, delta)
    ensures !Terminates(At(code, pc).value.op)
  {
    hide U1, U2, Be16;
    var e := IncEnc(slot, delta);
    if slot < 0x100 && IsInt8(delta) {
      FixedDecodes(code, pc, e);
      ReadU1(delta);
      assert e[1..] == [slot] + U1(delta);
    } else {
      WideDecodes(code, pc, e);
      assert e[2..] == U2(slot) + U2(delta);
      OperandU2(e[2..], 0, slot, U2(delta));
      assert e[2..][2..] == U2(delta) + [];
      OperandU2(e[2..], 2, delta, []);
    }
  }

  lemma LdcRoundTrip(code: seq<byte>, pc: nat, idx: nat, wide: bool)
    requires idx < 0x1_0000 && Stands(code, pc, LdcEnc(idx, wide))
    ensures At(code, pc).Some? && At(code, pc).value.raw == LdcEnc(idx, wide)
    ensures Meaning(At(code, pc).value) == PushConst(idx, if wide then 2 else 1)
    ensures !Terminates(At(code, pc).value.op)
  {
    var e := LdcEnc(idx, wide);
    FixedDecodes(code, pc, e);
    if wide || idx >= 0x100 {
      assert e[1..] == U2(idx) + [];
      OperandU2(e[1..], 0, idx, []);
    }
  }

  lemma IconstRoundTrip(code: seq<byte>, pc: nat, v: int, idx: nat)
    requires idx < 0x1_0000 && IsInt32(v) && Stands(code, pc, IconstEnc(v, idx))
    ensures At(code, pc).Some? && At(code, pc).value.raw == IconstEnc(v, idx)
    ensures Meaning(At(code, pc).value) == if IsInt16(v) then PushInt(v) else PushConst(idx, 1)
    ensures !Terminates(At(code, pc).value.op)
  {
    var e := IconstEnc(v, idx);
    if !IsInt16(v) {
      LdcRoundTrip(code, pc, idx, false);
    } else {
      FixedDecodes(code, pc, e);
      ReadU1(v);
      if !(-1 <= v <= 5) && !IsInt8(v) {
        assert e[1..] == U2(v) + [];
        OperandU2(e[1..], 0, v, []);
      }
    }
  }

  lemma PooledRoundTrip(code: seq<byte>, pc: nat, op: byte, idx: nat)
    requires KindOf(op).ConstU2? && op != LDC_W && op != LDC2_W && idx < 0x1_0000 && Stands(code, pc, [op] + U2(idx))
    ensures At(code, pc).Some? && At(code, pc).value.raw == [op] + U2(idx)
    ensures Meaning(At(code, pc).value) == Pooled(op, idx) && !Terminates(At(code, pc).value.op)
  {
    var e := [op] + U2(idx);
    FixedDecodes(code, pc, e);
    assert e[1..] == U2(idx) + [];
    OperandU2(e[1..], 0, idx, []);
  }

  lemma InterfaceRoundTrip(code: seq<byte>, pc: nat, idx: nat, args: nat)
    requires idx < 0x1_0000 && args <= 255 && Stands(code, pc, InvokeEnc(INVOKEINTERFACE, idx, args))
    ensures At(code, pc).Some? && At(code, pc).value.raw == InvokeEnc(INVOKEINTERFACE, idx, args)
    ensures Meaning(At(code, pc).value) == Interface(idx, args)
    ensures !Terminates(At(code, pc).value.op)
  {
    var e := InvokeEnc(INVOKEINTERFACE, idx, args);
    FixedDecodes(code, pc, e);
    assert e[1..] == U2(idx) + [args, 0];
    OperandU2(e[1..], 0, idx, [args, 0]);
  }

  lemma MultiRoundTrip(code: seq<byte>, pc: nat, idx: nat, dims: int)
    requires idx < 0x1_0000 && 1 <= dims <= 255 && Stands(code, pc, [MULTIANEWARRAY] + U2(idx) + U1(dims))
    ensures At(code, pc).Some? && At(code, pc).value.raw == [MULTIANEWARRAY] + U2(idx) + U1(dims)
    ensures Meaning(At(code, pc).value) == NewMulti(idx, dims)
    ensures !Terminates(At(code, pc).value.op)
  {
    var e := [MULTIANEWARRAY] + U2(idx) + U1(dims);
    FixedDecodes(code, pc, e);
    assert e[1..] == U2(idx) + [dims];
    OperandU2(e[1..], 0, idx, [dims]);
  }

  lemma SimpleRoundTrip(code: seq<byte>, pc: nat, op: byte)
    requires KindOf(op).NoOperand? && SimpleDelta(op).Delta? && Stands(code, pc, [op])
    ensures At(code, pc).Some? && At(code, pc).value.raw == [op]
    ensures Meaning(At(code, pc).value) == Intent(Op(op)) && At(code, pc).value.op == op
  {
    FixedDecodes(code, pc, [op]);
    assert !(ILOAD_0 <= op <= ALOAD_3) && !(ISTORE_0 <= op <= ASTORE_3);
  }

  /** Every call without a label decodes, wherever it stands, to exactly the operation and operands asked for. */
  lemma PlainRoundTrip(code: seq<byte>, pc: nat, c: Call)
    requires Typed(c) && Lower(c).Plain? && Stands(code, pc, Lower(c).bytes)
    ensures At(code, pc).Some? && At(code, pc).value.raw == Lower(c).bytes
    ensures Meaning(At(code, pc).value) == Intent(c)
    ensures Terminates(At(code, pc).value.op) == Lower(c).ends
  {
    hide At, Meaning, Stands, LocalEnc, IncEnc, LdcEnc, IconstEnc;
    match c
    case Local(op, slot) => LocalRoundTrip(code, pc, op, slot);
    case Inc(slot, delta) => IncRoundTrip(code, pc, slot, delta);
    case Iconst(v, idx) => IconstRoundTrip(code, pc, v, idx);
    case Ldc(idx, wide) => LdcRoundTrip(code, pc, idx, wide);
    case Op(op) => SimpleRoundTrip(code, pc, op);
    case Field(op, idx, _) => PooledRoundTrip(code, pc, op, idx);
    case Invoke(op, idx, args, _) =>
      if op == INVOKEINTERFACE { InterfaceRoundTrip(code, pc, idx, args); } else { PooledRoundTrip(code, pc, op, idx); }
    case TypeRef(op, idx) => PooledRoundTrip(code, pc, op, idx);
    case NewArray(kind) => NewArrayRoundTrip(code, pc, kind);
    case MultiNewArray(idx, dims, _) => MultiRoundTrip(code, pc, idx, dims);
    case _ =>
  }

  lemma NewArrayRoundTrip(code: seq<byte>, pc: nat, kind: byte)
    requires Stands(code, pc, [NEWARRAY, kind])
    ensures At(code, pc).Some? && At(code, pc).value.raw == [NEWARRAY, kind]
    ensures Meaning(At(code, pc).value) == NewPrimitive(kind)
    ensures !Terminates(At(code, pc).value.op)
  {
    FixedDecodes(code, pc, [NEWARRAY, kind]);
  }

  // ---- branches -----------------------------------------------------------

  lemma ShortRoundTrip(code: seq<byte>, pc: nat, op: byte, off: int)
    requires IsBranch(op) && IsInt16(off) && Stands(code, pc, [op] + U2(off))
    ensures At(code, pc).Some? && At(code, pc).value.raw == [op] + U2(off)
    ensures Meaning(At(code, pc).value) == BranchTo(op, pc + off)
  {
    var e := [op] + U2(off);
    FixedDecodes(code, pc, e);
    assert e[1..] == U2(off) + [];
    OperandU2(e[1..], 0, off, []);
  }

  lemma LongRoundTrip(code: seq<byte>, pc: nat, off: int)
    requires IsInt32(off) && Stands(code, pc, [GOTO_W] + U4(off))
    ensures At(code, pc).Some? && At(code, pc).value.raw == [GOTO_W] + U4(off)
    ensures Meaning(At(code, pc).value) == BranchTo(GOTO, pc + off)
  {
    var e := [GOTO_W] + U4(off);
    FixedDecodes(code, pc, e);
    assert e[1..][0..4] == U4(off);
    ReadU4(e[1..], 0, off);
  }

  // ---- switches -----------------------------------------------------------

  /** The word at offset k of a slice. */
  lemma WordIn(b: seq<byte>, k: nat, v: int)
    requires k + 4 <= |b| && b[k..k + 4] == U4(v) && IsInt32(v)
    ensures Be32(b, k) == v
  {
    ReadU4(b, k, v);
  }

  lemma TableWords(e: seq<byte>, at: nat, keys: seq<int>, offs: seq<int>)
    requires keys != [] && |offs| == |keys| + 1 && e == TableEnc(at, keys, offs)
    requires forall k :: 0 <= k < |offs| ==> IsInt32(offs[k])
    requires IsInt32(keys[0]) && IsInt32(keys[|keys| - 1])
    ensures var b := e[1 + Pad(at)..];
            && |b| == 12 + 4 * |keys| && Be32(b, 0) == offs[0] && Be32(b, 4) == keys[0] && Be32(b, 8) == keys[|keys| - 1]
            && forall i :: 0 <= i < |keys| ==> Be32(b, 12 + 4 * i) == offs[i + 1]
  {
    var b := e[1 + Pad(at)..];
    var ws := offs[1..];
    TableTail(e, at, keys, offs);
    forall i | 0 <= i < |keys| ensures Be32(b, 12 + 4 * i) == offs[i + 1] {
      hide U4, Be32, Words;
      WordAt(ws, i);
      assert b[12..] == Words(ws);
      assert b[12 + 4 * i..12 + 4 * i + 4] == b[12..][4 * i..4 * i + 4];
      WordIn(b, 12 + 4 * i, ws[i]);
    }
    WordIn(b, 0, offs[0]);
    WordIn(b, 4, keys[0]);
    WordIn(b, 8, keys[|keys| - 1]);
  }

  lemma TableTail(e: seq<byte>, at: nat, keys: seq<int>, offs: seq<int>)
    requires keys != [] && |offs| == |keys| + 1 && e == TableEnc(at, keys, offs)
    ensures var b := e[1 + Pad(at)..];
            && |b| == 12 + 4 * |keys| && b[0..4] == U4(offs[0]) && b[4..8] == U4(keys[0])
            && b[8..12] == U4(keys[|keys| - 1]) && b[12..] == Words(offs[1..])
  {
    hide U4, Words, Zeros, Pad;
    var b := e[1 + Pad(at)..];
    assert e == ([TABLESWITCH] + Zeros(Pad(at))) + (U4(offs[0]) + U4(keys[0]) + U4(keys[|keys| - 1]) + Words(offs[1..]));
    assert b == U4(offs[0]) + U4(keys[0]) + U4(keys[|keys| - 1]) + Words(offs[1..]);
  }

  lemma LookupTail(e: seq<byte>, at: nat, keys: seq<int>, offs: seq<int>)
    requires |offs| == |keys| + 1 && e == LookupEnc(at, keys, offs)
    ensures var b := e[1 + Pad(at)..];
            |b| == 8 + 8 * |keys| && b[0..4] == U4(offs[0]) && b[4..8] == U4(|keys|) && b[8..] == Rows(keys, offs[1..])
  {
    hide U4, Rows, Zeros, Pad;
    var b := e[1 + Pad(at)..];
    assert e == ([LOOKUPSWITCH] + Zeros(Pad(at))) + (U4(offs[0]) + U4(|keys|) + Rows(keys, offs[1..]));
    assert b == U4(offs[0]) + U4(|keys|) + Rows(keys, offs[1..]);
  }

  lemma LookupRow(b: seq<byte>, keys: seq<int>, ws: seq<int>, i: nat)
    requires |keys| == |ws| && |b| >= 8 && b[8..] == Rows(keys, ws) && i < |keys| && IsInt32(keys[i]) && IsInt32(ws[i])
    ensures Be32(b, 8 + 8 * i) == keys[i] && Be32(b, 12 + 8 * i) == ws[i]
  {
    hide U4, Be32, Rows;
    RowAt(keys, ws, i);
    assert b[8 + 8 * i..8 + 8 * i + 4] == b[8..][8 * i..8 * i + 4];
    assert b[12 + 8 * i..12 + 8 * i + 4] == b[8..][8 * i + 4..8 * i + 8];
    WordIn(b, 8 + 8 * i, keys[i]);
    WordIn(b, 12 + 8 * i, ws[i]);
  }

  lemma LookupWords(e: seq<byte>, at: nat, keys: seq<int>, offs: seq<int>)
    requires |offs| == |keys| + 1 && e == LookupEnc(at, keys, offs) && |keys| < 0x8000_0000
    requires forall k :: 0 <= k < |offs| ==> IsInt32(offs[k])
    requires forall k :: 0 <= k < |keys| ==> IsInt32(keys[k])
    ensures var b := e[1 + Pad(at)..];
            && |b| == 8 + 8 * |keys| && Be32(b, 0) == offs[0] && Be32(b, 4) == |keys|
            && forall i :: 0 <= i < |keys| ==> Be32(b, 8 + 8 * i) == keys[i] && Be32(b, 12 + 8 * i) == offs[i + 1]
  {
    LookupHead(at, keys, offs);
    hide U4, Be32, Rows, Pad, LookupEnc;
    var b := e[1 + Pad(at)..];
    var ws := offs[1..];
    LookupTail(e, at, keys, offs);
    forall i | 0 <= i < |keys| ensures Be32(b, 8 + 8 * i) == keys[i] && Be32(b, 12 + 8 * i) == offs[i + 1] {
      LookupRow(b, keys, ws, i);
    }
    WordIn(b, 0, offs[0]);
    WordIn(b, 4, |keys|);
  }

  /** Key i paired with the position its offset leads to. */
  function CasesOf(pc: nat, keys: seq<int>, offs: seq<int>): seq<Case>
    requires |offs| == |keys| + 1
  {
    seq(|keys|, i requires 0 <= i < |keys| => (keys[i], pc + offs[i + 1]))
  }

  /** Reading a word through the whole array or through the instruction's slice is the same. */
  lemma SameWord(code: seq<byte>, pc: nat, e: seq<byte>, k: nat)
    requires Stands(code, pc, e) && k + 4 <= |e|
    ensures Be32(code, pc + k) == Be32(e, k)
  {
    StandsAt(code, pc, e, k);
    StandsAt(code, pc, e, k + 1);
    StandsAt(code, pc, e, k + 2);
    StandsAt(code, pc, e, k + 3);
  }

  lemma TableRoundTrip(code: seq<byte>, pc: nat, keys: seq<int>, offs: seq<int>)
    requires keys != [] && |offs| == |keys| + 1 && IsInt32(keys[0]) && IsInt32(keys[|keys| - 1])
    requires forall k :: 0 <= k < |offs| ==> IsInt32(offs[k])
    requires forall k :: 0 <= k < |keys| ==> keys[k] == keys[0] + k
    requires Stands(code, pc, TableEnc(pc, keys, offs))
    ensures At(code, pc).Some? && At(code, pc).value.raw == TableEnc(pc, keys, offs)
    ensures Meaning(At(code, pc).value) == SwitchTo(pc + offs[0], CasesOf(pc, keys, offs))
  {
    hide Meaning, At, CasesOf, TableEnc, InstrLen, U4, Be32, Words, Pad;
    var e := TableEnc(pc, keys, offs);
    TableHead(pc, keys, offs);
    TableMeasured(code, pc, keys, offs);
    SwitchDecodes(code, pc, e, TABLESWITCH);
    TableWords(e, pc, keys, offs);
    TableMeaning(Instr(TABLESWITCH, pc, false, e), keys, offs);
  }

  lemma TableMeasured(code: seq<byte>, pc: nat, keys: seq<int>, offs: seq<int>)
    requires keys != [] && |offs| == |keys| + 1 && IsInt32(keys[0]) && IsInt32(keys[|keys| - 1])
    requires forall k :: 0 <= k < |offs| ==> IsInt32(offs[k])
    requires keys[|keys| - 1] == keys[0] + (|keys| - 1)
    requires Stands(code, pc, TableEnc(pc, keys, offs))
    ensures InstrLen(code, pc, TABLESWITCH, false) == Some(|TableEnc(pc, keys, offs)|)
  {
    var e, base := TableEnc(pc, keys, offs), 1 + Pad(pc);
    hide Meaning, At, CasesOf, U4, Be32, TableEnc, InstrLen, Words, Pad;
    TableHead(pc, keys, offs);
    TableWords(e, pc, keys, offs);
    assert pc + (base + 4) == pc + base + 4 && pc + (base + 8) == pc + base + 8;
    SameWord(code, pc, e, base + 4);
    SameWord(code, pc, e, base + 8);
    SliceWord(e, base, 4);
    SliceWord(e, base, 8);
    TableLen(code, pc, keys[0], |keys|);
  }

  lemma TableLen(code: seq<byte>, pc: nat, low: int, n: nat)
    requires 1 <= n && pc + 1 + Pad(pc) + 12 + 4 * n <= |code|
    requires Be32(code, pc + 1 + Pad(pc) + 4) == low && Be32(code, pc + 1 + Pad(pc) + 8) == low + (n - 1)
    ensures InstrLen(code, pc, TABLESWITCH, false) == Some(1 + Pad(pc) + 12 + 4 * n)
  {
    hide Be32, Pad;
  }

  lemma LookupLen(code: seq<byte>, pc: nat, n: nat)
    requires pc + 1 + Pad(pc) + 8 + 8 * n <= |code| && Be32(code, pc + 1 + Pad(pc) + 4) == n
    ensures InstrLen(code, pc, LOOKUPSWITCH, false) == Some(1 + Pad(pc) + 8 + 8 * n)
  {
    hide Be32, Pad;
  }

  lemma TableHead(pc: nat, keys: seq<int>, offs: seq<int>)
    requires keys != [] && |offs| == |keys| + 1
    ensures |TableEnc(pc, keys, offs)| >= 1 && TableEnc(pc, keys, offs)[0] == TABLESWITCH
    ensures |TableEnc(pc, keys, offs)| == 1 + Pad(pc) + 12 + 4 * |keys|
  {
  }

  lemma LookupHead(pc: nat, keys: seq<int>, offs: seq<int>)
    requires |offs| == |keys| + 1
    ensures |LookupEnc(pc, keys, offs)| >= 1 && LookupEnc(pc, keys, offs)[0] == LOOKUPSWITCH
    ensures |LookupEnc(pc, keys, offs)| == 1 + Pad(pc) + 8 + 8 * |keys|
  {
  }

  lemma LookupRoundTrip(code: seq<byte>, pc: nat, keys: seq<int>, offs: seq<int>)
    requires |offs| == |keys| + 1 && |keys| < 0x8000_0000
    requires forall k :: 0 <= k < |offs| ==> IsInt32(offs[k])
    requires forall k :: 0 <= k < |keys| ==> IsInt32(keys[k])
    requires Stands(code, pc, LookupEnc(pc, keys, offs))
    ensures At(code, pc).Some? && At(code, pc).value.raw == LookupEnc(pc, keys, offs)
    ensures Meaning(At(code, pc).value) == SwitchTo(pc + offs[0], CasesOf(pc, keys, offs))
  {
    var e, base := LookupEnc(pc, keys, offs), 1 + Pad(pc);
    hide Meaning, At, CasesOf, U4, Be32, LookupEnc, InstrLen, Rows, Pad;
    LookupHead(pc, keys, offs);
    LookupWords(e, pc, keys, offs);
    SameWord(code, pc, e, base + 4);
    SliceWord(e, base, 4);
    LookupLen(code, pc, |keys|);
    SwitchDecodes(code, pc, e, LOOKUPSWITCH);
    LookupMeaning(Instr(LOOKUPSWITCH, pc, false, e), keys, offs);
  }

  /** A switch decodes at every alignment to its default and its cases in encoding order. */
  lemma SwitchRoundTrip(code: seq<byte>, pc: nat, c: Cmd, offs: seq<int>)
    requires c.Switch? && WellFormed(c) && KeysFit(c) && |offs| == |c.targets|
    requires forall k :: 0 <= k < |offs| ==> IsInt32(offs[k])
    requires Stands(code, pc, Enc(c, pc, false, offs))
    ensures At(code, pc).Some? && At(code, pc).value.raw == Enc(c, pc, false, offs)
    ensures Meaning(At(code, pc).value) == SwitchTo(pc + offs[0], CasesOf(pc, c.keys, offs))
  {
    hide Meaning, At, CasesOf, TableEnc, LookupEnc, Stands;
    if c.table { TableRoundTrip(code, pc, c.keys, offs); } else { LookupRoundTrip(code, pc, c.keys, offs); }
  }

  lemma SliceWord(e: seq<byte>, base: nat, k: nat)
    requires base + k + 4 <= |e|
    ensures Be32(e[base..], k) == Be32(e, base + k)
  {
  }

  lemma SwitchDecodes(code: seq<byte>, pc: nat, e: seq<byte>, op: byte)
    requires e != [] && e[0] == op && (op == TABLESWITCH || op == LOOKUPSWITCH) && Stands(code, pc, e)
    requires pc < |code| && InstrLen(code, pc, op, false) == Some(|e|)
    ensures At(code, pc) == Some(Instr(op, pc, false, e))
  {
    hide InstrLen, Be32, Pad;
    StandsAt(code, pc, e, 0);
  }

  lemma TableMeaning(ins: Instr, keys: seq<int>, offs: seq<int>)
    requires ins.op == TABLESWITCH && Complete(ins) && keys != [] && |offs| == |keys| + 1
    requires forall k :: 0 <= k < |keys| ==> keys[k] == keys[0] + k
    requires var b := ins.raw[1 + Pad(ins.pc)..];
             && |b| == 12 + 4 * |keys| && Be32(b, 0) == offs[0] && Be32(b, 4) == keys[0] && Be32(b, 8) == keys[|keys| - 1]
             && forall i :: 0 <= i < |keys| ==> Be32(b, 12 + 4 * i) == offs[i + 1]
    ensures Meaning(ins) == SwitchTo(ins.pc + offs[0], CasesOf(ins.pc, keys, offs))
  {
    hide Be32, Pad;
    assert Switch(ins).1 == CasesOf(ins.pc, keys, offs);
  }

  lemma LookupMeaning(ins: Instr, keys: seq<int>, offs: seq<int>)
    requires ins.op == LOOKUPSWITCH && Complete(ins) && |offs| == |keys| + 1
    requires var b := ins.raw[1 + Pad(ins.pc)..];
             && |b| == 8 + 8 * |keys| && Be32(b, 0) == offs[0] && Be32(b, 4) == |keys|
             && forall i :: 0 <= i < |keys| ==> Be32(b, 8 + 8 * i) == keys[i] && Be32(b, 12 + 8 * i) == offs[i + 1]
    ensures Meaning(ins) == SwitchTo(ins.pc + offs[0], CasesOf(ins.pc, keys, offs))
  {
    hide Be32, Pad;
    assert Switch(ins).1 == CasesOf(ins.pc, keys, offs);
  }
}
