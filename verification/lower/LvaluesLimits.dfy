/** Where assignment goes wrong: a concrete machine on which it does, and exactly when it cannot. */
module LvaluesLimits {
  import opened Lvalues
  import opened LvaluesProof

  // ---- a machine ----------------------------------------------------------

  function Pow2(n: nat): (r: int)
    ensures r >= 1
  {
    if n == 0 then 1 else 2 * Pow2(n - 1)
  }

  function Low64(v: int): int { (v + 0x8000_0000_0000_0000) % 0x1_0000_0000_0000_0000 - 0x8000_0000_0000_0000 }

  function Wrapped(k: Kind, x: int): Value { if k == KLong then VL(Low64(x)) else VI(Low(32, x)) }

  /** The shifts of section 15.19 of the Java Language Specification, the distance already masked. */
  function Shifted(op: Op, k: Kind, a: Value, n: nat): Value {
    if !(k == KInt || k == KLong) || !InRange(k, a) then Zero(k)
    else match op
      case Shl => Wrapped(k, a.v * Pow2(n))
      case Shr => Wrapped(k, a.v / Pow2(n))
      case _ => Wrapped(k, (a.v % if k == KLong then 0x1_0000_0000_0000_0000 else 0x1_0000_0000) / Pow2(n))
  }

  /** Every subexpression gives one, the object 1 or a floating code, but the reference `bad`, which throws; every array has two elements. */
  function Sample(k: Kind): Value {
    match k
    case KLong => VL(1)
    case KFloat => VF(0)
    case KDouble => VD(0)
    case KRef => VR(1)
    case _ => VI(1)
  }

  function Sum(op: Op, k: Kind, a: Value, b: Value): Value {
    if op == Add && k == KInt && a.VI? && b.VI? then VI(Low(32, a.v + b.v)) else Zero(k)
  }

  function Concrete(bad: Option<nat>): Env<()> {
    Env((id, k, w) => if Some(id) == bad && k == KRef then Threw(w) else Got(Sample(k), w),
        (op, k, a, b) => Some(Sum(op, k, a, b)),
        (op, k, a, n: nat) => Shifted(op, k, a, n),
        (op, v) => Zero(Result(op)),
        _ => 2)
  }

  lemma Runs(bad: Option<nat>, id: nat, k: Kind, w: World<()>)
    ensures Concrete(bad).run(id, k, w) == if Some(id) == bad && k == KRef then Threw(w) else Got(Sample(k), w)
  {
    hide Shifted, Sum;
  }

  lemma ShiftedInRange(op: Op, k: Kind, a: Value, n: nat)
    ensures InRange(k, Shifted(op, k, a, n))
  {
    hide Pow2;
  }

  lemma ConcreteBehaved(bad: Option<nat>)
    ensures Behaved(Concrete(bad))
  {
    hide Shifted, Sum, Low;
    var env := Concrete(bad);
    forall op, k, a, n: nat ensures InRange(k, env.shift(op, k, a, n)) { ShiftedInRange(op, k, a, n); }
    forall op, k, a, b ensures InRange(k, Sum(op, k, a, b)) { SumInRange(op, k, a, b); }
    forall a, b ensures Sum(Add, KInt, VI(a), VI(b)) == VI(Low(32, a + b)) { SumAdds(a, b); }
    assert forall id, k, w :: env.run(id, k, w).Got? ==> env.run(id, k, w).v == Sample(k);
    assert forall op, k, a, b :: env.arith(op, k, a, b) == Some(Sum(op, k, a, b));
  }

  lemma SumInRange(op: Op, k: Kind, a: Value, b: Value)
    ensures InRange(k, Sum(op, k, a, b))
  {
  }

  lemma SumAdds(a: int, b: int)
    ensures Sum(Add, KInt, VI(a), VI(b)) == VI(Low(32, a + b))
  {
  }

  // ---- shifts -------------------------------------------------------------

  /** byte b = 64; with the value of b <<= 1 wanted, 128 is left and stored where the language says -128. */
  lemma ShiftOverflows()
    ensures var env, it := Concrete(None), Local(0, KByte);
            var w := World(map[LocalCell(0) := VI(64)], ());
            && Behaved(env)
            && Exec(env, EmitCompound(it, Shl, 0, KInt, true), Ok([], w)) == Ok([Single(VI(128))], w.(mem := map[LocalCell(0) := VI(128)]))
            && Updated(env, it, Shl, 0, KInt, w) == Finished(VI(-128), w.(mem := map[LocalCell(0) := VI(-128)]))
  {
    hide Exec, EmitCompound, Shifted, Behaved, Sum, Combined, Read, Raw, Convert, Updated;
    var env, it := Concrete(None), Local(0, KByte);
    var c, w := LocalCell(0), World(map[LocalCell(0) := VI(64)], ());
    ConcreteBehaved(None);
    CompoundRuns(env, it, Shl, 0, KInt, true, [], w);
    assert Read(w, c, KByte) == VI(64) by { Holds64(w); }
    Doubled(w);
    Narrowed(w);
    assert Write(w, c, VI(128)).mem == map[c := VI(128)];
  }

  lemma Holds64(w: World<()>)
    requires w.mem == map[LocalCell(0) := VI(64)]
    ensures Read(w, LocalCell(0), KByte) == VI(64)
  {
  }

  lemma RawIs128()
    requires Behaved(Concrete(None))
    ensures Raw(Concrete(None), Shl, KByte, KInt, VI(64), VI(1)) == Some(VI(128))
  {
    hide Behaved, Shifted;
    SixtyFour();
    assert Low(32, 1) == 1 && Low(32, 64) == 64;
  }

  lemma Doubled(w: World<()>)
    requires Behaved(Concrete(None))
    ensures Combined(Concrete(None), Shl, KByte, 0, KInt, VI(64), w) == Got(VI(128), w)
  {
    hide Behaved, Raw, Shifted, Sum;
    Runs(None, 0, KInt, w);
    RawIs128();
  }

  lemma Narrowed(w: World<()>)
    requires Behaved(Concrete(None)) && w.mem == map[LocalCell(0) := VI(64)]
    ensures Updated(Concrete(None), Local(0, KByte), Shl, 0, KInt, w) == Finished(VI(-128), w.(mem := map[LocalCell(0) := VI(-128)]))
  {
    hide Behaved, Raw, Shifted, Sum, Read;
    Runs(None, 0, KInt, w);
    RawIs128();
    Holds64(w);
    assert Low(8, 128) == -128;
    assert Write(w, LocalCell(0), VI(-128)).mem == map[LocalCell(0) := VI(-128)];
  }

  lemma SixtyFour()
    ensures Shifted(Shl, KInt, VI(64), 1) == VI(128)
  {
    assert Pow2(1) == 2 * Pow2(0) == 2;
  }

  /** The machine shifts as the language says. */
  ghost predicate Shifts(env: Env<()>) {
    forall op, k, a, n: nat :: env.shift(op, k, a, n) == Shifted(op, k, a, n)
  }

  /** A shift of the promoted value that always fits the variable. */
  predicate Fitting(op: Op, k: Kind) { k == KInt || k == KLong || op == Shr || (op == Ushr && k == KChar) }

  lemma Times(q: int, d: int)
    requires d >= 1
    ensures q >= 0 ==> q * d >= q
    ensures q <= 0 ==> q * d <= q
  {
    assert q * d == q + q * (d - 1);
    if q >= 0 { assert q * (d - 1) >= 0; } else { assert -q * (d - 1) >= 0; }
  }

  /** Dividing by a positive number stays on the same side of zero and no further from it. */
  lemma Nearer(x: int, d: int)
    requires d >= 1
    ensures if x >= 0 then 0 <= x / d <= x else x <= x / d < 0
  {
    var q := x / d;
    assert q * d <= x < (q + 1) * d;
    Times(q, d);
    Times(q + 1, d);
  }

  /** An int shifted right; an int that is not negative is its own low 32 bits. */
  lemma RightShifts(op: Op, x: int, n: nat)
    requires InRange(KInt, VI(x)) && (op == Shr || (op == Ushr && x >= 0))
    ensures Shifted(op, KInt, VI(x), n) == VI(x / Pow2(n))
  {
    hide Pow2;
    Nearer(x, Pow2(n));
    assert x >= 0 ==> x % 0x1_0000_0000 == x;
    var q := x / Pow2(n);
    assert Low(32, q) == q by { LowFits(q); }
  }

  lemma ShiftFits(op: Op, k: Kind, x: Value, n: nat)
    requires IsShift(op) && Integral(k) && Fitting(op, k) && InRange(k, x)
    ensures InRange(k, Shifted(op, Promoted(k), x, n))
  {
    hide Pow2, Shifted;
    if k == KInt || k == KLong {
      ShiftedInRange(op, k, x, n);
    } else {
      RightShifts(op, x.v, n);
      Nearer(x.v, Pow2(n));
    }
  }

  /** A value that the shift by one takes out of the variable's range. */
  function Edge(op: Op, k: Kind): (x: int)
    requires IsShift(op) && Integral(k) && !Fitting(op, k)
    ensures InRange(k, VI(x))
  {
    if op != Shl then -1 else if k == KByte then 0x40 else if k == KShort then 0x4000 else 0x8000
  }

  lemma EdgeOverflows(op: Op, k: Kind)
    requires IsShift(op) && Integral(k) && !Fitting(op, k)
    ensures !InRange(k, Shifted(op, KInt, VI(Edge(op, k)), 1))
  {
    assert Pow2(1) == 2 * Pow2(0) == 2;
    var x := Edge(op, k);
    if op == Shl {
      assert Shifted(op, KInt, VI(x), 1) == VI(2 * x) by { LowFits(2 * x); }
    } else {
      assert Shifted(op, KInt, VI(-1), 1) == VI(0x7FFF_FFFF) by { AllOnes(); }
    }
  }

  lemma AllOnes()
    ensures Shifted(Ushr, KInt, VI(-1), 1) == VI(0x7FFF_FFFF)
  {
    assert Pow2(1) == 2 * Pow2(0) == 2;
    assert (-1) % 0x1_0000_0000 == 0xFFFF_FFFF;
    assert Low(32, 0x7FFF_FFFF) == 0x7FFF_FFFF;
  }

  /** Where the machine's subexpressions put a location. */
  function Spot(it: Item): Cell {
    match it
    case Local(slot, _) => LocalCell(slot)
    case Static(_, id, _) => StaticCell(id)
    case Field(_, id, _) => FieldCell(1, id)
    case Element(_, _, _, _) => ElementCell(1, 1)
  }

  lemma SpotLocated(it: Item, w: World<()>)
    requires WellTyped(it) && Direct(it)
    ensures Locate(Concrete(None), it, w) == At(Spot(it), w) && Accessible(Concrete(None), Spot(it))
  {
    hide Shifted, Sum;
    if it.Field? { Runs(None, it.recv, KRef, w); }
    if it.Element? {
      Runs(None, it.arr, KRef, w);
      Runs(None, it.idx, it.idxKind, w);
    }
  }

  /** The shift the machine makes of a value already in memory. */
  lemma RawShift(env: Env<()>, op: Op, k: Kind, rk: Kind, was: Value, v: Value)
    requires Behaved(env) && Shifts(env) && IsShift(op) && Integral(k) && Integral(rk) && InRange(k, was) && InRange(rk, v)
    ensures Raw(env, op, k, rk, was, v) == Some(Shifted(op, Promoted(k), was, Distance(k, v)))
  {
    hide Behaved, Shifted;
    assert Convert(env, k, Promoted(k), was) == was by { hide Low; LowFits(was.v); }
  }

  lemma ShiftRight(env: Env<()>, it: Item, op: Op, rhs: nat, rk: Kind, value: bool, w: World<()>)
    requires Behaved(env) && Shifts(env) && WellTyped(it) && Direct(it) && IsShift(op) && Integral(it.kind) && Integral(rk)
    requires Fitting(op, it.kind) || (!value && it.Element?)
    ensures Agrees(Exec(env, EmitCompound(it, op, rhs, rk, value), Ok([], w)), Updated(env, it, op, rhs, rk, w), value, [])
  {
    hide Exec, EmitCompound, Behaved, Shifts, Raw, Read, Shifted, Accessible, Locate, Convert, Agrees, Distance, Updated, Fitting;
    var p := Locate(env, it, w);
    if p.At? && Accessible(env, p.cell) && env.run(rhs, rk, p.w).Got? {
      ShiftExactly(env, it, op, rhs, rk, value, [], w);
      var was, v := Read(p.w, p.cell, it.kind), env.run(rhs, rk, p.w).v;
      RawShift(env, op, it.kind, rk, was, v);
      if Fitting(op, it.kind) { ShiftFits(op, it.kind, was, Distance(it.kind, v)); }
    } else {
      AbortsAlike(env, it, op, rhs, rk, value, w);
    }
  }

  /** Where an operand or the access throws, the code throws with it. */
  lemma AbortsAlike(env: Env<()>, it: Item, op: Op, rhs: nat, rk: Kind, value: bool, w: World<()>)
    requires Behaved(env) && WellTyped(it) && Direct(it) && Numeric(it.kind) && Numeric(rk) && (IsShift(op) ==> Integral(it.kind) && Integral(rk))
    requires var p := Locate(env, it, w); !(p.At? && Accessible(env, p.cell) && env.run(rhs, rk, p.w).Got?)
    ensures Agrees(Exec(env, EmitCompound(it, op, rhs, rk, value), Ok([], w)), Updated(env, it, op, rhs, rk, w), value, [])
  {
    hide Exec, EmitCompound, Behaved, Raw, Read, Accessible, Locate, Convert, Agrees;
    var p := Locate(env, it, w);
    CompoundRuns(env, it, op, rhs, rk, value, [], w);
    AbruptAgrees(if p.At? && Accessible(env, p.cell) then env.run(rhs, rk, p.w).w else p.w, value, []);
  }

  lemma ShiftWrong(it: Item, op: Op, rhs: nat, rk: Kind, value: bool)
    requires WellTyped(it) && Direct(it) && IsShift(op) && Integral(it.kind) && Integral(rk) && Behaved(Concrete(None))
    requires !Fitting(op, it.kind) && (value || !it.Element?)
    ensures var env, w := Concrete(None), World(map[Spot(it) := VI(Edge(op, it.kind))], ());
            !Agrees(Exec(env, EmitCompound(it, op, rhs, rk, value), Ok([], w)), Updated(env, it, op, rhs, rk, w), value, [])
  {
    hide Exec, EmitCompound, Behaved, Raw, Shifted, Accessible, Locate, Convert, Agrees, Edge, Sum, Updated;
    var env, w := Concrete(None), World(map[Spot(it) := VI(Edge(op, it.kind))], ());
    SpotLocated(it, w);
    ShiftExactly(env, it, op, rhs, rk, value, [], w);
    RawShift(env, op, it.kind, rk, VI(Edge(op, it.kind)), Sample(rk));
    EdgeOverflows(op, it.kind);
  }

  /**
   * A compound shift is right in every environment that shifts as the language does, and in every memory, if and only if
   * what it computes always fits: an int or a long, >>=, a char by >>>=, or an array store whose value is not wanted.
   */
  lemma ShiftsExactly(it: Item, op: Op, rhs: nat, rk: Kind, value: bool)
    requires WellTyped(it) && Direct(it) && IsShift(op) && Integral(it.kind) && Integral(rk)
    ensures (forall env: Env<()>, w: World<()> :: Behaved(env) && Shifts(env) ==>
               Agrees(Exec(env, EmitCompound(it, op, rhs, rk, value), Ok([], w)), Updated(env, it, op, rhs, rk, w), value, []))
            <==> Fitting(op, it.kind) || (!value && it.Element?)
  {
    hide Exec, EmitCompound, Updated, Agrees, Behaved, Shifts;
    if Fitting(op, it.kind) || (!value && it.Element?) {
      forall env: Env<()>, w: World<()> | Behaved(env) && Shifts(env)
        ensures Agrees(Exec(env, EmitCompound(it, op, rhs, rk, value), Ok([], w)), Updated(env, it, op, rhs, rk, w), value, [])
      {
        ShiftRight(env, it, op, rhs, rk, value, w);
      }
    } else {
      ConcreteBehaved(None);
      ConcreteShifts(None);
      ShiftWrong(it, op, rhs, rk, value);
    }
  }

  lemma ConcreteShifts(bad: Option<nat>)
    ensures Shifts(Concrete(bad))
  {
    hide Shifted, Sum;
  }

  // ---- what a static field is selected from -------------------------------

  /** The location as the code sees it. */
  function Unqualified(it: Item): Item { if it.Static? then Static(None, it.id, it.kind) else it }

  /** The code for a location never shows its qualifier. */
  lemma SameCode(it: Item, op: Op, rhs: nat, rk: Kind, delta: int, value: bool, postfix: bool)
    ensures EmitAssign(it, rhs, rk, value) == EmitAssign(Unqualified(it), rhs, rk, value)
    ensures EmitCompound(it, op, rhs, rk, value) == EmitCompound(Unqualified(it), op, rhs, rk, value)
    ensures EmitStep(it, delta, value, postfix) == EmitStep(Unqualified(it), delta, value, postfix)
  {
    hide EvalAs, Operate, Increment, Address, DupAddress, Load, Store, StashIf;
    SamePieces(it, value);
    SamePieces(it, value && postfix);
    SamePieces(it, value && !postfix);
    assert Unqualified(it).kind == it.kind;
  }

  lemma SamePieces(it: Item, value: bool)
    ensures var u := Unqualified(it);
            Address(it) == Address(u) && DupAddress(it) == DupAddress(u) && Load(it) == Load(u) && Lvalues.Store(it) == Lvalues.Store(u)
            && StashIf(it, value) == StashIf(u, value)
  {
  }

  /**
   * f().s = e is compiled correctly in every environment if and only if there is no f(): the code does not evaluate it,
   * as section 15.26.1 of the Java Language Specification requires.
   */
  lemma QualifierExactly(it: Item, rhs: nat, rk: Kind, value: bool)
    requires it.Static? && Convertible(rk, it.kind) && (rk == KRef ==> it.qualifier != Some(rhs))
    ensures (forall env: Env<()>, w: World<()> :: Behaved(env) ==>
               Agrees(Exec(env, EmitAssign(it, rhs, rk, value), Ok([], w)), Assigned(env, it, rhs, rk, w), value, []))
            <==> it.qualifier.None?
  {
    hide Exec, EmitAssign, Assigned, Agrees, Behaved;
    if it.qualifier.None? {
      forall env: Env<()>, w: World<()> | Behaved(env)
        ensures Agrees(Exec(env, EmitAssign(it, rhs, rk, value), Ok([], w)), Assigned(env, it, rhs, rk, w), value, [])
      {
        AssignCorrect(env, it, rhs, rk, value, [], w);
      }
    } else {
      var env, w, plain := Concrete(it.qualifier), World(map[], ()), Unqualified(it);
      ConcreteBehaved(it.qualifier);
      SameCode(it, Add, rhs, rk, 1, value, false);
      AssignCorrect(env, plain, rhs, rk, value, [], w);
      QualifierThrows(it, rhs, rk, w);
      NotBoth(Exec(env, EmitAssign(it, rhs, rk, value), Ok([], w)), Assigned(env, plain, rhs, rk, w), Assigned(env, it, rhs, rk, w), value);
    }
  }

  lemma QualifierThrows(it: Item, rhs: nat, rk: Kind, w: World<()>)
    requires it.Static? && it.qualifier.Some? && (rk == KRef ==> it.qualifier != Some(rhs)) && Convertible(rk, it.kind) && Behaved(Concrete(it.qualifier))
    ensures var env := Concrete(it.qualifier);
            Assigned(env, it, rhs, rk, w) == Abrupt(w) && Assigned(env, Unqualified(it), rhs, rk, w).Finished?
  {
    hide Behaved, Convert;
    var env := Concrete(it.qualifier);
    Runs(it.qualifier, rhs, rk, w);
  }

  lemma NotBoth(st: State<()>, o: Outcome<()>, p: Outcome<()>, value: bool)
    requires Agrees(st, o, value, []) && o.Finished? && p.Abrupt?
    ensures !Agrees(st, p, value, [])
  {
  }

  /** The same of ++ and --. */
  lemma StepQualifierExactly(it: Item, delta: int, value: bool, postfix: bool)
    requires it.Static? && Numeric(it.kind) && -1 <= delta <= 1
    ensures (forall env: Env<()>, w: World<()> :: Behaved(env) ==>
               Agrees(Exec(env, EmitStep(it, delta, value, postfix), Ok([], w)), Stepped(env, it, delta, postfix, w), value, []))
            <==> it.qualifier.None?
  {
    hide Exec, EmitStep, Stepped, Agrees, Behaved;
    if it.qualifier.None? {
      forall env: Env<()>, w: World<()> | Behaved(env)
        ensures Agrees(Exec(env, EmitStep(it, delta, value, postfix), Ok([], w)), Stepped(env, it, delta, postfix, w), value, [])
      {
        StepCorrect(env, it, delta, value, postfix, [], w);
      }
    } else {
      var env, w, plain := Concrete(it.qualifier), World(map[], ()), Unqualified(it);
      ConcreteBehaved(it.qualifier);
      SameCode(it, Add, 0, KInt, delta, value, postfix);
      StepCorrect(env, plain, delta, value, postfix, [], w);
      StepQualifierThrows(it, delta, postfix, w);
      NotBoth(Exec(env, EmitStep(it, delta, value, postfix), Ok([], w)), Stepped(env, plain, delta, postfix, w), Stepped(env, it, delta, postfix, w), value);
    }
  }

  lemma StepQualifierThrows(it: Item, delta: int, postfix: bool, w: World<()>)
    requires it.Static? && it.qualifier.Some? && Numeric(it.kind) && Behaved(Concrete(it.qualifier))
    ensures var env := Concrete(it.qualifier);
            Stepped(env, it, delta, postfix, w) == Abrupt(w) && Stepped(env, Unqualified(it), delta, postfix, w).Finished?
  {
    hide Behaved, Convert, Sum;
  }

  // ---- compound assignment, all told --------------------------------------

  lemma CompoundQualifierWrong(it: Item, op: Op, rhs: nat, rk: Kind, value: bool)
    requires it.Static? && it.qualifier.Some? && Numeric(it.kind) && Numeric(rk) && Behaved(Concrete(it.qualifier))
    requires IsShift(op) ==> Integral(it.kind) && Integral(rk)
    ensures var env, w := Concrete(it.qualifier), World(map[], ());
            !Agrees(Exec(env, EmitCompound(it, op, rhs, rk, value), Ok([], w)), Updated(env, it, op, rhs, rk, w), value, [])
  {
    hide Exec, EmitCompound, Behaved, Combined, Sum, Shifted;
    var env, w, plain := Concrete(it.qualifier), World(map[], ()), Unqualified(it);
    var was := Read(w, StaticCell(it.id), it.kind);
    SameCode(it, op, rhs, rk, 1, value, false);
    CompoundRuns(env, plain, op, rhs, rk, value, [], w);
    CombinedGives(it.qualifier, op, it.kind, rhs, rk, was, w);
    Runs(it.qualifier, it.qualifier.value, KRef, w);
    assert Updated(env, it, op, rhs, rk, w) == Abrupt(w);
  }

  lemma CombinedGives(bad: Option<nat>, op: Op, k: Kind, rhs: nat, rk: Kind, was: Value, w: World<()>)
    requires Behaved(Concrete(bad)) && Numeric(k) && Numeric(rk) && InRange(k, was) && (IsShift(op) ==> Integral(k) && Integral(rk))
    ensures Combined(Concrete(bad), op, k, rhs, rk, was, w).Got?
  {
    hide Behaved, Raw, Sum, Shifted, Computed;
    Runs(bad, rhs, rk, w);
    Gives(bad, op, k, rk, was, Sample(rk));
  }

  /** The machine's arithmetic never throws. */
  lemma Gives(bad: Option<nat>, op: Op, k: Kind, rk: Kind, was: Value, v: Value)
    requires Behaved(Concrete(bad)) && Numeric(k) && Numeric(rk) && InRange(k, was) && InRange(rk, v) && (IsShift(op) ==> Integral(k) && Integral(rk))
    ensures Raw(Concrete(bad), op, k, rk, was, v).Some?
  {
    hide Convert, Sum, Shifted, Low;
    if IsShift(op) {
      ShiftGives(Concrete(bad), op, k, rk, was, v);
    } else {
      var p := Promoted2(k, rk);
      var a, b := Convert(Concrete(bad), k, p, was), Convert(Concrete(bad), rk, p, v);
      assert Concrete(bad).arith(op, p, a, b) == Some(Sum(op, p, a, b));
    }
  }

  /**
   * A compound assignment is compiled correctly for every environment that shifts as the language does, and every memory,
   * if and only if nothing is evaluated before a static field and a shift always fits its variable.
   */
  lemma CompoundExactly(it: Item, op: Op, rhs: nat, rk: Kind, value: bool)
    requires WellTyped(it) && Numeric(it.kind) && Numeric(rk) && (IsShift(op) ==> Integral(it.kind) && Integral(rk))
    ensures (forall env: Env<()>, w: World<()> :: Behaved(env) && Shifts(env) ==>
               Agrees(Exec(env, EmitCompound(it, op, rhs, rk, value), Ok([], w)), Updated(env, it, op, rhs, rk, w), value, []))
            <==> Direct(it) && (IsShift(op) ==> Fitting(op, it.kind) || (!value && it.Element?))
  {
    hide Exec, EmitCompound, Updated, Agrees, Behaved, Shifts, Fitting;
    if !Direct(it) {
      ConcreteBehaved(it.qualifier);
      ConcreteShifts(it.qualifier);
      CompoundQualifierWrong(it, op, rhs, rk, value);
    } else if IsShift(op) {
      ShiftsExactly(it, op, rhs, rk, value);
    } else {
      forall env: Env<()>, w: World<()> | Behaved(env) && Shifts(env)
        ensures Agrees(Exec(env, EmitCompound(it, op, rhs, rk, value), Ok([], w)), Updated(env, it, op, rhs, rk, w), value, [])
      {
        CompoundCorrect(env, it, op, rhs, rk, value, [], w);
      }
    }
  }
}
