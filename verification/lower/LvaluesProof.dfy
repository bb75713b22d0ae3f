/** The emitted assignment code does what the language says, for every location and both value widths. */
module LvaluesProof {
  import opened Lvalues

  // ---- running straight-line code -----------------------------------------

  lemma {:induction false} ExecThen<E>(env: Env<E>, a: seq<Ins>, b: seq<Ins>, st: State<E>)
    ensures Exec(env, a + b, st) == Exec(env, b, Exec(env, a, st))
    decreases |a|
  {
    hide Step;
    if a == [] || !st.Ok? {
      assert a == [] ==> a + b == b;
    } else {
      assert (a + b)[1..] == a[1..] + b;
      ExecThen(env, a[1..], b, Step(env, a[0], st.s, st.w));
    }
  }

  lemma ExecOne<E>(env: Env<E>, i: Ins, s: seq<Slot>, w: World<E>)
    ensures Exec(env, [i], Ok(s, w)) == Step(env, i, s, w)
  {
    hide Step;
    assert Exec(env, [], Step(env, i, s, w)) == Step(env, i, s, w);
  }

  lemma Tops(s: seq<Slot>, v: Value, wide: bool)
    requires (v.VL? || v.VD?) == wide
    ensures Top(s + Slots(v), wide) == Some(v) && Below(s + Slots(v), wide) == s
  {
  }

  lemma Shape(k: Kind, v: Value)
    requires InRange(k, v)
    ensures (v.VL? || v.VD?) == Wide(k)
  {
  }

  // ---- conversions --------------------------------------------------------

  lemma ModSmall(v: int, m: int)
    requires 0 <= v < m
    ensures v % m == v
  {
  }

  lemma LowFits(v: int)
    ensures -0x80 <= v < 0x80 ==> Low(8, v) == v
    ensures -0x8000 <= v < 0x8000 ==> Low(16, v) == v
    ensures -0x8000_0000 <= v < 0x8000_0000 ==> Low(32, v) == v
    ensures 0 <= v < 0x1_0000 ==> v % 0x1_0000 == v
  {
    if -0x80 <= v < 0x80 { ModSmall(v + 0x80, 0x100); }
    if -0x8000 <= v < 0x8000 { ModSmall(v + 0x8000, 0x1_0000); }
    if -0x8000_0000 <= v < 0x8000_0000 { ModSmall(v + 0x8000_0000, 0x1_0000_0000); }
  }

  /** Narrowing through int loses nothing that narrowing directly would keep. */
  lemma LowOfLow(v: int)
    ensures Low(8, Low(32, v)) == Low(8, v)
    ensures Low(16, Low(32, v)) == Low(16, v)
    ensures Low(32, v) % 0x1_0000 == v % 0x1_0000
    ensures Low(32, v) % 64 == v % 64 && Low(32, v) % 32 == v % 32
  {
    var q := (v + 0x8000_0000) / 0x1_0000_0000;
    var l := Low(32, v);
    assert l == v - 0x1_0000_0000 * q;
    ModShift(v + 0x80, -0x100_0000 * q, 0x100);
    ModShift(v + 0x8000, -0x1_0000 * q, 0x1_0000);
    ModShift(v, -0x1_0000 * q, 0x1_0000);
    ModShift(v, -0x400_0000 * q, 64);
    ModShift(v, -0x800_0000 * q, 32);
  }

  lemma ModShift(v: int, k: int, m: nat)
    requires m > 0
    ensures (v + k * m) % m == v % m
  {
    var q := v / m;
    assert v + k * m == m * (q + k) + v % m;
    ModUnique(v + k * m, m, q + k, v % m);
  }

  lemma ModUnique(x: int, m: nat, q: int, r: int)
    requires m > 0 && x == m * q + r && 0 <= r < m
    ensures x % m == r
  {
    var d := x / m - q;
    assert m * d == r - x % m;
    MulFar(m, d);
  }

  lemma MulFar(m: nat, d: int)
    requires m > 0
    ensures d >= 1 ==> m * d >= m
    ensures d <= -1 ==> m * d + m <= 0
  {
  }

  lemma LowInRange(v: int)
    ensures InRange(KByte, VI(Low(8, v))) && InRange(KShort, VI(Low(16, v)))
    ensures InRange(KInt, VI(Low(32, v))) && InRange(KChar, VI(v % 0x1_0000))
  {
  }

  lemma ConvertInRange<E(!new)>(env: Env<E>, from: Kind, to: Kind, v: Value)
    requires Behaved(env) && Convertible(from, to) && InRange(from, v)
    ensures InRange(to, Convert(env, from, to, v))
  {
    hide Low, Behaved;
    if Integral(from) && Integral(to) {
      LowInRange(v.v);
    } else if from != to {
      FloatConvertInRange(env, from, to, v);
    }
  }

  lemma FconvGives<E(!new)>(env: Env<E>, op: ConvOp, v: Value)
    requires Behaved(env)
    ensures InRange(Result(op), env.fconv(op, v))
  {
  }

  lemma FloatConvertInRange<E(!new)>(env: Env<E>, from: Kind, to: Kind, v: Value)
    requires Behaved(env) && Convertible(from, to) && InRange(from, v) && from != to && !(Integral(from) && Integral(to))
    ensures InRange(to, Convert(env, from, to, v))
  {
    hide Low, Behaved;
    if Integral(from) {
      FconvGives(env, if from == KLong then (if to == KFloat then L2F else L2D) else if to == KFloat then I2F else I2D, v);
    } else if to == KLong {
      FconvGives(env, if from == KFloat then F2L else D2L, v);
    } else if Integral(to) {
      var op := if from == KFloat then F2I else D2I;
      FconvGives(env, op, v);
      LowInRange(env.fconv(op, v).v);
    } else {
      FconvGives(env, if from == KFloat then F2D else D2F, v);
    }
  }

  /** Running a list of conversions on the value on top. */
  function ConvAll<E>(env: Env<E>, ops: seq<ConvOp>, v: Value): Value {
    if ops == [] then v else ConvAll(env, ops[1..], ConvStep(env, ops[0], v))
  }

  lemma ConvOne<E>(env: Env<E>, op: ConvOp, v: Value)
    ensures ConvAll(env, [op], v) == ConvStep(env, op, v)
  {
    assert ConvAll(env, [], ConvStep(env, op, v)) == ConvStep(env, op, v);
  }

  lemma ConvTwo<E>(env: Env<E>, a: ConvOp, b: ConvOp, v: Value)
    ensures ConvAll(env, [a] + [b], v) == ConvStep(env, b, ConvStep(env, a, v))
  {
    hide ConvStep;
    assert ([a] + [b])[1..] == [b];
    ConvOne(env, b, ConvStep(env, a, v));
  }

  lemma FromIntMeans<E(!new)>(env: Env<E>, to: Kind, v: Value)
    requires Behaved(env) && InRange(KInt, v) && (to == KByte || to == KShort || to == KChar)
    ensures |FromInt(to)| == 1 && ConvStep(env, FromInt(to)[0], v) == AsIntegral(to, v.v)
  {
    hide Low;
  }

  /** The opcodes chosen for a conversion compute the conversion the language defines. */
  lemma PrimitiveMeans<E(!new)>(env: Env<E>, from: Kind, to: Kind, v: Value)
    requires Behaved(env) && Convertible(from, to) && InRange(from, v)
    ensures ConvAll(env, Primitive(from, to), v) == Convert(env, from, to, v)
  {
    hide Low, ConvAll, Behaved, ConvStep;
    if from == to {
      ConvNone(env, v);
    } else if Integral(to) && to != KInt && to != KLong && (from == KLong || !Integral(from)) {
      NarrowMeans(env, from, to, v);
    } else {
      if Primitive(from, to) == [] { ConvNone(env, v); } else { ConvOne(env, Primitive(from, to)[0], v); }
      if v.VI? || v.VL? { LowFits(v.v); }
      assert Primitive(from, to) == [] || Primitive(from, to) == [Primitive(from, to)[0]];
      DirectMeans(env, from, to, v);
    }
  }

  lemma ConvNone<E>(env: Env<E>, v: Value)
    ensures ConvAll(env, [], v) == v
  {
  }

  lemma DirectMeans<E(!new)>(env: Env<E>, from: Kind, to: Kind, v: Value)
    requires Behaved(env) && Convertible(from, to) && InRange(from, v) && from != to
    requires !(Integral(to) && to != KInt && to != KLong && (from == KLong || !Integral(from)))
    ensures |Primitive(from, to)| <= 1
    ensures Primitive(from, to) == [] ==> v == Convert(env, from, to, v)
    ensures Primitive(from, to) != [] ==> ConvStep(env, Primitive(from, to)[0], v) == Convert(env, from, to, v)
  {
    hide Low, Behaved;
    if Integral(from) {
      LowFits(v.v);
    } else if to == KInt {
      FconvGives(env, if from == KFloat then F2I else D2I, v);
      LowFits(env.fconv(if from == KFloat then F2I else D2I, v).v);
    }
  }

  /** Narrowing from long, float or double goes through int in two steps. */
  lemma NarrowMeans<E(!new)>(env: Env<E>, from: Kind, to: Kind, v: Value)
    requires Behaved(env) && Convertible(from, to) && InRange(from, v)
    requires (to == KByte || to == KShort || to == KChar) && (from == KLong || from == KFloat || from == KDouble)
    ensures ConvAll(env, Primitive(from, to), v) == Convert(env, from, to, v)
  {
    hide Low, ConvAll, Behaved, ConvStep, FromInt;
    var first := if from == KLong then L2I else if from == KFloat then F2I else D2I;
    var i := ConvStep(env, first, v);
    NarrowFirst(env, from, v);
    assert |FromInt(to)| == 1 by { FromIntMeans(env, to, i); }
    assert Primitive(from, to) == [first] + FromInt(to);
    assert FromInt(to) == [FromInt(to)[0]];
    ConvTwo(env, first, FromInt(to)[0], v);
    if from == KLong {
      LowOfLow(v.v);
    }
    FromIntMeans(env, to, i);
  }

  /** The first step gives an int: the low bits of a long, or what the float conversion gives. */
  lemma NarrowFirst<E(!new)>(env: Env<E>, from: Kind, v: Value)
    requires Behaved(env) && InRange(from, v) && (from == KLong || from == KFloat || from == KDouble)
    ensures var first := if from == KLong then L2I else if from == KFloat then F2I else D2I;
            var i := ConvStep(env, first, v);
            InRange(KInt, i) && i == if from == KLong then VI(Low(32, v.v)) else env.fconv(first, v)
  {
    hide Low, Behaved;
    if from == KLong { LowInRange(v.v); } else { FconvGives(env, if from == KFloat then F2I else D2I, v); }
  }

  predicate TakesWide(op: ConvOp) { op.L2I? || op.L2F? || op.L2D? || op.D2I? || op.D2L? || op.D2F? }

  lemma {:induction false} ConvsRun<E>(env: Env<E>, ops: seq<ConvOp>, s: seq<Slot>, v: Value, w: World<E>)
    requires ops != [] ==> TakesWide(ops[0]) == (v.VL? || v.VD?)
    requires |ops| <= 2
    requires |ops| == 2 ==> TakesWide(ops[1]) == (ConvStep(env, ops[0], v).VL? || ConvStep(env, ops[0], v).VD?)
    ensures Exec(env, Convs(ops), Ok(s + Slots(v), w)) == Ok(s + Slots(ConvAll(env, ops, v)), w)
    decreases |ops|
  {
    hide ConvStep, Slots;
    if ops != [] {
      Tops(s, v, TakesWide(ops[0]));
      assert Convs(ops)[1..] == Convs(ops[1..]);
      ConvsRun(env, ops[1..], s, ConvStep(env, ops[0], v), w);
    }
  }

  lemma PrimitiveShape<E(!new)>(env: Env<E>, from: Kind, to: Kind, v: Value)
    requires Behaved(env) && Convertible(from, to) && InRange(from, v)
    ensures var ops := Primitive(from, to);
            && |ops| <= 2 && (ops != [] ==> TakesWide(ops[0]) == (v.VL? || v.VD?))
            && (|ops| == 2 ==> TakesWide(ops[1]) == (ConvStep(env, ops[0], v).VL? || ConvStep(env, ops[0], v).VD?))
  {
    hide Low;
    if |Primitive(from, to)| == 2 && from != KLong {
      assert InRange(KInt, env.fconv(Primitive(from, to)[0], v));
    }
  }

  lemma ConvertRuns<E(!new)>(env: Env<E>, from: Kind, to: Kind, s: seq<Slot>, v: Value, w: World<E>)
    requires Behaved(env) && Convertible(from, to) && InRange(from, v)
    ensures Exec(env, Convs(Primitive(from, to)), Ok(s + Slots(v), w)) == Ok(s + Slots(Convert(env, from, to, v)), w)
    ensures InRange(to, Convert(env, from, to, v))
  {
    hide Behaved, Primitive, Convert, Exec, Slots, ConvAll;
    PrimitiveShape(env, from, to, v);
    ConvsRun(env, Primitive(from, to), s, v, w);
    PrimitiveMeans(env, from, to, v);
    ConvertInRange(env, from, to, v);
  }

  function EvalResult<E(!new)>(env: Env<E>, id: nat, from: Kind, to: Kind, s: seq<Slot>, w: World<E>): State<E>
    requires Behaved(env) && Convertible(from, to)
  {
    match env.run(id, from, w)
    case Threw(w1) => Thrown(w1)
    case Got(v, w1) => Ok(s + Slots(Convert(env, from, to, v)), w1)
  }

  lemma EvalAsRuns<E(!new)>(env: Env<E>, id: nat, from: Kind, to: Kind, s: seq<Slot>, w: World<E>)
    requires Behaved(env) && Convertible(from, to)
    ensures env.run(id, from, w).Got? ==> InRange(from, env.run(id, from, w).v)
    ensures Exec(env, EvalAs(id, from, to), Ok(s, w)) == EvalResult(env, id, from, to, s, w)
  {
    hide Exec, Convert, Primitive, Convs, Slots;
    ExecThen(env, [Eval(id, from)], Convs(Primitive(from, to)), Ok(s, w));
    ExecOne(env, Eval(id, from), s, w);
    match env.run(id, from, w)
    case Threw(w1) => ExecDone(env, Convs(Primitive(from, to)), Thrown(w1));
    case Got(v, w1) => ConvertRuns(env, from, to, s, v, w1);
  }

  lemma ExecDone<E>(env: Env<E>, code: seq<Ins>, st: State<E>)
    requires !st.Ok?
    ensures Exec(env, code, st) == st
  {
  }

  // ---- locations ----------------------------------------------------------

  /** The slots a location keeps under the value. */
  function Under(c: Cell): seq<Slot> {
    match c
    case FieldCell(obj, _) => [Single(VR(obj))]
    case ElementCell(arr, idx) => [Single(VR(arr)), Single(VI(idx))]
    case _ => []
  }

  /** c is a location of the item. */
  predicate Fits(it: Item, c: Cell) {
    match it
    case Local(slot, _) => c == LocalCell(slot)
    case Static(_, id, _) => c == StaticCell(id)
    case Field(_, id, _) => c.FieldCell? && c.id == id
    case Element(_, _, _, _) => c.ElementCell?
  }

  function AddressResult<E>(p: Place<E>, s: seq<Slot>): State<E> {
    match p
    case NoPlace(w1) => Thrown(w1)
    case At(c, w1) => Ok(s + Under(c), w1)
  }

  lemma AddressRuns<E(!new)>(env: Env<E>, it: Item, s: seq<Slot>, w: World<E>)
    requires Behaved(env) && WellTyped(it) && Direct(it)
    ensures Locate(env, it, w).At? ==> Fits(it, Locate(env, it, w).cell)
    ensures Exec(env, Address(it), Ok(s, w)) == AddressResult(Locate(env, it, w), s)
  {
    match it
    case Local(_, _) => assert s + [] == s;
    case Static(_, _, _) => assert s + [] == s;
    case Field(recv, _, _) => ExecOne(env, Eval(recv, KRef), s, w);
    case Element(_, _, _, _) => ElementAddress(env, it, s, w);
  }

  lemma ElementAddress<E(!new)>(env: Env<E>, it: Item, s: seq<Slot>, w: World<E>)
    requires Behaved(env) && it.Element? && WellTyped(it) && Direct(it)
    ensures Locate(env, it, w).At? ==> Fits(it, Locate(env, it, w).cell)
    ensures Exec(env, Address(it), Ok(s, w)) == AddressResult(Locate(env, it, w), s)
  {
    hide Exec, EvalAs, Low;
    ExecThen(env, [Eval(it.arr, KRef)], EvalAs(it.idx, it.idxKind, KInt), Ok(s, w));
    ExecOne(env, Eval(it.arr, KRef), s, w);
    match env.run(it.arr, KRef, w)
    case Threw(w1) => ExecDone(env, EvalAs(it.idx, it.idxKind, KInt), Thrown(w1));
    case Got(a, w1) =>
      assert InRange(KRef, a);
      var s1 := s + [Single(a)];
      EvalAsRuns(env, it.idx, it.idxKind, KInt, s1, w1);
      var r := env.run(it.idx, it.idxKind, w1);
      if r.Got? {
        LowFits(r.v.v);
        assert Convert(env, it.idxKind, KInt, r.v) == r.v;
        assert s1 + [Single(r.v)] == s + [Single(a), Single(r.v)];
      }
  }

  lemma DupAddressRuns<E>(env: Env<E>, it: Item, c: Cell, s: seq<Slot>, w: World<E>)
    requires Fits(it, c)
    ensures Exec(env, DupAddress(it), Ok(s + Under(c), w)) == Ok(s + Under(c) + Under(c), w)
  {
    hide Exec, Insert;
    InsertUnder(s, [], Under(c));
    assert s + Under(c) + Under(c) == s + Under(c) + [] + Under(c);
    assert s + [] + Under(c) == s + Under(c);
    match it
    case Local(_, _) => ExecNone(env, Ok(s + Under(c), w));
    case Static(_, _, _) => ExecNone(env, Ok(s + Under(c), w));
    case Field(_, _, _) => ExecOne(env, Dup, s + Under(c), w);
    case Element(_, _, _, _) => ExecOne(env, Dup2, s + Under(c), w);
  }

  lemma LoadRuns<E>(env: Env<E>, it: Item, c: Cell, s: seq<Slot>, w: World<E>)
    requires Fits(it, c)
    ensures Exec(env, [Load(it)], Ok(s + Under(c), w))
            == if Accessible(env, c) then Ok(s + Slots(Read(w, c, it.kind)), w) else Thrown(w)
  {
    hide Slots, Read, InRange;
    ExecOne(env, Load(it), s + Under(c), w);
    UnderTops(it, c, s);
    assert it.Local? || it.Static? ==> s + [] == s;
  }

  /** Reading the reference and the index back from under the value. */
  lemma UnderTops(it: Item, c: Cell, s: seq<Slot>)
    requires Fits(it, c)
    ensures c.FieldCell? ==> FieldUnder(s + Under(c), c.id) == Some((s, c))
    ensures c.ElementCell? ==> ElementUnder(s + Under(c)) == Some((s, c))
  {
    if c.FieldCell? {
      Tops(s, VR(c.obj), false);
    } else if c.ElementCell? {
      assert s + Under(c) == (s + [Single(VR(c.arr))]) + [Single(VI(c.idx))];
      Tops(s + [Single(VR(c.arr))], VI(c.idx), false);
      Tops(s, VR(c.arr), false);
    }
  }

  /** What the store instruction of an item keeps of a value. */
  function Kept(it: Item, v: Value): Value { if it.Element? then Truncated(it.kind, v) else v }

  lemma KeptInRange(it: Item, v: Value)
    requires InRange(it.kind, v)
    ensures Kept(it, v) == v
  {
    if v.VI? { LowFits(v.v); }
  }

  lemma StoreRuns<E>(env: Env<E>, it: Item, c: Cell, v: Value, s: seq<Slot>, w: World<E>)
    requires Fits(it, c) && (v.VL? || v.VD?) == Wide(it.kind)
    ensures Exec(env, [Store(it)], Ok(s + Under(c) + Slots(v), w))
            == if Accessible(env, c) then Ok(s, Write(w, c, Kept(it, v))) else Thrown(w)
  {
    hide Exec, Slots, Truncated, Accessible, Write, Wide, Top, Below, FieldUnder, ElementUnder;
    ExecOne(env, Store(it), s + Under(c) + Slots(v), w);
    Tops(s + Under(c), v, Wide(it.kind));
    UnderTops(it, c, s);
    AccessibleAlways(env, c);
    if it.Local? || it.Static? { assert s + Under(c) == s; }
  }

  lemma AccessibleAlways<E>(env: Env<E>, c: Cell)
    ensures c.LocalCell? || c.StaticCell? ==> Accessible(env, c)
  {
  }

  /** The copy ends up below the operands of the store, for either width. */
  lemma StashRuns<E>(env: Env<E>, it: Item, c: Cell, v: Value, s: seq<Slot>, w: World<E>)
    requires Fits(it, c) && (v.VL? || v.VD?) == Wide(it.kind)
    ensures Exec(env, [Stash(it)], Ok(s + Under(c) + Slots(v), w)) == Ok(s + Slots(v) + Under(c) + Slots(v), w)
  {
    hide Insert, Slots;
    ExecOne(env, Stash(it), s + Under(c) + Slots(v), w);
    assert |Slots(v)| == if Wide(it.kind) then 2 else 1 by { SlotCount(v); }
    InsertUnder(s, Under(c), Slots(v));
    assert s + Slots(v) + [] + Slots(v) == s + Slots(v) + Slots(v);
  }

  lemma SlotCount(v: Value)
    ensures |Slots(v)| == if v.VL? || v.VD? then 2 else 1
  {
  }

  lemma InsertUnder(s: seq<Slot>, u: seq<Slot>, v: seq<Slot>)
    ensures Insert(s + u + v, |v|, |u|) == Some(s + v + u + v)
  {
    var t, n := s + u + v, |s| + |u| + |v|;
    assert t[..n - |v| - |u|] == s && t[n - |v|..] == v && t[n - |v| - |u|..] == u + v;
    assert s + v + (u + v) == s + v + u + v;
  }

  lemma StashIfRuns<E>(env: Env<E>, it: Item, c: Cell, v: Value, value: bool, s: seq<Slot>, w: World<E>)
    requires Fits(it, c) && (v.VL? || v.VD?) == Wide(it.kind)
    ensures Exec(env, StashIf(it, value), Ok(s + Under(c) + Slots(v), w))
            == Ok((if value then s + Slots(v) else s) + Under(c) + Slots(v), w)
  {
    hide Slots, Stash;
    if value { StashRuns(env, it, c, v, s, w); }
  }

  // ---- the theorems -------------------------------------------------------

  /** The code ended as the language says, leaving its value only where one is wanted. */
  ghost predicate Agrees<E>(st: State<E>, o: Outcome<E>, value: bool, s: seq<Slot>) {
    match o
    case Abrupt(w) => st == Thrown(w)
    case Finished(v, w) => st == Ok(if value then s + Slots(v) else s, w)
  }

  /** The tail of every assignment: keep a copy if asked to, then store. */
  lemma FinishRuns<E>(env: Env<E>, it: Item, c: Cell, v: Value, value: bool, s: seq<Slot>, w: World<E>)
    requires Fits(it, c) && (v.VL? || v.VD?) == Wide(it.kind)
    ensures Exec(env, StashIf(it, value) + [Store(it)], Ok(s + Under(c) + Slots(v), w))
            == if Accessible(env, c) then Ok(if value then s + Slots(v) else s, Write(w, c, Kept(it, v))) else Thrown(w)
  {
    hide Exec, Slots, Stash, Store, Kept;
    ExecThen(env, StashIf(it, value), [Store(it)], Ok(s + Under(c) + Slots(v), w));
    StashIfRuns(env, it, c, v, value, s, w);
    StoreRuns(env, it, c, v, if value then s + Slots(v) else s, w);
  }

  /** Plain assignment: operands once and in order, one cell changed, the assigned value left if wanted. */
  lemma AssignCorrect<E(!new)>(env: Env<E>, it: Item, rhs: nat, rk: Kind, value: bool, s: seq<Slot>, w: World<E>)
    requires Behaved(env) && WellTyped(it) && Direct(it) && Convertible(rk, it.kind)
    ensures Agrees(Exec(env, EmitAssign(it, rhs, rk, value), Ok(s, w)), Assigned(env, it, rhs, rk, w), value, s)
  {
    hide Exec, Address, EvalAs, StashIf, Store, Convert, Slots, Behaved, Kept;
    var tail := StashIf(it, value) + [Store(it)];
    var rest := EvalAs(rhs, rk, it.kind) + tail;
    assert EmitAssign(it, rhs, rk, value) == Address(it) + rest;
    ExecThen(env, Address(it), rest, Ok(s, w));
    AddressRuns(env, it, s, w);
    match Locate(env, it, w)
    case NoPlace(w1) => ExecDone(env, rest, Thrown(w1));
    case At(c, w1) =>
      ExecThen(env, EvalAs(rhs, rk, it.kind), tail, Ok(s + Under(c), w1));
      EvalAsRuns(env, rhs, rk, it.kind, s + Under(c), w1);
      match env.run(rhs, rk, w1)
      case Threw(w2) => ExecDone(env, tail, Thrown(w2));
      case Got(v, w2) =>
        var r := Convert(env, rk, it.kind, v);
        ConvertInRange(env, rk, it.kind, v);
        Shape(it.kind, r);
        KeptInRange(it, r);
        FinishRuns(env, it, c, r, value, s, w2);
  }

  /** After the location is evaluated: duplicate it and load through the copy. */
  lemma FetchRuns<E(!new)>(env: Env<E>, it: Item, c: Cell, s: seq<Slot>, w: World<E>)
    requires Fits(it, c)
    ensures Exec(env, DupAddress(it) + [Load(it)], Ok(s + Under(c), w))
            == if Accessible(env, c) then Ok(s + Under(c) + Slots(Read(w, c, it.kind)), w) else Thrown(w)
  {
    hide Exec, DupAddress, Load, Slots, Read;
    ExecThen(env, DupAddress(it), [Load(it)], Ok(s + Under(c), w));
    DupAddressRuns(env, it, c, s, w);
    LoadRuns(env, it, c, s + Under(c), w);
  }

  lemma ArithGives<E(!new)>(env: Env<E>, op: Op, k: Kind, a: Value, b: Value)
    requires Behaved(env)
    ensures env.arith(op, k, a, b).Some? ==> InRange(k, env.arith(op, k, a, b).value)
  {
  }

  lemma ArithRuns<E(!new)>(env: Env<E>, op: Op, k: Kind, a: Value, b: Value, s: seq<Slot>, w: World<E>)
    requires InRange(k, a) && InRange(k, b)
    ensures Exec(env, [Arith(op, k)], Ok(s + Slots(a) + Slots(b), w))
            == match env.arith(op, k, a, b) case None => Thrown(w) case Some(r) => Ok(s + Slots(r), w)
  {
    hide Slots;
    Shape(k, a);
    Shape(k, b);
    ExecOne(env, Arith(op, k), s + Slots(a) + Slots(b), w);
    Tops(s + Slots(a), b, Wide(k));
    Tops(s, a, Wide(k));
  }

  /** What the code of a compound assignment stores and leaves: like the language, but for shifts without converting back. */
  function Computed<E(!new)>(env: Env<E>, op: Op, k: Kind, rk: Kind, raw: Value): Value
    requires Numeric(k) && Numeric(rk) && Convertible(RawKind(op, k, rk), k) && InRange(RawKind(op, k, rk), raw)
  {
    if IsShift(op) then raw else Convert(env, RawKind(op, k, rk), k, raw)
  }

  /** The value a compound assignment computes and the world its right side leaves. */
  function Combined<E(!new)>(env: Env<E>, op: Op, k: Kind, rhs: nat, rk: Kind, was: Value, w: World<E>): Res<E>
    requires Behaved(env) && Numeric(k) && Numeric(rk) && (IsShift(op) ==> Integral(k) && Integral(rk)) && InRange(k, was)
  {
    match env.run(rhs, rk, w)
    case Threw(w1) => Threw(w1)
    case Got(v, w1) =>
      match Raw(env, op, k, rk, was, v)
      case None => Threw(w1)
      case Some(raw) =>
        RawInRange(env, op, k, rk, was, v);
        Got(Computed(env, op, k, rk, raw), w1)
  }

  function Pushed<E>(s: seq<Slot>, r: Res<E>): State<E> {
    match r
    case Threw(w1) => Thrown(w1)
    case Got(v, w1) => Ok(s + Slots(v), w1)
  }

  lemma OperateParts(op: Op, k: Kind, rhs: nat, rk: Kind)
    requires !IsShift(op)
    ensures var p := Promoted2(k, rk);
            Operate(op, k, rhs, rk) == Convs(Primitive(k, p)) + (EvalAs(rhs, rk, p) + ([Arith(op, p)] + Convs(Primitive(p, k))))
  {
    hide Convs, Primitive, EvalAs, Promoted2;
  }

  /** A compound operation that is not a shift: the old value, the right side, the operation, the conversion back. */
  lemma OperateRuns<E(!new)>(env: Env<E>, op: Op, k: Kind, rhs: nat, rk: Kind, was: Value, s: seq<Slot>, w: World<E>)
    requires Behaved(env) && Numeric(k) && Numeric(rk) && !IsShift(op) && InRange(k, was)
    ensures Exec(env, Operate(op, k, rhs, rk), Ok(s + Slots(was), w)) == Pushed(s, Combined(env, op, k, rhs, rk, was, w))
  {
    hide Exec, Operate, Convs, Primitive, EvalAs, Slots, Convert, Behaved, InRange;
    var p := Promoted2(k, rk);
    var c1, c2, c3, c4 := Convs(Primitive(k, p)), EvalAs(rhs, rk, p), [Arith(op, p)], Convs(Primitive(p, k));
    OperateParts(op, k, rhs, rk);
    var a := Convert(env, k, p, was);
    ExecThen(env, c1, c2 + (c3 + c4), Ok(s + Slots(was), w));
    ConvertRuns(env, k, p, s, was, w);
    ExecThen(env, c2, c3 + c4, Ok(s + Slots(a), w));
    EvalAsRuns(env, rhs, rk, p, s + Slots(a), w);
    RunGives(env, rhs, rk, w);
    match env.run(rhs, rk, w)
    case Threw(w1) => ExecDone(env, c3 + c4, Thrown(w1));
    case Got(v, w1) =>
      var b := Convert(env, rk, p, v);
      ConvertInRange(env, rk, p, v);
      ExecThen(env, c3, c4, Ok(s + Slots(a) + Slots(b), w1));
      ArithRuns(env, op, p, a, b, s, w1);
      ArithGives(env, op, p, a, b);
      match env.arith(op, p, a, b)
      case None => ExecDone(env, c4, Thrown(w1));
      case Some(raw) => ConvertRuns(env, p, k, s, raw, w1);
  }

  /** A shift: the old value as loaded, the right side as an int, five or six bits of it. */
  lemma ShiftRuns<E(!new)>(env: Env<E>, op: Op, k: Kind, rhs: nat, rk: Kind, was: Value, s: seq<Slot>, w: World<E>)
    requires Behaved(env) && Integral(k) && Integral(rk) && Numeric(k) && Numeric(rk) && IsShift(op) && InRange(k, was)
    ensures Exec(env, Operate(op, k, rhs, rk), Ok(s + Slots(was), w)) == Pushed(s, Combined(env, op, k, rhs, rk, was, w))
  {
    hide Exec, EvalAs, Slots, Convert, Behaved, Combined, Raw, InRange, Integral, IsShift, Numeric, Distance, Promoted;
    var last := [Shift(op, Promoted(k))];
    ShiftCode(op, k, rhs, rk);
    ExecThen(env, EvalAs(rhs, rk, KInt), last, Ok(s + Slots(was), w));
    ShiftConvertible(rk);
    EvalAsRuns(env, rhs, rk, KInt, s + Slots(was), w);
    ShiftCombined(env, op, k, rhs, rk, was, w);
    CombinedThrows(env, op, k, rhs, rk, was, w);
    match env.run(rhs, rk, w)
    case Threw(w1) => ExecDone(env, last, Thrown(w1));
    case Got(v, w1) =>
      DistanceKept(env, k, rk, v);
      RawShift(env, op, k, rk, was, v);
      ShiftOne(env, op, k, was, Convert(env, rk, KInt, v), s, w1);
  }

  lemma ShiftCode(op: Op, k: Kind, rhs: nat, rk: Kind)
    requires IsShift(op)
    ensures Operate(op, k, rhs, rk) == EvalAs(rhs, rk, KInt) + [Shift(op, Promoted(k))]
  {
    hide EvalAs, Promoted;
  }

  lemma ShiftConvertible(k: Kind)
    requires Integral(k)
    ensures Convertible(k, KInt)
  {
  }

  lemma CombinedThrows<E(!new)>(env: Env<E>, op: Op, k: Kind, rhs: nat, rk: Kind, was: Value, w: World<E>)
    requires Behaved(env) && Numeric(k) && Numeric(rk) && (IsShift(op) ==> Integral(k) && Integral(rk)) && InRange(k, was)
    ensures env.run(rhs, rk, w).Threw? ==> Combined(env, op, k, rhs, rk, was, w) == Threw(env.run(rhs, rk, w).w)
  {
    hide Behaved, Raw;
  }

  lemma RawShift<E(!new)>(env: Env<E>, op: Op, k: Kind, rk: Kind, was: Value, v: Value)
    requires Behaved(env) && IsShift(op) && Integral(k) && Integral(rk) && InRange(k, was) && InRange(rk, v)
    ensures Raw(env, op, k, rk, was, v) == Some(env.shift(op, Promoted(k), was, Distance(k, v)))
  {
    hide Behaved, Convert, Low;
    ConvertPromotes(env, k, was);
  }

  lemma ShiftOne<E(!new)>(env: Env<E>, op: Op, k: Kind, was: Value, n: Value, s: seq<Slot>, w: World<E>)
    requires Integral(k) && InRange(k, was) && n.VI?
    ensures Exec(env, [Shift(op, Promoted(k))], Ok(s + Slots(was) + Slots(n), w))
            == Ok(s + Slots(env.shift(op, Promoted(k), was, Distance(Promoted(k), n))), w)
  {
    hide Exec, Slots;
    ExecOne(env, Shift(op, Promoted(k)), s + Slots(was) + Slots(n), w);
    Tops(s + Slots(was), n, false);
    Shape(k, was);
    Tops(s, was, Wide(k));
  }

  lemma DistanceKept<E(!new)>(env: Env<E>, k: Kind, rk: Kind, v: Value)
    requires Integral(k) && Integral(rk) && InRange(rk, v)
    ensures Convert(env, rk, KInt, v).VI?
    ensures Distance(Promoted(k), Convert(env, rk, KInt, v)) == Distance(k, v)
  {
    hide Low;
    LowOfLow(v.v);
    LowFits(v.v);
  }

  lemma ConvertPromotes<E(!new)>(env: Env<E>, k: Kind, v: Value)
    requires Integral(k) && InRange(k, v)
    ensures Convert(env, k, Promoted(k), v) == v && Wide(Promoted(k)) == Wide(k)
  {
    hide Low;
    LowFits(v.v);
  }

  /** The end of the code: the computed value stored, and left if wanted. */
  function Ended<E>(it: Item, value: bool, c: Cell, s: seq<Slot>, r: Res<E>): State<E> {
    match r
    case Threw(w1) => Thrown(w1)
    case Got(v, w1) => Ok(if value then s + Slots(v) else s, Write(w1, c, Kept(it, v)))
  }

  function CompoundResult<E(!new)>(env: Env<E>, it: Item, op: Op, rhs: nat, rk: Kind, value: bool, s: seq<Slot>, w: World<E>): State<E>
    requires Behaved(env) && Numeric(it.kind) && Numeric(rk) && (IsShift(op) ==> Integral(it.kind) && Integral(rk))
  {
    match Locate(env, it, w)
    case NoPlace(w1) => Thrown(w1)
    case At(c, w1) => if Accessible(env, c) then
        Ended(it, value, c, s, Combined(env, op, it.kind, rhs, rk, Read(w1, c, it.kind), w1))
      else Thrown(w1)
  }

  /** What a compound assignment emits once the location is on the stack. */
  function AfterAddress(it: Item, op: Op, rhs: nat, rk: Kind, value: bool): seq<Ins> {
    (DupAddress(it) + [Load(it)]) + (Operate(op, it.kind, rhs, rk) + (StashIf(it, value) + [Store(it)]))
  }

  lemma CompoundParts(it: Item, op: Op, rhs: nat, rk: Kind, value: bool)
    ensures EmitCompound(it, op, rhs, rk, value) == Address(it) + AfterAddress(it, op, rhs, rk, value)
  {
    hide Address, DupAddress, Load, Operate, StashIf, Store;
  }

  /** The code of every compound assignment, exactly. */
  lemma CompoundRuns<E(!new)>(env: Env<E>, it: Item, op: Op, rhs: nat, rk: Kind, value: bool, s: seq<Slot>, w: World<E>)
    requires Behaved(env) && WellTyped(it) && Direct(it) && Numeric(it.kind) && Numeric(rk) && (IsShift(op) ==> Integral(it.kind) && Integral(rk))
    ensures Exec(env, EmitCompound(it, op, rhs, rk, value), Ok(s, w)) == CompoundResult(env, it, op, rhs, rk, value, s, w)
  {
    hide Exec, EmitCompound, AfterAddress, Read, Behaved, Locate, Under, Fits, WellTyped, Combined, Ended, Numeric, Integral, IsShift;
    CompoundStarts(env, it, op, rhs, rk, value, s, w);
    match Locate(env, it, w)
    case NoPlace(w1) => ExecDone(env, AfterAddress(it, op, rhs, rk, value), Thrown(w1));
    case At(c, w1) => CompoundFetch(env, it, op, rhs, rk, value, c, s, w1);
  }

  lemma CompoundStarts<E(!new)>(env: Env<E>, it: Item, op: Op, rhs: nat, rk: Kind, value: bool, s: seq<Slot>, w: World<E>)
    requires Behaved(env) && WellTyped(it) && Direct(it)
    ensures Exec(env, EmitCompound(it, op, rhs, rk, value), Ok(s, w))
            == Exec(env, AfterAddress(it, op, rhs, rk, value), AddressResult(Locate(env, it, w), s))
    ensures Locate(env, it, w).At? ==> Fits(it, Locate(env, it, w).cell)
  {
    hide *;
    CompoundParts(it, op, rhs, rk, value);
    ExecThen(env, Address(it), AfterAddress(it, op, rhs, rk, value), Ok(s, w));
    AddressRuns(env, it, s, w);
  }

  lemma CompoundFetch<E(!new)>(env: Env<E>, it: Item, op: Op, rhs: nat, rk: Kind, value: bool, c: Cell, s: seq<Slot>, w: World<E>)
    requires Behaved(env) && Fits(it, c)
    requires Numeric(it.kind) && Numeric(rk) && (IsShift(op) ==> Integral(it.kind) && Integral(rk))
    ensures Exec(env, AfterAddress(it, op, rhs, rk, value), Ok(s + Under(c), w))
            == if Accessible(env, c) then Ended(it, value, c, s, Combined(env, op, it.kind, rhs, rk, Read(w, c, it.kind), w)) else Thrown(w)
  {
    hide Exec, DupAddress, Load, Operate, StashIf, Store, Slots, Read, Behaved, Under, Fits, Combined, Ended, Accessible;
    var fetch, rest := DupAddress(it) + [Load(it)], Operate(op, it.kind, rhs, rk) + (StashIf(it, value) + [Store(it)]);
    ExecThen(env, fetch, rest, Ok(s + Under(c), w));
    FetchRuns(env, it, c, s, w);
    if Accessible(env, c) {
      CompoundTail(env, it, op, rhs, rk, value, c, s, w);
    } else {
      ExecDone(env, rest, Thrown(w));
    }
  }

  lemma RunGives<E(!new)>(env: Env<E>, id: nat, k: Kind, w: World<E>)
    requires Behaved(env)
    ensures env.run(id, k, w).Got? ==> InRange(k, env.run(id, k, w).v)
  {
  }

  lemma CompoundTail<E(!new)>(env: Env<E>, it: Item, op: Op, rhs: nat, rk: Kind, value: bool, c: Cell, s: seq<Slot>, w: World<E>)
    requires Behaved(env) && Fits(it, c) && Accessible(env, c)
    requires Numeric(it.kind) && Numeric(rk) && (IsShift(op) ==> Integral(it.kind) && Integral(rk))
    ensures Exec(env, Operate(op, it.kind, rhs, rk) + (StashIf(it, value) + [Store(it)]), Ok(s + Under(c) + Slots(Read(w, c, it.kind)), w))
            == Ended(it, value, c, s, Combined(env, op, it.kind, rhs, rk, Read(w, c, it.kind), w))
  {
    hide Exec, Operate, StashIf, Store, Slots, Kept, Read, Behaved, InRange, Under, Fits, Combined;
    var operate, tail := Operate(op, it.kind, rhs, rk), StashIf(it, value) + [Store(it)];
    var was := Read(w, c, it.kind);
    ExecThen(env, operate, tail, Ok(s + Under(c) + Slots(was), w));
    if IsShift(op) {
      ShiftRuns(env, op, it.kind, rhs, rk, was, s + Under(c), w);
    } else {
      OperateRuns(env, op, it.kind, rhs, rk, was, s + Under(c), w);
    }
    CombinedShape(env, op, it.kind, rhs, rk, was, w);
    match Combined(env, op, it.kind, rhs, rk, was, w)
    case Threw(w1) => ExecDone(env, tail, Thrown(w1));
    case Got(v, w1) => FinishRuns(env, it, c, v, value, s, w1);
  }

  lemma CombinedShape<E(!new)>(env: Env<E>, op: Op, k: Kind, rhs: nat, rk: Kind, was: Value, w: World<E>)
    requires Behaved(env) && Numeric(k) && Numeric(rk) && (IsShift(op) ==> Integral(k) && Integral(rk)) && InRange(k, was)
    ensures var r := Combined(env, op, k, rhs, rk, was, w);
            r.Got? ==> (r.v.VL? || r.v.VD?) == Wide(k) && (!IsShift(op) ==> InRange(k, r.v))
  {
    hide Behaved, Raw, Computed;
    RunGives(env, rhs, rk, w);
    match env.run(rhs, rk, w)
    case Threw(_) =>
    case Got(v, _) =>
      RawInRange(env, op, k, rk, was, v);
      match Raw(env, op, k, rk, was, v)
      case None =>
      case Some(raw) => ComputedShape(env, op, k, rk, raw);
  }

  lemma ComputedShape<E(!new)>(env: Env<E>, op: Op, k: Kind, rk: Kind, raw: Value)
    requires Behaved(env) && Numeric(k) && Numeric(rk) && (IsShift(op) ==> Integral(k))
    requires Convertible(RawKind(op, k, rk), k) && InRange(RawKind(op, k, rk), raw)
    ensures var r := Computed(env, op, k, rk, raw); (r.VL? || r.VD?) == Wide(k)
    ensures !IsShift(op) ==> InRange(k, Computed(env, op, k, rk, raw))
  {
    hide Convert;
    if IsShift(op) {
      Shape(RawKind(op, k, rk), raw);
    } else {
      ConvertInRange(env, RawKind(op, k, rk), k, raw);
      Shape(k, Convert(env, RawKind(op, k, rk), k, raw));
    }
  }

  /** Compound assignment other than by a shift on byte, short or char is right. */
  lemma CompoundCorrect<E(!new)>(env: Env<E>, it: Item, op: Op, rhs: nat, rk: Kind, value: bool, s: seq<Slot>, w: World<E>)
    requires Behaved(env) && WellTyped(it) && Direct(it) && Numeric(it.kind) && Numeric(rk)
    requires IsShift(op) ==> (it.kind == KInt || it.kind == KLong) && Integral(rk)
    ensures Agrees(Exec(env, EmitCompound(it, op, rhs, rk, value), Ok(s, w)), Updated(env, it, op, rhs, rk, w), value, s)
  {
    hide Exec, EmitCompound, Read, Behaved, UpdatedAt, Combined, Ended, Agrees;
    CompoundRuns(env, it, op, rhs, rk, value, s, w);
    match Locate(env, it, w)
    case NoPlace(w1) => AbruptAgrees(w1, value, s);
    case At(c, w1) =>
      if Accessible(env, c) {
        UpdatedAgrees(env, it, op, rhs, rk, value, c, s, w1);
      } else {
        AbruptAgrees(w1, value, s);
      }
  }

  lemma AbruptAgrees<E>(w: World<E>, value: bool, s: seq<Slot>)
    ensures Agrees(Thrown(w), Abrupt(w), value, s)
  {
  }

  lemma UpdatedAgrees<E(!new)>(env: Env<E>, it: Item, op: Op, rhs: nat, rk: Kind, value: bool, c: Cell, s: seq<Slot>, w: World<E>)
    requires Behaved(env) && Numeric(it.kind) && Numeric(rk) && Accessible(env, c)
    requires IsShift(op) ==> (it.kind == KInt || it.kind == KLong) && Integral(rk)
    ensures Agrees(Ended(it, value, c, s, Combined(env, op, it.kind, rhs, rk, Read(w, c, it.kind), w)),
                   UpdatedAt(env, it, op, rhs, rk, c, w), value, s)
  {
    hide Behaved, Convert, Slots, Read, Kept, Raw, Accessible, InRange, RawKind, Computed, Write, Convertible;
    var was := Read(w, c, it.kind);
    RunGives(env, rhs, rk, w);
    match env.run(rhs, rk, w)
    case Threw(_) =>
    case Got(v, w1) =>
      RawInRange(env, op, it.kind, rk, was, v);
      match Raw(env, op, it.kind, rk, was, v)
      case None =>
      case Some(raw) =>
        ComputedBack(env, op, it.kind, rk, raw);
        KeptInRange(it, Computed(env, op, it.kind, rk, raw));
  }

  lemma ComputedBack<E(!new)>(env: Env<E>, op: Op, k: Kind, rk: Kind, raw: Value)
    requires Behaved(env) && Numeric(k) && Numeric(rk) && Convertible(RawKind(op, k, rk), k) && InRange(RawKind(op, k, rk), raw)
    requires IsShift(op) ==> k == KInt || k == KLong
    ensures Computed(env, op, k, rk, raw) == Convert(env, RawKind(op, k, rk), k, raw)
    ensures InRange(k, Computed(env, op, k, rk, raw))
  {
    hide Behaved, Low;
    ConvertInRange(env, RawKind(op, k, rk), k, raw);
    if IsShift(op) { assert RawKind(op, k, rk) == k; }
  }

  /**
   * A shift whose result is not converted back is right exactly when the int it computed fits the variable, or when
   * no value is wanted and an array store truncates it. The condition is on the location, the wanted value and that int.
   */
  lemma ShiftExactly<E(!new)>(env: Env<E>, it: Item, op: Op, rhs: nat, rk: Kind, value: bool, s: seq<Slot>, w: World<E>)
    requires Behaved(env) && WellTyped(it) && Direct(it) && IsShift(op) && Integral(it.kind) && Integral(rk)
    requires Locate(env, it, w).At? && Accessible(env, Locate(env, it, w).cell) && env.run(rhs, rk, Locate(env, it, w).w).Got?
    ensures var p := Locate(env, it, w);
            var v := env.run(rhs, rk, p.w).v;
            && InRange(rk, v)
            && var raw := Raw(env, op, it.kind, rk, Read(p.w, p.cell, it.kind), v).value;
               Agrees(Exec(env, EmitCompound(it, op, rhs, rk, value), Ok(s, w)), Updated(env, it, op, rhs, rk, w), value, s)
               <==> InRange(it.kind, raw) || (!value && it.Element?)
  {
    hide Exec, EmitCompound, Slots, Read, Raw, Low, Behaved, Locate, Convert, Accessible, Kept, InRange, Ended, Agrees, Combined;
    CompoundRuns(env, it, op, rhs, rk, value, s, w);
    var p := Locate(env, it, w);
    RunGives(env, rhs, rk, p.w);
    var got := env.run(rhs, rk, p.w);
    var was := Read(p.w, p.cell, it.kind);
    ShiftGives(env, op, it.kind, rk, was, got.v);
    RawInRange(env, op, it.kind, rk, was, got.v);
    var raw := Raw(env, op, it.kind, rk, was, got.v).value;
    var r := Convert(env, Promoted(it.kind), it.kind, raw);
    BackIsTruncation(env, it.kind, raw);
    ShiftCombined(env, op, it.kind, rhs, rk, was, p.w);
    assert Updated(env, it, op, rhs, rk, w) == Finished(r, Write(got.w, p.cell, r));
    EndedAgrees(it, value, p.cell, s, raw, r, got.w);
    KeptIs(it, raw);
  }

  lemma ShiftCombined<E(!new)>(env: Env<E>, op: Op, k: Kind, rhs: nat, rk: Kind, was: Value, w: World<E>)
    requires Behaved(env) && IsShift(op) && Integral(k) && Integral(rk) && InRange(k, was)
    ensures var got := env.run(rhs, rk, w);
            got.Got? ==> InRange(rk, got.v) && Raw(env, op, k, rk, was, got.v).Some?
                         && Combined(env, op, k, rhs, rk, was, w) == Got(Raw(env, op, k, rk, was, got.v).value, got.w)
  {
    hide Raw, Behaved, Convert, InRange;
    RunGives(env, rhs, rk, w);
    var got := env.run(rhs, rk, w);
    if got.Got? { ShiftGives(env, op, k, rk, was, got.v); RawInRange(env, op, k, rk, was, got.v); }
  }

  lemma KeptIs(it: Item, v: Value)
    ensures Kept(it, v) == if it.Element? then Truncated(it.kind, v) else v
  {
  }

  lemma EndedAgrees<E>(it: Item, value: bool, c: Cell, s: seq<Slot>, got: Value, want: Value, w: World<E>)
    ensures Agrees(Ended(it, value, c, s, Got(got, w)), Finished(want, Write(w, c, want)), value, s)
            <==> (value ==> got == want) && Kept(it, got) == want
  {
    hide Slots, Kept, Write;
    DifferentSlots(s, got, want);
    DifferentWrites(w, c, Kept(it, got), want);
  }

  lemma ShiftGives<E(!new)>(env: Env<E>, op: Op, k: Kind, rk: Kind, was: Value, v: Value)
    requires Behaved(env) && IsShift(op) && Integral(k) && Integral(rk) && InRange(k, was) && InRange(rk, v)
    ensures Raw(env, op, k, rk, was, v).Some?
  {
  }

  /** Converting an int back to byte, short or char keeps what the array stores keep. */
  lemma BackIsTruncation<E(!new)>(env: Env<E>, k: Kind, raw: Value)
    requires Integral(k) && InRange(Promoted(k), raw)
    ensures Convert(env, Promoted(k), k, raw) == Truncated(k, raw)
    ensures InRange(k, raw) <==> Convert(env, Promoted(k), k, raw) == raw
  {
    hide Low;
    LowFits(raw.v);
    LowInRange(raw.v);
  }

  lemma DifferentSlots(s: seq<Slot>, a: Value, b: Value)
    ensures s + Slots(a) == s + Slots(b) <==> a == b
  {
    assert (s + Slots(a))[|s|] == Slots(a)[0];
    assert (s + Slots(b))[|s|] == Slots(b)[0];
  }

  lemma DifferentWrites<E>(w: World<E>, c: Cell, a: Value, b: Value)
    ensures Write(w, c, a) == Write(w, c, b) <==> a == b
  {
    assert Write(w, c, a).mem[c] == a && Write(w, c, b).mem[c] == b;
  }

  // ---- increment and decrement --------------------------------------------

  function IncrementResult<E(!new)>(env: Env<E>, k: Kind, delta: int, was: Value, s: seq<Slot>, w: World<E>): State<E>
    requires Behaved(env) && Numeric(k) && InRange(k, was)
  {
    var p := Promoted(k);
    match env.arith(Add, p, Convert(env, k, p, was), One(env, p, delta))
    case None => Thrown(w)
    case Some(sum) => Ok(s + Slots(Convert(env, p, k, sum)), w)
  }

  lemma IncrementRuns<E(!new)>(env: Env<E>, k: Kind, delta: int, was: Value, s: seq<Slot>, w: World<E>)
    requires Behaved(env) && Numeric(k) && InRange(k, was) && -1 <= delta <= 1
    ensures Exec(env, Increment(k, delta), Ok(s + Slots(was), w)) == IncrementResult(env, k, delta, was, s, w)
  {
    hide Exec, Convs, Primitive, Slots, Convert, Low;
    var p := Promoted(k);
    var c1, c2, c3 := Convs(Primitive(k, p)), [PushOne(p, delta), Arith(Add, p)], Convs(Primitive(p, k));
    assert Increment(k, delta) == c1 + (c2 + c3);
    var a, b := Convert(env, k, p, was), One(env, p, delta);
    ExecThen(env, c1, c2 + c3, Ok(s + Slots(was), w));
    ConvertRuns(env, k, p, s, was, w);
    ExecThen(env, c2, c3, Ok(s + Slots(a), w));
    assert c2 == [PushOne(p, delta)] + [Arith(Add, p)];
    ExecThen(env, [PushOne(p, delta)], [Arith(Add, p)], Ok(s + Slots(a), w));
    ExecOne(env, PushOne(p, delta), s + Slots(a), w);
    assert InRange(p, b) by { OneInRange(env, p, delta); }
    ArithRuns(env, Add, p, a, b, s, w);
    match env.arith(Add, p, a, b)
    case None => ExecDone(env, c3, Thrown(w));
    case Some(sum) => ConvertRuns(env, p, k, s, sum, w);
  }

  lemma OneInRange<E(!new)>(env: Env<E>, k: Kind, delta: int)
    requires Behaved(env) && (k == KInt || k == KLong || k == KFloat || k == KDouble) && -1 <= delta <= 1
    ensures InRange(k, One(env, k, delta))
  {
    assert InRange(Result(I2F), env.fconv(I2F, VI(delta)));
    assert InRange(Result(I2D), env.fconv(I2D, VI(delta)));
  }

  /** Prefix and postfix ++ and -- on every kind of location and number. */
  lemma StepCorrect<E(!new)>(env: Env<E>, it: Item, delta: int, value: bool, postfix: bool, s: seq<Slot>, w: World<E>)
    requires Behaved(env) && WellTyped(it) && Direct(it) && Numeric(it.kind) && -1 <= delta <= 1
    ensures Agrees(Exec(env, EmitStep(it, delta, value, postfix), Ok(s, w)), Stepped(env, it, delta, postfix, w), value, s)
  {
    hide Exec, EmitStep, Address, DupAddress, Load, Increment, StashIf, Store, Slots, Read, Stepped, Agrees, Behaved, Locate, Under, Fits, Accessible, WellTyped;
    var fetch := DupAddress(it) + [Load(it)];
    var rest := StashIf(it, value && postfix) + (Increment(it.kind, delta) + (StashIf(it, value && !postfix) + [Store(it)]));
    StepParts(it, delta, value, postfix);
    ExecThen(env, Address(it), fetch + rest, Ok(s, w));
    AddressRuns(env, it, s, w);
    match Locate(env, it, w)
    case NoPlace(w1) =>
      ExecDone(env, fetch + rest, Thrown(w1));
      SteppedNowhere(env, it, delta, postfix, value, s, w);
    case At(c, w1) =>
      ExecThen(env, fetch, rest, Ok(s + Under(c), w1));
      FetchRuns(env, it, c, s, w1);
      if !Accessible(env, c) {
        ExecDone(env, rest, Thrown(w1));
        SteppedNowhere(env, it, delta, postfix, value, s, w);
      } else {
        StepTail(env, it, delta, value, postfix, c, s, w, w1);
      }
  }

  lemma StepParts(it: Item, delta: int, value: bool, postfix: bool)
    ensures EmitStep(it, delta, value, postfix)
            == Address(it) + ((DupAddress(it) + [Load(it)])
               + (StashIf(it, value && postfix) + (Increment(it.kind, delta) + (StashIf(it, value && !postfix) + [Store(it)]))))
  {
    hide Address, DupAddress, Load, Increment, StashIf, Store;
  }

  lemma SteppedNowhere<E(!new)>(env: Env<E>, it: Item, delta: int, postfix: bool, value: bool, s: seq<Slot>, w: World<E>)
    requires Behaved(env) && Numeric(it.kind)
    requires var p := Locate(env, it, w); p.NoPlace? || !Accessible(env, p.cell)
    ensures Agrees(Thrown(Locate(env, it, w).w), Stepped(env, it, delta, postfix, w), value, s)
  {
  }

  lemma StepTail<E(!new)>(env: Env<E>, it: Item, delta: int, value: bool, postfix: bool, c: Cell, s: seq<Slot>, w: World<E>, w1: World<E>)
    requires Behaved(env) && Numeric(it.kind) && -1 <= delta <= 1 && Fits(it, c) && Accessible(env, c) && Locate(env, it, w) == At(c, w1)
    ensures Agrees(Exec(env, StashIf(it, value && postfix) + (Increment(it.kind, delta) + (StashIf(it, value && !postfix) + [Store(it)])),
                        Ok(s + Under(c) + Slots(Read(w1, c, it.kind)), w1)),
                   Stepped(env, it, delta, postfix, w), value, s)
  {
    hide Exec, Increment, StashIf, Store, Convert, Slots, Read, Kept;
    var was := Read(w1, c, it.kind);
    var tail := StashIf(it, value && !postfix) + [Store(it)];
    Shape(it.kind, was);
    ExecThen(env, StashIf(it, value && postfix), Increment(it.kind, delta) + tail, Ok(s + Under(c) + Slots(was), w1));
    StashIfRuns(env, it, c, was, value && postfix, s, w1);
    var s1 := if value && postfix then s + Slots(was) else s;
    ExecThen(env, Increment(it.kind, delta), tail, Ok(s1 + Under(c) + Slots(was), w1));
    IncrementRuns(env, it.kind, delta, was, s1 + Under(c), w1);
    var p := Promoted(it.kind);
    match env.arith(Add, p, Convert(env, it.kind, p, was), One(env, p, delta))
    case None => ExecDone(env, tail, Thrown(w1));
    case Some(sum) =>
      var r := Convert(env, p, it.kind, sum);
      ConvertInRange(env, p, it.kind, sum);
      Shape(it.kind, r);
      KeptInRange(it, r);
      FinishRuns(env, it, c, r, value && !postfix, s1, w1);
  }

  /** The int local shortcut ends in the same state as the generic path. */
  lemma IincRefines<E(!new)>(env: Env<E>, slot: nat, delta: int, value: bool, postfix: bool, s: seq<Slot>, w: World<E>)
    requires Behaved(env) && -1 <= delta <= 1
    ensures Exec(env, EmitIinc(slot, delta, value, postfix), Ok(s, w)) == Exec(env, EmitStep(Local(slot, KInt), delta, value, postfix), Ok(s, w))
  {
    hide Exec, EmitStep, Low, Read, InRange, Stepped, Behaved, Write, EmitIinc;
    var c := LocalCell(slot);
    IntRead(w, c);
    var was := Read(w, c, KInt);
    var after := VI(Low(32, was.v + delta));
    StepCorrect(env, Local(slot, KInt), delta, value, postfix, s, w);
    IntStepped(env, slot, delta, postfix, w);
    IincRuns(env, slot, delta, value, postfix, s, w);
  }

  /** The shortcut's own run: the variable is stepped, and its value before or after is left if wanted. */
  lemma IincRuns<E(!new)>(env: Env<E>, slot: nat, delta: int, value: bool, postfix: bool, s: seq<Slot>, w: World<E>)
    requires -1 <= delta <= 1
    ensures var was := Read(w, LocalCell(slot), KInt);
            was.VI? &&
            var after := VI(Low(32, was.v + delta));
            Exec(env, EmitIinc(slot, delta, value, postfix), Ok(s, w))
            == Ok(if value then s + Slots(if postfix then was else after) else s, Write(w, LocalCell(slot), after))
  {
    hide Exec, Low, Read, InRange, Write;
    var c := LocalCell(slot);
    IntRead(w, c);
    var was := Read(w, c, KInt);
    var after := VI(Low(32, was.v + delta));
    assert InRange(KInt, after) by { LowInRange(was.v + delta); }
    var pre := if value && postfix then [LoadLocal(slot, KInt)] else [];
    var post := if value && !postfix then [LoadLocal(slot, KInt)] else [];
    var s1 := if value && postfix then s + [Single(was)] else s;
    ExecThen(env, pre + [Iinc(slot, delta)], post, Ok(s, w));
    ExecThen(env, pre, [Iinc(slot, delta)], Ok(s, w));
    ExecOne(env, LoadLocal(slot, KInt), s, w);
    ExecNone(env, Ok(s, w));
    ExecOne(env, Iinc(slot, delta), s1, w);
    ExecOne(env, LoadLocal(slot, KInt), s1, Write(w, c, after));
    ExecNone(env, Ok(s1, Write(w, c, after)));
    ReadBack(w, c, after);
  }

  lemma IntRead<E>(w: World<E>, c: Cell)
    ensures Read(w, c, KInt).VI?
  {
  }

  /** ++ and -- in either position, whichever code is chosen. */
  lemma IncDecCorrect<E(!new)>(env: Env<E>, it: Item, simple: bool, delta: int, value: bool, postfix: bool, s: seq<Slot>, w: World<E>)
    requires Behaved(env) && WellTyped(it) && Direct(it) && Numeric(it.kind) && (delta == 1 || delta == -1)
    ensures Agrees(Exec(env, EmitIncDec(it, simple, delta, value, postfix), Ok(s, w)), Stepped(env, it, delta, postfix, w), value, s)
  {
    hide Exec, EmitIinc, EmitStep, Stepped, Agrees, Behaved;
    if simple && it.Local? && it.kind == KInt {
      IincRefines(env, it.slot, delta, value, postfix, s, w);
      assert it == Local(it.slot, KInt);
    }
    StepCorrect(env, it, delta, value, postfix, s, w);
  }

  lemma ExecNone<E>(env: Env<E>, st: State<E>)
    ensures Exec(env, [], st) == st
  {
  }

  lemma IntSum<E(!new)>(env: Env<E>, was: Value, delta: int)
    requires Behaved(env) && InRange(KInt, was) && -1 <= delta <= 1
    ensures was.VI? && env.arith(Add, KInt, was, VI(delta)) == Some(VI(Low(32, was.v + delta)))
  {
    assert InRange(KInt, VI(delta));
    assert was == VI(was.v);
  }

  lemma ReadBack<E>(w: World<E>, c: Cell, v: Value)
    requires InRange(KInt, v)
    ensures Read(Write(w, c, v), c, KInt) == v
  {
  }

  lemma IntStepped<E(!new)>(env: Env<E>, slot: nat, delta: int, postfix: bool, w: World<E>)
    requires Behaved(env) && -1 <= delta <= 1
    ensures var c := LocalCell(slot);
            var was := Read(w, c, KInt);
            var after := VI(Low(32, was.v + delta));
            InRange(KInt, after) && Stepped(env, Local(slot, KInt), delta, postfix, w) == Finished(if postfix then was else after, Write(w, c, after))
  {
    hide Low, Read, Behaved, InRange;
    var was := Read(w, LocalCell(slot), KInt);
    IntSum(env, was, delta);
    LowInRange(was.v + delta);
    SameValue(env, was);
    SameValue(env, VI(Low(32, was.v + delta)));
  }

  lemma SameValue<E(!new)>(env: Env<E>, v: Value)
    requires InRange(KInt, v)
    ensures Convert(env, KInt, KInt, v) == v
  {
  }
}
