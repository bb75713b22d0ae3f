/** Assignment, compound assignment and ++/--: the code emitted and what it must do. */
module Lvalues {

  // ---- values and kinds ---------------------------------------------------

  datatype Kind = KBool | KByte | KShort | KChar | KInt | KLong | KFloat | KDouble | KRef

  /** Floating values are opaque codes: their arithmetic is a parameter. */
  datatype Value = VI(v: int) | VL(v: int) | VF(f: int) | VD(f: int) | VR(r: int)

  predicate InRange(k: Kind, v: Value) {
    match k
    case KBool => v.VI? && 0 <= v.v <= 1
    case KByte => v.VI? && -0x80 <= v.v < 0x80
    case KShort => v.VI? && -0x8000 <= v.v < 0x8000
    case KChar => v.VI? && 0 <= v.v < 0x1_0000
    case KInt => v.VI? && -0x8000_0000 <= v.v < 0x8000_0000
    case KLong => v.VL? && -0x8000_0000_0000_0000 <= v.v < 0x8000_0000_0000_0000
    case KFloat => v.VF?
    case KDouble => v.VD?
    case KRef => v.VR?
  }

  function Zero(k: Kind): (v: Value)
    ensures InRange(k, v)
  {
    match k
    case KLong => VL(0)
    case KFloat => VF(0)
    case KDouble => VD(0)
    case KRef => VR(0)
    case _ => VI(0)
  }

  predicate Integral(k: Kind) { k == KByte || k == KShort || k == KChar || k == KInt || k == KLong }

  predicate Numeric(k: Kind) { Integral(k) || k == KFloat || k == KDouble }

  predicate Wide(k: Kind) { k == KLong || k == KDouble }

  function Promoted(k: Kind): Kind { if k == KByte || k == KShort || k == KChar then KInt else k }

  function Promoted2(a: Kind, b: Kind): Kind {
    if a == KDouble || b == KDouble then KDouble
    else if a == KFloat || b == KFloat then KFloat
    else if a == KLong || b == KLong then KLong
    else KInt
  }

  // ---- memory -------------------------------------------------------------

  datatype Cell = LocalCell(slot: nat) | StaticCell(id: nat) | FieldCell(obj: int, id: nat) | ElementCell(arr: int, idx: int)

  datatype World<E> = World(mem: map<Cell, Value>, ext: E)

  function Read<E>(w: World<E>, c: Cell, k: Kind): (v: Value)
    ensures InRange(k, v)
  {
    if c in w.mem && InRange(k, w.mem[c]) then w.mem[c] else Zero(k)
  }

  function Write<E>(w: World<E>, c: Cell, v: Value): World<E> { w.(mem := w.mem[c := v]) }

  datatype Res<E> = Got(v: Value, w: World<E>) | Threw(w: World<E>)

  datatype Op = Add | Sub | Mul | Quo | Rem | AndOp | OrOp | XorOp | Shl | Shr | Ushr

  predicate IsShift(op: Op) { op == Shl || op == Shr || op == Ushr }

  datatype Option<T> = None | Some(value: T)

  datatype ConvOp = I2L | I2F | I2D | I2B | I2C | I2S | L2I | L2F | L2D | F2I | F2L | F2D | D2I | D2L | D2F

  /** Subexpressions, arithmetic, floating conversions and array lengths. An integer division by zero gives None. */
  datatype Env<!E> = Env(
    run: (nat, Kind, World<E>) -> Res<E>,
    arith: (Op, Kind, Value, Value) -> Option<Value>,
    shift: (Op, Kind, Value, nat) -> Value,
    fconv: (ConvOp, Value) -> Value,
    length: int -> int)

  function Result(op: ConvOp): Kind {
    match op
    case I2L => KLong
    case F2L => KLong
    case D2L => KLong
    case I2F => KFloat
    case L2F => KFloat
    case D2F => KFloat
    case I2D => KDouble
    case L2D => KDouble
    case F2D => KDouble
    case I2B => KByte
    case I2C => KChar
    case I2S => KShort
    case _ => KInt
  }

  ghost predicate Behaved<E(!new)>(env: Env<E>) {
    && (forall id, k, w :: env.run(id, k, w).Got? ==> InRange(k, env.run(id, k, w).v))
    && (forall op, k, a, b :: env.arith(op, k, a, b).Some? ==> InRange(k, env.arith(op, k, a, b).value))
    && (forall op, k, a, n :: InRange(k, env.shift(op, k, a, n)))
    && (forall op, v :: InRange(Result(op), env.fconv(op, v)))
    && (forall a, b :: InRange(KInt, VI(a)) && InRange(KInt, VI(b)) ==> env.arith(Add, KInt, VI(a), VI(b)) == Some(VI(Low(32, a + b))))
  }

  // ---- conversions --------------------------------------------------------

  function Span(bits: nat): int
    requires bits == 8 || bits == 16 || bits == 32
  {
    if bits == 8 then 0x100 else if bits == 16 then 0x1_0000 else 0x1_0000_0000
  }

  /** The low bits of a two's-complement integer, read as signed. */
  function Low(bits: nat, v: int): int
    requires bits == 8 || bits == 16 || bits == 32
  {
    (v + Span(bits) / 2) % Span(bits) - Span(bits) / 2
  }

  /** The single conversion instructions. */
  function ConvStep<E>(env: Env<E>, op: ConvOp, v: Value): Value {
    match (op, v)
    case (I2L, VI(x)) => VL(x)
    case (L2I, VL(x)) => VI(Low(32, x))
    case (I2B, VI(x)) => VI(Low(8, x))
    case (I2S, VI(x)) => VI(Low(16, x))
    case (I2C, VI(x)) => VI(x % 0x1_0000)
    case _ => env.fconv(op, v)
  }

  function FromInt(to: Kind): seq<ConvOp> {
    match to
    case KLong => [I2L]
    case KFloat => [I2F]
    case KDouble => [I2D]
    case KByte => [I2B]
    case KChar => [I2C]
    case KShort => [I2S]
    case _ => []
  }

  /** The opcodes emitted for a primitive conversion, narrowing to less than an int in two steps; none where there is no conversion. */
  function Primitive(from: Kind, to: Kind): seq<ConvOp> {
    if from == to then []
    else match from
      case KLong =>
        (match to
         case KInt => [L2I]
         case KFloat => [L2F]
         case KDouble => [L2D]
         case _ => if Integral(to) then [L2I] + FromInt(to) else [])
      case KFloat =>
        (match to
         case KInt => [F2I]
         case KLong => [F2L]
         case KDouble => [F2D]
         case _ => if Integral(to) then [F2I] + FromInt(to) else [])
      case KDouble =>
        (match to
         case KInt => [D2I]
         case KLong => [D2L]
         case KFloat => [D2F]
         case _ => if Integral(to) then [D2I] + FromInt(to) else [])
      case KRef => []
      case _ => FromInt(to)
  }

  predicate Convertible(from: Kind, to: Kind) { from == to || (Numeric(from) && Numeric(to)) }

  /** An integer as a value of an integral kind: unchanged if it fits, its low bits if it does not. */
  function AsIntegral(to: Kind, x: int): Value
    requires Integral(to)
  {
    match to
    case KByte => VI(Low(8, x))
    case KShort => VI(Low(16, x))
    case KChar => VI(x % 0x1_0000)
    case KInt => VI(Low(32, x))
    case _ => VL(x)
  }

  /** Sections 5.1.2 to 5.1.4 of the Java Language Specification. */
  function Convert<E>(env: Env<E>, from: Kind, to: Kind, v: Value): Value
    requires Convertible(from, to) && InRange(from, v)
  {
    if from == to then v
    else if Integral(from) && Integral(to) then AsIntegral(to, v.v)
    else if Integral(from) then env.fconv(if from == KLong then (if to == KFloat then L2F else L2D) else if to == KFloat then I2F else I2D, v)
    else if to == KLong then env.fconv(if from == KFloat then F2L else D2L, v)
    else if Integral(to) then
      var i := env.fconv(if from == KFloat then F2I else D2I, v);
      if i.VI? then AsIntegral(to, i.v) else i
    else env.fconv(if from == KFloat then F2D else D2F, v)
  }

  // ---- assignable locations -----------------------------------------------

  /** The operands of an index or receiver, and what a static field is selected from, are subexpressions, named by number. */
  datatype Item =
    | Local(slot: nat, kind: Kind)
    | Static(qualifier: Option<nat>, id: nat, kind: Kind)
    | Field(recv: nat, id: nat, kind: Kind)
    | Element(arr: nat, idx: nat, idxKind: Kind, kind: Kind)

  predicate WellTyped(it: Item) { it.Element? ==> Integral(it.idxKind) && it.idxKind != KLong }

  /** No expression stands before a static field. */
  predicate Direct(it: Item) { it.Static? ==> it.qualifier.None? }

  // ---- what an assignment means -------------------------------------------

  /** The location once its operands are evaluated. */
  datatype Place<E> = At(cell: Cell, w: World<E>) | NoPlace(w: World<E>)

  function Locate<E>(env: Env<E>, it: Item, w: World<E>): Place<E> {
    match it
    case Local(slot, _) => At(LocalCell(slot), w)
    case Static(None, id, _) => At(StaticCell(id), w)
    case Static(Some(q), id, _) =>
      (match env.run(q, KRef, w)
       case Threw(w1) => NoPlace(w1)
       case Got(_, w1) => At(StaticCell(id), w1))
    case Field(recv, id, _) =>
      (match env.run(recv, KRef, w)
       case Threw(w1) => NoPlace(w1)
       case Got(v, w1) => if v.VR? then At(FieldCell(v.r, id), w1) else NoPlace(w1))
    case Element(arr, idx, ik, _) =>
      (match env.run(arr, KRef, w)
       case Threw(w1) => NoPlace(w1)
       case Got(a, w1) =>
         match env.run(idx, ik, w1)
         case Threw(w2) => NoPlace(w2)
         case Got(i, w2) => if a.VR? && i.VI? then At(ElementCell(a.r, i.v), w2) else NoPlace(w2))
  }

  /** Accessing the location throws on null and out of bounds. */
  predicate Accessible<E>(env: Env<E>, c: Cell) {
    match c
    case FieldCell(obj, _) => obj != 0
    case ElementCell(arr, idx) => arr != 0 && 0 <= idx < env.length(arr)
    case _ => true
  }

  datatype Outcome<E> = Finished(v: Value, w: World<E>) | Abrupt(w: World<E>)

  function Stored<E>(env: Env<E>, c: Cell, v: Value, result: Value, w: World<E>): Outcome<E> {
    if Accessible(env, c) then Finished(result, Write(w, c, v)) else Abrupt(w)
  }

  /** Section 15.26.1: the location's operands, then the right side, then the store. */
  function Assigned<E(!new)>(env: Env<E>, it: Item, rhs: nat, rk: Kind, w: World<E>): Outcome<E>
    requires Behaved(env) && Convertible(rk, it.kind)
  {
    match Locate(env, it, w)
    case NoPlace(w1) => Abrupt(w1)
    case At(c, w1) =>
      match env.run(rhs, rk, w1)
      case Threw(w2) => Abrupt(w2)
      case Got(v, w2) => var r := Convert(env, rk, it.kind, v); Stored(env, c, r, r, w2)
  }

  /** The shift distance: the promoted right operand, five or six bits of it. */
  function Distance(k: Kind, v: Value): nat
    requires v.VI? || v.VL?
  {
    v.v % if k == KLong then 64 else 32
  }

  /** The operation itself, before any conversion back. */
  function Raw<E(!new)>(env: Env<E>, op: Op, k: Kind, rk: Kind, was: Value, rhs: Value): Option<Value>
    requires Behaved(env) && Numeric(k) && Numeric(rk) && InRange(k, was) && InRange(rk, rhs) && (IsShift(op) ==> Integral(k) && Integral(rk))
  {
    if IsShift(op) then Some(env.shift(op, Promoted(k), Convert(env, k, Promoted(k), was), Distance(k, rhs)))
    else
      var p := Promoted2(k, rk);
      env.arith(op, p, Convert(env, k, p, was), Convert(env, rk, p, rhs))
  }

  function RawKind(op: Op, k: Kind, rk: Kind): Kind { if IsShift(op) then Promoted(k) else Promoted2(k, rk) }

  lemma RawInRange<E(!new)>(env: Env<E>, op: Op, k: Kind, rk: Kind, was: Value, rhs: Value)
    requires Behaved(env) && Numeric(k) && Numeric(rk) && InRange(k, was) && InRange(rk, rhs) && (IsShift(op) ==> Integral(k) && Integral(rk))
    ensures Raw(env, op, k, rk, was, rhs).Some? ==> InRange(RawKind(op, k, rk), Raw(env, op, k, rk, was, rhs).value)
    ensures Convertible(RawKind(op, k, rk), k)
  {
  }

  /** Once the location is known: read it, evaluate the right side, operate, convert back to the variable's kind, store. */
  function UpdatedAt<E(!new)>(env: Env<E>, it: Item, op: Op, rhs: nat, rk: Kind, c: Cell, w: World<E>): Outcome<E>
    requires Behaved(env) && Numeric(it.kind) && Numeric(rk) && (IsShift(op) ==> Integral(it.kind) && Integral(rk))
  {
    var was := Read(w, c, it.kind);
    match env.run(rhs, rk, w)
    case Threw(w1) => Abrupt(w1)
    case Got(v, w1) =>
      match Raw(env, op, it.kind, rk, was, v)
      case None => Abrupt(w1)
      case Some(raw) =>
        RawInRange(env, op, it.kind, rk, was, v);
        var r := Convert(env, RawKind(op, it.kind, rk), it.kind, raw);
        Stored(env, c, r, r, w1)
  }

  /** Section 15.26.2 of the Java Language Specification. */
  function Updated<E(!new)>(env: Env<E>, it: Item, op: Op, rhs: nat, rk: Kind, w: World<E>): Outcome<E>
    requires Behaved(env) && Numeric(it.kind) && Numeric(rk) && (IsShift(op) ==> Integral(it.kind) && Integral(rk))
  {
    match Locate(env, it, w)
    case NoPlace(w1) => Abrupt(w1)
    case At(c, w1) => if Accessible(env, c) then UpdatedAt(env, it, op, rhs, rk, c, w1) else Abrupt(w1)
  }

  /** The constant one in a promoted kind, negated for --; floating codes come from the int conversion. */
  function One<E>(env: Env<E>, k: Kind, delta: int): Value {
    match k
    case KLong => VL(delta)
    case KFloat => env.fconv(I2F, VI(delta))
    case KDouble => env.fconv(I2D, VI(delta))
    case _ => VI(delta)
  }

  /** Sections 15.14.2 and 15.15.1: the value is the one before for postfix, the one after for prefix. */
  function Stepped<E(!new)>(env: Env<E>, it: Item, delta: int, postfix: bool, w: World<E>): Outcome<E>
    requires Behaved(env) && Numeric(it.kind)
  {
    match Locate(env, it, w)
    case NoPlace(w1) => Abrupt(w1)
    case At(c, w1) =>
      if !Accessible(env, c) then Abrupt(w1)
      else
        var was := Read(w1, c, it.kind);
        var p := Promoted(it.kind);
        match env.arith(Add, p, Convert(env, it.kind, p, was), One(env, p, delta))
        case None => Abrupt(w1)
        case Some(sum) =>
          var r := Convert(env, p, it.kind, sum);
          Stored(env, c, r, if postfix then was else r, w1)
  }

  // ---- instructions -------------------------------------------------------

  datatype Ins =
    | Eval(id: nat, kind: Kind)
    | LoadLocal(slot: nat, kind: Kind) | StoreLocal(slot: nat, kind: Kind)
    | GetStatic(id: nat, kind: Kind) | PutStatic(id: nat, kind: Kind)
    | GetField(id: nat, kind: Kind) | PutField(id: nat, kind: Kind)
    | ArrayLoad(kind: Kind) | ArrayStore(kind: Kind)
    | Dup | DupX1 | DupX2 | Dup2 | Dup2X1 | Dup2X2
    | Conv(conv: ConvOp)
    | Arith(op: Op, kind: Kind)
    | Shift(op: Op, kind: Kind)
    | PushOne(kind: Kind, delta: int)
    | Iinc(slot: nat, delta: int)

  /** A long or double takes two stack slots. */
  datatype Slot = Single(v: Value) | Upper(v: Value) | Lower(v: Value)

  function Slots(v: Value): seq<Slot> {
    if v.VL? || v.VD? then [Upper(v), Lower(v)] else [Single(v)]
  }

  datatype State<E> = Ok(s: seq<Slot>, w: World<E>) | Thrown(w: World<E>) | Stuck

  /** The value of the given width on top of the stack. */
  function Top(s: seq<Slot>, wide: bool): Option<Value> {
    var n := |s|;
    if wide then
      if n >= 2 && s[n - 1].Lower? && s[n - 2] == Upper(s[n - 1].v) then Some(s[n - 1].v) else None
    else if n >= 1 && s[n - 1].Single? then Some(s[n - 1].v) else None
  }

  function Below(s: seq<Slot>, wide: bool): seq<Slot>
    requires Top(s, wide).Some?
  {
    s[..|s| - if wide then 2 else 1]
  }

  function Fetched<E>(env: Env<E>, s: seq<Slot>, c: Cell, k: Kind, w: World<E>): State<E> {
    if Accessible(env, c) then Ok(s + Slots(Read(w, c, k)), w) else Thrown(w)
  }

  function Put<E>(env: Env<E>, s: seq<Slot>, c: Cell, v: Value, w: World<E>): State<E> {
    if Accessible(env, c) then Ok(s, Write(w, c, v)) else Thrown(w)
  }

  /** bastore, castore and sastore keep only the low bits of the int they store. */
  function Truncated(k: Kind, v: Value): Value {
    if !v.VI? then v
    else if k == KByte then VI(Low(8, v.v))
    else if k == KShort then VI(Low(16, v.v))
    else if k == KChar then VI(v.v % 0x1_0000)
    else v
  }

  /** The reference, or the reference and index, under the value. */
  function FieldUnder(s: seq<Slot>, id: nat): Option<(seq<Slot>, Cell)> {
    match Top(s, false)
    case Some(VR(r)) => Some((Below(s, false), FieldCell(r, id)))
    case _ => None
  }

  function ElementUnder(s: seq<Slot>): Option<(seq<Slot>, Cell)> {
    match Top(s, false)
    case Some(VI(i)) =>
      (match Top(Below(s, false), false)
       case Some(VR(r)) => Some((Below(Below(s, false), false), ElementCell(r, i)))
       case _ => None)
    case _ => None
  }

  function Insert(s: seq<Slot>, copied: nat, under: nat): Option<seq<Slot>> {
    var n := |s|;
    if n < copied + under then None
    else Some(s[..n - copied - under] + s[n - copied..] + s[n - copied - under..])
  }

  function Shuffled<E>(r: Option<seq<Slot>>, w: World<E>): State<E> {
    match r
    case None => Stuck
    case Some(s) => Ok(s, w)
  }

  /** Sections 6.5 of the JVM Specification, on slots. */
  function Step<E>(env: Env<E>, i: Ins, s: seq<Slot>, w: World<E>): State<E> {
    match i
    case Eval(id, k) =>
      (match env.run(id, k, w)
       case Got(v, w1) => Ok(s + Slots(v), w1)
       case Threw(w1) => Thrown(w1))
    case LoadLocal(slot, k) => Fetched(env, s, LocalCell(slot), k, w)
    case GetStatic(id, k) => Fetched(env, s, StaticCell(id), k, w)
    case StoreLocal(slot, k) =>
      (match Top(s, Wide(k)) case None => Stuck case Some(v) => Put(env, Below(s, Wide(k)), LocalCell(slot), v, w))
    case PutStatic(id, k) =>
      (match Top(s, Wide(k)) case None => Stuck case Some(v) => Put(env, Below(s, Wide(k)), StaticCell(id), v, w))
    case GetField(id, k) =>
      (match FieldUnder(s, id) case None => Stuck case Some(u) => Fetched(env, u.0, u.1, k, w))
    case PutField(id, k) =>
      (match Top(s, Wide(k)) case None => Stuck case Some(v) =>
         match FieldUnder(Below(s, Wide(k)), id) case None => Stuck case Some(u) => Put(env, u.0, u.1, v, w))
    case ArrayLoad(k) =>
      (match ElementUnder(s) case None => Stuck case Some(u) => Fetched(env, u.0, u.1, k, w))
    case ArrayStore(k) =>
      (match Top(s, Wide(k)) case None => Stuck case Some(v) =>
         match ElementUnder(Below(s, Wide(k))) case None => Stuck case Some(u) => Put(env, u.0, u.1, Truncated(k, v), w))
    case Dup => Shuffled(Insert(s, 1, 0), w)
    case DupX1 => Shuffled(Insert(s, 1, 1), w)
    case DupX2 => Shuffled(Insert(s, 1, 2), w)
    case Dup2 => Shuffled(Insert(s, 2, 0), w)
    case Dup2X1 => Shuffled(Insert(s, 2, 1), w)
    case Dup2X2 => Shuffled(Insert(s, 2, 2), w)
    case Conv(op) =>
      (match Top(s, op.L2I? || op.L2F? || op.L2D? || op.D2I? || op.D2L? || op.D2F?)
       case None => Stuck
       case Some(v) => Ok(Below(s, op.L2I? || op.L2F? || op.L2D? || op.D2I? || op.D2L? || op.D2F?) + Slots(ConvStep(env, op, v)), w))
    case Arith(op, k) =>
      (match Top(s, Wide(k)) case None => Stuck case Some(b) =>
         match Top(Below(s, Wide(k)), Wide(k)) case None => Stuck case Some(a) =>
           match env.arith(op, k, a, b)
           case None => Thrown(w)
           case Some(r) => Ok(Below(Below(s, Wide(k)), Wide(k)) + Slots(r), w))
    case Shift(op, k) =>
      (match Top(s, false) case None => Stuck case Some(n) =>
         if !n.VI? then Stuck
         else match Top(Below(s, false), Wide(k)) case None => Stuck case Some(a) =>
           Ok(Below(Below(s, false), Wide(k)) + Slots(env.shift(op, k, a, Distance(k, n))), w))
    case PushOne(k, delta) => Ok(s + Slots(One(env, k, delta)), w)
    case Iinc(slot, delta) =>
      var was := Read(w, LocalCell(slot), KInt);
      Ok(s, Write(w, LocalCell(slot), VI(Low(32, was.v + delta))))
  }

  function Exec<E>(env: Env<E>, code: seq<Ins>, st: State<E>): State<E> {
    if code == [] || !st.Ok? then st else Exec(env, code[1..], Step(env, code[0], st.s, st.w))
  }

  // ---- emission -----------------------------------------------------------

  function Convs(ops: seq<ConvOp>): seq<Ins> { seq(|ops|, i requires 0 <= i < |ops| => Conv(ops[i])) }

  /** Evaluates a subexpression and converts it. */
  function EvalAs(id: nat, from: Kind, to: Kind): seq<Ins> { [Eval(id, from)] + Convs(Primitive(from, to)) }

  /** Pushes what the load and the store need beneath the value; the qualifier of a static field is not evaluated. */
  function Address(it: Item): seq<Ins> {
    match it
    case Field(recv, _, _) => [Eval(recv, KRef)]
    case Element(arr, idx, ik, _) => [Eval(arr, KRef)] + EvalAs(idx, ik, KInt)
    case _ => []
  }

  function DupAddress(it: Item): seq<Ins> {
    match it
    case Field(_, _, _) => [Dup]
    case Element(_, _, _, _) => [Dup2]
    case _ => []
  }

  function Load(it: Item): Ins {
    match it
    case Local(slot, k) => LoadLocal(slot, k)
    case Static(_, id, k) => GetStatic(id, k)
    case Field(_, id, k) => GetField(id, k)
    case Element(_, _, _, k) => ArrayLoad(k)
  }

  function Store(it: Item): Ins {
    match it
    case Local(slot, k) => StoreLocal(slot, k)
    case Static(_, id, k) => PutStatic(id, k)
    case Field(_, id, k) => PutField(id, k)
    case Element(_, _, _, k) => ArrayStore(k)
  }

  /** Copies the value on top out from under nothing, one slot, or two. */
  function Stash(it: Item): Ins {
    match it
    case Field(_, _, k) => if Wide(k) then Dup2X1 else DupX1
    case Element(_, _, _, k) => if Wide(k) then Dup2X2 else DupX2
    case _ => if Wide(it.kind) then Dup2 else Dup
  }

  function StashIf(it: Item, value: bool): seq<Ins> { if value then [Stash(it)] else [] }

  function EmitAssign(it: Item, rhs: nat, rk: Kind, value: bool): seq<Ins> {
    Address(it) + EvalAs(rhs, rk, it.kind) + StashIf(it, value) + [Store(it)]
  }

  /** The operation of a compound assignment; a shift is not converted back. */
  function Operate(op: Op, k: Kind, rhs: nat, rk: Kind): seq<Ins> {
    if IsShift(op) then EvalAs(rhs, rk, KInt) + [Shift(op, Promoted(k))]
    else
      var p := Promoted2(k, rk);
      Convs(Primitive(k, p)) + EvalAs(rhs, rk, p) + [Arith(op, p)] + Convs(Primitive(p, k))
  }

  function EmitCompound(it: Item, op: Op, rhs: nat, rk: Kind, value: bool): seq<Ins> {
    Address(it) + DupAddress(it) + [Load(it)] + Operate(op, it.kind, rhs, rk) + StashIf(it, value) + [Store(it)]
  }

  function Increment(k: Kind, delta: int): seq<Ins> {
    var p := Promoted(k);
    Convs(Primitive(k, p)) + [PushOne(p, delta), Arith(Add, p)] + Convs(Primitive(p, k))
  }

  /** The generic read, modify, write path of ++ and --. */
  function EmitStep(it: Item, delta: int, value: bool, postfix: bool): seq<Ins> {
    Address(it) + DupAddress(it) + [Load(it)] + StashIf(it, value && postfix) + Increment(it.kind, delta)
    + StashIf(it, value && !postfix) + [Store(it)]
  }

  /** The shortcut for an int local. */
  function EmitIinc(slot: nat, delta: int, value: bool, postfix: bool): seq<Ins> {
    (if value && postfix then [LoadLocal(slot, KInt)] else []) + [Iinc(slot, delta)]
    + if value && !postfix then [LoadLocal(slot, KInt)] else []
  }

  /** What ++ and -- emit: the shortcut for an int local by its bare name and not captured, the generic path otherwise. */
  function EmitIncDec(it: Item, simple: bool, delta: int, value: bool, postfix: bool): seq<Ins> {
    if simple && it.Local? && it.kind == KInt then EmitIinc(it.slot, delta, value, postfix) else EmitStep(it, delta, value, postfix)
  }
}
