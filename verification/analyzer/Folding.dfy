/** Folding of integral and boolean constant expressions in 64-bit arithmetic, against the language's own. */
module Folding {

  datatype Option<T> = None | Some(value: T)

  // ---- two's complement ---------------------------------------------------

  function Pow2(k: nat): (r: int)
    ensures r >= 1
  {
    if k == 0 then 1 else 2 * Pow2(k - 1)
  }

  const P31 := 0x8000_0000
  const P32 := 0x1_0000_0000
  const P63 := 0x8000_0000_0000_0000
  const P64 := 0x1_0000_0000_0000_0000

  type I32 = x: int | -P31 <= x < P31

  type I64 = x: int | -P63 <= x < P63

  function Wrap32(x: int): I32 { (x + P31) % P32 - P31 }

  function Wrap64(x: int): I64 { (x + P63) % P64 - P63 }

  /** Division and remainder that truncate toward zero. */
  function TruncDiv(a: int, b: int): int
    requires b != 0
  {
    if (a >= 0) == (b > 0) then Abs(a) / Abs(b) else -(Abs(a) / Abs(b))
  }

  function TruncRem(a: int, b: int): int
    requires b != 0
  {
    a - b * TruncDiv(a, b)
  }

  function Abs(x: int): nat { if x < 0 then -x else x }

  /** Bit k of the two's-complement form of an integer. */
  predicate Bit(x: int, k: nat) { (x / Pow2(k)) % 2 == 1 }

  datatype Bitwise = BitAnd | BitOr | BitXor

  predicate Combine(op: Bitwise, p: bool, q: bool) {
    match op
    case BitAnd => p && q
    case BitOr => p || q
    case BitXor => p != q
  }

  /** The n lowest bits, combined position by position, as an unsigned number. */
  function Combined(op: Bitwise, a: int, b: int, n: nat): nat {
    if n == 0 then 0 else Combined(op, a, b, n - 1) + if Combine(op, Bit(a, n - 1), Bit(b, n - 1)) then Pow2(n - 1) else 0
  }

  // ---- expressions --------------------------------------------------------

  datatype Ty = TBool | TByte | TShort | TChar | TInt | TLong

  datatype UnOp = Plus | Minus | Tilde | Not

  datatype BinOp = Add | Sub | Mul | Quo | Rem | Bits(op: Bitwise) | Shl | Shr | Ushr
                 | Eql | Neq | Lss | Gtr | Leq | Geq | LAnd | LOr

  datatype Expr =
    | LitInt(i: I32)
    | LitLong(l: I64)
    | LitBool(b: bool)
    | Paren(x: Expr)
    | Unary(uop: UnOp, x: Expr)
    | Binary(op: BinOp, x: Expr, y: Expr)
    | Cast(to: Ty, x: Expr)

  predicate Integral(t: Ty) { t != TBool }

  predicate IsShift(op: BinOp) { op == Shl || op == Shr || op == Ushr }

  predicate IsTest(op: BinOp) { op == Eql || op == Neq || op == Lss || op == Gtr || op == Leq || op == Geq }

  predicate Divides(op: BinOp) { op == Quo || op == Rem }

  function Promote(t: Ty): Ty { if t == TLong || t == TBool then t else TInt }

  function PromoteBoth(a: Ty, b: Ty): Ty { if a == TLong || b == TLong then TLong else TInt }

  /** The static type attribution gives a well-typed expression. */
  function TypeOf(e: Expr): Ty {
    match e
    case LitInt(_) => TInt
    case LitLong(_) => TLong
    case LitBool(_) => TBool
    case Paren(x) => TypeOf(x)
    case Unary(uop, x) => if uop == Not then TBool else Promote(TypeOf(x))
    case Binary(op, x, y) =>
      if IsTest(op) || op == LAnd || op == LOr then TBool
      else if IsShift(op) then Promote(TypeOf(x))
      else if op.Bits? && TypeOf(x) == TBool then TBool
      else PromoteBoth(TypeOf(x), TypeOf(y))
    case Cast(to, _) => to
  }

  predicate Typed(e: Expr) {
    match e
    case Paren(x) => Typed(x)
    case Unary(uop, x) => Typed(x) && (uop == Not <==> TypeOf(x) == TBool)
    case Binary(op, x, y) =>
      && Typed(x) && Typed(y)
      && (if op == LAnd || op == LOr then TypeOf(x) == TBool && TypeOf(y) == TBool
          else if op == Eql || op == Neq || op.Bits? then TypeOf(x) == TBool <==> TypeOf(y) == TBool
          else Integral(TypeOf(x)) && Integral(TypeOf(y)))
    case Cast(to, x) => Typed(x) && (to == TBool <==> TypeOf(x) == TBool)
    case _ => true
  }

  // ---- what the language says ---------------------------------------------

  /** A boolean, or a number of the static type. */
  datatype Value = Bool(b: bool) | Num(n: int)

  function Wrap(t: Ty, x: int): int { if t == TLong then Wrap64(x) else Wrap32(x) }

  function Size(t: Ty): nat { if t == TLong then 64 else 32 }

  /** Section 15.19 of the Java Language Specification: five or six bits of the distance. */
  function Distance(t: Ty, d: int): nat { d % Size(t) }

  /** Unsigned shift, by the section's formula: for a negative number, the signed shift plus 2 << ~s. */
  function Unsigned(t: Ty, a: int, s: nat): int
    requires s < Size(t)
  {
    if a >= 0 then a / Pow2(s) else Wrap(t, a / Pow2(s) + Wrap(t, 2 * Pow2(Size(t) - 1 - s)))
  }

  function Narrow(t: Ty, x: int): int {
    match t
    case TByte => (x + 0x80) % 0x100 - 0x80
    case TShort => (x + 0x8000) % 0x1_0000 - 0x8000
    case TChar => x % 0x1_0000
    case TInt => Wrap32(x)
    case _ => x
  }

  function Arith(op: BinOp, t: Ty, a: int, b: int): Option<Value> {
    match op
    case Add => Some(Num(Wrap(t, a + b)))
    case Sub => Some(Num(Wrap(t, a - b)))
    case Mul => Some(Num(Wrap(t, a * b)))
    case Quo => if b == 0 then None else Some(Num(Wrap(t, TruncDiv(a, b))))
    case Rem => if b == 0 then None else Some(Num(TruncRem(a, b)))
    case Bits(bop) => Some(Num(Wrap(t, Combined(bop, a, b, Size(t)))))
    case Shl => Some(Num(Wrap(t, a * Pow2(Distance(t, b)))))
    case Shr => Some(Num(a / Pow2(Distance(t, b))))
    case Ushr => Some(Num(Unsigned(t, a, Distance(t, b))))
    case Eql => Some(Bool(a == b))
    case Neq => Some(Bool(a != b))
    case Lss => Some(Bool(a < b))
    case Gtr => Some(Bool(a > b))
    case Leq => Some(Bool(a <= b))
    case Geq => Some(Bool(a >= b))
    case _ => None
  }

  function Logic(op: BinOp, p: bool, q: bool): Option<Value> {
    match op
    case Bits(bop) => Some(Bool(Combine(bop, p, q)))
    case Eql => Some(Bool(p == q))
    case Neq => Some(Bool(p != q))
    case LAnd => Some(Bool(p && q))
    case LOr => Some(Bool(p || q))
    case _ => None
  }

  function UnaryValue(uop: UnOp, t: Ty, v: Value): Value {
    match (uop, v)
    case (Not, Bool(b)) => Bool(!b)
    case (Minus, Num(n)) => Num(Wrap(t, -n))
    case (Tilde, Num(n)) => Num(-n - 1)
    case _ => v
  }

  /** Evaluation at run time; none when a division by zero throws. */
  function Eval(e: Expr): Option<Value> {
    match e
    case LitInt(i) => Some(Num(i))
    case LitLong(l) => Some(Num(l))
    case LitBool(b) => Some(Bool(b))
    case Paren(x) => Eval(x)
    case Unary(uop, x) => (match Eval(x) case None => None case Some(v) => Some(UnaryValue(uop, TypeOf(e), v)))
    case Cast(to, x) =>
      (match Eval(x)
       case Some(Num(n)) => Some(Num(Narrow(to, n)))
       case v => v)
    case Binary(op, x, y) =>
      match Eval(x)
      case None => None
      case Some(v) =>
        if (op == LAnd && v == Bool(false)) || (op == LOr && v == Bool(true)) then Some(v)
        else match Eval(y)
          case None => None
          case Some(w) =>
            if v.Bool? && w.Bool? then Logic(op, v.b, w.b)
            else if v.Num? && w.Num? then Arith(op, if IsShift(op) then Promote(TypeOf(x)) else PromoteBoth(TypeOf(x), TypeOf(y)), v.n, w.n)
            else None
  }

  /** Some subexpression, reached or not, divides by zero. */
  predicate DividesByZero(e: Expr) {
    match e
    case Paren(x) => DividesByZero(x)
    case Unary(_, x) => DividesByZero(x)
    case Cast(_, x) => DividesByZero(x)
    case Binary(op, x, y) => DividesByZero(x) || DividesByZero(y) || (Divides(op) && Eval(y) == Some(Num(0)))
    case _ => false
  }

  // ---- the folder ---------------------------------------------------------

  /** A recorded constant: int and narrower kinds hold 32 bits. */
  datatype Const = Int32(i: I32) | Int64(l: I64) | Boolean(b: bool)

  function IntegerOf(k: Const): Option<I64> {
    match k
    case Int32(i) => Some(i)
    case Int64(l) => Some(l)
    case Boolean(_) => None
  }

  function ShiftCount(r: I64, t: Ty): nat { if t == TLong then r % 64 else r % 32 }

  /** The 64-bit result before truncation, none for a zero divisor. */
  function Wide(op: BinOp, t: Ty, l: I64, r: I64): Option<I64> {
    match op
    case Add => Some(Wrap64(l + r))
    case Sub => Some(Wrap64(l - r))
    case Mul => Some(Wrap64(l * r))
    case Quo => if r == 0 then None else Some(Wrap64(TruncDiv(l, r)))
    case Rem => if r == 0 then None else Some(Wrap64(TruncRem(l, r)))
    case Bits(bop) => Some(Wrap64(Combined(bop, l, r, 64)))
    case Shl => Some(Wrap64(l * Pow2(ShiftCount(r, t))))
    case Shr => Some(Wrap64(l / Pow2(ShiftCount(r, t))))
    case Ushr =>
      if t == TLong then Some(Wrap64((l % P64) / Pow2(ShiftCount(r, t))))
      else Some(Wrap64((l % P32) / Pow2(ShiftCount(r, t))))
    case _ => None
  }

  function FoldTest(op: BinOp, l: I64, r: I64): bool {
    match op
    case Eql => l == r
    case Neq => l != r
    case Lss => l < r
    case Gtr => l > r
    case Leq => l <= r
    case _ => l >= r
  }

  function FoldBool(op: BinOp, p: bool, q: bool): Option<Const> {
    match op
    case LAnd => Some(Boolean(p && q))
    case LOr => Some(Boolean(p || q))
    case Bits(BitAnd) => Some(Boolean(p && q))
    case Bits(BitOr) => Some(Boolean(p || q))
    case Bits(BitXor) => Some(Boolean(p != q))
    case Eql => Some(Boolean(p == q))
    case Neq => Some(Boolean(p != q))
    case _ => None
  }

  function FoldBinary(op: BinOp, t: Ty, a: Const, b: Const): Option<Const> {
    if a.Boolean? then (if b.Boolean? then FoldBool(op, a.b, b.b) else None)
    else if b.Boolean? then None
    else
      var l, r := IntegerOf(a).value, IntegerOf(b).value;
      if IsTest(op) then Some(Boolean(FoldTest(op, l, r)))
      else match Wide(op, t, l, r)
        case None => None
        case Some(v) => if t == TLong then Some(Int64(v)) else Some(Int32(Wrap32(v)))
  }

  function Coerce(k: Const, to: Ty): Const {
    match IntegerOf(k)
    case None => k
    case Some(v) =>
      match to
      case TByte => Int32((v + 0x80) % 0x100 - 0x80)
      case TShort => Int32((v + 0x8000) % 0x1_0000 - 0x8000)
      case TChar => Int32(v % 0x1_0000)
      case TInt => Int32(Wrap32(v))
      case TLong => Int64(v)
      case TBool => k
  }

  function FoldUnary(uop: UnOp, t: Ty, k: Const): Option<Const> {
    match uop
    case Plus => Some(Coerce(k, t))
    case Minus =>
      (match IntegerOf(k)
       case None => None
       case Some(v) => if t == TLong then Some(Int64(Wrap64(-(v as int)))) else Some(Int32(Wrap32(-(v as int)))))
    case Tilde =>
      if k.Int32? && t == TInt then Some(Int32(-(k.i as int) - 1))
      else if k.Int64? then Some(Int64(-(k.l as int) - 1))
      else None
    case Not => if k.Boolean? then Some(Boolean(!k.b)) else None
  }

  /** The constant recorded for an expression, if any, from those recorded for its operands. */
  function Fold(e: Expr): Option<Const> {
    match e
    case LitInt(i) => Some(Int32(i))
    case LitLong(l) => Some(Int64(l))
    case LitBool(b) => Some(Boolean(b))
    case Paren(x) => Fold(x)
    case Unary(uop, x) => (match Fold(x) case None => None case Some(k) => FoldUnary(uop, TypeOf(e), k))
    case Binary(op, x, y) =>
      (match (Fold(x), Fold(y))
       case (Some(a), Some(b)) => FoldBinary(op, TypeOf(e), a, b)
       case _ => None)
    case Cast(to, x) => (match Fold(x) case None => None case Some(k) => Some(Coerce(k, to)))
  }

  // ---- arithmetic ---------------------------------------------------------

  lemma ModUnique(x: int, m: int, q: int, r: int)
    requires m > 0 && x == m * q + r && 0 <= r < m
    ensures x % m == r && x / m == q
  {
    var d := x / m - q;
    assert m * d == r - x % m;
    MulFar(m, d);
  }

  lemma MulFar(m: int, d: int)
    requires m > 0
    ensures d >= 1 ==> m * d >= m
    ensures d <= -1 ==> m * d <= -m
  {
  }

  /** Adding a multiple of the modulus changes no wrapped value. */
  lemma WrapShift(x: int, k: int)
    ensures Wrap32(x + P32 * k) == Wrap32(x)
    ensures Wrap64(x + P64 * k) == Wrap64(x)
  {
    var q, r := (x + P31) / P32, (x + P31) % P32;
    assert x + P32 * k + P31 == P32 * (q + k) + r;
    ModUnique(x + P32 * k + P31, P32, q + k, r);
    var s, t := (x + P63) / P64, (x + P63) % P64;
    assert x + P64 * k + P63 == P64 * (s + k) + t;
    ModUnique(x + P64 * k + P63, P64, s + k, t);
  }

  /** Computing in 64 bits and truncating is computing in 32 bits. */
  lemma Truncation(x: int)
    ensures Wrap32(Wrap64(x)) == Wrap32(x)
  {
    var q := (x + P63) / P64;
    assert Wrap64(x) == x - P64 * q;
    assert P64 * q == P32 * (P32 * q);
    WrapShift(x, -(P32 * q));
  }

  lemma WrapFits(x: int)
    ensures -P31 <= x < P31 ==> Wrap32(x) == x
    ensures -P63 <= x < P63 ==> Wrap64(x) == x
  {
  }

  lemma {:induction false} Pow2Adds(a: nat, b: nat)
    ensures Pow2(a + b) == Pow2(a) * Pow2(b)
  {
    if a > 0 {
      Pow2Adds(a - 1, b);
      assert Pow2(a + b) == 2 * (Pow2(a - 1) * Pow2(b));
    }
  }

  lemma Pow2Values()
    ensures Pow2(31) == P31 && Pow2(32) == P32 && Pow2(63) == P63 && Pow2(64) == P64
  {
    assert Pow2(8) == 0x100;
    Pow2Adds(8, 8);
    Pow2Adds(16, 16);
    Pow2Adds(32, 32);
    assert Pow2(32) == 2 * Pow2(31) && Pow2(64) == 2 * Pow2(63);
  }

  /** The bits from 32 on are a multiple of 2^32. */
  lemma {:induction false} CombinedHigh(op: Bitwise, a: int, b: int, n: nat) returns (k: int)
    requires n >= 32
    ensures Combined(op, a, b, n) == Combined(op, a, b, 32) + P32 * k
  {
    if n == 32 {
      k := 0;
    } else {
      var j := CombinedHigh(op, a, b, n - 1);
      Pow2Adds(32, n - 33);
      Pow2Values();
      k := j + if Combine(op, Bit(a, n - 1), Bit(b, n - 1)) then Pow2(n - 33) else 0;
    }
  }

  lemma BitsTruncate(op: Bitwise, a: int, b: int)
    ensures Wrap32(Wrap64(Combined(op, a, b, 64))) == Wrap32(Combined(op, a, b, 32))
  {
    var k := CombinedHigh(op, a, b, 64);
    Truncation(Combined(op, a, b, 64));
    WrapShift(Combined(op, a, b, 32), k);
  }

  /** Floor division by a power of two never leaves the range. */
  lemma ShrFits(a: int, m: int, bound: int)
    requires m >= 1 && bound >= 1 && -bound <= a < bound
    ensures -bound <= a / m < bound
  {
    var q := a / m;
    assert a == m * q + a % m;
    if q >= bound { MulBelow(m, q, bound); }
    if q < -bound { MulBelow(m, -q - 1, bound); }
  }

  lemma MulBelow(m: int, q: int, b: int)
    requires m >= 1 && q >= b >= 0
    ensures m * q >= b
  {
    assert m * q >= q by { MulMono(m, q); }
  }

  lemma MulMono(m: int, q: int)
    requires m >= 1 && q >= 0
    ensures m * q >= q
  {
    assert m * q == q + (m - 1) * q;
    MulNonneg(m - 1, q);
  }

  lemma MulNonneg(a: int, b: int)
    requires a >= 0 && b >= 0
    ensures a * b >= 0
  {
  }

  // ---- one operator -------------------------------------------------------

  lemma DivBounds(x: nat, y: nat)
    requires y > 0
    ensures 0 <= x / y <= x && 0 <= x % y <= x && x - y * (x / y) == x % y
  {
    MulMono(y, x / y);
  }

  lemma TruncFits(a: int, b: int, bound: int)
    requires b != 0 && bound >= 1 && -bound <= a < bound
    ensures -bound <= TruncDiv(a, b) <= bound
    ensures -bound <= TruncRem(a, b) < bound
  {
    DivBounds(Abs(a), Abs(b));
    var q: int := Abs(a) / Abs(b);
    SignedProduct(a, b, q);
    assert TruncDiv(a, b) == if (a >= 0) == (b > 0) then q else -q;
    assert TruncRem(a, b) == if a >= 0 then Abs(a) - Abs(b) * q else -(Abs(a) - Abs(b) * q) by {
      RemIs(a, b, TruncDiv(a, b), if a >= 0 then Abs(b) * q else -(Abs(b) * q));
    }
  }

  lemma RemIs(a: int, b: int, d: int, p: int)
    requires b != 0 && TruncDiv(a, b) == d && b * d == p
    ensures TruncRem(a, b) == a - p
  {
  }

  lemma SignedProduct(a: int, b: int, q: int)
    ensures b * (if (a >= 0) == (b > 0) then q else -q) == if b == 0 then 0 else if a >= 0 then Abs(b) * q else -(Abs(b) * q)
  {
  }

  /** Splitting a word at a power of two below its size. */
  lemma UnsignedSplit(a: int, n: nat, s: nat)
    requires s < n
    ensures (a + Pow2(n)) / Pow2(s) == a / Pow2(s) + 2 * Pow2(n - 1 - s)
  {
    Pow2Adds(s, n - s);
    var m, c := Pow2(s), Pow2(n - s);
    assert c == 2 * Pow2(n - 1 - s);
    var q, r := a / m, a % m;
    assert a + m * c == m * (q + c) + r by { Distribute(m, q, c, r, a); }
    ModUnique(a + m * c, m, q + c, r);
  }

  lemma Distribute(m: int, q: int, c: int, r: int, a: int)
    requires a == m * q + r
    ensures a + m * c == m * (q + c) + r
  {
  }

  lemma Reinterpret(l: int)
    ensures 0 <= l < P63 ==> l % P64 == l
    ensures -P63 <= l < 0 ==> l % P64 == l + P64
  {
  }

  lemma Ushr64Neg(l: I64, s: nat)
    requires s < 64 && l < 0
    ensures Wrap64((l + P64) / Pow2(s)) == Unsigned(TLong, l, s)
  {
    hide Wrap64, Pow2;
    var d, e := l / Pow2(s), 2 * Pow2(63 - s);
    assert (l + P64) / Pow2(s) == d + e by {
      Pow2Values();
      UnsignedSplit(l, 64, s);
    }
    WrapOfSum(d, e);
  }

  lemma Ushr64(l: I64, s: nat)
    requires s < 64
    ensures Wrap64((l % P64) / Pow2(s)) == Unsigned(TLong, l, s)
  {
    hide Wrap64, Pow2;
    Reinterpret(l);
    if l >= 0 {
      ShrFits(l, Pow2(s), P63);
      WrapFits(l / Pow2(s));
    } else {
      Ushr64Neg(l, s);
    }
  }

  lemma WrapOfSum(d: int, e: int)
    ensures Wrap64(d + Wrap64(e)) == Wrap64(d + e)
    ensures Wrap32(d + Wrap32(e)) == Wrap32(d + e)
  {
    var q := (e + P63) / P64;
    assert Wrap64(e) == e - P64 * q;
    WrapShift(d + e, -q);
    var p := (e + P31) / P32;
    assert Wrap32(e) == e - P32 * p;
    WrapShift(d + e, -p);
  }

  lemma Ushr32(l: I32, s: nat)
    requires s < 32
    ensures Wrap32(Wrap64((l % P32) / Pow2(s))) == Unsigned(TInt, l, s)
  {
    hide Wrap64, Wrap32, Pow2;
    Truncation((l % P32) / Pow2(s));
    if l >= 0 {
      ShrFits(l, Pow2(s), P31);
      WrapFits(l / Pow2(s));
    } else {
      Pow2Values();
      assert l % P32 == l + P32;
      UnsignedSplit(l, 32, s);
      WrapOfSum(l / Pow2(s), 2 * Pow2(31 - s));
    }
  }

  predicate Computes(op: BinOp) { !IsTest(op) && op != LAnd && op != LOr }

  /** The 64-bit computation, truncated, is the language's operation. */
  lemma WideRight(op: BinOp, t: Ty, l: I64, r: I64)
    requires (t == TInt || t == TLong) && Computes(op) && (t == TInt ==> -P31 <= l < P31)
    ensures Wide(op, t, l, r).None? <==> Divides(op) && r == 0
    ensures Wide(op, t, l, r).Some? ==>
              Arith(op, t, l, r) == Some(Num(if t == TLong then Wide(op, t, l, r).value else Wrap32(Wide(op, t, l, r).value)))
  {
    hide Pow2, Combined, TruncDiv, TruncRem, Unsigned, Wrap32, Wrap64;
    match op
    case Add => Truncation(l + r);
    case Sub => Truncation(l - r);
    case Mul => Truncation(l * r);
    case Quo => if r != 0 { Truncation(TruncDiv(l, r)); }
    case Rem =>
      if r != 0 {
        TruncFits(l, r, if t == TLong then P63 else P31);
        Truncation(TruncRem(l, r));
        WrapFits(TruncRem(l, r));
      }
    case Bits(bop) => BitsTruncate(bop, l, r);
    case Shl => Truncation(l * Pow2(ShiftCount(r, t)));
    case Shr =>
      ShrFits(l, Pow2(ShiftCount(r, t)), if t == TLong then P63 else P31);
      Truncation(l / Pow2(ShiftCount(r, t)));
      WrapFits(l / Pow2(ShiftCount(r, t)));
    case Ushr => if t == TLong { Ushr64(l, ShiftCount(r, t)); } else { Ushr32(l, ShiftCount(r, t)); }
  }

  // ---- whole expressions --------------------------------------------------

  predicate Fits(t: Ty, n: int) {
    match t
    case TByte => -0x80 <= n < 0x80
    case TShort => -0x8000 <= n < 0x8000
    case TChar => 0 <= n < 0x1_0000
    case TLong => -P63 <= n < P63
    case _ => -P31 <= n < P31
  }

  /** The recorded constant is the value, held in the width of its type. */
  predicate Records(k: Const, t: Ty, v: Value) {
    match k
    case Boolean(b) => t == TBool && v == Bool(b)
    case Int64(l) => t == TLong && v == Num(l)
    case Int32(i) => t != TBool && t != TLong && v == Num(i) && Fits(t, i)
  }

  lemma NarrowFits(t: Ty, n: I64)
    requires Integral(t)
    ensures Fits(t, Narrow(t, n))
  {
  }

  lemma UnaryRight(uop: UnOp, t: Ty, k: Const, v: Value)
    requires Records(k, t, v) && (uop == Not <==> t == TBool)
    ensures var p := if uop == Not then TBool else Promote(t);
            var r := FoldUnary(uop, p, k);
            r.Some? && Records(r.value, p, UnaryValue(uop, p, v))
  {
    if k.Int32? { WrapFits(k.i); WrapFits(-(k.i as int) - 1); }
  }

  lemma CastRight(to: Ty, t: Ty, k: Const, v: Value)
    requires Records(k, t, v) && (to == TBool <==> t == TBool)
    ensures Records(Coerce(k, to), to, if v.Num? then Num(Narrow(to, v.n)) else v)
  {
    hide Wrap32;
    if v.Num? { NarrowFits(to, v.n); }
  }

  /** An operator on recorded operands of well-typed kinds. */
  lemma BinaryRight(op: BinOp, tx: Ty, ty: Ty, a: Const, b: Const, v: Value, w: Value)
    requires Records(a, tx, v) && Records(b, ty, w)
    requires if op == LAnd || op == LOr then tx == TBool && ty == TBool
             else if op == Eql || op == Neq || op.Bits? then tx == TBool <==> ty == TBool
             else Integral(tx) && Integral(ty)
    ensures var t := ResultType(op, tx, ty);
            var r := FoldBinary(op, t, a, b);
            var x := if v.Bool? && w.Bool? then Logic(op, v.b, w.b)
                     else if v.Num? && w.Num? then Arith(op, if IsShift(op) then Promote(tx) else PromoteBoth(tx, ty), v.n, w.n)
                     else None;
            && (r.None? <==> Divides(op) && w == Num(0))
            && (r.Some? ==> x.Some? && Records(r.value, t, x.value))
  {
    hide Wide, Arith, Logic, FoldBool, FoldTest, Pow2, Combined, TruncDiv, TruncRem, Unsigned, Wrap32, Wrap64;
    if v.Bool? {
      BoolRight(op, a.b, b.b);
    } else if IsTest(op) {
      TestRight(op, PromoteBoth(tx, ty), v.n, w.n);
    } else {
      NumberRight(op, tx, ty, a, b, v.n, w.n);
    }
  }

  lemma BoolRight(op: BinOp, p: bool, q: bool)
    requires op == LAnd || op == LOr || op == Eql || op == Neq || op.Bits?
    ensures var r := FoldBool(op, p, q); r.Some? && r.value.Boolean? && Logic(op, p, q) == Some(Bool(r.value.b))
  {
  }

  lemma TestRight(op: BinOp, t: Ty, l: I64, r: I64)
    requires IsTest(op)
    ensures Arith(op, t, l, r) == Some(Bool(FoldTest(op, l, r)))
  {
    hide Pow2, Combined, TruncDiv, TruncRem, Unsigned, Wrap32, Wrap64;
  }

  lemma NumberRight(op: BinOp, tx: Ty, ty: Ty, a: Const, b: Const, l: I64, r: I64)
    requires Records(a, tx, Num(l)) && Records(b, ty, Num(r)) && Computes(op)
    ensures var t := ResultType(op, tx, ty);
            var c := FoldBinary(op, t, a, b);
            var x := Arith(op, if IsShift(op) then Promote(tx) else PromoteBoth(tx, ty), l, r);
            && (c.None? <==> Divides(op) && r == 0)
            && (c.Some? ==> x.Some? && Records(c.value, t, x.value))
  {
    hide Wide, Arith, Pow2, Combined, TruncDiv, TruncRem, Unsigned, Wrap32, Wrap64;
    WideRight(op, ResultType(op, tx, ty), l, r);
  }

  function ResultType(op: BinOp, tx: Ty, ty: Ty): Ty {
    if IsTest(op) || op == LAnd || op == LOr then TBool
    else if IsShift(op) then Promote(tx)
    else if op.Bits? && tx == TBool then TBool
    else PromoteBoth(tx, ty)
  }

  /**
   * Folding a well-typed expression records its run-time value exactly, and declines exactly when some subexpression,
   * reached or not, divides by zero.
   */
  lemma {:induction false} FoldExact(e: Expr)
    requires Typed(e)
    ensures Fold(e).None? <==> DividesByZero(e)
    ensures Fold(e).Some? ==> Eval(e).Some? && Records(Fold(e).value, TypeOf(e), Eval(e).value)
  {
    hide FoldUnary, FoldBinary, Coerce, Records, Arith, Logic, UnaryValue, Narrow;
    match e
    case LitInt(_) => LiteralRight(e);
    case LitLong(_) => LiteralRight(e);
    case LitBool(_) => LiteralRight(e);
    case Paren(x) => FoldExact(x);
    case Unary(uop, x) =>
      FoldExact(x);
      if Fold(x).Some? { UnaryRight(uop, TypeOf(x), Fold(x).value, Eval(x).value); }
    case Cast(to, x) =>
      FoldExact(x);
      if Fold(x).Some? { CastRight(to, TypeOf(x), Fold(x).value, Eval(x).value); }
    case Binary(op, x, y) =>
      FoldExact(x);
      FoldExact(y);
      if Fold(x).Some? && Fold(y).Some? {
        BinaryRight(op, TypeOf(x), TypeOf(y), Fold(x).value, Fold(y).value, Eval(x).value, Eval(y).value);
        ShortcutRight(op, TypeOf(x), TypeOf(y), Fold(x).value, Fold(y).value, Eval(x).value, Eval(y).value);
      }
  }

  lemma LiteralRight(e: Expr)
    requires e.LitInt? || e.LitLong? || e.LitBool?
    ensures Fold(e).Some? && Eval(e).Some? && Records(Fold(e).value, TypeOf(e), Eval(e).value)
  {
  }

  /** Skipping the right operand of && or || changes no value. */
  lemma ShortcutRight(op: BinOp, tx: Ty, ty: Ty, a: Const, b: Const, v: Value, w: Value)
    requires Records(a, tx, v) && Records(b, ty, w) && (op == LAnd || op == LOr ==> tx == TBool && ty == TBool)
    ensures (op == LAnd && v == Bool(false)) || (op == LOr && v == Bool(true)) ==> v.Bool? && w.Bool? && Logic(op, v.b, w.b) == Some(v)
  {
  }
}
