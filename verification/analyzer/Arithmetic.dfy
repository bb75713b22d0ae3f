/** The arithmetic that folding and evaluation share, held to the language's own descriptions of it. */
module Arithmetic {
  import opened Folding

  // ---- types --------------------------------------------------------------

  /** The widening conversions of section 5.1.2 of the Java Language Specification among the integral types. */
  predicate Widening(from: Ty, to: Ty) {
    match from
    case TByte => to == TShort || to == TInt || to == TLong
    case TShort => to == TInt || to == TLong
    case TChar => to == TInt || to == TLong
    case TInt => to == TLong
    case _ => false
  }

  predicate Becomes(from: Ty, to: Ty) { from == to || Widening(from, to) }

  /** Arithmetic is done in int or long; this is the narrower of those that both operands become. */
  predicate Least(p: Ty, a: Ty, b: Ty) {
    && (p == TInt || p == TLong) && Becomes(a, p) && Becomes(b, p)
    && (Becomes(a, TInt) && Becomes(b, TInt) ==> Becomes(p, TInt))
  }

  /** Section 5.6: numeric promotion of one operand and of two. */
  lemma PromotedLeast(a: Ty, b: Ty, p: Ty)
    requires Integral(a) && Integral(b)
    ensures Least(p, a, b) <==> p == PromoteBoth(a, b)
    ensures Least(p, a, a) <==> p == Promote(a)
  {
  }

  // ---- wrapping -----------------------------------------------------------

  /** The int and the long congruent to a number, and no other. */
  lemma WrapExactly(x: int, w: int)
    ensures w == Wrap32(x) <==> -P31 <= w < P31 && (x - w) % P32 == 0
    ensures w == Wrap64(x) <==> -P63 <= w < P63 && (x - w) % P64 == 0
  {
    IntExactly(x, w);
    LongExactly(x, w);
  }

  lemma IntExactly(x: int, w: int)
    ensures w == Wrap32(x) <==> -P31 <= w < P31 && (x - w) % P32 == 0
  {
    var q, r := (x + P31) / P32, (x + P31) % P32;
    assert x - (r - P31) == P32 * q;
    if -P31 <= w < P31 && (x - w) % P32 == 0 { Unique(x, w, r - P31, P32, P31); }
  }

  lemma LongExactly(x: int, w: int)
    ensures w == Wrap64(x) <==> -P63 <= w < P63 && (x - w) % P64 == 0
  {
    var q, r := (x + P63) / P64, (x + P63) % P64;
    assert x - (r - P63) == P64 * q;
    if -P63 <= w < P63 && (x - w) % P64 == 0 { Unique(x, w, r - P63, P64, P63); }
  }

  lemma Unique(x: int, v: int, w: int, m: int, h: int)
    requires m == 2 * h && h > 0 && -h <= v < h && -h <= w < h && (x - v) % m == 0 && (x - w) % m == 0
    ensures v == w
  {
    var i, j := (x - v) / m, (x - w) / m;
    assert x - v == m * i && x - w == m * j;
    assert w - v == m * (i - j);
    Far(m, i - j);
  }

  /** The same of the narrower types, with their bounds. */
  lemma NarrowExactly(x: int, w: int)
    ensures w == Narrow(TByte, x) <==> -128 <= w <= 127 && (x - w) % 256 == 0
    ensures w == Narrow(TShort, x) <==> -32768 <= w <= 32767 && (x - w) % 65536 == 0
    ensures w == Narrow(TChar, x) <==> 0 <= w <= 65535 && (x - w) % 65536 == 0
  {
    ByteExactly(x, w);
    ShortExactly(x, w);
    CharExactly(x, w);
  }

  lemma ByteExactly(x: int, w: int)
    ensures w == (x + 0x80) % 0x100 - 0x80 <==> -128 <= w <= 127 && (x - w) % 256 == 0
  {
  }

  lemma ShortExactly(x: int, w: int)
    ensures w == (x + 0x8000) % 0x1_0000 - 0x8000 <==> -32768 <= w <= 32767 && (x - w) % 65536 == 0
  {
  }

  lemma CharExactly(x: int, w: int)
    ensures w == x % 0x1_0000 <==> 0 <= w <= 65535 && (x - w) % 65536 == 0
  {
  }

  // ---- division -----------------------------------------------------------

  /** Sections 15.17.2 and 15.17.3: the remainder is smaller than the divisor and takes the sign of the dividend. */
  predicate Divided(a: int, b: int, q: int, r: int) { a == b * q + r && Abs(r) < Abs(b) && (r == 0 || (r > 0 <==> a > 0)) }

  /** The quotient and remainder are the only ones like that. */
  lemma DivisionExactly(a: int, b: int, q: int, r: int)
    requires b != 0
    ensures Divided(a, b, q, r) <==> q == TruncDiv(a, b) && r == TruncRem(a, b)
  {
    DivisionRight(a, b);
    if Divided(a, b, q, r) { DivisionUnique(a, b, q, r, TruncDiv(a, b), TruncRem(a, b)); }
  }

  lemma DivisionRight(a: int, b: int)
    requires b != 0
    ensures Divided(a, b, TruncDiv(a, b), TruncRem(a, b))
  {
    hide TruncDiv, TruncRem, Abs, Divided;
    var k, r := Halves(a, b);
    WithSigns(a, b, k, r);
    TruncIs(a, b);
  }

  lemma Halves(a: int, b: int) returns (k: int, r: int)
    requires b != 0
    ensures k >= 0 && Abs(a) == Abs(b) * k + r && 0 <= r < Abs(b) && k == Abs(a) / Abs(b)
  {
    k, r := Abs(a) / Abs(b), Abs(a) % Abs(b);
  }

  lemma TruncIs(a: int, b: int)
    requires b != 0
    ensures Abs(b) > 0
    ensures TruncDiv(a, b) == if (a >= 0) == (b > 0) then Abs(a) / Abs(b) else -(Abs(a) / Abs(b))
    ensures TruncRem(a, b) == a - b * TruncDiv(a, b)
  {
    hide TruncDiv, TruncRem, Abs;
    AbsPositive(b);
    DivIs(a, b);
    RemainderIs(a, b);
  }

  lemma AbsPositive(b: int)
    requires b != 0
    ensures Abs(b) > 0
  {
  }

  lemma DivIs(a: int, b: int)
    requires b != 0
    ensures Abs(b) > 0 && TruncDiv(a, b) == if (a >= 0) == (b > 0) then Abs(a) / Abs(b) else -(Abs(a) / Abs(b))
  {
  }

  lemma RemainderIs(a: int, b: int)
    requires b != 0
    ensures TruncRem(a, b) == a - b * TruncDiv(a, b)
  {
  }

  lemma WithSigns(a: int, b: int, k: int, r: int)
    requires b != 0 && k >= 0 && Abs(a) == Abs(b) * k + r && 0 <= r < Abs(b)
    ensures var d := if (a >= 0) == (b > 0) then k else -k; Divided(a, b, d, a - b * d)
  {
    Signs(b, k);
    var d := if (a >= 0) == (b > 0) then k else -k;
    Remaining(a, b, if b > 0 then b * k else -(b * k), r, b * d);
  }

  lemma Remaining(a: int, b: int, p: int, r: int, m: int)
    requires b != 0 && p >= 0 && Abs(a) == p + r && 0 <= r < Abs(b) && m == if a >= 0 then p else -p
    ensures Abs(a - m) < Abs(b) && (a - m == 0 || (a - m > 0 <==> a > 0))
  {
  }

  lemma Signs(b: int, q: int)
    ensures b * -q == -(b * q) && -b * q == -(b * q)
    ensures q >= 0 ==> if b > 0 then b * q >= 0 else b * q <= 0
  {
  }

  lemma DivisionUnique(a: int, b: int, q: int, r: int, d: int, s: int)
    requires b != 0 && Divided(a, b, q, r) && Divided(a, b, d, s)
    ensures q == d && r == s
  {
    assert b * (q - d) == s - r;
    assert Abs(s - r) < Abs(b);
    Far(b, q - d);
  }

  lemma Far(b: int, k: int)
    ensures k != 0 ==> Abs(b * k) >= Abs(b)
  {
    if k >= 1 {
      assert b * k == b + b * (k - 1);
      if b >= 0 { assert b * (k - 1) >= 0; } else { assert b * (k - 1) <= 0; }
    } else if k <= -1 {
      assert b * k == -b + b * (k + 1);
      if b >= 0 { assert b * (k + 1) <= 0; } else { assert b * (k + 1) >= 0; }
    }
  }

  // ---- bits ---------------------------------------------------------------

  /** Each bit of the combination is the combination of the bits. */
  lemma {:induction false} CombinedBit(op: Bitwise, a: int, b: int, n: nat, k: nat)
    requires k < n
    ensures Combined(op, a, b, n) < Pow2(n)
    ensures Bit(Combined(op, a, b, n), k) <==> Combine(op, Bit(a, k), Bit(b, k))
    decreases n
  {
    hide Bit, Combine, Pow2;
    var c, top := Combined(op, a, b, n - 1), Combine(op, Bit(a, n - 1), Bit(b, n - 1));
    CombinedBelow(op, a, b, n - 1);
    Doubles(n - 1);
    if k < n - 1 {
      CombinedBit(op, a, b, n - 1, k);
      if top { HigherBit(c, n - 1, k); }
    } else {
      TopBit(c, k, top);
    }
  }

  lemma Doubles(n: nat)
    ensures Pow2(n + 1) == 2 * Pow2(n)
  {
  }

  lemma {:induction false} CombinedBelow(op: Bitwise, a: int, b: int, n: nat)
    ensures Combined(op, a, b, n) < Pow2(n)
  {
    if n > 0 { CombinedBelow(op, a, b, n - 1); }
  }

  /** Adding a higher power changes no lower bit. */
  lemma HigherBit(c: nat, n: nat, k: nat)
    requires k < n
    ensures Bit(c + Pow2(n), k) <==> Bit(c, k)
  {
    hide Pow2;
    var p, m := Pow2(k), Pow2(n - k - 1);
    Pow2Adds(k, n - k);
    Doubles(n - k - 1);
    assert Pow2(n) == p * (2 * m);
    Shifted(c, p, 2 * m);
  }

  lemma Shifted(c: nat, p: int, m: int)
    requires p >= 1
    ensures (c + p * m) / p == c / p + m
  {
    var q, r := c / p, c % p;
    assert c + p * m == p * (q + m) + r by { assert p * (q + m) == p * q + p * m; }
    ModUnique(c + p * m, p, q + m, r);
  }

  lemma TopBit(c: nat, k: nat, top: bool)
    requires c < Pow2(k)
    ensures Bit(if top then c + Pow2(k) else c, k) <==> top
  {
    hide Pow2;
    var p := Pow2(k);
    ModUnique(c, p, 0, c);
    Shifted(c, p, 1);
  }
}
