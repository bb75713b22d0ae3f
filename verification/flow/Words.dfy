/** Sixty-four-bit words as sets of bit positions. */
module Words {
  type Word = bv64

  type Pos = i: nat | i < 64

  function WAnd(x: Word, y: Word): Word { x & y }

  function WOr(x: Word, y: Word): Word { x | y }

  function WAndNot(x: Word, y: Word): Word { x & !y }

  function Mask(k: Pos): Word { 1 << k }

  predicate Bit(x: Word, k: Pos) { WAnd(x, Mask(k)) != 0 }

  // ---- laws of the word operations ----------------------------------------

  lemma Spread(x: Word, y: Word, m: Word, a: Word, b: Word, c: Word)
    requires a == WOr(x, y) && b == WAnd(x, m) && c == WAnd(y, m)
    ensures a & m == b | c
  {
  }

  lemma Raw(x: Word, y: Word)
    ensures WAnd(x, y) == x & y == WAnd(y, x) && WOr(x, y) == x | y
  {
  }

  lemma OrSpread(x: Word, y: Word, m: Word)
    ensures WAnd(WOr(x, y), m) == WOr(WAnd(x, m), WAnd(y, m))
  {
    hide *;
    Spread(x, y, m, WOr(x, y), WAnd(x, m), WAnd(y, m));
    Raw(WOr(x, y), m);
    Raw(WAnd(x, m), WAnd(y, m));
  }

  lemma AndSpread(x: Word, y: Word, m: Word)
    ensures WAnd(WAnd(x, y), m) == WAnd(WAnd(x, m), WAnd(y, m))
  {
  }

  lemma ClearSpread(x: Word, y: Word, m: Word)
    ensures WAnd(WAndNot(x, y), m) == WAnd(x, WAndNot(m, y))
  {
  }

  lemma Cut(x: Word, y: Word, m: Word)
    ensures WAnd(m, WOr(x, y)) == WOr(WAnd(m, x), WAnd(m, y))
  {
    hide *;
    OrSpread(x, y, m);
    Raw(m, WOr(x, y));
    Raw(m, x);
    Raw(m, y);
  }

  lemma Units(x: Word)
    ensures WOr(x, 0) == x && WOr(0, x) == x && WAnd(x, 0) == 0 && WAnd(0, x) == 0
    ensures WAnd(x, x) == x && WAnd(x, 0xFFFF_FFFF_FFFF_FFFF) == x && WAndNot(x, x) == 0
  {
  }

  lemma OrSelf(x: Word, m: Word)
    ensures WOr(WAnd(x, m), m) == m
  {
  }

  lemma Disjoint(m: Word, n: Word)
    requires WAnd(m, n) == 0
    ensures WAndNot(n, m) == n
  {
  }

  // ---- single-bit masks ---------------------------------------------------

  /** A position as the shift amount the machine uses, and the word it shifts to. */
  function Amount(k: Pos): bv6 { k as bv6 }

  function Number(b: bv6): Pos { b as nat }

  function Next(b: bv6): bv6 { b + 1 }

  function Shift(b: bv6): Word { 1 << b }

  lemma ShiftsApart(j: bv6, k: bv6)
    ensures j != k ==> WAnd(Shift(j), Shift(k)) == 0
    ensures Shift(j) != 0
  {
  }

  lemma MaskIs(j: Pos)
    ensures Number(Amount(j)) == j
    ensures Mask(j) == Shift(Amount(j))
  {
  }

  lemma MasksApart(j: Pos, k: Pos)
    ensures j != k ==> WAnd(Mask(j), Mask(k)) == 0
    ensures Mask(j) != 0
  {
    hide *;
    MaskIs(j);
    MaskIs(k);
    ShiftsApart(Amount(j), Amount(k));
  }

  lemma ShiftCuts(x: Word, j: bv6)
    ensures WAnd(x, Shift(j)) == 0 || WAnd(x, Shift(j)) == Shift(j)
  {
  }

  /** A one-bit mask cuts a word to nothing or to the mask. */
  lemma MaskCuts(x: Word, j: Pos)
    ensures WAnd(x, Mask(j)) == if Bit(x, j) then Mask(j) else 0
  {
    hide WAnd, Mask, Shift, Amount;
    MaskIs(j);
    ShiftCuts(x, Amount(j));
  }

  // ---- the operations on bits ---------------------------------------------

  lemma SetBit(x: Word, k: Pos, j: Pos)
    ensures Bit(WOr(x, Mask(k)), j) <==> j == k || Bit(x, j)
    ensures Bit(WAndNot(x, Mask(k)), j) <==> j != k && Bit(x, j)
  {
    hide WAnd, WOr, WAndNot, Mask;
    MasksApart(k, j);
    OrSpread(x, Mask(k), Mask(j));
    ClearSpread(x, Mask(k), Mask(j));
    Units(WAnd(x, Mask(j)));
    Units(Mask(j));
    Units(x);
    OrSelf(x, Mask(j));
    if j != k { Disjoint(Mask(k), Mask(j)); }
  }

  lemma AndBit(x: Word, y: Word, j: Pos)
    ensures Bit(WAnd(x, y), j) <==> Bit(x, j) && Bit(y, j)
  {
    hide WAnd, Mask;
    MaskCuts(x, j);
    MaskCuts(y, j);
    MasksApart(j, j);
    AndSpread(x, y, Mask(j));
    Units(Mask(j));
    Units(0);
  }

  lemma NoBits(j: Pos)
    ensures !Bit(0, j)
  {
    hide WAnd, Mask;
    Units(Mask(j));
  }

  // ---- two words with the same bits are the same word ---------------------

  /** The k lowest bits. */
  function Low(k: nat): Word
    requires k <= 64
  {
    if k == 0 then 0 else WOr(Low(k - 1), Mask(k - 1))
  }

  /** All bits below a position. */
  function Below(b: bv6): Word { Shift(b) - 1 }

  lemma BelowNext(b: bv6)
    ensures WOr(Below(b), Shift(b)) == if b == 63 then 0xFFFF_FFFF_FFFF_FFFF else Below(Next(b))
  {
  }

  lemma BelowNone()
    ensures Below(0) == 0
  {
  }

  lemma NextNumber(b: bv6)
    ensures b != 63 ==> Number(Next(b)) == Number(b) + 1
    ensures b == 63 <==> Number(b) == 63
  {
  }

  lemma SameNumber(b: bv6, c: bv6)
    requires Number(b) == Number(c)
    ensures b == c
  {
  }

  lemma NextAmount(k: Pos)
    requires k > 0
    ensures Next(Amount(k - 1)) == Amount(k) && Amount(k - 1) != 63
  {
    hide *;
    MaskIs(k - 1);
    MaskIs(k);
    NextNumber(Amount(k - 1));
    SameNumber(Next(Amount(k - 1)), Amount(k));
  }

  lemma AmountEnds()
    ensures Amount(0) == 0 && Amount(63) == 63
  {
  }

  lemma {:induction false} LowIs(k: nat)
    requires k <= 63
    ensures Low(k) == Below(Amount(k))
  {
    hide WOr, Mask, Shift, Below, Amount, Next;
    if k == 0 {
      AmountEnds();
      BelowNone();
    } else {
      LowIs(k - 1);
      MaskIs(k - 1);
      BelowNext(Amount(k - 1));
      NextAmount(k);
    }
  }

  lemma LowAll()
    ensures Low(64) == 0xFFFF_FFFF_FFFF_FFFF
  {
    hide WOr, Mask, Shift, Below, Amount, Next;
    LowIs(63);
    MaskIs(63);
    AmountEnds();
    BelowNext(63);
  }

  lemma {:induction false} SameLow(x: Word, y: Word, k: nat)
    requires k <= 64 && forall j: Pos :: Bit(x, j) <==> Bit(y, j)
    ensures WAnd(x, Low(k)) == WAnd(y, Low(k))
  {
    hide Mask, Bit, WAnd, WOr;
    if k == 0 {
      Units(x);
      Units(y);
    } else {
      SameLow(x, y, k - 1);
      MaskCuts(x, k - 1);
      MaskCuts(y, k - 1);
      Cut(Low(k - 1), Mask(k - 1), x);
      Cut(Low(k - 1), Mask(k - 1), y);
    }
  }

  lemma SameBits(x: Word, y: Word)
    requires forall j: Pos :: Bit(x, j) <==> Bit(y, j)
    ensures x == y
  {
    hide Mask, Bit, WAnd, WOr, Low;
    SameLow(x, y, 64);
    LowAll();
    Units(x);
    Units(y);
  }
}
