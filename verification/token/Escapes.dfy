/** Unicode escape translation and the two-way map between source and translated offsets. */
module Escapes {

  type byte = x: int | 0 <= x < 0x100

  datatype Option<T> = None | Some(value: T)

  const BACKSLASH: byte := 0x5c
  const LOWER_U: byte := 0x75

  // ---- one escape ---------------------------------------------------------

  function HexVal(c: byte): int {
    if 0x30 <= c <= 0x39 then c - 0x30
    else if 0x61 <= c <= 0x66 then c - 0x61 + 10
    else if 0x41 <= c <= 0x46 then c - 0x41 + 10
    else -1
  }

  /** The first index from k on that holds no u. */
  function AfterUs(raw: seq<byte>, k: nat): (r: nat)
    requires k <= |raw|
    ensures k <= r <= |raw| && (r < |raw| ==> raw[r] != LOWER_U)
    decreases |raw| - k
  {
    if k < |raw| && raw[k] == LOWER_U then AfterUs(raw, k + 1) else k
  }

  /** Four hexadecimal digits. */
  function Hex4(raw: seq<byte>, k: nat): Option<nat>
    requires k + 4 <= |raw|
  {
    var a, b, c, d := HexVal(raw[k]), HexVal(raw[k + 1]), HexVal(raw[k + 2]), HexVal(raw[k + 3]);
    if a < 0 || b < 0 || c < 0 || d < 0 then None else Some(0x1000 * a + 0x100 * b + 0x10 * c + d)
  }

  /** A backslash, one or more u, four digits: the code unit and the offset after it. */
  function DecodeEscape(raw: seq<byte>, i: nat): (r: Option<(nat, nat)>)
    requires i < |raw|
    ensures r.Some? ==> i + 6 <= r.value.1 <= |raw| && r.value.0 < 0x1_0000 && raw[i + 1] == LOWER_U
    ensures r.Some? ==> raw[r.value.1 - 1] != BACKSLASH
  {
    var k := AfterUs(raw, i + 1);
    if k == i + 1 || k + 4 > |raw| then None
    else match Hex4(raw, k)
      case None => None
      case Some(v) => Some((v, k + 4))
  }

  predicate High(r: nat) { 0xD800 <= r <= 0xDBFF }

  predicate Low(r: nat) { 0xDC00 <= r <= 0xDFFF }

  /** An escape with the adjacent low surrogate that completes it, as one code point. */
  function Paired(raw: seq<byte>, i: nat): (r: Option<(nat, nat)>)
    requires i < |raw|
    ensures r.Some? ==> i + 6 <= r.value.1 <= |raw| && r.value.0 <= 0x10_FFFF && raw[i + 1] == LOWER_U
  {
    match DecodeEscape(raw, i)
    case None => None
    case Some(e) =>
      if High(e.0) && e.1 < |raw| && raw[e.1] == BACKSLASH && DecodeEscape(raw, e.1).Some? && Low(DecodeEscape(raw, e.1).value.0) then
        var lo := DecodeEscape(raw, e.1).value;
        Some((0x1_0000 + (e.0 - 0xD800) * 0x400 + (lo.0 - 0xDC00), lo.1))
      else Some(e)
  }

  // ---- what the digits mean -----------------------------------------------

  const LOWER_DIGITS: seq<byte> := [0x30, 0x31, 0x32, 0x33, 0x34, 0x35, 0x36, 0x37, 0x38, 0x39, 0x61, 0x62, 0x63, 0x64, 0x65, 0x66]

  const UPPER_DIGITS: seq<byte> := [0x30, 0x31, 0x32, 0x33, 0x34, 0x35, 0x36, 0x37, 0x38, 0x39, 0x41, 0x42, 0x43, 0x44, 0x45, 0x46]

  /** The digit of sixteen, 0 to 9 and a to f in either case. */
  function HexDigit(x: nat, upper: bool): byte
    requires x < 16
  {
    if upper then UPPER_DIGITS[x] else LOWER_DIGITS[x]
  }

  datatype Cases = Cases(a: bool, b: bool, c: bool, d: bool)

  /** A code unit in four hexadecimal digits, most significant first. */
  function Printed(v: nat, u: Cases): seq<byte>
    requires v < 0x1_0000
  {
    [HexDigit(v / 0x1000, u.a), HexDigit(v / 0x100 % 16, u.b), HexDigit(v / 0x10 % 16, u.c), HexDigit(v % 16, u.d)]
  }

  lemma HexValIs(c: byte, x: nat)
    requires x < 16
    ensures HexVal(c) == x <==> c == HexDigit(x, false) || c == HexDigit(x, true)
    ensures -1 <= HexVal(c) < 16
  {
  }

  lemma Nibbles(v: nat, a: nat, b: nat, c: nat, d: nat)
    requires a < 16 && b < 16 && c < 16 && d < 16 && v == 0x1000 * a + 0x100 * b + 0x10 * c + d
    ensures v < 0x1_0000 && v / 0x1000 == a && v / 0x100 % 16 == b && v / 0x10 % 16 == c && v % 16 == d
  {
    assert v / 0x100 == 16 * a + b && v / 0x10 == 16 * (16 * a + b) + c;
  }

  /** Four bytes are read as a code unit if and only if they are the unit printed, each digit in whichever case. */
  lemma Hex4Exactly(raw: seq<byte>, k: nat, v: nat)
    requires k + 4 <= |raw|
    ensures Hex4(raw, k) == Some(v) <==> v < 0x1_0000 && exists u: Cases :: raw[k..k + 4] == Printed(v, u)
  {
    hide HexVal, HexDigit;
    if Hex4(raw, k) == Some(v) {
      HexReads(raw, k, v);
    }
    if v < 0x1_0000 {
      if u: Cases :| raw[k..k + 4] == Printed(v, u) {
        var p := Printed(v, u);
        forall j | 0 <= j < 4 ensures raw[k + j] == p[j] { assert raw[k..k + 4][j] == p[j]; }
        HexValIs(raw[k], v / 0x1000);
        HexValIs(raw[k + 1], v / 0x100 % 16);
        HexValIs(raw[k + 2], v / 0x10 % 16);
        HexValIs(raw[k + 3], v % 16);
        Sum16(v);
      }
    }
  }

  lemma Sum16(v: nat)
    ensures v == 0x1000 * (v / 0x1000) + 0x100 * (v / 0x100 % 16) + 0x10 * (v / 0x10 % 16) + v % 16
  {
    var a, b, c := v / 0x10, v / 0x100, v / 0x1000;
    assert v == 16 * a + v % 16;
    assert a / 16 == b && a == 16 * b + a % 16;
    assert b / 16 == c && b == 16 * c + b % 16;
  }

  lemma HexReads(raw: seq<byte>, k: nat, v: nat)
    requires k + 4 <= |raw| && Hex4(raw, k) == Some(v)
    ensures v < 0x1_0000 && exists u: Cases :: raw[k..k + 4] == Printed(v, u)
  {
    hide HexVal, HexDigit;
    var a, b, c, d := HexVal(raw[k]), HexVal(raw[k + 1]), HexVal(raw[k + 2]), HexVal(raw[k + 3]);
    HexValIs(raw[k], 0);
    HexValIs(raw[k + 1], 0);
    HexValIs(raw[k + 2], 0);
    HexValIs(raw[k + 3], 0);
    Nibbles(v, a, b, c, d);
    HexValIs(raw[k], a);
    HexValIs(raw[k + 1], b);
    HexValIs(raw[k + 2], c);
    HexValIs(raw[k + 3], d);
    var u := Cases(raw[k] == HexDigit(a, true), raw[k + 1] == HexDigit(b, true), raw[k + 2] == HexDigit(c, true), raw[k + 3] == HexDigit(d, true));
    assert raw[k..k + 4] == Printed(v, u);
  }

  function Lead(mark: nat, x: nat): byte
    requires mark + x < 0x100
  {
    mark + x
  }

  function Trail(x: nat): byte { 0x80 + x % 0x40 }

  /** UTF-8, with a lone surrogate in three bytes. */
  function Encode(r: nat): (w: seq<byte>)
    requires r <= 0x10_FFFF
    ensures 1 <= |w| <= 4
  {
    if r < 0x80 then [r]
    else if r < 0x800 then [Lead(0xC0, r / 0x40), Trail(r)]
    else if r < 0x1_0000 then [Lead(0xE0, r / 0x1000), Trail(r / 0x40), Trail(r)]
    else [Lead(0xF0, r / 0x4_0000), Trail(r / 0x1000), Trail(r / 0x40), Trail(r)]
  }

  /** What four or fewer UTF-8 bytes stand for. */
  function Decode8(w: seq<byte>): int
    requires 1 <= |w| <= 4
  {
    if |w| == 1 then w[0]
    else if |w| == 2 then (w[0] as int - 0xC0) * 0x40 + (w[1] as int - 0x80)
    else if |w| == 3 then (w[0] as int - 0xE0) * 0x1000 + (w[1] as int - 0x80) * 0x40 + (w[2] as int - 0x80)
    else (w[0] as int - 0xF0) * 0x4_0000 + (w[1] as int - 0x80) * 0x1000 + (w[2] as int - 0x80) * 0x40 + (w[3] as int - 0x80)
  }

  /** No code point, lone surrogates included, is lost or confused with another. */
  lemma EncodeDecodes(r: nat)
    requires r <= 0x10_FFFF
    ensures Decode8(Encode(r)) == r
  {
    var a, b, c := r / 0x40, r / 0x1000, r / 0x4_0000;
    assert r == 0x40 * a + r % 0x40;
    assert a / 0x40 == b && a == 0x40 * b + a % 0x40;
    assert b / 0x40 == c && b == 0x40 * c + b % 0x40;
  }

  /** The first and second code unit of a code point above the first plane, as UTF-16 has them. */
  function Units(r: nat): (nat, nat)
    requires 0x1_0000 <= r <= 0x10_FFFF
  {
    (0xD800 + (r - 0x1_0000) / 0x400, 0xDC00 + (r - 0x1_0000) % 0x400)
  }

  /** Two adjacent escapes are one code point if and only if they are its two units; any other escape is its own unit. */
  lemma PairedExactly(raw: seq<byte>, i: nat, r: nat)
    requires i < |raw| && DecodeEscape(raw, i).Some?
    ensures var e := DecodeEscape(raw, i).value;
            var two := e.1 < |raw| && raw[e.1] == BACKSLASH && DecodeEscape(raw, e.1).Some?;
            && (two ==> var lo := DecodeEscape(raw, e.1).value;
                 0x1_0000 <= r <= 0x10_FFFF ==> (Paired(raw, i) == Some((r, lo.1)) <==> (e.0, lo.0) == Units(r)))
            && (r < 0x1_0000 ==> (Paired(raw, i) == Some((r, e.1)) <==> e.0 == r && !(two && High(r) && Low(DecodeEscape(raw, e.1).value.0))))
  {
    hide DecodeEscape;
  }

  /** One byte below 0x80, else a lead byte that tells the length and trail bytes, as section 4 of RFC 3629 has them, surrogates apart. */
  lemma EncodeForm(r: nat)
    requires r <= 0x10_FFFF
    ensures var w := Encode(r);
            && |w| == (if r < 0x80 then 1 else if r < 0x800 then 2 else if r < 0x1_0000 then 3 else 4)
            && (if |w| == 1 then w[0] < 0x80 else if |w| == 2 then 0xC2 <= w[0] < 0xE0 else if |w| == 3 then 0xE0 <= w[0] < 0xF0 else 0xF0 <= w[0] < 0xF5)
            && forall k :: 1 <= k < |w| ==> 0x80 <= w[k] < 0xC0
  {
  }

  // ---- the recursive reading of section 3.3 -------------------------------

  /** A source byte kept as it is, or an escape and the bytes it stands for. */
  datatype Piece = Copied(b: byte) | Escaped(len: nat, out: seq<byte>)

  /** even: an even number of contiguous backslashes stands right before i. */
  function Read(raw: seq<byte>, i: nat, even: bool): (r: seq<Piece>)
    requires i <= |raw|
    decreases |raw| - i
  {
    if i == |raw| then []
    else if raw[i] != BACKSLASH then [Copied(raw[i])] + Read(raw, i + 1, true)
    else if even && i + 1 < |raw| && raw[i + 1] == LOWER_U then
      match Paired(raw, i)
      case None => [Copied(BACKSLASH)] + Read(raw, i + 1, true)
      case Some(e) => [Escaped(e.1 - i, Encode(e.0))] + Read(raw, e.1, true)
    else [Copied(BACKSLASH)] + Read(raw, i + 1, !even)
  }

  function Out(p: Piece): seq<byte> { match p case Copied(b) => [b] case Escaped(_, out) => out }

  function Len(p: Piece): nat { match p case Copied(_) => 1 case Escaped(len, _) => len }

  function Text(ps: seq<Piece>): seq<byte> { if ps == [] then [] else Out(ps[0]) + Text(ps[1..]) }

  datatype Edit = Edit(tOff: nat, tLen: nat, rOff: nat, rLen: nat)

  /** Where the escapes lie in both texts. */
  function Edits(ps: seq<Piece>, t: nat, r: nat): seq<Edit>
    decreases |ps|
  {
    if ps == [] then []
    else (if ps[0].Escaped? then [Edit(t, |Out(ps[0])|, r, Len(ps[0]))] else []) + Edits(ps[1..], t + |Out(ps[0])|, r + Len(ps[0]))
  }

  // ---- the loop -----------------------------------------------------------

  function Copies(bs: seq<byte>): (r: seq<Piece>)
    ensures |r| == |bs|
  {
    seq(|bs|, k requires 0 <= k < |bs| => Copied(bs[k]))
  }

  predicate AllBackslash(raw: seq<byte>, i: nat, j: nat)
    requires i <= j <= |raw|
  {
    forall k :: i <= k < j ==> raw[k] == BACKSLASH
  }

  /** Backslashes that no escape follows are copied, whatever their parity. */
  lemma {:induction false} RunCopied(raw: seq<byte>, i: nat, j: nat, even: bool)
    requires i <= j <= |raw| && AllBackslash(raw, i, j) && (j < |raw| ==> raw[j] != BACKSLASH)
    requires j == |raw| || raw[j] != LOWER_U || (j - i) % 2 == (if even then 0 else 1)
    ensures Read(raw, i, even) == Copies(raw[i..j]) + Read(raw, j, true)
    decreases j - i
  {
    hide Read;
    if i == j {
      SameAtRunEnd(raw, j, even);
      assert raw[i..j] == [];
      assert Copies([]) + Read(raw, j, true) == Read(raw, j, true);
    } else {
      ReadBackslash(raw, i, even);
      RunCopied(raw, i + 1, j, !even);
      CopiesFirst(raw, i, j);
      assert [Copied(BACKSLASH)] + (Copies(raw[i + 1..j]) + Read(raw, j, true)) == [Copied(BACKSLASH)] + Copies(raw[i + 1..j]) + Read(raw, j, true);
    }
  }

  /** A backslash that begins no escape is copied and flips the parity. */
  lemma ReadBackslash(raw: seq<byte>, i: nat, even: bool)
    requires i < |raw| && raw[i] == BACKSLASH && (!even || i + 1 == |raw| || raw[i + 1] != LOWER_U)
    ensures Read(raw, i, even) == [Copied(BACKSLASH)] + Read(raw, i + 1, !even)
  {
    hide Paired;
  }

  lemma SameAtRunEnd(raw: seq<byte>, j: nat, even: bool)
    requires j <= |raw| && (j < |raw| ==> raw[j] != BACKSLASH)
    ensures Read(raw, j, even) == Read(raw, j, true)
  {
    hide Paired;
  }

  lemma CopiesFirst(raw: seq<byte>, i: nat, j: nat)
    requires i < j <= |raw|
    ensures Copies(raw[i..j]) == [Copied(raw[i])] + Copies(raw[i + 1..j])
  {
    assert raw[i..j] == [raw[i]] + raw[i + 1..j];
  }

  /** In an odd run before a u, all but the last backslash are copied and the last begins an escape. */
  lemma {:induction false} RunEscapes(raw: seq<byte>, i: nat, j: nat, even: bool)
    requires i < j < |raw| && AllBackslash(raw, i, j) && raw[j] == LOWER_U && (j - i) % 2 == (if even then 1 else 0)
    ensures Read(raw, i, even) == Copies(raw[i..j - 1]) + Read(raw, j - 1, true)
    decreases j - i
  {
    hide Read;
    if i == j - 1 {
      assert raw[i..j - 1] == [];
      assert Copies([]) + Read(raw, i, true) == Read(raw, i, true);
    } else {
      ReadBackslash(raw, i, even);
      RunEscapes(raw, i + 1, j, !even);
      CopiesFirst(raw, i, j - 1);
      assert [Copied(BACKSLASH)] + (Copies(raw[i + 1..j - 1]) + Read(raw, j - 1, true))
             == [Copied(BACKSLASH)] + Copies(raw[i + 1..j - 1]) + Read(raw, j - 1, true);
    }
  }

  lemma {:induction false} TextJoins(a: seq<Piece>, b: seq<Piece>)
    ensures Text(a + b) == Text(a) + Text(b) && Span(a + b) == Span(a) + Span(b)
    decreases |a|
  {
    if a == [] {
      assert a + b == b;
    } else {
      assert (a + b)[1..] == a[1..] + b;
      TextJoins(a[1..], b);
    }
  }

  lemma {:induction false} EditsJoin(a: seq<Piece>, b: seq<Piece>, t: nat, r: nat)
    ensures Edits(a + b, t, r) == Edits(a, t, r) + Edits(b, t + |Text(a)|, r + Span(a))
    decreases |a|
  {
    hide Out, Len;
    if a == [] {
      assert a + b == b;
    } else {
      assert (a + b)[0] == a[0] && (a + b)[1..] == a[1..] + b;
      var u, q := t + |Out(a[0])|, r + Len(a[0]);
      EditsJoin(a[1..], b, u, q);
      var head := if a[0].Escaped? then [Edit(t, |Out(a[0])|, r, Len(a[0]))] else [];
      assert Edits(a + b, t, r) == head + Edits(a[1..] + b, u, q);
      assert Edits(a, t, r) == head + Edits(a[1..], u, q);
      assert u + |Text(a[1..])| == t + |Text(a)| && q + Span(a[1..]) == r + Span(a);
    }
  }

  /** Source bytes a list of pieces covers. */
  function Span(ps: seq<Piece>): nat { if ps == [] then 0 else Len(ps[0]) + Span(ps[1..]) }

  lemma {:induction false} CopiesMean(bs: seq<byte>, t: nat, r: nat)
    ensures Text(Copies(bs)) == bs && Edits(Copies(bs), t, r) == [] && Span(Copies(bs)) == |bs|
    decreases |bs|
  {
    if bs != [] {
      assert Copies(bs)[1..] == Copies(bs[1..]);
      CopiesMean(bs[1..], t + 1, r + 1);
    }
  }

  lemma OnePiece(p: Piece, t: nat, r: nat)
    ensures Text([p]) == Out(p) && Span([p]) == Len(p)
    ensures Edits([p], t, r) == if p.Escaped? then [Edit(t, |Out(p)|, r, Len(p))] else []
  {
    assert Text([]) == [] && Span([]) == 0;
  }

  /** What one step of the loop appended. */
  lemma Appended(done: seq<Piece>, ps: seq<Piece>)
    ensures Text(done + ps) == Text(done) + Text(ps) && Span(done + ps) == Span(done) + Span(ps)
    ensures Edits(done + ps, 0, 0) == Edits(done, 0, 0) + Edits(ps, |Text(done)|, Span(done))
  {
    TextJoins(done, ps);
    EditsJoin(done, ps, 0, 0);
  }

  /** The loop has read up to i: these pieces, this text and these edits. */
  ghost predicate Reached(raw: seq<byte>, i: nat, done: seq<Piece>, text: seq<byte>, edits: seq<Edit>) {
    i <= |raw| && Read(raw, 0, true) == done + Read(raw, i, true) && text == Text(done) && edits == Edits(done, 0, 0) && Span(done) == i
  }

  lemma Advance(raw: seq<byte>, i: nat, j: nat, done: seq<Piece>, ps: seq<Piece>, text: seq<byte>, edits: seq<Edit>)
    requires Reached(raw, i, done, text, edits) && j <= |raw| && Read(raw, i, true) == ps + Read(raw, j, true) && Span(ps) == j - i
    ensures Reached(raw, j, done + ps, text + Text(ps), edits + Edits(ps, |text|, i))
  {
    hide Text, Edits, Span, Read;
    Step(done, ps, Read(raw, j, true));
  }

  /** The run-at-a-time loop computes the recursive reading, and records its escapes. */
  method Translate(raw: seq<byte>) returns (text: seq<byte>, edits: seq<Edit>)
    ensures text == Text(Read(raw, 0, true)) && edits == Edits(Read(raw, 0, true), 0, 0)
  {
    hide Text, Edits, Span, Copies, Paired, Encode, Read, Reached;
    text, edits := [], [];
    var i := 0;
    ghost var done: seq<Piece> := [];
    Begins(raw);
    while i < |raw|
      invariant i <= |raw| && Reached(raw, i, done, text, edits)
      decreases |raw| - i
    {
      if raw[i] != BACKSLASH {
        ReadPlain(raw, i);
        OnePiece(Copied(raw[i]), |text|, i);
        Advance(raw, i, i + 1, done, [Copied(raw[i])], text, edits);
        done := done + [Copied(raw[i])];
        assert edits + [] == edits;
        text := text + [raw[i]];
        i := i + 1;
        continue;
      }
      var j := i;
      while j < |raw| && raw[j] == BACKSLASH
        invariant i <= j <= |raw| && AllBackslash(raw, i, j)
      {
        j := j + 1;
      }
      var escaped := (j - i) % 2 == 1 && j < |raw| && raw[j] == LOWER_U;
      var k := if escaped then j - 1 else j;
      if escaped { RunEscapes(raw, i, j, true); } else { RunCopied(raw, i, j, true); }
      CopiesMean(raw[i..k], |text|, i);
      Advance(raw, i, k, done, Copies(raw[i..k]), text, edits);
      done := done + Copies(raw[i..k]);
      assert edits + [] == edits;
      text := text + raw[i..k];
      i := k;
      if escaped {
        ReadEscape(raw, i);
        var e := Paired(raw, i);
        if e.None? {
          OnePiece(Copied(BACKSLASH), |text|, i);
          Advance(raw, i, i + 1, done, [Copied(BACKSLASH)], text, edits);
          done := done + [Copied(BACKSLASH)];
          assert edits + [] == edits;
          text := text + [BACKSLASH];
          i := i + 1;
        } else {
          ghost var p := Escaped(e.value.1 - i, Encode(e.value.0));
          OnePiece(p, |text|, i);
          Advance(raw, i, e.value.1, done, [p], text, edits);
          done := done + [p];
          edits := edits + [Edit(|text|, |Encode(e.value.0)|, i, e.value.1 - i)];
          text := text + Encode(e.value.0);
          i := e.value.1;
        }
      }
    }
    ReadEnd(raw);
    Whole(raw, done, text, edits);
  }

  lemma Begins(raw: seq<byte>)
    ensures Reached(raw, 0, [], [], [])
  {
    EmptyPieces();
  }

  lemma Whole(raw: seq<byte>, done: seq<Piece>, text: seq<byte>, edits: seq<Edit>)
    requires Reached(raw, |raw|, done, text, edits)
    ensures text == Text(Read(raw, 0, true)) && edits == Edits(Read(raw, 0, true), 0, 0)
  {
    hide Text, Edits, Span;
    ReadEnd(raw);
    assert done + [] == done;
  }

  lemma EmptyPieces()
    ensures Text([]) == [] && Edits([], 0, 0) == [] && Span([]) == 0 && forall ps: seq<Piece> :: [] + ps == ps
  {
  }

  lemma Step(done: seq<Piece>, ps: seq<Piece>, rest: seq<Piece>)
    ensures done + (ps + rest) == (done + ps) + rest
    ensures Text(done + ps) == Text(done) + Text(ps) && Span(done + ps) == Span(done) + Span(ps)
    ensures Edits(done + ps, 0, 0) == Edits(done, 0, 0) + Edits(ps, |Text(done)|, Span(done))
  {
    hide Text, Edits, Span;
    Appended(done, ps);
  }

  lemma ReadPlain(raw: seq<byte>, i: nat)
    requires i < |raw| && raw[i] != BACKSLASH
    ensures Read(raw, i, true) == [Copied(raw[i])] + Read(raw, i + 1, true)
  {
  }

  lemma ReadEscape(raw: seq<byte>, i: nat)
    requires i + 1 < |raw| && raw[i] == BACKSLASH && raw[i + 1] == LOWER_U
    ensures Paired(raw, i).None? ==> Read(raw, i, true) == [Copied(BACKSLASH)] + Read(raw, i + 1, true)
    ensures Paired(raw, i).Some? ==>
              var e := Paired(raw, i).value; Read(raw, i, true) == [Escaped(e.1 - i, Encode(e.0))] + Read(raw, e.1, true)
  {
  }

  lemma ReadEnd(raw: seq<byte>)
    ensures Read(raw, |raw|, true) == []
  {
  }

  // ---- the map ------------------------------------------------------------

  /** The source offset of a translated offset: an offset inside an escape's output is its backslash. */
  function StartOf(ps: seq<Piece>, t: nat, r: nat): nat
    decreases |ps|
  {
    if ps == [] then r + t
    else if t < |Out(ps[0])| then r
    else StartOf(ps[1..], t - |Out(ps[0])|, r + Len(ps[0]))
  }

  /** The source offset of an end: an end inside an escape's output is the end of the escape. */
  function EndOf(ps: seq<Piece>, t: nat, r: nat): nat
    decreases |ps|
  {
    if t == 0 then r
    else if ps == [] then r + t
    else if t <= |Out(ps[0])| then r + Len(ps[0])
    else EndOf(ps[1..], t - |Out(ps[0])|, r + Len(ps[0]))
  }

  /** Pieces as translation makes them: none empty. */
  predicate Solid(ps: seq<Piece>) { forall k :: 0 <= k < |ps| ==> |Out(ps[k])| >= 1 && Len(ps[k]) >= 1 && (ps[k].Escaped? ==> Len(ps[k]) >= 6) }

  lemma {:induction false} ReadSolid(raw: seq<byte>, i: nat, even: bool)
    requires i <= |raw|
    ensures Solid(Read(raw, i, even)) && Span(Read(raw, i, even)) == |raw| - i
    decreases |raw| - i
  {
    if i < |raw| {
      if raw[i] != BACKSLASH {
        ReadSolid(raw, i + 1, true);
      } else if even && i + 1 < |raw| && raw[i + 1] == LOWER_U {
        match Paired(raw, i)
        case None => ReadSolid(raw, i + 1, true);
        case Some(e) => ReadSolid(raw, e.1, true);
      } else {
        ReadSolid(raw, i + 1, !even);
      }
    }
  }

  /** Walking the edits instead of the pieces. */
  function StartBy(es: seq<Edit>, t: nat, tb: nat, rb: nat): int
    decreases |es|
  {
    if es == [] || es[0].tOff > t then rb + t - tb
    else if t < es[0].tOff + es[0].tLen then es[0].rOff
    else StartBy(es[1..], t, es[0].tOff + es[0].tLen, es[0].rOff + es[0].rLen)
  }

  function EndBy(es: seq<Edit>, t: nat, tb: nat, rb: nat): int
    decreases |es|
  {
    if es == [] || es[0].tOff >= t then rb + t - tb
    else if t < es[0].tOff + es[0].tLen then es[0].rOff + es[0].rLen
    else EndBy(es[1..], t, es[0].tOff + es[0].tLen, es[0].rOff + es[0].rLen)
  }

  lemma {:induction false} EditsLater(ps: seq<Piece>, t: nat, r: nat)
    ensures forall k :: 0 <= k < |Edits(ps, t, r)| ==> Edits(ps, t, r)[k].tOff >= t
    decreases |ps|
  {
    if ps != [] { EditsLater(ps[1..], t + |Out(ps[0])|, r + Len(ps[0])); }
  }

  lemma EditsFirst(ps: seq<Piece>, t: nat, r: nat)
    requires ps != []
    ensures var rest := Edits(ps[1..], t + |Out(ps[0])|, r + Len(ps[0]));
            if ps[0].Copied? then Edits(ps, t, r) == rest
            else Edits(ps, t, r) != [] && Edits(ps, t, r)[0] == Edit(t, |Out(ps[0])|, r, Len(ps[0])) && Edits(ps, t, r)[1..] == rest
  {
  }

  /** The edits locate every offset as the pieces do. */
  lemma {:induction false} StartByIs(ps: seq<Piece>, x: nat, t: nat, r: nat)
    requires Solid(ps)
    ensures StartBy(Edits(ps, t, r), t + x, t, r) == StartOf(ps, x, r)
    decreases |ps|
  {
    if ps != [] {
      var n := |Out(ps[0])|;
      EditsLater(ps[1..], t + n, r + Len(ps[0]));
      assert Solid(ps[1..]) by { SolidTail(ps); }
      EditsFirst(ps, t, r);
      if x >= n { StartByIs(ps[1..], x - n, t + n, r + Len(ps[0])); }
    }
  }

  lemma {:induction false} EndByIs(ps: seq<Piece>, x: nat, t: nat, r: nat)
    requires Solid(ps)
    ensures EndBy(Edits(ps, t, r), t + x, t, r) == EndOf(ps, x, r)
    decreases |ps|
  {
    if ps != [] {
      var n := |Out(ps[0])|;
      EditsLater(ps[1..], t + n, r + Len(ps[0]));
      assert Solid(ps[1..]) by { SolidTail(ps); }
      EditsFirst(ps, t, r);
      if x >= n { EndByIs(ps[1..], x - n, t + n, r + Len(ps[0])); }
    } else {
      EditsLater(ps, t, r);
    }
  }

  lemma SolidTail(ps: seq<Piece>)
    requires Solid(ps) && ps != []
    ensures Solid(ps[1..]) && |Out(ps[0])| >= 1 && Len(ps[0]) >= 1
  {
    assert forall k :: 0 <= k < |ps| - 1 ==> ps[1..][k] == ps[k + 1];
  }

  /** Escapes in order, outputs disjoint. */
  predicate Sorted(es: seq<Edit>) {
    && (forall k :: 0 <= k < |es| ==> es[k].tLen >= 1)
    && forall j, k :: 0 <= j < k < |es| ==> es[j].tOff + es[j].tLen <= es[k].tOff
  }

  lemma {:induction false} EditsSorted(ps: seq<Piece>, t: nat, r: nat)
    requires Solid(ps)
    ensures Sorted(Edits(ps, t, r))
    decreases |ps|
  {
    if ps != [] {
      SolidTail(ps);
      EditsSorted(ps[1..], t + |Out(ps[0])|, r + Len(ps[0]));
      EditsLater(ps[1..], t + |Out(ps[0])|, r + Len(ps[0]));
    }
  }

  /** The last of the edits satisfying a prefix condition decides. */
  lemma {:induction false} StartByLast(es: seq<Edit>, t: nat, tb: nat, rb: nat, n: nat)
    requires Sorted(es) && n <= |es| && (forall k :: 0 <= k < n ==> es[k].tOff <= t) && (forall k :: n <= k < |es| ==> es[k].tOff > t)
    ensures StartBy(es, t, tb, rb)
            == if n == 0 then rb + t - tb
               else if t < es[n - 1].tOff + es[n - 1].tLen then es[n - 1].rOff
               else es[n - 1].rOff + es[n - 1].rLen + (t - (es[n - 1].tOff + es[n - 1].tLen))
    decreases |es|
  {
    if n > 0 {
      assert Sorted(es[1..]) by { assert forall k :: 0 <= k < |es| - 1 ==> es[1..][k] == es[k + 1]; }
      if n > 1 { assert es[0].tOff + es[0].tLen <= es[n - 1].tOff; }
      if t >= es[0].tOff + es[0].tLen { StartByLast(es[1..], t, es[0].tOff + es[0].tLen, es[0].rOff + es[0].rLen, n - 1); }
    }
  }

  lemma {:induction false} EndByLast(es: seq<Edit>, t: nat, tb: nat, rb: nat, n: nat)
    requires Sorted(es) && n <= |es| && (forall k :: 0 <= k < n ==> es[k].tOff < t) && (forall k :: n <= k < |es| ==> es[k].tOff >= t)
    ensures EndBy(es, t, tb, rb)
            == if n == 0 then rb + t - tb
               else if t < es[n - 1].tOff + es[n - 1].tLen then es[n - 1].rOff + es[n - 1].rLen
               else es[n - 1].rOff + es[n - 1].rLen + (t - (es[n - 1].tOff + es[n - 1].tLen))
    decreases |es|
  {
    if n > 0 {
      assert Sorted(es[1..]) by { assert forall k :: 0 <= k < |es| - 1 ==> es[1..][k] == es[k + 1]; }
      if n > 1 { assert es[0].tOff + es[0].tLen <= es[n - 1].tOff; }
      if t >= es[0].tOff + es[0].tLen { EndByLast(es[1..], t, es[0].tOff + es[0].tLen, es[0].rOff + es[0].rLen, n - 1); }
    }
  }

  /** How many edits lie at or before t (strictly before, for an end): a binary search. */
  method Search(es: seq<Edit>, t: nat, strict: bool) returns (n: nat)
    requires Sorted(es)
    ensures n <= |es|
    ensures forall k :: 0 <= k < n ==> if strict then es[k].tOff < t else es[k].tOff <= t
    ensures forall k :: n <= k < |es| ==> if strict then es[k].tOff >= t else es[k].tOff > t
  {
    var lo, hi := 0, |es|;
    while lo < hi
      invariant 0 <= lo <= hi <= |es|
      invariant forall k :: 0 <= k < lo ==> if strict then es[k].tOff < t else es[k].tOff <= t
      invariant forall k :: hi <= k < |es| ==> if strict then es[k].tOff >= t else es[k].tOff > t
    {
      var mid := (lo + hi) / 2;
      if (if strict then es[mid].tOff >= t else es[mid].tOff > t) { hi := mid; } else { lo := mid + 1; }
    }
    n := lo;
  }

  /** The two maps the file answers with, for any translated file. */
  method RawStart(raw: seq<byte>, es: seq<Edit>, t: nat) returns (r: int)
    requires es == Edits(Read(raw, 0, true), 0, 0)
    ensures r == StartOf(Read(raw, 0, true), t, 0)
  {
    hide Read, Edits, StartOf, Sorted, StartBy, Solid;
    ghost var ps := Read(raw, 0, true);
    ReadSolid(raw, 0, true);
    EditsSorted(ps, 0, 0);
    StartByIs(ps, t, 0, 0);
    if |es| == 0 {
      StartByLast(es, t, 0, 0, 0);
      return t;
    }
    var n := Search(es, t, false);
    StartByLast(es, t, 0, 0, n);
    if n == 0 { return t; }
    var e := es[n - 1];
    if t < e.tOff + e.tLen { return e.rOff; }
    r := e.rOff + e.rLen + (t - (e.tOff + e.tLen));
  }

  method RawEnd(raw: seq<byte>, es: seq<Edit>, t: nat) returns (r: int)
    requires es == Edits(Read(raw, 0, true), 0, 0)
    ensures r == EndOf(Read(raw, 0, true), t, 0)
  {
    hide Read, Edits, EndOf, Sorted, EndBy, Solid;
    ghost var ps := Read(raw, 0, true);
    ReadSolid(raw, 0, true);
    EditsSorted(ps, 0, 0);
    EndByIs(ps, t, 0, 0);
    if |es| == 0 {
      EndByLast(es, t, 0, 0, 0);
      return t;
    }
    var n := Search(es, t, true);
    EndByLast(es, t, 0, 0, n);
    if n == 0 { return t; }
    var e := es[n - 1];
    if t < e.tOff + e.tLen { return e.rOff + e.rLen; }
    r := e.rOff + e.rLen + (t - (e.tOff + e.tLen));
  }

  /** A span of the text as a span of the source; one given backwards is empty. */
  method RawSpan(raw: seq<byte>, es: seq<Edit>, pos: nat, end: nat) returns (a: nat, b: nat)
    requires es == Edits(Read(raw, 0, true), 0, 0)
    ensures a == StartOf(Read(raw, 0, true), pos, 0)
    ensures b == if EndOf(Read(raw, 0, true), end, 0) < a then a else EndOf(Read(raw, 0, true), end, 0)
    ensures pos <= end ==> b == EndOf(Read(raw, 0, true), end, 0)
  {
    hide Read, StartOf, EndOf;
    a := RawStart(raw, es, pos);
    b := RawEnd(raw, es, end);
    ReadSolid(raw, 0, true);
    if pos <= end {
      StartEndMeet(Read(raw, 0, true), pos, 0);
      EndMonotone(Read(raw, 0, true), pos, end, 0);
    }
    if b < a { b := a; }
  }

  // ---- what the maps mean -------------------------------------------------

  /** t lies strictly inside the output of an escape. */
  predicate Inside(ps: seq<Piece>, t: nat)
    decreases |ps|
  {
    ps != [] && t > 0 && (t < |Out(ps[0])| || (t >= |Out(ps[0])| && Inside(ps[1..], t - |Out(ps[0])|)))
  }

  lemma {:induction false} StartMonotone(ps: seq<Piece>, t: nat, u: nat, r: nat)
    requires t <= u && Solid(ps)
    ensures r <= StartOf(ps, t, r) <= StartOf(ps, u, r)
    decreases |ps|
  {
    if ps != [] {
      SolidTail(ps);
      var n := |Out(ps[0])|;
      if t >= n {
        StartMonotone(ps[1..], t - n, u - n, r + Len(ps[0]));
      } else if u >= n {
        StartMonotone(ps[1..], 0, u - n, r + Len(ps[0]));
      }
    }
  }

  lemma {:induction false} EndMonotone(ps: seq<Piece>, t: nat, u: nat, r: nat)
    requires t <= u && Solid(ps)
    ensures r <= EndOf(ps, t, r) <= EndOf(ps, u, r)
    decreases |ps|
  {
    if ps != [] && u > 0 {
      SolidTail(ps);
      var n := |Out(ps[0])|;
      if t > n {
        EndMonotone(ps[1..], t - n, u - n, r + Len(ps[0]));
      } else if u > n {
        EndMonotone(ps[1..], 0, u - n, r + Len(ps[0]));
      }
    }
  }

  /** A start is never past the end at the same offset, and they differ exactly strictly inside an escape. */
  lemma {:induction false} StartEndMeet(ps: seq<Piece>, t: nat, r: nat)
    requires Solid(ps)
    ensures StartOf(ps, t, r) <= EndOf(ps, t, r)
    ensures StartOf(ps, t, r) == EndOf(ps, t, r) <==> !Inside(ps, t)
    decreases |ps|
  {
    if ps != [] {
      SolidTail(ps);
      var n := |Out(ps[0])|;
      if t > n {
        StartEndMeet(ps[1..], t - n, r + Len(ps[0]));
      } else if t == n {
        StartAtZero(ps[1..], r + Len(ps[0]));
      }
    }
  }

  lemma StartAtZero(ps: seq<Piece>, r: nat)
    requires Solid(ps)
    ensures StartOf(ps, 0, r) == r && !Inside(ps, 0)
  {
  }

  /** The piece whose output holds t. */
  function PieceAt(ps: seq<Piece>, t: nat): Piece
    requires t < |Text(ps)|
    decreases |ps|
  {
    if t < |Out(ps[0])| then ps[0] else PieceAt(ps[1..], t - |Out(ps[0])|)
  }

  /** Every copied byte of the text is the source byte the map sends it to; every escape's output maps to a backslash. */
  lemma {:induction false} TextAgrees(raw: seq<byte>, i: nat, even: bool, t: nat)
    requires i <= |raw| && t < |Text(Read(raw, i, even))|
    ensures var ps := Read(raw, i, even);
            var at := StartOf(ps, t, i);
            && i <= at < |raw| && raw[at] == (if PieceAt(ps, t).Copied? then Text(ps)[t] else BACKSLASH)
    decreases |raw| - i
  {
    var ps := Read(raw, i, even);
    if i < |raw| {
      var next := if ps[0].Copied? then i + 1 else Paired(raw, i).value.1;
      var parity := if raw[i] != BACKSLASH || (even && i + 1 < |raw| && raw[i + 1] == LOWER_U) then true else !even;
      assert ps == [ps[0]] + Read(raw, next, parity);
      assert ps[1..] == Read(raw, next, parity);
      assert next == i + Len(ps[0]);
      if t >= |Out(ps[0])| { TextAgrees(raw, next, parity, t - |Out(ps[0])|); }
    }
  }

  /** A span of the text widens to whole pieces: its source bytes translate, on their own account, to text that covers it. */
  lemma {:induction false} SpanWhole(ps: seq<Piece>, a: nat, b: nat, r: nat)
    requires Solid(ps) && a < b <= |Text(ps)|
    ensures var lo, hi := Before(ps, a), Through(ps, b);
            && lo < hi <= |ps|
            && StartOf(ps, a, r) == r + Span(ps[..lo]) && EndOf(ps, b, r) == r + Span(ps[..hi])
            && |Text(ps[..lo])| <= a < |Text(ps[..lo + 1])| && |Text(ps[..hi - 1])| < b <= |Text(ps[..hi])|
    decreases |ps|
  {
    hide Solid, StartOf, EndOf, Before, Through;
    StartWhole(ps, a, r);
    EndWhole(ps, b, r);
    BeforeThrough(ps, a, b);
  }

  /** An empty span stays empty between pieces and bytes, and strictly inside an escape widens to that escape. */
  lemma {:induction false} EmptySpan(ps: seq<Piece>, a: nat, r: nat)
    requires Solid(ps) && a <= |Text(ps)|
    ensures var lo, hi := Before(ps, a), Through(ps, a);
            && hi == (if Inside(ps, a) then lo + 1 else lo) && hi <= |ps|
            && StartOf(ps, a, r) == r + Span(ps[..lo]) && EndOf(ps, a, r) == r + Span(ps[..hi])
    decreases |ps|
  {
    if ps != [] {
      SolidTail(ps);
      var n := |Out(ps[0])|;
      var lo, hi := Before(ps, a), Through(ps, a);
      assert ps[..0] == [] && ps[1..][..0] == [];
      PrefixStep(ps, 0);
      if a >= n {
        EmptySpan(ps[1..], a - n, r + Len(ps[0]));
        PrefixStep(ps, lo - 1);
        if a > n { PrefixStep(ps, hi - 1); }
      }
    }
  }

  lemma {:induction false} BeforeThrough(ps: seq<Piece>, a: nat, b: nat)
    requires a < b <= |Text(ps)|
    ensures Before(ps, a) < Through(ps, b)
    decreases |ps|
  {
    if a >= |Out(ps[0])| { BeforeThrough(ps[1..], a - |Out(ps[0])|, b - |Out(ps[0])|); }
  }

  lemma {:induction false} StartWhole(ps: seq<Piece>, a: nat, r: nat)
    requires Solid(ps) && a < |Text(ps)|
    ensures var lo := Before(ps, a);
            && lo < |ps| && StartOf(ps, a, r) == r + Span(ps[..lo]) && |Text(ps[..lo])| <= a < |Text(ps[..lo + 1])|
    decreases |ps|
  {
    SolidTail(ps);
    var n := |Out(ps[0])|;
    var lo := Before(ps, a);
    PrefixStep(ps, 0);
    assert ps[..0] == [] && ps[1..][..0] == [];
    if a >= n {
      StartWhole(ps[1..], a - n, r + Len(ps[0]));
      PrefixStep(ps, lo - 1);
      PrefixStep(ps, lo);
    }
  }

  /** How many pieces end at or before t, and how many begin before it. */
  function Before(ps: seq<Piece>, t: nat): nat
    decreases |ps|
  {
    if ps == [] || t < |Out(ps[0])| then 0 else 1 + Before(ps[1..], t - |Out(ps[0])|)
  }

  function Through(ps: seq<Piece>, t: nat): nat
    decreases |ps|
  {
    if ps == [] || t == 0 then 0 else if t <= |Out(ps[0])| then 1 else 1 + Through(ps[1..], t - |Out(ps[0])|)
  }

  lemma PrefixStep(ps: seq<Piece>, k: nat)
    requires k < |ps|
    ensures ps[..k + 1][0] == ps[0] && ps[..k + 1][1..] == ps[1..][..k]
    ensures Text(ps[..k + 1]) == Out(ps[0]) + Text(ps[1..][..k]) && Span(ps[..k + 1]) == Len(ps[0]) + Span(ps[1..][..k])
  {
    assert ps[..k + 1][1..] == ps[1..][..k];
  }

  lemma {:induction false} EndWhole(ps: seq<Piece>, b: nat, r: nat)
    requires Solid(ps) && 0 < b <= |Text(ps)|
    ensures var hi := Through(ps, b);
            && 1 <= hi <= |ps| && EndOf(ps, b, r) == r + Span(ps[..hi]) && |Text(ps[..hi - 1])| < b <= |Text(ps[..hi])|
    decreases |ps|
  {
    SolidTail(ps);
    var n := |Out(ps[0])|;
    var hi := Through(ps, b);
    PrefixStep(ps, 0);
    if b > n {
      EndWhole(ps[1..], b - n, r + Len(ps[0]));
      PrefixStep(ps, hi - 1);
      PrefixStep(ps, hi - 2);
    } else {
      assert ps[..0] == [];
    }
  }
}
