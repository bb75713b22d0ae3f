/** The bitsets of the analysis: words shared by every copy of a state, changed in place, read as sets of locals. */
module Bits {
  import opened Words
  import opened Analysis

  function Members(ws: seq<Word>): set<nat> {
    set i: nat | i < 64 * |ws| && Bit(ws[i / 64], i % 64)
  }

  /** A state names its words; copying it shares them. */
  datatype Facts = Facts(da: array<Word>, du: array<Word>)

  ghost predicate Holds(f: Facts, words: nat) {
    f.da != f.du && f.da.Length == words && f.du.Length == words
  }

  ghost function View(f: Facts): State
    reads f.da, f.du
  {
    State(Members(f.da[..]), Members(f.du[..]))
  }

  ghost predicate Apart(f: Facts, g: Facts) {
    f.da != g.da && f.da != g.du && f.du != g.da && f.du != g.du
  }

  // ---- words and sets -----------------------------------------------------

  lemma MembersPut(ws: seq<Word>, i: nat)
    requires i < 64 * |ws|
    ensures Members(ws[i / 64 := WOr(ws[i / 64], Mask(i % 64))]) == Members(ws) + {i}
    ensures Members(ws[i / 64 := WAndNot(ws[i / 64], Mask(i % 64))]) == Members(ws) - {i}
  {
    hide Bit, WOr, WAndNot, Mask;
    forall k: nat | k < 64 * |ws| && k / 64 == i / 64
      ensures Bit(WOr(ws[i / 64], Mask(i % 64)), k % 64) <==> k == i || Bit(ws[i / 64], k % 64)
      ensures Bit(WAndNot(ws[i / 64], Mask(i % 64)), k % 64) <==> k != i && Bit(ws[i / 64], k % 64)
    {
      SetBit(ws[i / 64], i % 64, k % 64);
    }
  }

  lemma MembersAnd(a: seq<Word>, b: seq<Word>, c: seq<Word>)
    requires |a| == |b| == |c| && forall k :: 0 <= k < |a| ==> c[k] == WAnd(a[k], b[k])
    ensures Members(c) == Members(a) * Members(b)
  {
    hide Bit, WAnd;
    forall i: nat | i < 64 * |a|
      ensures Bit(c[i / 64], i % 64) <==> Bit(a[i / 64], i % 64) && Bit(b[i / 64], i % 64)
    {
      AndBit(a[i / 64], b[i / 64], i % 64);
    }
  }

  lemma MembersNone(ws: seq<Word>)
    requires forall k :: 0 <= k < |ws| ==> ws[k] == 0
    ensures Members(ws) == {}
  {
    hide Bit;
    forall i: nat | i < 64 * |ws|
      ensures !Bit(ws[i / 64], i % 64)
    {
      NoBits(i % 64);
    }
  }

  lemma MembersSame(a: seq<Word>, b: seq<Word>)
    requires |a| == |b| && Members(a) == Members(b)
    ensures a == b
  {
    hide Bit;
    forall k | 0 <= k < |a|
      ensures a[k] == b[k]
    {
      forall j: Pos
        ensures Bit(a[k], j) <==> Bit(b[k], j)
      {
        Where(k, j);
        assert 64 * k + j in Members(a) <==> 64 * k + j in Members(b);
      }
      SameBits(a[k], b[k]);
    }
  }

  lemma MembersDiffer(a: seq<Word>, b: seq<Word>, k: nat)
    requires |a| == |b| && k < |a| && a[k] != b[k]
    ensures Members(a) != Members(b)
  {
    hide Members;
    if Members(a) == Members(b) { MembersSame(a, b); }
  }

  lemma Where(k: nat, j: Pos)
    ensures (64 * k + j) / 64 == k && (64 * k + j) % 64 == j
  {
  }

  // ---- the operations, in place -------------------------------------------

  method New(words: nat) returns (b: array<Word>)
    ensures fresh(b) && b.Length == words && Members(b[..]) == {}
  {
    b := new Word[words](_ => 0);
    MembersNone(b[..]);
  }

  method Copy(b: array<Word>) returns (c: array<Word>)
    ensures fresh(c) && c[..] == b[..]
  {
    c := new Word[b.Length];
    forall k | 0 <= k < b.Length { c[k] := b[k]; }
  }

  method SetBitAt(b: array<Word>, i: nat)
    requires i < 64 * b.Length
    modifies b
    ensures Members(b[..]) == old(Members(b[..])) + {i}
  {
    hide Members, WOr, Mask;
    MembersPut(b[..], i);
    b[i / 64] := WOr(b[i / 64], Mask(i % 64));
    assert b[..] == old(b[..])[i / 64 := WOr(old(b[i / 64]), Mask(i % 64))];
  }

  method ClearBitAt(b: array<Word>, i: nat)
    requires i < 64 * b.Length
    modifies b
    ensures Members(b[..]) == old(Members(b[..])) - {i}
  {
    hide Members, WAndNot, Mask;
    MembersPut(b[..], i);
    b[i / 64] := WAndNot(b[i / 64], Mask(i % 64));
    assert b[..] == old(b[..])[i / 64 := WAndNot(old(b[i / 64]), Mask(i % 64))];
  }

  method Has(b: array<Word>, i: nat) returns (r: bool)
    ensures r <==> i in Members(b[..])
  {
    r := i / 64 < b.Length && Bit(b[i / 64], i % 64);
  }

  method Intersect(a: array<Word>, b: array<Word>) returns (c: array<Word>)
    requires a.Length == b.Length
    ensures fresh(c) && c.Length == a.Length && Members(c[..]) == Members(a[..]) * Members(b[..])
  {
    hide Members, WAnd;
    c := new Word[a.Length];
    for k := 0 to a.Length
      invariant forall j :: 0 <= j < k ==> c[j] == WAnd(a[j], b[j])
    {
      c[k] := WAnd(a[k], b[k]);
    }
    MembersAnd(a[..], b[..], c[..]);
  }

  /** Compares word by word; it answers whether the two sets are the same. */
  method SameSet(a: array<Word>, b: array<Word>) returns (r: bool)
    requires a.Length == b.Length
    ensures r <==> Members(a[..]) == Members(b[..])
  {
    hide Members;
    for k := 0 to a.Length
      invariant a[..k] == b[..k]
    {
      if a[k] != b[k] {
        r := false;
        MembersDiffer(a[..], b[..], k);
        return;
      }
    }
    assert a[..] == b[..];
    r := true;
  }

  // ---- states -------------------------------------------------------------

  method CloneFacts(f: Facts) returns (g: Facts)
    requires f.da.Length == f.du.Length
    ensures fresh(g.da) && fresh(g.du) && Holds(g, f.da.Length) && View(g) == View(f)
  {
    hide Members;
    var da := Copy(f.da);
    var du := Copy(f.du);
    g := Facts(da, du);
  }

  method JoinFacts(f: Facts, g: Facts) returns (h: Facts)
    requires f.da.Length == g.da.Length == f.du.Length == g.du.Length
    ensures fresh(h.da) && fresh(h.du) && Holds(h, f.da.Length) && View(h) == Join(View(f), View(g))
  {
    hide Members;
    var da := Intersect(f.da, g.da);
    var du := Intersect(f.du, g.du);
    h := Facts(da, du);
  }

  method EqualFacts(f: Facts, g: Facts) returns (r: bool)
    requires f.da.Length == g.da.Length && f.du.Length == g.du.Length
    ensures r <==> View(f) == View(g)
  {
    hide Members;
    r := SameSet(f.da, g.da);
    if r { r := SameSet(f.du, g.du); }
  }

  /** Overwrites the words a caller shares. */
  method CopyInto(dst: Facts, src: Facts, words: nat)
    requires Holds(dst, words) && Holds(src, words) && Apart(dst, src)
    modifies dst.da, dst.du
    ensures dst.da[..] == old(src.da[..]) && dst.du[..] == old(src.du[..])
    ensures View(dst) == old(View(src))
  {
    hide Members;
    forall k | 0 <= k < words { dst.da[k] := src.da[k]; }
    assert dst.da[..] == src.da[..];
    forall k | 0 <= k < words { dst.du[k] := src.du[k]; }
    assert dst.da[..] == src.da[..] && dst.du[..] == src.du[..];
  }

  method AssignFacts(f: Facts, i: nat, words: nat)
    requires Holds(f, words) && i < 64 * words
    modifies f.da, f.du
    ensures View(f) == Set(old(View(f)), i)
  {
    hide Members;
    SetBitAt(f.da, i);
    ClearBitAt(f.du, i);
  }
}
