/** A pool read back resolves every index to the constant that was interned there. */
module PoolRoundTrip {
  import opened Bytes
  import opened Pool
  import opened PoolBuilder
  import opened PoolReader

  // ---- no table holds a Utf8 whose length does not fit --------------------

  ghost predicate Sized(c: Codec, t: Table) { forall it :: Some(it) in t.slots ==> !TooLong(c, it) }

  lemma {:induction false} InternSized(c: Codec, t: Table, it: Item)
    requires Sized(c, t)
    ensures Sized(c, Intern(c, t, it))
    decreases Rank(it), |Parts(it)| + 1
  {
    if it !in t.index && !TooLong(c, it) {
      AllSized(c, t, Parts(it), Rank(it));
      var u := InternAll(c, t, Parts(it), Rank(it));
      assert forall x :: Some(x) in u.slots + Hold(it) ==> Some(x) in u.slots || x == it;
    }
  }

  lemma {:induction false} AllSized(c: Codec, t: Table, its: seq<Item>, rank: nat)
    requires Sized(c, t) && forall it :: it in its ==> Rank(it) < rank
    ensures Sized(c, InternAll(c, t, its, rank))
    decreases rank, |its|
  {
    hide Sized, Intern;
    if its != [] {
      InternSized(c, t, its[0]);
      AllSized(c, Intern(c, t, its[0]), its[1..], rank);
    }
  }

  lemma {:induction false} CallsSized(c: Codec, t: Table, its: seq<Item>)
    requires Sized(c, t)
    ensures Sized(c, Calls(c, t, its).0)
    decreases |its|
  {
    hide Sized, Intern;
    if its != [] {
      InternSized(c, t, its[0]);
      CallsSized(c, Intern(c, t, its[0]), its[1..]);
    }
  }

  // ---- a method type is in a table only if it was asked for ---------------

  ghost predicate Untyped(t: Table) { forall it :: Some(it) in t.slots ==> !it.MethodType? }

  lemma {:induction false} InternUntyped(c: Codec, t: Table, it: Item)
    requires Untyped(t) && !it.MethodType?
    ensures Untyped(Intern(c, t, it))
    decreases Rank(it), |Parts(it)| + 1
  {
    if it !in t.index && !TooLong(c, it) {
      AllUntyped(c, t, Parts(it), Rank(it));
      var u := InternAll(c, t, Parts(it), Rank(it));
      assert forall x :: Some(x) in u.slots + Hold(it) ==> Some(x) in u.slots || x == it;
    }
  }

  lemma {:induction false} AllUntyped(c: Codec, t: Table, its: seq<Item>, rank: nat)
    requires Untyped(t) && forall it :: it in its ==> Rank(it) < rank && !it.MethodType?
    ensures Untyped(InternAll(c, t, its, rank))
    decreases rank, |its|
  {
    hide Untyped, Intern;
    if its != [] {
      InternUntyped(c, t, its[0]);
      AllUntyped(c, Intern(c, t, its[0]), its[1..], rank);
    }
  }

  lemma {:induction false} CallsUntyped(c: Codec, t: Table, its: seq<Item>)
    requires Untyped(t) && forall it :: it in its ==> !it.MethodType?
    ensures Untyped(Calls(c, t, its).0)
    decreases |its|
  {
    hide Untyped, Intern;
    if its != [] {
      InternUntyped(c, t, its[0]);
      CallsUntyped(c, Intern(c, t, its[0]), its[1..]);
    }
  }

  // ---- one entry ----------------------------------------------------------

  function PartIndex(t: Table, it: Item, k: nat): nat { if k < |Parts(it)| then IndexOf(t, Parts(it)[k]) else 0 }

  /** The undecoded entry holds what the constant's encoding holds. */
  predicate RawFits(c: Codec, t: Table, b: seq<byte>, it: Item, e: Raw) {
    && e.tag == TagOf(it)
    && match it
       case Utf8(s) => e.a + e.b <= |b| && b[e.a..e.a + e.b] == c.enc(s)
       case Integer(w) => e.a == w
       case Float(w) => e.a == w
       case Long(d) => e.a == d / 0x1_0000_0000 && e.b == d % 0x1_0000_0000
       case Double(d) => e.a == d / 0x1_0000_0000 && e.b == d % 0x1_0000_0000
       case _ => e.a == PartIndex(t, it, 0) && e.b == PartIndex(t, it, 1)
  }

  /** Only MethodType needs a class file later than the first. */
  predicate Readable(it: Item, major: nat) { major >= if it.MethodType? then 51 else 45 }

  lemma ReadsU2(b: seq<byte>, at: nat, v: nat)
    requires at + 2 <= |b| && b[at..at + 2] == U2(v) && v < 0x1_0000
    ensures U16At(b, at) == v
  {
    assert b[at] == b[at..at + 2][0] && b[at + 1] == b[at..at + 2][1];
  }

  lemma ReadsU4(b: seq<byte>, at: nat, v: Word32)
    requires at + 4 <= |b| && b[at..at + 4] == U4(v)
    ensures U32At(b, at) == v
  {
    var w := b[at..at + 4];
    assert b[at] == w[0] && b[at + 1] == w[1] && b[at + 2] == w[2] && b[at + 3] == w[3];
    var q1 := v / 0x100;
    var q2 := q1 / 0x100;
    assert q2 == v / 0x1_0000 && q2 / 0x100 == v / 0x100_0000;
  }

  /** The bytes at an offset are those of a known piece. */
  predicate Holds(b: seq<byte>, at: nat, w: seq<byte>) { at + |w| <= |b| && b[at..at + |w|] == w }

  lemma HoldsParts(b: seq<byte>, at: nat, u: seq<byte>, v: seq<byte>)
    requires Holds(b, at, u + v)
    ensures Holds(b, at, u) && Holds(b, at + |u|, v)
  {
    var w := b[at..at + |u + v|];
    assert w[..|u|] == u && w[|u|..] == v;
    assert b[at..at + |u|] == w[..|u|] && b[at + |u|..at + |u| + |v|] == w[|u|..];
  }

  lemma Utf8Reads(c: Codec, t: Table, b: seq<byte>, off: nat, it: Item, major: nat)
    requires Faithful(c) && it.Utf8? && !TooLong(c, it) && major >= 45 && Holds(b, off, Entry(c, t, it))
    ensures var r := ReadEntry(b, off, major);
            r.Some? && RawFits(c, t, b, it, r.value.0) && r.value.1 == off + |Entry(c, t, it)|
  {
    var enc := c.enc(it.s);
    HoldsParts(b, off, [UTF8], U2(|enc|) + enc);
    HoldsParts(b, off + 1, U2(|enc|), enc);
    assert b[off] == b[off..off + 1][0];
    ReadsU2(b, off + 1, |enc|);
    assert b[off + 3..off + 3 + |enc|] == enc && Allowed(enc);
  }

  lemma NumberReads(c: Codec, t: Table, b: seq<byte>, off: nat, it: Item, major: nat)
    requires (it.Integer? || it.Float? || IsWide(it)) && major >= 45 && Holds(b, off, Entry(c, t, it))
    ensures var r := ReadEntry(b, off, major);
            r.Some? && RawFits(c, t, b, it, r.value.0) && r.value.1 == off + |Entry(c, t, it)|
  {
    HoldsParts(b, off, [TagOf(it)], Payload(c, t, it));
    assert b[off] == b[off..off + 1][0];
    if IsWide(it) {
      var d := if it.Long? then it.d else it.d;
      HoldsParts(b, off + 1, U4(d / 0x1_0000_0000), U4(d % 0x1_0000_0000));
      ReadsU4(b, off + 1, d / 0x1_0000_0000);
      ReadsU4(b, off + 5, d % 0x1_0000_0000);
    } else {
      var w := if it.Integer? then it.w else it.w;
      ReadsU4(b, off + 1, w);
    }
  }

  lemma RefsShape(t: Table, ps: seq<Item>)
    requires 1 <= |ps| <= 2
    ensures Refs(t, ps) == U2(IndexOf(t, ps[0])) + if |ps| == 2 then U2(IndexOf(t, ps[1])) else []
  {
    if |ps| == 1 {
      assert ps == [ps[0]] && Refs(t, []) == [];
    } else {
      assert ps == [ps[0], ps[1]];
      TwoRefs(t, ps[0], ps[1]);
    }
  }

  lemma RefReads(c: Codec, t: Table, b: seq<byte>, off: nat, it: Item, major: nat)
    requires Parts(it) != [] && Readable(it, major) && Holds(b, off, Entry(c, t, it))
    requires forall p :: p in Parts(it) ==> IndexOf(t, p) < 0x1_0000
    ensures var r := ReadEntry(b, off, major);
            r.Some? && RawFits(c, t, b, it, r.value.0) && r.value.1 == off + |Entry(c, t, it)|
  {
    hide ReadEntry, U16At, U2, Refs, RawFits;
    var ps := Parts(it);
    RefsShape(t, ps);
    RefTag(it, major);
    HoldsParts(b, off, [TagOf(it)], Payload(c, t, it));
    assert b[off] == b[off..off + 1][0];
    HoldsParts(b, off + 1, U2(IndexOf(t, ps[0])), if |ps| == 2 then U2(IndexOf(t, ps[1])) else []);
    ReadsU2(b, off + 1, IndexOf(t, ps[0]));
    if |ps| == 2 {
      ReadsU2(b, off + 3, IndexOf(t, ps[1]));
      TwoRefsRead(b, off, major);
    } else {
      OneRefReads(b, off, major);
    }
    RefFits(c, t, b, it);
  }

  lemma RefTag(it: Item, major: nat)
    requires Parts(it) != [] && Readable(it, major)
    ensures Since(TagOf(it)).Some? && major >= Since(TagOf(it)).value
    ensures |Parts(it)| == 1 <==> TagOf(it) == CLASS || TagOf(it) == STRING || TagOf(it) == METHOD_TYPE
    ensures |Parts(it)| != 1 ==> |Parts(it)| == 2 && FIELDREF <= TagOf(it) <= NAME_AND_TYPE
  {
  }

  lemma OneRefReads(b: seq<byte>, off: nat, major: nat)
    requires off + 3 <= |b| && Since(b[off]).Some? && major >= Since(b[off]).value
    requires b[off] == CLASS || b[off] == STRING || b[off] == METHOD_TYPE
    ensures ReadEntry(b, off, major) == Some((Raw(b[off], U16At(b, off + 1), 0), off + 3))
  {
    hide U16At;
  }

  lemma TwoRefsRead(b: seq<byte>, off: nat, major: nat)
    requires off + 5 <= |b| && Since(b[off]).Some? && major >= Since(b[off]).value
    requires FIELDREF <= b[off] <= NAME_AND_TYPE
    ensures ReadEntry(b, off, major) == Some((Raw(b[off], U16At(b, off + 1), U16At(b, off + 3)), off + 5))
  {
    hide U16At;
  }

  lemma RefFits(c: Codec, t: Table, b: seq<byte>, it: Item)
    requires Parts(it) != []
    ensures RawFits(c, t, b, it, Raw(TagOf(it), PartIndex(t, it, 0), PartIndex(t, it, 1)))
  {
  }

  lemma EntryReads(c: Codec, t: Table, b: seq<byte>, off: nat, i: nat, major: nat)
    requires Faithful(c) && Valid(t) && Sized(c, t) && i < |t.slots| && t.slots[i].Some?
    requires Readable(t.slots[i].value, major) && Holds(b, off, Entry(c, t, t.slots[i].value))
    ensures var it := t.slots[i].value;
            var r := ReadEntry(b, off, major);
            r.Some? && RawFits(c, t, b, it, r.value.0) && r.value.1 == off + |Entry(c, t, it)|
  {
    hide ReadEntry, Faithful, RawFits, Entry;
    var it := t.slots[i].value;
    assert Home(t, i);
    if it.Utf8? {
      assert Some(it) in t.slots;
      Utf8Reads(c, t, b, off, it, major);
    } else if it.Integer? || it.Float? || IsWide(it) {
      NumberReads(c, t, b, off, it, major);
    } else {
      RefReads(c, t, b, off, it, major);
    }
  }

  // ---- all entries --------------------------------------------------------

  ghost predicate Supported(t: Table, major: nat) { forall it :: Some(it) in t.slots ==> Readable(it, major) }

  /** The entries mirror the slots from index i on. */
  ghost predicate Mirrors(c: Codec, t: Table, b: seq<byte>, es: seq<Raw>, i: nat) {
    && |es| + i == |t.slots|
    && forall k :: i <= k < |t.slots| ==>
         if t.slots[k].Some? then RawFits(c, t, b, t.slots[k].value, es[k - i]) else es[k - i] == UNUSABLE
  }

  lemma MirrorsMore(c: Codec, t: Table, b: seq<byte>, e: Raw, rest: seq<Raw>, i: nat)
    requires 1 <= i < |t.slots| && t.slots[i].Some? && RawFits(c, t, b, t.slots[i].value, e)
    ensures Mirrors(c, t, b, rest, i + 1) ==> Mirrors(c, t, b, [e] + rest, i)
    ensures i + 1 < |t.slots| && t.slots[i + 1] == None && Mirrors(c, t, b, rest, i + 2) ==> Mirrors(c, t, b, [e, UNUSABLE] + rest, i)
  {
    hide RawFits;
    var one, two := [e] + rest, [e, UNUSABLE] + rest;
    assert forall k :: 0 <= k < |rest| ==> one[k + 1] == rest[k];
    assert forall k :: 0 <= k < |rest| ==> two[k + 2] == rest[k];
  }

  lemma {:induction false} EntriesRead(c: Codec, t: Table, b: seq<byte>, off: nat, i: nat, major: nat)
    requires Faithful(c) && Valid(t) && Sized(c, t) && Supported(t, major)
    requires 1 <= i <= |t.slots| && (i < |t.slots| ==> t.slots[i].Some?) && Holds(b, off, EmitFrom(c, t, i))
    ensures var r := ReadEntries(b, off, i, |t.slots|, major);
            r.Some? && Mirrors(c, t, b, r.value.0, i) && r.value.1 == off + |EmitFrom(c, t, i)|
    decreases |t.slots| - i
  {
    hide ReadEntry, Faithful, RawFits, Entry, Sized, Mirrors, Valid, Supported, Holds;
    if i == |t.slots| {
      NoMirrors(c, t, b);
    } else {
      var it := t.slots[i].value;
      SlotFacts(t, i, major);
      HoldsParts(b, off, Entry(c, t, it), EmitFrom(c, t, i + 1));
      EntryReads(c, t, b, off, i, major);
      var e := ReadEntry(b, off, major).value.0;
      var next := off + |Entry(c, t, it)|;
      TagWide(c, t, b, it, e);
      if IsWide(it) {
        assert EmitFrom(c, t, i + 1) == EmitFrom(c, t, i + 2);
        EntriesRead(c, t, b, next, i + 2, major);
        MirrorsMore(c, t, b, e, ReadEntries(b, next, i + 2, |t.slots|, major).value.0, i);
      } else {
        EntriesRead(c, t, b, next, i + 1, major);
        MirrorsMore(c, t, b, e, ReadEntries(b, next, i + 1, |t.slots|, major).value.0, i);
      }
    }
  }

  /** An entry newer than the file is refused. */
  lemma EntryRefused(c: Codec, t: Table, b: seq<byte>, off: nat, it: Item, major: nat)
    requires !Readable(it, major) && Holds(b, off, Entry(c, t, it))
    ensures ReadEntry(b, off, major).None?
  {
    hide Payload;
    assert b[off] == b[off..off + |Entry(c, t, it)|][0] == TagOf(it);
  }

  /** So is every table that holds one. */
  lemma {:induction false} EntriesRefused(c: Codec, t: Table, b: seq<byte>, off: nat, i: nat, major: nat, k: nat)
    requires 1 <= i <= k < |t.slots| && t.slots[i].Some? && t.slots[k].Some? && !Readable(t.slots[k].value, major)
    requires Faithful(c) && Valid(t) && Sized(c, t) && Holds(b, off, EmitFrom(c, t, i))
    ensures ReadEntries(b, off, i, |t.slots|, major).None?
    decreases |t.slots| - i
  {
    hide ReadEntry, Faithful, RawFits, Entry, Sized, Valid, Holds;
    var it := t.slots[i].value;
    SlotGaps(t, i);
    HoldsParts(b, off, Entry(c, t, it), EmitFrom(c, t, i + 1));
    if !Readable(it, major) {
      EntryRefused(c, t, b, off, it, major);
    } else {
      EntryReads(c, t, b, off, i, major);
      var e := ReadEntry(b, off, major).value.0;
      var next := off + |Entry(c, t, it)|;
      TagWide(c, t, b, it, e);
      if IsWide(it) {
        assert EmitFrom(c, t, i + 1) == EmitFrom(c, t, i + 2);
        EntriesRefused(c, t, b, next, i + 2, major, k);
      } else {
        EntriesRefused(c, t, b, next, i + 1, major, k);
      }
    }
  }

  lemma NoMirrors(c: Codec, t: Table, b: seq<byte>)
    ensures Mirrors(c, t, b, [], |t.slots|)
  {
  }

  lemma SlotFacts(t: Table, i: nat, major: nat)
    requires Valid(t) && Supported(t, major) && 1 <= i < |t.slots| && t.slots[i].Some?
    ensures Readable(t.slots[i].value, major)
    ensures var it := t.slots[i].value;
            && (IsWide(it) ==> i + 1 < |t.slots| && t.slots[i + 1] == None && (i + 2 < |t.slots| ==> t.slots[i + 2].Some?))
            && (!IsWide(it) && i + 1 < |t.slots| ==> t.slots[i + 1].Some?)
  {
    SlotGaps(t, i);
  }

  lemma SlotGaps(t: Table, i: nat)
    requires Valid(t) && 1 <= i < |t.slots| && t.slots[i].Some?
    ensures var it := t.slots[i].value;
            && (IsWide(it) ==> i + 1 < |t.slots| && t.slots[i + 1] == None && (i + 2 < |t.slots| ==> t.slots[i + 2].Some?))
            && (!IsWide(it) && i + 1 < |t.slots| ==> t.slots[i + 1].Some?)
  {
    assert Some(t.slots[i].value) in t.slots && Home(t, i);
  }

  lemma TagWide(c: Codec, t: Table, b: seq<byte>, it: Item, e: Raw)
    requires RawFits(c, t, b, it, e)
    ensures TakesTwo(e.tag) == IsWide(it)
  {
  }

  // ---- resolution ---------------------------------------------------------

  lemma StringResolves(c: Codec, t: Table, b: seq<byte>, es: seq<Raw>, s: string)
    requires Faithful(c) && Valid(t) && Mirrors(c, t, b, es, 0) && Placed(t, Utf8(s))
    ensures StringAt(c, b, es, IndexOf(t, Utf8(s))) == Some(s)
  {
    var i := t.index[Utf8(s)];
    assert t.slots[i] == Some(Utf8(s));
    assert RawFits(c, t, b, Utf8(s), es[i]);
  }

  /** Class, String and MethodType entries resolve through their Utf8. */
  lemma NameResolves(c: Codec, t: Table, b: seq<byte>, es: seq<Raw>, it: Item, s: string)
    requires Faithful(c) && Valid(t) && Mirrors(c, t, b, es, 0) && Placed(t, it) && Parts(it) == [Utf8(s)]
    ensures NameAt(c, b, es, t.index[it], TagOf(it)) == Some(s)
    ensures At(es, t.index[it], 0) == Some(es[t.index[it]]) && RawFits(c, t, b, it, es[t.index[it]])
  {
    hide StringAt, Faithful;
    var i := t.index[it];
    assert t.slots[i] == Some(it) && Home(t, i);
    assert RawFits(c, t, b, it, es[i]);
    StringResolves(c, t, b, es, s);
  }

  lemma PairResolves(c: Codec, t: Table, b: seq<byte>, es: seq<Raw>, n: string, d: string)
    requires Faithful(c) && Valid(t) && Mirrors(c, t, b, es, 0) && Placed(t, NameAndType(n, d))
    ensures PairAt(c, b, es, t.index[NameAndType(n, d)]) == Some((n, d))
  {
    hide StringAt, Faithful;
    var it := NameAndType(n, d);
    var i := t.index[it];
    assert t.slots[i] == Some(it) && Home(t, i);
    assert RawFits(c, t, b, it, es[i]);
    assert Parts(it)[0] == Utf8(n) && Parts(it)[1] == Utf8(d);
    StringResolves(c, t, b, es, n);
    StringResolves(c, t, b, es, d);
  }

  lemma RefResolves(c: Codec, t: Table, b: seq<byte>, es: seq<Raw>, it: Item)
    requires Faithful(c) && Valid(t) && Mirrors(c, t, b, es, 0) && Placed(t, it)
    requires it.Field? || it.Method? || it.InterfaceMethod?
    ensures RefAt(c, b, es, t.index[it]) == Some(it)
  {
    hide NameAt, PairAt, Faithful;
    var i := t.index[it];
    assert t.slots[i] == Some(it) && Home(t, i);
    assert RawFits(c, t, b, it, es[i]);
    var nt := NameAndType(it.name, it.desc);
    assert Parts(it)[0] == Class(it.owner) && Parts(it)[1] == nt;
    NameResolves(c, t, b, es, Class(it.owner), it.owner);
    PairResolves(c, t, b, es, it.name, it.desc);
  }

  lemma NumberResolves(c: Codec, t: Table, b: seq<byte>, es: seq<Raw>, it: Item, major: nat)
    requires Valid(t) && Mirrors(c, t, b, es, 0) && Placed(t, it) && (it.Integer? || it.Float? || IsWide(it))
    ensures ConstAt(c, b, es, t.index[it], major) == Some(it)
    ensures At(es, t.index[it], 0) == Some(es[t.index[it]]) && es[t.index[it]].tag == TagOf(it)
  {
    var i := t.index[it];
    assert t.slots[i] == Some(it);
    assert RawFits(c, t, b, it, es[i]);
  }

  /** Every index resolves to exactly what its slot holds: the constant, or nothing for 0, phantoms and indices past the end. */
  lemma ResolvesExactly(c: Codec, t: Table, b: seq<byte>, es: seq<Raw>, i: nat, major: nat)
    requires Faithful(c) && Valid(t) && Mirrors(c, t, b, es, 0)
    ensures Resolve(c, b, es, i, major) == if i < |t.slots| then t.slots[i] else None
    ensures At(es, i, 0).Some? <==> i < |t.slots| && t.slots[i].Some?
  {
    hide Valid, Faithful, Mirrors, Resolve;
    SlotEntry(c, t, b, es, i);
    if i < |t.slots| && t.slots[i].Some? {
      var it := t.slots[i].value;
      match it
      case Class(_) => ResolvesName(c, t, b, es, it, major);
      case Text(_) => ResolvesName(c, t, b, es, it, major);
      case MethodType(_) => ResolvesName(c, t, b, es, it, major);
      case Field(_, _, _) => ResolvesRef(c, t, b, es, it, major);
      case Method(_, _, _) => ResolvesRef(c, t, b, es, it, major);
      case InterfaceMethod(_, _, _) => ResolvesRef(c, t, b, es, it, major);
      case _ => ResolvesOther(c, t, b, es, it, major);
    } else {
      ResolvesNone(c, b, es, i, major);
    }
  }

  lemma SlotEntry(c: Codec, t: Table, b: seq<byte>, es: seq<Raw>, i: nat)
    requires Valid(t) && Mirrors(c, t, b, es, 0)
    ensures At(es, i, 0).Some? <==> i < |t.slots| && t.slots[i].Some?
    ensures i < |t.slots| && t.slots[i].Some? ==> Placed(t, t.slots[i].value) && t.index[t.slots[i].value] == i && i < |es|
    ensures i < |t.slots| && t.slots[i].Some? ==> RawFits(c, t, b, t.slots[i].value, es[i])
  {
    if i < |t.slots| && t.slots[i].Some? { assert Home(t, i) && RawFits(c, t, b, t.slots[i].value, es[i]); }
  }

  lemma ResolvesNone(c: Codec, b: seq<byte>, es: seq<Raw>, i: nat, major: nat)
    requires At(es, i, 0).None?
    ensures Resolve(c, b, es, i, major) == None
  {
    hide ConstAt, RefAt, PairAt, NameAt, StringAt;
  }

  lemma ResolvesName(c: Codec, t: Table, b: seq<byte>, es: seq<Raw>, it: Item, major: nat)
    requires Faithful(c) && Valid(t) && Mirrors(c, t, b, es, 0) && Placed(t, it) && (it.Class? || it.Text? || it.MethodType?)
    ensures Resolve(c, b, es, t.index[it], major) == Some(it)
  {
    hide Valid, Faithful, Mirrors, StringAt, NameAt, PairAt, RefAt;
    var s := match it case Class(n) => n case Text(s) => s case MethodType(d) => d;
    assert Parts(it) == [Utf8(s)];
    NameResolves(c, t, b, es, it, s);
    if it.Text? { TextName(c, b, es, t.index[it]); }
  }

  lemma ResolvesRef(c: Codec, t: Table, b: seq<byte>, es: seq<Raw>, it: Item, major: nat)
    requires Faithful(c) && Valid(t) && Mirrors(c, t, b, es, 0) && Placed(t, it) && (it.Field? || it.Method? || it.InterfaceMethod?)
    ensures Resolve(c, b, es, t.index[it], major) == Some(it)
  {
    hide Faithful, StringAt, NameAt, PairAt, RefAt, ConstAt;
    var i := t.index[it];
    assert t.slots[i] == Some(it);
    assert RawFits(c, t, b, it, es[i]);
    RefResolves(c, t, b, es, it);
  }

  lemma ResolvesOther(c: Codec, t: Table, b: seq<byte>, es: seq<Raw>, it: Item, major: nat)
    requires Faithful(c) && Valid(t) && Mirrors(c, t, b, es, 0) && Placed(t, it)
    requires it.Utf8? || it.NameAndType? || it.Integer? || it.Float? || IsWide(it)
    ensures Resolve(c, b, es, t.index[it], major) == Some(it)
  {
    hide Faithful, StringAt, NameAt, PairAt, RefAt, ConstAt;
    var i := t.index[it];
    assert t.slots[i] == Some(it);
    assert RawFits(c, t, b, it, es[i]);
    match it
    case Utf8(s) => StringResolves(c, t, b, es, s);
    case NameAndType(n, d) => PairResolves(c, t, b, es, n, d);
    case _ => NumberResolves(c, t, b, es, it, major);
  }

  lemma TextName(c: Codec, b: seq<byte>, es: seq<Raw>, i: nat)
    requires At(es, i, STRING).Some?
    ensures NameAt(c, b, es, i, STRING) == StringAt(c, b, es, es[i].a)
  {
  }

  predicate Loadable(it: Item) { it.Integer? || it.Float? || IsWide(it) || it.Class? || it.Text? || it.MethodType? }

  /** ldc, ldc_w and ldc2_w load exactly the constant, and only a loadable one, in class files from 49.0 on. */
  lemma LoadsExactly(c: Codec, t: Table, b: seq<byte>, es: seq<Raw>, i: nat, major: nat)
    requires Faithful(c) && Valid(t) && Mirrors(c, t, b, es, 0) && major >= 49
    ensures ConstAt(c, b, es, i, major)
            == if i < |t.slots| && t.slots[i].Some? && Loadable(t.slots[i].value) then t.slots[i] else None
  {
    hide Valid, Faithful, Mirrors, ConstAt, RawFits;
    SlotEntry(c, t, b, es, i);
    if i < |t.slots| && t.slots[i].Some? {
      var it := t.slots[i].value;
      if it.Class? || it.Text? || it.MethodType? {
        LoadsName(c, t, b, es, it, major);
      } else if Loadable(it) {
        NumberResolves(c, t, b, es, it, major);
      } else {
        NotLoaded(c, t, b, es, it, i, major);
      }
    } else {
      LoadsNone(c, b, es, i, major);
    }
  }

  lemma LoadsNone(c: Codec, b: seq<byte>, es: seq<Raw>, i: nat, major: nat)
    requires At(es, i, 0).None?
    ensures ConstAt(c, b, es, i, major) == None
  {
    hide NameAt, StringAt;
  }

  lemma NotLoaded(c: Codec, t: Table, b: seq<byte>, es: seq<Raw>, it: Item, i: nat, major: nat)
    requires i < |es| && !Loadable(it) && RawFits(c, t, b, it, es[i])
    ensures ConstAt(c, b, es, i, major) == None
  {
    hide NameAt, StringAt;
  }

  lemma LoadsName(c: Codec, t: Table, b: seq<byte>, es: seq<Raw>, it: Item, major: nat)
    requires Faithful(c) && Valid(t) && Mirrors(c, t, b, es, 0) && Placed(t, it) && (it.Class? || it.Text? || it.MethodType?) && major >= 49
    ensures ConstAt(c, b, es, t.index[it], major) == Some(it)
  {
    hide Valid, Faithful, Mirrors, StringAt, NameAt;
    var s := match it case Class(n) => n case Text(s) => s case MethodType(d) => d;
    assert Parts(it) == [Utf8(s)];
    NameResolves(c, t, b, es, it, s);
    if it.Text? { TextName(c, b, es, t.index[it]); }
  }

  /** At version 49 a table made by error-free calls is readable exactly when none of them asked for a method type. */
  lemma SupportedExactly(c: Codec, its: seq<Item>, major: nat)
    requires !Calls(c, Empty(), its).0.failed && 45 <= major < 51
    ensures Supported(Calls(c, Empty(), its).0, major) <==> forall it :: it in its ==> !it.MethodType?
  {
    hide Calls, Valid;
    var t := Calls(c, Empty(), its).0;
    EmptyValid();
    AnswersStand(c, Empty(), its);
    if forall it :: it in its ==> !it.MethodType? {
      assert Untyped(Empty());
      CallsUntyped(c, Empty(), its);
    } else {
      var it :| it in its && it.MethodType?;
      var k :| 0 <= k < |its| && its[k] == it;
      assert Placed(t, its[k]);
      assert t.slots[t.index[it]] == Some(it) by { PlacedSlot(t, it); }
      assert Some(it) in t.slots;
    }
  }

  lemma PlacedSlot(t: Table, it: Item)
    requires Valid(t) && Placed(t, it)
    ensures t.index[it] < |t.slots| && t.slots[t.index[it]] == Some(it)
  {
  }

  /** A pool with an entry newer than the file is not read. */
  lemma PoolRefused(c: Codec, t: Table, b: seq<byte>, off: nat, major: nat)
    requires Faithful(c) && Valid(t) && Sized(c, t) && !Supported(t, major) && |t.slots| >= 1 && Holds(b, off, Emit(c, t))
    ensures ReadPool(b, off, major).None?
  {
    hide Faithful, Sized, EmitFrom, ReadEntries, Holds;
    HoldsParts(b, off, U2(|t.slots|), EmitFrom(c, t, 1));
    assert off + 2 <= |b| && b[off..off + 2] == U2(|t.slots|) by { HoldsWhole(b, off, U2(|t.slots|)); }
    ReadsU2(b, off, |t.slots|);
    var it :| Some(it) in t.slots && !Readable(it, major);
    var k :| 0 <= k < |t.slots| && t.slots[k] == Some(it);
    FirstIsFull(t);
    EntriesRefused(c, t, b, off + 2, 1, major, k);
  }

  lemma HoldsWhole(b: seq<byte>, off: nat, w: seq<byte>)
    requires Holds(b, off, w)
    ensures off + |w| <= |b| && b[off..off + |w|] == w
  {
  }

  /**
   * After any error-free interning calls, the emitted table between any bytes is read exactly when no entry is newer than
   * the file. It is then read in full, each answered index resolves to its constant, and every other index is refused.
   */
  lemma PoolReadsBack(c: Codec, its: seq<Item>, pre: seq<byte>, post: seq<byte>, major: nat)
    requires Faithful(c) && !Calls(c, Empty(), its).0.failed
    ensures var r := Calls(c, Empty(), its);
            var t := r.0;
            |t.slots| >= 1 && |r.1| == |its| &&
            var b := pre + Emit(c, t) + post;
            var p := ReadPool(b, |pre|, major);
            && (p.Some? <==> Supported(t, major))
            && (p.Some? ==>
                  && |p.value.0| == |t.slots| && p.value.1 == |pre| + |Emit(c, t)|
                  && (forall k :: 0 <= k < |its| ==> Resolve(c, b, p.value.0, r.1[k], major) == Some(its[k]))
                  && (forall i: nat :: Resolve(c, b, p.value.0, i, major) == if i < |t.slots| then t.slots[i] else None))
  {
    hide Faithful, Resolve, ReadEntries, Sized, Supported, EmitFrom, Calls;
    EmptyValid();
    AnswersStand(c, Empty(), its);
    CallsSized(c, Empty(), its) by { assert Sized(c, Empty()) by { EmptySized(c); } }
    var r := Calls(c, Empty(), its);
    var t := r.0;
    var b := pre + Emit(c, t) + post;
    assert Holds(b, |pre|, Emit(c, t));
    if Supported(t, major) {
      PoolRead(c, t, b, |pre|, major);
      var es := ReadPool(b, |pre|, major).value.0;
      forall i: nat
        ensures Resolve(c, b, es, i, major) == if i < |t.slots| then t.slots[i] else None
      {
        ResolvesExactly(c, t, b, es, i, major);
      }
      forall k | 0 <= k < |its|
        ensures t.slots[r.1[k]] == Some(its[k]) && r.1[k] < |t.slots|
      {
        assert Placed(t, its[k]);
      }
    } else {
      PoolRefused(c, t, b, |pre|, major);
    }
  }

  lemma PoolRead(c: Codec, t: Table, b: seq<byte>, off: nat, major: nat)
    requires Faithful(c) && Valid(t) && Sized(c, t) && Supported(t, major) && |t.slots| >= 1 && Holds(b, off, Emit(c, t))
    ensures var r := ReadPool(b, off, major);
            r.Some? && Mirrors(c, t, b, r.value.0, 0) && |r.value.0| == |t.slots| && r.value.1 == off + |Emit(c, t)|
  {
    hide Faithful, Sized, Supported, EmitFrom, ReadEntries, Holds;
    HoldsParts(b, off, U2(|t.slots|), EmitFrom(c, t, 1));
    HoldsWhole(b, off, U2(|t.slots|));
    ReadsU2(b, off, |t.slots|);
    FirstIsFull(t);
    EntriesRead(c, t, b, off + 2, 1, major);
    WholeMirrors(c, t, b, ReadEntries(b, off + 2, 1, |t.slots|, major).value.0);
  }

  lemma EmptySized(c: Codec)
    ensures Sized(c, Empty())
  {
  }

  lemma FirstIsFull(t: Table)
    requires Valid(t)
    ensures 1 < |t.slots| ==> t.slots[1].Some?
  {
  }

  lemma WholeMirrors(c: Codec, t: Table, b: seq<byte>, rest: seq<Raw>)
    requires Valid(t) && Mirrors(c, t, b, rest, 1)
    ensures Mirrors(c, t, b, [UNUSABLE] + rest, 0)
  {
    hide RawFits;
    var es := [UNUSABLE] + rest;
    forall k | 0 <= k < |t.slots|
      ensures if t.slots[k].Some? then RawFits(c, t, b, t.slots[k].value, es[k]) else es[k] == UNUSABLE
    {
      if k > 0 { assert es[k] == rest[k - 1]; }
    }
  }
}
