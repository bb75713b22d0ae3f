/** The constant pool as a table of symbolic constants, and interning. */
module Pool {
  import opened Bytes

  datatype Option<T> = None | Some(value: T)

  const MAX_POOL_INDEX := 65534

  type Word32 = x: int | 0 <= x < 0x1_0000_0000

  type Word64 = x: int | 0 <= x < 0x1_0000_0000_0000_0000

  /** What a caller interns. Numbers are bit patterns: two NaNs, or +0.0 and -0.0, are different constants. */
  datatype Item =
    | Utf8(s: string)
    | Class(name: string)
    | Text(s: string)
    | MethodType(desc: string)
    | NameAndType(name: string, desc: string)
    | Field(owner: string, name: string, desc: string)
    | Method(owner: string, name: string, desc: string)
    | InterfaceMethod(owner: string, name: string, desc: string)
    | Integer(w: Word32)
    | Float(w: Word32)
    | Long(d: Word64)
    | Double(d: Word64)

  /** Modified UTF-8. */
  datatype Codec = Codec(enc: string -> seq<byte>, dec: seq<byte> -> Option<string>)

  ghost predicate Faithful(c: Codec) {
    forall s :: c.dec(c.enc(s)) == Some(s) && forall k :: 0 <= k < |c.enc(s)| ==> 0 < c.enc(s)[k] < 0xF0
  }

  predicate IsWide(it: Item) { it.Long? || it.Double? }

  /** The constants an entry refers to, in the order they are interned. */
  function Parts(it: Item): (r: seq<Item>)
    ensures forall p :: p in r ==> Rank(p) < Rank(it)
  {
    match it
    case Class(n) => [Utf8(n)]
    case Text(s) => [Utf8(s)]
    case MethodType(d) => [Utf8(d)]
    case NameAndType(n, d) => [Utf8(n), Utf8(d)]
    case Field(o, n, d) => [Class(o), NameAndType(n, d)]
    case Method(o, n, d) => [Class(o), NameAndType(n, d)]
    case InterfaceMethod(o, n, d) => [Class(o), NameAndType(n, d)]
    case _ => []
  }

  function Rank(it: Item): nat {
    match it
    case Utf8(_) => 0
    case Field(_, _, _) => 2
    case Method(_, _, _) => 2
    case InterfaceMethod(_, _, _) => 2
    case Class(_) => 1
    case Text(_) => 1
    case MethodType(_) => 1
    case NameAndType(_, _) => 1
    case _ => 0
  }

  // ---- the table ----------------------------------------------------------

  /** Slots name the constant they hold; index 0 and the second half of a long or double hold none. */
  datatype Table = Table(slots: seq<Option<Item>>, index: map<Item, nat>, failed: bool)

  function Empty(): Table { Table([None], map[], false) }

  function Need(it: Item): nat { if IsWide(it) then 2 else 1 }

  function Hold(it: Item): seq<Option<Item>> { if IsWide(it) then [Some(it), None] else [Some(it)] }

  /** Appends the entry and records its index, 0 if it did not fit or an earlier call failed. */
  function Add(t: Table, it: Item): Table {
    if t.failed then t.(index := t.index[it := 0])
    else if |t.slots| + Need(it) - 1 > MAX_POOL_INDEX then Table(t.slots, t.index[it := 0], true)
    else Table(t.slots + Hold(it), t.index[it := |t.slots|], false)
  }

  predicate TooLong(c: Codec, it: Item) { it.Utf8? && |c.enc(it.s)| > 65535 }

  function InternAll(c: Codec, t: Table, its: seq<Item>, rank: nat): Table
    requires forall it :: it in its ==> Rank(it) < rank
    decreases rank, |its|
  {
    if its == [] then t else InternAll(c, Intern(c, t, its[0]), its[1..], rank)
  }

  function Intern(c: Codec, t: Table, it: Item): Table
    decreases Rank(it), |Parts(it)| + 1
  {
    if it in t.index then t
    else if TooLong(c, it) then t.(failed := true)
    else Add(InternAll(c, t, Parts(it), Rank(it)), it)
  }

  /** The index an interning call answers with. */
  function IndexOf(t: Table, it: Item): nat { if it in t.index then t.index[it] else 0 }

  // ---- what every table satisfies -----------------------------------------

  predicate Placed(t: Table, it: Item) { it in t.index && t.index[it] != 0 }

  ghost predicate Valid(t: Table) {
    && 1 <= |t.slots| <= MAX_POOL_INDEX + 1 && t.slots[0] == None
    && (forall it :: it in t.index && t.index[it] != 0 ==> t.index[it] < |t.slots| && t.slots[t.index[it]] == Some(it))
    && (forall i :: 0 <= i < |t.slots| && t.slots[i].Some? ==> Home(t, i))
    && (forall i :: 1 <= i < |t.slots| && t.slots[i].None? ==> t.slots[i - 1].Some? && IsWide(t.slots[i - 1].value))
    && (!t.failed ==> forall it :: it in t.index ==> t.index[it] != 0)
  }

  /** A slot's constant is found at it, its second half follows, and its parts are in place. */
  ghost predicate Home(t: Table, i: nat)
    requires i < |t.slots| && t.slots[i].Some?
  {
    var it := t.slots[i].value;
    && it in t.index && t.index[it] == i
    && (IsWide(it) ==> i + 1 < |t.slots| && t.slots[i + 1] == None)
    && forall p :: p in Parts(it) ==> Placed(t, p)
  }

  /** Later calls leave earlier entries and answers alone. */
  ghost predicate Extends(t: Table, u: Table) {
    && t.slots <= u.slots
    && (forall it :: it in t.index ==> it in u.index && u.index[it] == t.index[it])
    && (t.failed ==> u.failed)
  }

  lemma ExtendsTrans(t: Table, u: Table, v: Table)
    requires Extends(t, u) && Extends(u, v)
    ensures Extends(t, v)
  {
  }

  lemma HomeKept(t: Table, u: Table, i: nat)
    requires Extends(t, u) && i < |t.slots| && t.slots[i].Some? && Home(t, i)
    ensures u.slots[i].Some? && Home(u, i)
  {
    var it := t.slots[i].value;
    forall p | p in Parts(it)
      ensures Placed(u, p)
    {
      assert Placed(t, p);
    }
  }

  /** An answer of 0, with an error pending, changes no entry. */
  lemma ZeroKeeps(t: Table, it: Item)
    requires Valid(t) && it !in t.index
    ensures var u := Table(t.slots, t.index[it := 0], true); Valid(u) && Extends(t, u)
  {
    hide Home, IsWide;
    var u := Table(t.slots, t.index[it := 0], true);
    forall i | 0 <= i < |u.slots| && u.slots[i].Some?
      ensures Home(u, i)
    {
      HomeKept(t, u, i);
    }
  }

  lemma AppendKeeps(t: Table, it: Item)
    requires Valid(t) && it !in t.index && !t.failed && |t.slots| + Need(it) - 1 <= MAX_POOL_INDEX
    requires forall p :: p in Parts(it) ==> Placed(t, p)
    ensures var u := Table(t.slots + Hold(it), t.index[it := |t.slots|], false); Valid(u) && Extends(t, u)
  {
    hide Home, Parts, Hold;
    var u := Table(t.slots + Hold(it), t.index[it := |t.slots|], false);
    var n := |t.slots|;
    HoldIs(t.slots, it);
    assert u.slots[..n] == t.slots;
    assert Home(u, n) by { NewHome(t, it); }
    forall i | 0 <= i < |u.slots| && u.slots[i].Some?
      ensures Home(u, i)
    {
      if i < n { HomeKept(t, u, i); }
    }
  }

  lemma HoldIs(ss: seq<Option<Item>>, it: Item)
    ensures |Hold(it)| == Need(it) && (ss + Hold(it))[|ss|] == Some(it)
    ensures IsWide(it) ==> (ss + Hold(it))[|ss| + 1] == None
  {
  }

  lemma NewHome(t: Table, it: Item)
    requires it !in t.index && |t.slots| > 0 && forall p :: p in Parts(it) ==> Placed(t, p)
    ensures var u := Table(t.slots + Hold(it), t.index[it := |t.slots|], false);
            u.slots[|t.slots|].Some? && Home(u, |t.slots|)
  {
    hide Parts;
    var u := Table(t.slots + Hold(it), t.index[it := |t.slots|], false);
    forall p | p in Parts(it)
      ensures Placed(u, p)
    {
      assert Placed(t, p);
    }
  }

  lemma AddKeeps(t: Table, it: Item)
    requires Valid(t) && it !in t.index && (!t.failed ==> forall p :: p in Parts(it) ==> Placed(t, p))
    ensures Valid(Add(t, it)) && Extends(t, Add(t, it)) && it in Add(t, it).index
  {
    hide Valid, Extends, Parts;
    if t.failed || |t.slots| + Need(it) - 1 > MAX_POOL_INDEX {
      ZeroKeeps(t, it);
      assert t.failed ==> t.(index := t.index[it := 0]) == Table(t.slots, t.index[it := 0], true);
    } else {
      AppendKeeps(t, it);
    }
  }

  /** Interning keeps the table valid, moves nothing, and places the constant unless an error is pending. */
  lemma {:induction false} InternKeeps(c: Codec, t: Table, it: Item)
    requires Valid(t)
    ensures var u := Intern(c, t, it); Valid(u) && Extends(t, u) && (!u.failed ==> Placed(u, it))
    ensures forall x :: x in Intern(c, t, it).index && x !in t.index ==> Rank(x) < Rank(it) || x == it
    decreases Rank(it), |Parts(it)| + 1
  {
    hide Valid, Extends, Parts;
    if it in t.index {
      SelfExtends(t);
      KnownPlaced(t, it);
    } else if TooLong(c, it) {
      FailKeeps(t);
    } else {
      AllKeeps(c, t, Parts(it), Rank(it));
      var u := InternAll(c, t, Parts(it), Rank(it));
      AddKeeps(u, it);
      ExtendsTrans(t, u, Add(u, it));
      KnownPlaced(Add(u, it), it);
    }
  }

  lemma SelfExtends(t: Table)
    ensures Extends(t, t)
  {
  }

  lemma KnownPlaced(t: Table, it: Item)
    requires Valid(t) && it in t.index
    ensures !t.failed ==> Placed(t, it)
  {
  }

  lemma FailKeeps(t: Table)
    requires Valid(t)
    ensures Valid(t.(failed := true)) && Extends(t, t.(failed := true))
  {
    hide Home, IsWide;
    var u := t.(failed := true);
    forall i | 0 <= i < |u.slots| && u.slots[i].Some?
      ensures Home(u, i)
    {
      HomeKept(t, u, i);
    }
  }

  lemma {:induction false} AllKeeps(c: Codec, t: Table, its: seq<Item>, rank: nat)
    requires Valid(t) && forall it :: it in its ==> Rank(it) < rank
    ensures var u := InternAll(c, t, its, rank);
            Valid(u) && Extends(t, u) && (!u.failed ==> forall it :: it in its ==> Placed(u, it))
    ensures forall x :: x in InternAll(c, t, its, rank).index && x !in t.index ==> Rank(x) < rank
    decreases rank, |its|
  {
    hide Valid, Intern, Parts;
    if its == [] {
      SelfExtends(t);
    } else {
      var u := Intern(c, t, its[0]);
      InternKeeps(c, t, its[0]);
      AllKeeps(c, u, its[1..], rank);
      var v := InternAll(c, u, its[1..], rank);
      ExtendsTrans(t, u, v);
    }
  }

  // ---- whole call sequences -----------------------------------------------

  /** The table and the indices answered by a run of interning calls. */
  function Calls(c: Codec, t: Table, its: seq<Item>): (Table, seq<nat>)
    decreases |its|
  {
    if its == [] then (t, [])
    else
      var u := Intern(c, t, its[0]);
      var r := Calls(c, u, its[1..]);
      (r.0, [IndexOf(u, its[0])] + r.1)
  }

  lemma EmptyValid()
    ensures Valid(Empty())
  {
  }

  /** Each answer of an error-free run is where its constant is in the final table. */
  lemma {:induction false} AnswersStand(c: Codec, t: Table, its: seq<Item>)
    requires Valid(t)
    ensures var r := Calls(c, t, its);
            && Valid(r.0) && Extends(t, r.0) && |r.1| == |its|
            && (!r.0.failed ==> forall k :: 0 <= k < |its| ==> Placed(r.0, its[k]) && r.1[k] == r.0.index[its[k]])
    decreases |its|
  {
    hide Valid, Intern;
    if its == [] {
      SelfExtends(t);
    } else {
      var u := Intern(c, t, its[0]);
      InternKeeps(c, t, its[0]);
      AnswersStand(c, u, its[1..]);
      var r := Calls(c, u, its[1..]);
      ExtendsTrans(t, u, r.0);
      if !r.0.failed {
        assert Placed(u, its[0]) && Placed(r.0, its[0]);
      }
    }
  }

  /** After any error-free calls: equal constants have equal indices and different constants different ones, none of them 0. */
  lemma InterningExact(c: Codec, its: seq<Item>, j: nat, k: nat)
    requires j < |its| && k < |its| && !Calls(c, Empty(), its).0.failed
    ensures var r := Calls(c, Empty(), its);
            |r.1| == |its| && r.1[j] != 0 && (r.1[j] == r.1[k] <==> its[j] == its[k])
  {
    EmptyValid();
    AnswersStand(c, Empty(), its);
    var t := Calls(c, Empty(), its).0;
    assert t.slots[t.index[its[j]]] == Some(its[j]) && t.slots[t.index[its[k]]] == Some(its[k]);
  }

  /** Repeating a run of calls on the table it left answers the same indices and adds nothing. */
  lemma {:induction false} ReplayStable(c: Codec, t: Table, its: seq<Item>)
    requires Valid(t) && !t.failed && forall k :: 0 <= k < |its| ==> its[k] in t.index
    ensures Calls(c, t, its).0 == t
    ensures forall k :: 0 <= k < |its| ==> |Calls(c, t, its).1| == |its| && Calls(c, t, its).1[k] == t.index[its[k]]
    decreases |its|
  {
    hide Valid;
    if its != [] {
      ReplayStable(c, t, its[1..]);
    }
  }

  /** A second pass over the same calls, on the table the first pass left, answers what the first pass answered. */
  lemma ReplayAnswers(c: Codec, its: seq<Item>)
    requires !Calls(c, Empty(), its).0.failed
    ensures Calls(c, Calls(c, Empty(), its).0, its) == Calls(c, Empty(), its)
  {
    hide Calls, Valid;
    EmptyValid();
    AnswersStand(c, Empty(), its);
    var r := Calls(c, Empty(), its);
    forall k | 0 <= k < |its|
      ensures its[k] in r.0.index
    {
      assert Placed(r.0, its[k]);
    }
    ReplayStable(c, r.0, its);
    ReplayCount(c, r.0, its);
    assert Calls(c, r.0, its).1 == r.1;
  }

  lemma {:induction false} ReplayCount(c: Codec, t: Table, its: seq<Item>)
    ensures |Calls(c, t, its).1| == |its|
    decreases |its|
  {
    if its != [] { ReplayCount(c, Intern(c, t, its[0]), its[1..]); }
  }

  /** Once an error is pending nothing is added; a constant already interned still answers its index, any other answers 0. */
  lemma {:induction false} AfterFailure(c: Codec, t: Table, it: Item)
    requires t.failed
    ensures var u := Intern(c, t, it); u.failed && u.slots == t.slots && IndexOf(u, it) == IndexOf(t, it)
    decreases Rank(it), |Parts(it)| + 1
  {
    if it !in t.index && !TooLong(c, it) { AllAfterFailure(c, t, Parts(it), Rank(it)); }
  }

  lemma {:induction false} AllAfterFailure(c: Codec, t: Table, its: seq<Item>, rank: nat)
    requires t.failed && forall it :: it in its ==> Rank(it) < rank
    ensures var u := InternAll(c, t, its, rank); u.failed && u.slots == t.slots
    decreases rank, |its|
  {
    if its != [] {
      AfterFailure(c, t, its[0]);
      AllAfterFailure(c, Intern(c, t, its[0]), its[1..], rank);
    }
  }

  /** A string, one too long to encode, and the first again: an error is pending, and the first still answers its index. */
  lemma AnswersAfterFailure(c: Codec, s: string, long: string)
    requires |c.enc(s)| <= 65535 < |c.enc(long)|
    ensures var r := Calls(c, Empty(), [Utf8(s), Utf8(long), Utf8(s)]); r.0.failed && r.1 == [1, 0, 1]
  {
    var a, b := Utf8(s), Utf8(long);
    var t1 := Add(Empty(), a);
    assert Intern(c, Empty(), a) == t1 && t1.index == map[a := 1];
    var t2 := t1.(failed := true);
    assert Intern(c, t1, b) == t2 && Intern(c, t2, a) == t2;
    assert [a, b, a][1..] == [b, a] && [b, a][1..] == [a] && [a][1..] == [];
    assert Calls(c, t2, []) == (t2, []);
    assert IndexOf(t1, a) == 1 && IndexOf(t2, a) == 1 && IndexOf(t2, b) == 0;
    CallsFirst(c, t2, a, []);
    CallsFirst(c, t1, b, [a]);
    CallsFirst(c, Empty(), a, [b, a]);
    assert [a] + [] == [a] && [b] + [a] == [b, a] && [a] + [b, a] == [a, b, a];
  }

  lemma CallsFirst(c: Codec, t: Table, it: Item, its: seq<Item>)
    ensures var u := Intern(c, t, it);
            Calls(c, t, [it] + its) == (Calls(c, u, its).0, [IndexOf(u, it)] + Calls(c, u, its).1)
  {
    hide Intern;
    assert ([it] + its)[1..] == its;
  }
}
