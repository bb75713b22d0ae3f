/** The builder: encoded entries appended in place, indices handed out, and the table it emits. */
module PoolBuilder {
  import opened Bytes
  import opened Pool

  const UTF8: byte := 1
  const INTEGER: byte := 3
  const FLOAT: byte := 4
  const LONG: byte := 5
  const DOUBLE: byte := 6
  const CLASS: byte := 7
  const STRING: byte := 8
  const FIELDREF: byte := 9
  const METHODREF: byte := 10
  const INTERFACE_METHODREF: byte := 11
  const NAME_AND_TYPE: byte := 12
  const METHOD_TYPE: byte := 16

  function TagOf(it: Item): byte {
    match it
    case Utf8(_) => UTF8
    case Integer(_) => INTEGER
    case Float(_) => FLOAT
    case Long(_) => LONG
    case Double(_) => DOUBLE
    case Class(_) => CLASS
    case Text(_) => STRING
    case Field(_, _, _) => FIELDREF
    case Method(_, _, _) => METHODREF
    case InterfaceMethod(_, _, _) => INTERFACE_METHODREF
    case NameAndType(_, _) => NAME_AND_TYPE
    case MethodType(_) => METHOD_TYPE
  }

  /** The indices of the parts, big-endian. */
  function Refs(t: Table, ps: seq<Item>): seq<byte> { if ps == [] then [] else U2(IndexOf(t, ps[0])) + Refs(t, ps[1..]) }

  function Payload(c: Codec, t: Table, it: Item): seq<byte> {
    match it
    case Utf8(s) => U2(|c.enc(s)|) + c.enc(s)
    case Integer(w) => U4(w)
    case Float(w) => U4(w)
    case Long(d) => U4(d / 0x1_0000_0000) + U4(d % 0x1_0000_0000)
    case Double(d) => U4(d / 0x1_0000_0000) + U4(d % 0x1_0000_0000)
    case _ => Refs(t, Parts(it))
  }

  function Entry(c: Codec, t: Table, it: Item): seq<byte> { [TagOf(it)] + Payload(c, t, it) }

  function Slot(c: Codec, t: Table, s: Option<Item>): seq<byte> {
    match s
    case None => []
    case Some(it) => Entry(c, t, it)
  }

  function EmitFrom(c: Codec, t: Table, i: nat): seq<byte>
    requires i <= |t.slots|
    decreases |t.slots| - i
  {
    if i == |t.slots| then [] else Slot(c, t, t.slots[i]) + EmitFrom(c, t, i + 1)
  }

  /** constant_pool_count and the entries. */
  function Emit(c: Codec, t: Table): seq<byte>
    requires |t.slots| >= 1
  {
    U2(|t.slots|) + EmitFrom(c, t, 1)
  }

  lemma {:induction false} RefsStable(t: Table, u: Table, ps: seq<Item>)
    requires Extends(t, u) && forall p :: p in ps ==> Placed(t, p)
    ensures Refs(t, ps) == Refs(u, ps)
  {
    if ps != [] { assert Placed(t, ps[0]); RefsStable(t, u, ps[1..]); }
  }

  /** An entry encoded when it was added is the entry encoded at the end. */
  lemma EntryStable(c: Codec, t: Table, u: Table, it: Item)
    requires Extends(t, u) && forall p :: p in Parts(it) ==> Placed(t, p)
    ensures Entry(c, t, it) == Entry(c, u, it)
  {
    RefsStable(t, u, Parts(it));
  }

  class Builder {
    const codec: Codec
    var slots: seq<seq<byte>>
    var index: map<Item, nat>
    var failed: bool
    ghost var table: Table

    ghost predicate Valid()
      reads this
    {
      && Pool.Valid(table) && index == table.index && failed == table.failed && |slots| == |table.slots|
      && forall i :: 0 <= i < |slots| ==> slots[i] == Slot(codec, table, table.slots[i])
    }

    constructor (codec: Codec)
      ensures Valid() && table == Empty() && this.codec == codec
    {
      this.codec := codec;
      slots, index, failed, table := [[]], map[], false, Empty();
    }

    /** Appends an encoded entry, taking two slots for the 8-byte constants. */
    method Add(b: seq<byte>, it: Item) returns (i: nat)
      requires Valid() && it !in index && (!failed ==> b == Entry(codec, table, it) && forall p :: p in Parts(it) ==> Placed(table, p))
      modifies this
      ensures Valid() && table == Pool.Add(old(table), it) && i == IndexOf(table, it)
    {
      hide Pool.Valid, Entry, Parts;
      ghost var was := table;
      AddKeeps(table, it);
      table := Pool.Add(table, it);
      if failed {
        index := index[it := 0];
        SlotsStable(codec, was, table);
        return 0;
      }
      var n := |slots|;
      var need := if IsWide(it) then 2 else 1;
      if n + need - 1 > MAX_POOL_INDEX {
        failed := true;
        index := index[it := 0];
        SlotsStable(codec, was, table);
        return 0;
      }
      slots := slots + [b];
      if IsWide(it) { slots := slots + [[]]; }
      index := index[it := n];
      i := n;
      SlotsStable(codec, was, table);
      EntryStable(codec, was, table, it);
    }

    method Fail()
      requires Valid()
      modifies this
      ensures Valid() && table == old(table).(failed := true)
    {
      hide Pool.Valid, Entry;
      FailKeeps(table);
      failed := true;
      SlotsStable(codec, table, table.(failed := true));
      table := table.(failed := true);
    }

    lemma TableValid()
      requires Valid()
      ensures Pool.Valid(table)
    {
    }

    /** The index a constant was given, 0 if it has none. */
    function Given(it: Item): (i: nat)
      requires Valid()
      reads this
      ensures i == IndexOf(table, it)
    {
      if it in index then index[it] else 0
    }

    method Utf8Index(s: string) returns (i: nat)
      requires Valid()
      modifies this
      ensures Valid() && table == Intern(codec, old(table), Utf8(s)) && i == IndexOf(table, Utf8(s))
    {
      hide Pool.Valid, Slot, Placed, Home;
      if Utf8(s) in index { return index[Utf8(s)]; }
      var enc := codec.enc(s);
      if |enc| > 65535 {
        Fail();
        return 0;
      }
      i := Add([UTF8] + (U2(|enc|) + enc), Utf8(s));
    }

    method NumberIndex(it: Item) returns (i: nat)
      requires Valid() && (it.Integer? || it.Float? || it.Long? || it.Double?)
      modifies this
      ensures Valid() && table == Intern(codec, old(table), it) && i == IndexOf(table, it)
    {
      hide Pool.Valid, Slot, Placed, Home;
      if it in index { return index[it]; }
      var b := [TagOf(it)];
      match it
      case Integer(w) => b := b + U4(w); assert b == Entry(codec, table, it); i := Add(b, it);
      case Float(w) => b := b + U4(w); assert b == Entry(codec, table, it); i := Add(b, it);
      case Long(d) => b := b + (U4(d / 0x1_0000_0000) + U4(d % 0x1_0000_0000)); assert b == Entry(codec, table, it); i := Add(b, it);
      case Double(d) => b := b + (U4(d / 0x1_0000_0000) + U4(d % 0x1_0000_0000)); assert b == Entry(codec, table, it); i := Add(b, it);
    }

    /** Class, String and MethodType constants: one reference to a Utf8. */
    method NameIndex(it: Item) returns (i: nat)
      requires Valid() && (it.Class? || it.Text? || it.MethodType?)
      modifies this
      ensures Valid() && table == Intern(codec, old(table), it) && i == IndexOf(table, it)
    {
      hide Pool.Valid, Slot, Home;
      if it in index { return index[it]; }
      ghost var was := table;
      var s := match it case Class(name) => name case Text(s) => s case MethodType(d) => d;
      assert Parts(it) == [Utf8(s)];
      var n := Utf8Index(s);
      OnePart(codec, was, Utf8(s), Rank(it));
      AllKeeps(codec, was, Parts(it), Rank(it));
      assert Refs(table, Parts(it)) == U2(n) + [];
      i := Add([TagOf(it)] + U2(n), it);
    }

    method NameAndTypeIndex(name: string, desc: string) returns (i: nat)
      requires Valid()
      modifies this
      ensures Valid() && table == Intern(codec, old(table), NameAndType(name, desc)) && i == IndexOf(table, NameAndType(name, desc))
    {
      hide Pool.Valid, Slot, Home;
      var it := NameAndType(name, desc);
      if it in index { return index[it]; }
      ghost var was := table;
      var n := Utf8Index(name);
      ghost var mid := table;
      var d := Utf8Index(desc);
      TwoParts(codec, was, Utf8(name), Utf8(desc), Rank(it));
      AllKeeps(codec, was, Parts(it), Rank(it));
      InternKeeps(codec, was, Utf8(name));
      InternKeeps(codec, mid, Utf8(desc));
      FirstStands(mid, table, Utf8(name));
      assert !failed ==> Refs(table, Parts(it)) == U2(n) + U2(d) by { TwoRefs(table, Utf8(name), Utf8(desc)); }
      i := Add([NAME_AND_TYPE] + (U2(n) + U2(d)), it);
    }

    /** Field and method references: a class and a name and type. */
    method MemberIndex(it: Item) returns (i: nat)
      requires Valid() && (it.Field? || it.Method? || it.InterfaceMethod?)
      modifies this
      ensures Valid() && table == Intern(codec, old(table), it) && i == IndexOf(table, it)
    {
      hide Pool.Valid, Slot, Home;
      if it in index { return index[it]; }
      ghost var was := table;
      var n := NameIndex(Class(it.owner));
      ghost var mid := table;
      var d := NameAndTypeIndex(it.name, it.desc);
      var nt := NameAndType(it.name, it.desc);
      TwoParts(codec, was, Class(it.owner), nt, Rank(it));
      AllKeeps(codec, was, Parts(it), Rank(it));
      InternKeeps(codec, was, Class(it.owner));
      InternKeeps(codec, mid, nt);
      FirstStands(mid, table, Class(it.owner));
      assert !failed ==> Refs(table, Parts(it)) == U2(n) + U2(d) by { TwoRefs(table, Class(it.owner), nt); }
      i := Add([TagOf(it)] + (U2(n) + U2(d)), it);
    }

    method EmitTable() returns (w: seq<byte>)
      requires Valid()
      ensures w == Emit(codec, table)
    {
      hide Slot;
      w := U2(|slots|);
      for i := 1 to |slots|
        invariant w + EmitFrom(codec, table, i) == Emit(codec, table)
      {
        w := w + slots[i];
      }
    }
  }

  lemma SlotsStable(c: Codec, t: Table, u: Table)
    requires Pool.Valid(t) && Extends(t, u)
    ensures forall i :: 0 <= i < |t.slots| ==> u.slots[i] == t.slots[i] && Slot(c, u, t.slots[i]) == Slot(c, t, t.slots[i])
  {
    hide Entry;
    forall i | 0 <= i < |t.slots|
      ensures u.slots[i] == t.slots[i] && Slot(c, u, t.slots[i]) == Slot(c, t, t.slots[i])
    {
      if t.slots[i].Some? {
        assert Home(t, i);
        EntryStable(c, t, u, t.slots[i].value);
      }
    }
  }

  lemma OnePart(c: Codec, t: Table, p: Item, rank: nat)
    requires Rank(p) < rank
    ensures InternAll(c, t, [p], rank) == Intern(c, t, p)
  {
    hide Intern;
    assert InternAll(c, Intern(c, t, p), [], rank) == Intern(c, t, p);
  }

  lemma TwoParts(c: Codec, t: Table, p: Item, q: Item, rank: nat)
    requires Rank(p) < rank && Rank(q) < rank
    ensures InternAll(c, t, [p, q], rank) == Intern(c, Intern(c, t, p), q)
  {
    hide Intern;
    assert [p, q][1..] == [q];
    OnePart(c, Intern(c, t, p), q, rank);
  }

  lemma TwoRefs(t: Table, p: Item, q: Item)
    ensures Refs(t, [p, q]) == U2(IndexOf(t, p)) + U2(IndexOf(t, q))
  {
    assert [p, q][1..] == [q];
    assert Refs(t, [q]) == U2(IndexOf(t, q)) + [];
  }

  lemma FirstStands(t: Table, u: Table, p: Item)
    requires Extends(t, u) && (!t.failed ==> Placed(t, p))
    ensures !u.failed ==> IndexOf(u, p) == IndexOf(t, p)
  {
  }
}
