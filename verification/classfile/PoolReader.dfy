/** Reading a constant pool back and resolving its indices. */
module PoolReader {
  import opened Bytes
  import opened Pool
  import opened PoolBuilder

  /** One undecoded entry. Utf8 holds the offset and length of its bytes, the rest their one or two operands. */
  datatype Raw = Raw(tag: byte, a: nat, b: nat)

  const UNUSABLE := Raw(0, 0, 0)

  /** The first class file version with the tag, none for an unassigned one. */
  function Since(tag: byte): Option<nat> {
    if tag == 1 || 3 <= tag <= 12 then Some(45)
    else if tag == 15 || tag == 16 || tag == 18 then Some(51)
    else if tag == 19 || tag == 20 then Some(53)
    else if tag == 17 then Some(55)
    else None
  }

  predicate TakesTwo(tag: byte) { tag == LONG || tag == DOUBLE }

  function U16At(b: seq<byte>, at: nat): nat
    requires at + 2 <= |b|
  {
    0x100 * (b[at] as int) + b[at + 1]
  }

  function U32At(b: seq<byte>, at: nat): nat
    requires at + 4 <= |b|
  {
    0x100_0000 * (b[at] as int) + 0x1_0000 * (b[at + 1] as int) + 0x100 * (b[at + 2] as int) + b[at + 3]
  }

  predicate Allowed(bs: seq<byte>) { forall k :: 0 <= k < |bs| ==> 0 < bs[k] < 0xF0 }

  // ---- the reader as a function -------------------------------------------

  /** An entry and the offset after it. */
  function ReadEntry(b: seq<byte>, off: nat, major: nat): Option<(Raw, nat)> {
    if off + 1 > |b| then None
    else
      var tag := b[off];
      var o := off + 1;
      if Since(tag).None? || major < Since(tag).value then None
      else if tag == UTF8 then
        if o + 2 > |b| || o + 2 + U16At(b, o) > |b| || !Allowed(b[o + 2..o + 2 + U16At(b, o)]) then None
        else Some((Raw(tag, o + 2, U16At(b, o)), o + 2 + U16At(b, o)))
      else if tag == INTEGER || tag == FLOAT then
        if o + 4 > |b| then None else Some((Raw(tag, U32At(b, o), 0), o + 4))
      else if TakesTwo(tag) then
        if o + 8 > |b| then None else Some((Raw(tag, U32At(b, o), U32At(b, o + 4)), o + 8))
      else if tag == CLASS || tag == STRING || tag == METHOD_TYPE || tag == 19 || tag == 20 then
        if o + 2 > |b| then None else Some((Raw(tag, U16At(b, o), 0), o + 2))
      else if tag == 15 then
        if o + 3 > |b| then None else Some((Raw(tag, b[o], U16At(b, o + 1)), o + 3))
      else
        if o + 4 > |b| then None else Some((Raw(tag, U16At(b, o), U16At(b, o + 2)), o + 4))
  }

  /** The entries from index i on, the second half of a long or double left unusable. */
  function ReadEntries(b: seq<byte>, off: nat, i: nat, count: nat, major: nat): Option<(seq<Raw>, nat)>
    decreases count - i
  {
    if i >= count then Some(([], off))
    else match ReadEntry(b, off, major)
      case None => None
      case Some(e) =>
        if TakesTwo(e.0.tag) then
          if i + 1 >= count then None
          else match ReadEntries(b, e.1, i + 2, count, major)
            case None => None
            case Some(r) => Some(([e.0, UNUSABLE] + r.0, r.1))
        else match ReadEntries(b, e.1, i + 1, count, major)
          case None => None
          case Some(r) => Some(([e.0] + r.0, r.1))
  }

  /** The pool with its placeholder at index 0, and the offset after it. */
  function ReadPool(b: seq<byte>, off: nat, major: nat): Option<(seq<Raw>, nat)> {
    if off + 2 > |b| || U16At(b, off) == 0 then None
    else match ReadEntries(b, off + 2, 1, U16At(b, off), major)
      case None => None
      case Some(r) => Some(([UNUSABLE] + r.0, r.1))
  }

  // ---- resolution ---------------------------------------------------------

  /** The entry at an index, of the wanted tag, or of any when none is named. */
  function At(es: seq<Raw>, i: nat, want: byte): Option<Raw> {
    if i == 0 || i >= |es| || es[i].tag == 0 || (want != 0 && es[i].tag != want) then None else Some(es[i])
  }

  function StringAt(c: Codec, b: seq<byte>, es: seq<Raw>, i: nat): Option<string> {
    match At(es, i, UTF8)
    case None => None
    case Some(e) => if e.a + e.b <= |b| then c.dec(b[e.a..e.a + e.b]) else None
  }

  function NameAt(c: Codec, b: seq<byte>, es: seq<Raw>, i: nat, want: byte): Option<string> {
    match At(es, i, want)
    case None => None
    case Some(e) => StringAt(c, b, es, e.a)
  }

  function PairAt(c: Codec, b: seq<byte>, es: seq<Raw>, i: nat): Option<(string, string)> {
    match At(es, i, NAME_AND_TYPE)
    case None => None
    case Some(e) =>
      match StringAt(c, b, es, e.a)
      case None => None
      case Some(n) =>
        match StringAt(c, b, es, e.b)
        case None => None
        case Some(d) => Some((n, d))
  }

  /** A field or method reference as the constant it names. */
  function RefAt(c: Codec, b: seq<byte>, es: seq<Raw>, i: nat): Option<Item> {
    match At(es, i, 0)
    case None => None
    case Some(e) =>
      if e.tag != FIELDREF && e.tag != METHODREF && e.tag != INTERFACE_METHODREF then None
      else match NameAt(c, b, es, e.a, CLASS)
        case None => None
        case Some(owner) =>
          match PairAt(c, b, es, e.b)
          case None => None
          case Some(nd) =>
            if e.tag == FIELDREF then Some(Field(owner, nd.0, nd.1))
            else if e.tag == METHODREF then Some(Method(owner, nd.0, nd.1))
            else Some(InterfaceMethod(owner, nd.0, nd.1))
  }

  function Wrap(s: Option<string>, f: string -> Item): Option<Item> {
    match s
    case None => None
    case Some(x) => Some(f(x))
  }

  /** A loadable constant; a class is loadable from version 49.0 on. */
  function ConstAt(c: Codec, b: seq<byte>, es: seq<Raw>, i: nat, major: nat): Option<Item> {
    match At(es, i, 0)
    case None => None
    case Some(e) =>
      if e.tag == INTEGER && e.a < 0x1_0000_0000 then Some(Integer(e.a))
      else if e.tag == FLOAT && e.a < 0x1_0000_0000 then Some(Float(e.a))
      else if e.tag == LONG && e.a < 0x1_0000_0000 && e.b < 0x1_0000_0000 then Some(Long(0x1_0000_0000 * e.a + e.b))
      else if e.tag == DOUBLE && e.a < 0x1_0000_0000 && e.b < 0x1_0000_0000 then Some(Double(0x1_0000_0000 * e.a + e.b))
      else if e.tag == CLASS && major >= 49 then Wrap(NameAt(c, b, es, i, CLASS), s => Class(s))
      else if e.tag == STRING then Wrap(StringAt(c, b, es, e.a), s => Text(s))
      else if e.tag == METHOD_TYPE then Wrap(NameAt(c, b, es, i, METHOD_TYPE), s => MethodType(s))
      else None
  }

  /** What an index resolves to, through the accessor for its tag. */
  function Resolve(c: Codec, b: seq<byte>, es: seq<Raw>, i: nat, major: nat): Option<Item> {
    match At(es, i, 0)
    case None => None
    case Some(e) =>
      if e.tag == UTF8 then Wrap(StringAt(c, b, es, i), s => Utf8(s))
      else if e.tag == CLASS then Wrap(NameAt(c, b, es, i, CLASS), s => Class(s))
      else if e.tag == NAME_AND_TYPE then
        (match PairAt(c, b, es, i)
         case None => None
         case Some(nd) => Some(NameAndType(nd.0, nd.1)))
      else if FIELDREF <= e.tag <= INTERFACE_METHODREF then RefAt(c, b, es, i)
      else ConstAt(c, b, es, i, major)
  }

  // ---- the cursor ---------------------------------------------------------

  /** A cursor with a sticky error: after the first failure reads answer zero and the offset stays. */
  class Reader {
    const b: seq<byte>
    var off: nat
    var failed: bool

    constructor (b: seq<byte>, off: nat)
      ensures this.b == b && this.off == off && !failed
    {
      this.b, this.off, this.failed := b, off, false;
    }

    method Fail()
      modifies this
      ensures failed && off == old(off)
    {
      failed := true;
    }

    method Short(n: nat) returns (s: bool)
      modifies this`failed
      ensures s <==> old(failed) || off + n > |b|
      ensures failed == s
    {
      if failed { return true; }
      if off + n > |b| { failed := true; return true; }
      s := false;
    }

    method ReadU1() returns (v: byte)
      modifies this
      ensures failed <==> old(failed) || old(off) + 1 > |b|
      ensures if failed then v == 0 && off == old(off) else v == b[old(off)] && off == old(off) + 1
    {
      var s := Short(1);
      if s { return 0; }
      v := b[off];
      off := off + 1;
    }

    method ReadU2() returns (v: nat)
      modifies this
      ensures failed <==> old(failed) || old(off) + 2 > |b|
      ensures if failed then v == 0 && off == old(off) else v == U16At(b, old(off)) && off == old(off) + 2
    {
      var s := Short(2);
      if s { return 0; }
      v := 0x100 * (b[off] as int) + b[off + 1];
      off := off + 2;
    }

    method ReadU4() returns (v: nat)
      modifies this
      ensures failed <==> old(failed) || old(off) + 4 > |b|
      ensures if failed then v == 0 && off == old(off) else v == U32At(b, old(off)) && off == old(off) + 4
    {
      var s := Short(4);
      if s { return 0; }
      v := 0x100_0000 * (b[off] as int) + 0x1_0000 * (b[off + 1] as int) + 0x100 * (b[off + 2] as int) + b[off + 3];
      off := off + 4;
    }

    method ReadBytes(n: nat) returns (v: seq<byte>)
      modifies this
      ensures failed <==> old(failed) || old(off) + n > |b|
      ensures if failed then v == [] && off == old(off) else v == b[old(off)..old(off) + n] && off == old(off) + n
    {
      var s := Short(n);
      if s { return []; }
      v := b[off..off + n];
      off := off + n;
    }

    /** The operands of one entry after its tag; false when the entry is refused. */
    method Operands(tag: byte) returns (e: Raw)
      requires !failed && off >= 1 && off <= |b| && b[off - 1] == tag && Since(tag).Some?
      modifies this
      ensures var r := ReadEntry(b, old(off) - 1, Since(tag).value); failed <==> r.None?
      ensures !failed ==> ReadEntry(b, old(off) - 1, Since(tag).value) == Some((e, off))
    {
      e := Raw(tag, 0, 0);
      if tag == UTF8 {
        var n := ReadU2();
        var at := off;
        var bs := ReadBytes(n);
        if failed { return; }
        var j := 0;
        while j < |bs|
          invariant 0 <= j <= |bs| && forall k :: 0 <= k < j ==> 0 < bs[k] < 0xF0
          invariant !failed && off == at + n
        {
          if bs[j] == 0 || bs[j] >= 0xF0 {
            off := at + j;
            Fail();
            assert !Allowed(bs);
            return;
          }
          j := j + 1;
        }
        e := Raw(tag, at, n);
      } else if tag == INTEGER || tag == FLOAT {
        var a := ReadU4();
        e := Raw(tag, a, 0);
      } else if TakesTwo(tag) {
        var a := ReadU4();
        var d := ReadU4();
        e := Raw(tag, a, d);
      } else if tag == CLASS || tag == STRING || tag == METHOD_TYPE || tag == 19 || tag == 20 {
        var a := ReadU2();
        e := Raw(tag, a, 0);
      } else if tag == 15 {
        var a := ReadU1();
        var d := ReadU2();
        e := Raw(tag, a, d);
      } else {
        var a := ReadU2();
        var d := ReadU2();
        e := Raw(tag, a, d);
      }
    }

    /** Reads the count and the entries; the answer is meaningful when no error is pending. */
    method Pool(major: nat) returns (es: seq<Raw>)
      requires !failed
      modifies this
      ensures failed <==> ReadPool(b, old(off), major).None?
      ensures !failed ==> ReadPool(b, old(off), major) == Some((es, off))
    {
      hide ReadEntry, U16At;
      ghost var start := off;
      var count := ReadU2();
      if failed { return []; }
      if count == 0 { Fail(); return []; }
      es := [UNUSABLE];
      var i := 1;
      ghost var all := ReadEntries(b, off, 1, count, major);
      while i < count
        invariant 1 <= i <= count && |es| == i && !failed
        invariant var rest := ReadEntries(b, off, i, count, major);
                  if all.None? then rest.None? else rest.Some? && [UNUSABLE] + all.value.0 == es + rest.value.0 && all.value.1 == rest.value.1
      {
        var at := off;
        var tag := ReadU1();
        if failed { EntryNeedsTag(b, at, major); return; }
        if Since(tag).None? || major < Since(tag).value {
          EntryNeedsVersion(b, at, major);
          off := at;
          Fail();
          return;
        }
        var e := Operands(tag);
        EntryVersion(b, at, major);
        if failed { return; }
        if TakesTwo(tag) {
          if i + 1 >= count { Fail(); return; }
          es := es + [e, UNUSABLE];
          i := i + 2;
        } else {
          es := es + [e];
          i := i + 1;
        }
      }
      assert es + [] == es;
      assert all.Some? && ReadPool(b, start, major) == Some(([UNUSABLE] + all.value.0, all.value.1));
    }
  }

  /** The pool's lazily decoded strings; the empty string is a value like any other. */
  class Strings {
    const codec: Codec
    const b: seq<byte>
    const es: seq<Raw>
    var strs: seq<string>
    var known: seq<bool>

    ghost predicate Valid()
      reads this
    {
      |strs| == |known| == |es| && forall i :: 0 <= i < |es| && known[i] ==> StringAt(codec, b, es, i) == Some(strs[i])
    }

    constructor (codec: Codec, b: seq<byte>, es: seq<Raw>)
      ensures Valid() && this.codec == codec && this.b == b && this.es == es
    {
      this.codec, this.b, this.es := codec, b, es;
      this.strs, this.known := seq(|es|, _ => ""), seq(|es|, _ => false);
    }

    /** The same answer whether the string was decoded before or not. */
    method Utf8(i: nat) returns (r: Option<string>)
      requires Valid()
      modifies this
      ensures Valid() && r == StringAt(codec, b, es, i)
    {
      var e := At(es, i, UTF8);
      if e.None? { return None; }
      if known[i] { return Some(strs[i]); }
      if e.value.a + e.value.b > |b| { return None; }
      r := codec.dec(b[e.value.a..e.value.a + e.value.b]);
      if r.Some? { strs, known := strs[i := r.value], known[i := true]; }
    }
  }

  lemma EntryNeedsTag(b: seq<byte>, off: nat, major: nat)
    requires off + 1 > |b|
    ensures ReadEntry(b, off, major).None?
  {
  }

  lemma EntryNeedsVersion(b: seq<byte>, off: nat, major: nat)
    requires off < |b| && (Since(b[off]).None? || major < Since(b[off]).value)
    ensures ReadEntry(b, off, major).None?
  {
  }

  lemma EntryVersion(b: seq<byte>, off: nat, major: nat)
    requires off < |b| && Since(b[off]).Some? && major >= Since(b[off]).value
    ensures ReadEntry(b, off, major) == ReadEntry(b, off, Since(b[off]).value)
    ensures ReadEntry(b, off, major).Some? ==> ReadEntry(b, off, major).value.0.tag == b[off]
  {
  }
}
