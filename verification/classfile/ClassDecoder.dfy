/** The decoder: cursors stepped through the file and, bounded by each attribute's length, through its body. */
module ClassDecoder {
  import opened Bytes
  import opened Pool
  import opened PoolReader
  import opened ClassFile
  import opened ClassReader

  /** What was read, unless it was refused or the cursor failed. */
  function Outcome<T>(v: Option<T>, failed: bool, off: nat): Parsed<T> { if v.Some? && !failed then Got(v.value, off) else Fail }

  function Before<T>(xs: seq<T>, rest: Parsed<seq<T>>): Parsed<seq<T>> {
    match rest
    case Fail => Fail
    case Got(ys, next) => Got(xs + ys, next)
  }

  /** A loop over a counted table has read `xs` and stands before the rest, or the cursor has failed with the table. */
  ghost predicate Midway<T(!new)>(f: (seq<byte>, nat) -> Parsed<T>, all: Parsed<seq<T>>, xs: seq<T>, n: nat, r: Reader)
    reads r
  {
    if r.failed then all == Fail else |xs| <= n && all == Before(xs, Many(f, n - |xs|, r.b, r.off))
  }

  class Decoder {
    const p: PoolView

    constructor (p: PoolView)
      ensures this.p == p
    {
      this.p := p;
    }

    method ClassList(r: Reader) returns (out: Option<seq<string>>)
      requires !r.failed
      modifies r
      ensures Counted((b, o) => ReadName(p, b, o), r.b, old(r.off)) == Outcome(out, r.failed, r.off)
    {
      hide ClassName, U16At, Many, Counted, ReadTwos, ReadName;
      ghost var f := (b, o) => ReadName(p, b, o);
      CountedFrom(f, r.b, r.off);
      ZeroNames(p);
      var n := r.ReadU2();
      var list: seq<string> := [];
      ghost var all := if r.failed then Fail else Many(f, n, r.b, r.off);
      NoneRead(all);
      while |list| < n && !r.failed
        invariant Midway(f, all, list, n, r)
        decreases n - |list|
      {
        ManyStep(f, list, n - |list|, r.b, r.off);
        NameRow(p, r.b, r.off);
        var c := r.ReadU2();
        var name := ClassName(p, c);
        if name.None? { return None; }
        list := list + [name.value];
      }
      NoRows(f, list, r.b, r.off);
      out := Some(list);
    }

    method Lines(r: Reader) returns (list: seq<LineDef>)
      requires !r.failed
      modifies r
      ensures Counted((b, o) => ReadLine(b, o), r.b, old(r.off)) == Outcome(Some(list), r.failed, r.off)
    {
      hide U16At, Many, Counted, ReadTwos, ReadLine;
      ghost var f := (b, o) => ReadLine(b, o);
      CountedFrom(f, r.b, r.off);
      var n := r.ReadU2();
      list := [];
      ghost var all := if r.failed then Fail else Many(f, n, r.b, r.off);
      NoneRead(all);
      while |list| < n && !r.failed
        invariant Midway(f, all, list, n, r)
        decreases n - |list|
      {
        ManyStep(f, list, n - |list|, r.b, r.off);
        LineRow(r.b, r.off);
        var start := r.ReadU2();
        var line := r.ReadU2();
        list := list + [LineDef(start, line)];
      }
      NoRows(f, list, r.b, r.off);
    }

    method LocalVars(r: Reader) returns (out: Option<seq<LocalDef>>)
      requires !r.failed
      modifies r
      ensures Counted((b, o) => ReadLocal(p, b, o), r.b, old(r.off)) == Outcome(out, r.failed, r.off)
    {
      hide Str, U16At, Many, Counted, ReadTwos, ReadLocal;
      ghost var f := (b, o) => ReadLocal(p, b, o);
      CountedFrom(f, r.b, r.off);
      ZeroNames(p);
      var n := r.ReadU2();
      var list: seq<LocalDef> := [];
      ghost var all := if r.failed then Fail else Many(f, n, r.b, r.off);
      NoneRead(all);
      while |list| < n && !r.failed
        invariant Midway(f, all, list, n, r)
        decreases n - |list|
      {
        ManyStep(f, list, n - |list|, r.b, r.off);
        LocalRow(p, r.b, r.off);
        var start := r.ReadU2();
        var length := r.ReadU2();
        var i := r.ReadU2();
        var name := Str(p, i);
        if name.None? { return None; }
        i := r.ReadU2();
        var desc := Str(p, i);
        if desc.None? { return None; }
        var slot := r.ReadU2();
        list := list + [LocalDef(start, length, name.value, desc.value, slot)];
      }
      NoRows(f, list, r.b, r.off);
      out := Some(list);
    }

    method Handlers(r: Reader) returns (out: Option<seq<HandlerDef>>)
      modifies r
      ensures if old(r.failed) then r.failed else Counted((b, o) => ReadHandler(p, b, o), r.b, old(r.off)) == Outcome(out, r.failed, r.off)
    {
      hide OptClassName, U16At, Many, Counted, ReadTwos, ReadHandler;
      ghost var f := (b, o) => ReadHandler(p, b, o);
      CountedFrom(f, r.b, r.off);
      var n := r.ReadU2();
      var list: seq<HandlerDef> := [];
      ghost var all := if r.failed then Fail else Many(f, n, r.b, r.off);
      NoneRead(all);
      while |list| < n && !r.failed
        invariant Midway(f, all, list, n, r)
        decreases n - |list|
      {
        ManyStep(f, list, n - |list|, r.b, r.off);
        HandlerRow(p, r.b, r.off);
        var start := r.ReadU2();
        var end := r.ReadU2();
        var handler := r.ReadU2();
        var c := r.ReadU2();
        var catchType := OptClassName(p, c);
        if catchType.None? { return None; }
        list := list + [HandlerDef(start, end, handler, catchType.value)];
      }
      if !r.failed { NoRows(f, list, r.b, r.off); }
      out := Some(list);
    }

    /** An error first, then the cursor's, then bytes left over. */
    function OrErr<T>(v: Option<T>, sub: Reader): (r: Option<T>)
      reads sub
      ensures r == Exactly(Outcome(v, sub.failed, sub.off), sub.b)
    {
      if v.Some? && !sub.failed && sub.off == |sub.b| then v else None
    }

    /** The name and bytes of the next attribute; nothing when the cursor fails or the name does not resolve. */
    method Header(r: Reader) returns (h: Option<(string, seq<byte>)>)
      requires !r.failed
      modifies r
      ensures ReadHeader(p, r.b, old(r.off)) == Outcome(h, r.failed, r.off)
      ensures h.Some? ==> !r.failed
    {
      hide U16At, U32At, Str, ReadTwos;
      TwosAt(r.b, r.off, 1);
      var i := r.ReadU2();
      var length := r.ReadU4();
      if r.failed { return None; }
      var name := Str(p, i);
      if name.None? { return None; }
      var body := r.ReadBytes(length);
      if r.failed { return None; }
      h := Some((name.value, body));
    }

    method CodeAttribute(name: string, body: seq<byte>) returns (a: Option<CodeAttr>)
      ensures a == DecodeCodeAttr(p, name, body)
    {
      hide Counted, ReadLine, ReadLocal;
      var sub := new Reader(body, 0);
      if name == "LineNumberTable" {
        var lines := Lines(sub);
        a := OrErr(Some(LineNumberTable(lines)), sub);
      } else if name == "LocalVariableTable" {
        var vars := LocalVars(sub);
        if vars.None? { return None; }
        a := OrErr(Some(LocalVariableTable(vars.value)), sub);
      } else {
        a := Some(RawCode(name, body));
      }
    }

    method CodeAttributes(r: Reader) returns (out: Option<seq<CodeAttr>>)
      modifies r
      ensures if old(r.failed) then r.failed else Counted((b, o) => ReadCodeAttr(p, b, o), r.b, old(r.off)) == Outcome(out, r.failed, r.off)
    {
      hide U16At, Many, Counted, ReadHeader, DecodeCodeAttr;
      ghost var f := (b, o) => ReadCodeAttr(p, b, o);
      CountedFrom(f, r.b, r.off);
      var n := r.ReadU2();
      var list: seq<CodeAttr> := [];
      ghost var all := if r.failed then Fail else Many(f, n, r.b, r.off);
      NoneRead(all);
      while |list| < n && !r.failed
        invariant Midway(f, all, list, n, r)
        decreases n - |list|
      {
        ManyStep(f, list, n - |list|, r.b, r.off);
        var h := Header(r);
        if h.None? { return None; }
        var a := CodeAttribute(h.value.0, h.value.1);
        if a.None? { return None; }
        list := list + [a.value];
      }
      if !r.failed { NoRows(f, list, r.b, r.off); }
      out := Some(list);
    }

    /** A Code body through its own cursor. */
    method CodeBody(r: Reader) returns (c: Option<CodeInfo>)
      requires !r.failed && r.off == 0
      modifies r
      ensures ReadCode(p, r.b) == Outcome(c, r.failed, r.off)
    {
      hide U16At, U32At, Counted, ReadTwos, ReadHandler, ReadCodeAttr;
      TwosAt(r.b, 0, 2);
      var maxStack := r.ReadU2();
      var maxLocals := r.ReadU2();
      var length := r.ReadU4();
      if length == 0 || length >= 65536 { return None; }
      var bytes := r.ReadBytes(length);
      var handlers := Handlers(r);
      if handlers.None? { return None; }
      var attrs := CodeAttributes(r);
      if attrs.None? { return None; }
      c := Some(CodeInfo(maxStack, maxLocals, bytes, handlers.value, attrs.value));
    }

    /** One attribute body, read to its exact end by a cursor that cannot leave it. */
    method Attribute(name: string, body: seq<byte>, loc: Location) returns (a: Option<Attr>)
      ensures a == Decode(p, loc, name, body)
    {
      hide Counted, ReadName, ReadCode, Str, ConstAt, U16At, ReadTwos;
      TwosAt(body, 0, 1);
      ZeroConst(p);
      ZeroNames(p);
      var sub := new Reader(body, 0);
      if name == "SourceFile" && loc == AtClass {
        var i := sub.ReadU2();
        var v := Str(p, i);
        if v.None? { return None; }
        a := OrErr(Some(SourceFile(v.value)), sub);
      } else if name == "Signature" {
        var i := sub.ReadU2();
        var v := Str(p, i);
        if v.None? { return None; }
        a := OrErr(Some(Signature(v.value)), sub);
      } else if name == "ConstantValue" && loc == AtField {
        var i := sub.ReadU2();
        var v := ConstAt(p.c, p.src, p.es, i, MAJOR);
        if v.None? || !FieldConstant(v.value) { return None; }
        a := OrErr(Some(ConstantValue(v.value)), sub);
      } else if name == "Exceptions" && loc == AtMethod {
        var list := ClassList(sub);
        if list.None? { return None; }
        a := OrErr(Some(Exceptions(list.value)), sub);
      } else if name == "Code" && loc == AtMethod {
        var c := CodeBody(sub);
        if c.None? { return None; }
        a := OrErr(Some(Code(c.value)), sub);
      } else {
        a := Some(RawAttr(name, body));
      }
    }

    method Attributes(r: Reader, loc: Location) returns (out: Option<seq<Attr>>)
      requires !r.failed
      modifies r
      ensures Counted((b, o) => ReadAttr(p, loc, b, o), r.b, old(r.off)) == Outcome(out, r.failed, r.off)
    {
      hide U16At, Many, Counted, ReadHeader, Decode;
      ghost var f := (b, o) => ReadAttr(p, loc, b, o);
      CountedFrom(f, r.b, r.off);
      var n := r.ReadU2();
      var list: seq<Attr> := [];
      ghost var all := if r.failed then Fail else Many(f, n, r.b, r.off);
      NoneRead(all);
      while |list| < n && !r.failed
        invariant Midway(f, all, list, n, r)
        decreases n - |list|
      {
        ManyStep(f, list, n - |list|, r.b, r.off);
        var h := Header(r);
        if h.None? { return None; }
        var a := Attribute(h.value.0, h.value.1, loc);
        if a.None? { return None; }
        list := list + [a.value];
      }
      if !r.failed { NoRows(f, list, r.b, r.off); }
      out := Some(list);
    }

    /** The fields, or the methods. */
    method Members(r: Reader, loc: Location) returns (out: Option<seq<Member>>)
      requires !r.failed
      modifies r
      ensures Counted((b, o) => ReadMember(p, loc, b, o), r.b, old(r.off)) == Outcome(out, r.failed, r.off)
    {
      hide U16At, Many, Counted, ReadAttr, Str, ReadTwos, ReadMember;
      ghost var f := (b, o) => ReadMember(p, loc, b, o);
      CountedFrom(f, r.b, r.off);
      ZeroNames(p);
      var n := r.ReadU2();
      var list: seq<Member> := [];
      ghost var all := if r.failed then Fail else Many(f, n, r.b, r.off);
      NoneRead(all);
      while |list| < n && !r.failed
        invariant Midway(f, all, list, n, r)
        decreases n - |list|
      {
        ManyStep(f, list, n - |list|, r.b, r.off);
        MemberRow(p, loc, r.b, r.off);
        var flags := r.ReadU2();
        var i := r.ReadU2();
        var name := Str(p, i);
        if name.None? { return None; }
        i := r.ReadU2();
        var desc := Str(p, i);
        if desc.None? { return None; }
        var attrs := Attributes(r, loc);
        if attrs.None? { return None; }
        list := list + [Member(flags, name.value, desc.value, attrs.value)];
      }
      if !r.failed { NoRows(f, list, r.b, r.off); }
      out := Some(list);
    }

    /** Everything after the pool. */
    method Body(r: Reader, minor: nat) returns (c: Option<ClassInfo>)
      requires !r.failed && r.b == p.src
      modifies r
      ensures ReadRest(p, minor, old(r.off)) == Outcome(c, r.failed, r.off)
    {
      hide U16At, Counted, ReadTwos, ReadName, ReadMember, ReadAttr, ClassName;
      TwosAt(r.b, r.off, 3);
      ZeroNames(p);
      ghost var start := r.off;
      var flags := r.ReadU2();
      var own := r.ReadU2();
      var name := ClassName(p, own);
      if name.None? { return None; }
      var i := r.ReadU2();
      var super := "";
      if i != 0 {
        var s := ClassName(p, i);
        if s.None? { return None; }
        super := s.value;
      } else if r.failed || (name.value != OBJECT && (flags / ACC_MODULE) % 2 == 0) {
        return None;
      }
      var ifaces := ClassList(r);
      if ifaces.None? || r.failed { return None; }
      var fields := Members(r, AtField);
      if fields.None? || r.failed { return None; }
      var methods := Members(r, AtMethod);
      if methods.None? || r.failed { return None; }
      var attrs := Attributes(r, AtClass);
      if attrs.None? { return None; }
      c := Some(ClassInfo(minor, flags, name.value, super, ifaces.value, fields.value, methods.value, attrs.value));
    }
  }

  /** Read, from the magic number to the last byte. */
  method Read(c: Codec, b: seq<byte>) returns (info: Option<ClassInfo>)
    ensures info == ReadClass(c, b)
  {
    hide U16At, U32At, ReadTwos, ReadPool, ReadRest;
    TwosAt(b, 4, 2);
    var r := new Reader(b, 0);
    var magic := r.ReadU4();
    if magic != MAGIC { return None; }
    var minor := r.ReadU2();
    var major := r.ReadU2();
    if r.failed || major != MAJOR || minor == 65535 { return None; }
    var es := r.Pool(major);
    if r.failed { return None; }
    var d := new Decoder(PoolView(c, b, es));
    var body := d.Body(r, minor);
    info := d.OrErr(body, r);
  }

  // ---- one row ------------------------------------------------------------

  lemma {:induction false} TwosAt(b: seq<byte>, off: nat, n: nat)
    requires n > 0
    ensures if off + 2 * n > |b| then ReadTwos(b, off, n) == Fail
            else var r := ReadTwos(b, off, n);
                 r.Got? && r.next == off + 2 * n && |r.v| == n && forall k :: 0 <= k < n ==> r.v[k] == U16At(b, off + 2 * k)
    decreases n
  {
    hide U16At;
    if n > 1 { TwosAt(b, off + 2, n - 1); } else if off + 2 <= |b| { assert ReadTwos(b, off + 2, 0) == Got([], off + 2); }
    if off + 2 * n <= |b| {
      var r := ReadTwos(b, off, n);
      forall k | 0 <= k < n
        ensures r.v[k] == U16At(b, off + 2 * k)
      {
        if k > 0 { assert off + 2 + 2 * (k - 1) == off + 2 * k; }
      }
    }
  }

  lemma ZeroNames(p: PoolView)
    ensures ClassName(p, 0).None? && Str(p, 0).None?
  {
  }

  lemma NameRow(p: PoolView, b: seq<byte>, off: nat)
    ensures ReadName(p, b, off) ==
            if off + 2 > |b| || ClassName(p, U16At(b, off)).None? then Fail else Got(ClassName(p, U16At(b, off)).value, off + 2)
  {
    hide ClassName, U16At, ReadTwos;
    TwosAt(b, off, 1);
  }

  lemma LineRow(b: seq<byte>, off: nat)
    ensures ReadLine(b, off) == if off + 4 > |b| then Fail else Got(LineDef(U16At(b, off), U16At(b, off + 2)), off + 4)
  {
    hide U16At, ReadTwos;
    TwosAt(b, off, 2);
  }

  lemma LocalRow(p: PoolView, b: seq<byte>, off: nat)
    ensures ReadLocal(p, b, off) ==
            if off + 10 > |b| || Str(p, U16At(b, off + 4)).None? || Str(p, U16At(b, off + 6)).None? then Fail
            else Got(LocalDef(U16At(b, off), U16At(b, off + 2), Str(p, U16At(b, off + 4)).value, Str(p, U16At(b, off + 6)).value, U16At(b, off + 8)), off + 10)
  {
    hide Str, U16At, ReadTwos;
    TwosAt(b, off, 5);
  }

  lemma HandlerRow(p: PoolView, b: seq<byte>, off: nat)
    ensures ReadHandler(p, b, off) ==
            if off + 8 > |b| || OptClassName(p, U16At(b, off + 6)).None? then Fail
            else Got(HandlerDef(U16At(b, off), U16At(b, off + 2), U16At(b, off + 4), OptClassName(p, U16At(b, off + 6)).value), off + 8)
  {
    hide OptClassName, U16At, ReadTwos;
    TwosAt(b, off, 4);
  }

  lemma ZeroConst(p: PoolView)
    ensures ConstAt(p.c, p.src, p.es, 0, MAJOR).None?
  {
  }

  lemma MemberRow(p: PoolView, loc: Location, b: seq<byte>, off: nat)
    ensures ReadMember(p, loc, b, off) ==
            if off + 6 > |b| || Str(p, U16At(b, off + 2)).None? || Str(p, U16At(b, off + 4)).None? then Fail
            else match Counted((b, o) => ReadAttr(p, loc, b, o), b, off + 6)
              case Fail => Fail
              case Got(attrs, end) => Got(Member(U16At(b, off), Str(p, U16At(b, off + 2)).value, Str(p, U16At(b, off + 4)).value, attrs), end)
  {
    hide Str, U16At, ReadTwos, Counted, ReadAttr;
    TwosAt(b, off, 3);
  }

  // ---- counted tables -----------------------------------------------------

  /** A counted table, once its count has been read. */
  lemma CountedFrom<T>(f: (seq<byte>, nat) -> Parsed<T>, b: seq<byte>, off: nat)
    ensures Counted(f, b, off) == if off + 2 > |b| then Fail else Many(f, U16At(b, off), b, off + 2)
  {
    hide U16At, Many, ReadTwos;
    TwosAt(b, off, 1);
  }

  /** One more row. */
  lemma ManyStep<T>(f: (seq<byte>, nat) -> Parsed<T>, xs: seq<T>, n: nat, b: seq<byte>, off: nat)
    requires n > 0
    ensures Before(xs, Many(f, n, b, off)) ==
            match f(b, off) case Fail => Fail case Got(x, next) => Before(xs + [x], Many(f, n - 1, b, next))
  {
    match f(b, off)
    case Fail =>
    case Got(x, next) =>
      match Many(f, n - 1, b, next)
      case Fail =>
      case Got(ys, end) => assert xs + ([x] + ys) == xs + [x] + ys;
  }

  lemma NoRows<T>(f: (seq<byte>, nat) -> Parsed<T>, xs: seq<T>, b: seq<byte>, off: nat)
    ensures Before(xs, Many(f, 0, b, off)) == Got(xs, off)
  {
    assert xs + [] == xs;
  }

  lemma NoneRead<T>(m: Parsed<seq<T>>)
    ensures Before([], m) == m
  {
    if m.Got? { assert [] + m.v == m.v; }
  }
}
