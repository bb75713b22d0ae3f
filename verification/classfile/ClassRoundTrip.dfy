/** A class file written by the builder is read back to what was built. */
module ClassRoundTrip {
  import opened Bytes
  import opened Pool
  import opened PoolBuilder
  import opened PoolReader
  import opened PoolRoundTrip
  import opened ClassFile
  import opened ClassReader

  // ---- cursors ------------------------------------------------------------

  predicate Words(vs: seq<nat>) { forall k :: 0 <= k < |vs| ==> Word(vs[k]) }

  lemma {:induction false} TwosRead(b: seq<byte>, off: nat, vs: seq<nat>)
    requires Words(vs) && Holds(b, off, Twos(vs))
    ensures ReadTwos(b, off, |vs|) == Got(vs, off + |Twos(vs)|)
    decreases |vs|
  {
    hide U16At, U2;
    if vs != [] {
      HoldsParts(b, off, U2(vs[0]), Twos(vs[1..]));
      ReadsU2(b, off, vs[0]);
      assert Words(vs[1..]) by { Tails(vs); }
      TwosRead(b, off + 2, vs[1..]);
      assert [vs[0]] + vs[1..] == vs;
    }
  }

  lemma Tails(vs: seq<nat>)
    requires Words(vs) && vs != []
    ensures Words(vs[1..])
  {
  }

  lemma FourReads(b: seq<byte>, off: nat, v: Word32)
    requires Holds(b, off, U4(v))
    ensures ReadFour(b, off) == Got(v, off + 4)
  {
    hide U32At;
    ReadsU4(b, off, v);
  }

  lemma SliceReads(b: seq<byte>, off: nat, w: seq<byte>)
    requires Holds(b, off, w)
    ensures ReadSlice(b, off, |w|) == Got(w, off + |w|)
  {
  }

  /** The parser reads each piece, wherever it stands, to its element. */
  ghost predicate Reads<T(!new)>(p: (seq<byte>, nat) -> Parsed<T>, x: T, w: seq<byte>) {
    forall b, off: nat :: Holds(b, off, w) ==> p(b, off) == Got(x, off + |w|)
  }

  lemma {:induction false} ManyRead<T(!new)>(p: (seq<byte>, nat) -> Parsed<T>, xs: seq<T>, ws: seq<seq<byte>>, b: seq<byte>, off: nat)
    requires |xs| == |ws| && (forall k :: 0 <= k < |xs| ==> Reads(p, xs[k], ws[k])) && Holds(b, off, Join(ws))
    ensures Many(p, |xs|, b, off) == Got(xs, off + |Join(ws)|)
    decreases |xs|
  {
    hide Holds;
    if xs != [] {
      HoldsParts(b, off, ws[0], Join(ws[1..]));
      assert Reads(p, xs[0], ws[0]);
      forall k | 0 <= k < |xs| - 1
        ensures Reads(p, xs[1..][k], ws[1..][k])
      {
        assert xs[1..][k] == xs[k + 1] && ws[1..][k] == ws[k + 1];
      }
      ManyRead(p, xs[1..], ws[1..], b, off + |ws[0]|);
      assert [xs[0]] + xs[1..] == xs;
    } else {
      assert ws == [];
    }
  }

  lemma CountedReads<T(!new)>(p: (seq<byte>, nat) -> Parsed<T>, xs: seq<T>, ws: seq<seq<byte>>, b: seq<byte>, off: nat)
    requires |xs| == |ws| && Word(|ws|) && (forall k :: 0 <= k < |xs| ==> Reads(p, xs[k], ws[k])) && Holds(b, off, Listed(ws))
    ensures Counted(p, b, off) == Got(xs, off + |Listed(ws)|)
  {
    hide Holds, Reads;
    HoldsParts(b, off, Twos([|ws|]), Join(ws));
    TwosRead(b, off, [|ws|]);
    ManyRead(p, xs, ws, b, off + 2);
  }

  lemma HoldsAll(w: seq<byte>)
    ensures Holds(w, 0, w)
  {
  }

  // ---- strings and names --------------------------------------------------

  /** The pool that was read mirrors the table that was written. */
  ghost predicate Reread(p: PoolView, t: Pool.Table) {
    Faithful(p.c) && Valid(t) && Mirrors(p.c, t, p.src, p.es, 0)
  }

  lemma IndexFits(t: Pool.Table, it: Item)
    requires Valid(t)
    ensures Word(IndexOf(t, it)) && (Placed(t, it) ==> IndexOf(t, it) != 0)
  {
  }

  lemma StrReads(p: PoolView, t: Pool.Table, s: string)
    requires Reread(p, t) && Placed(t, Utf8(s))
    ensures Str(p, IndexOf(t, Utf8(s))) == Some(s) && Word(IndexOf(t, Utf8(s)))
  {
    hide Faithful, StringAt, Mirrors, Valid;
    IndexFits(t, Utf8(s));
    StringResolves(p.c, t, p.src, p.es, s);
  }

  lemma ClassNameReads(p: PoolView, t: Pool.Table, s: string)
    requires Reread(p, t) && Placed(t, Class(s))
    ensures ClassName(p, IndexOf(t, Class(s))) == Some(s) && Word(IndexOf(t, Class(s))) && IndexOf(t, Class(s)) != 0
  {
    hide Faithful, NameAt, Mirrors, Valid;
    IndexFits(t, Class(s));
    NameResolves(p.c, t, p.src, p.es, Class(s), s);
  }

  lemma CatchReads(p: PoolView, t: Pool.Table, s: string)
    requires Reread(p, t) && (s != "" ==> Placed(t, Class(s)))
    ensures OptClassName(p, CatchIndex(t, s)) == Some(s) && Word(CatchIndex(t, s)) && (CatchIndex(t, s) == 0 <==> s == "")
  {
    hide Reread, ClassName, IndexOf;
    if s != "" { ClassNameReads(p, t, s); }
  }

  // ---- table rows ---------------------------------------------------------

  lemma LineReads(l: LineDef)
    requires LineFits(l)
    ensures Reads((b, o) => ReadLine(b, o), l, LineBytes(l))
  {
    hide Holds, Twos;
    forall b, off: nat | Holds(b, off, LineBytes(l))
      ensures ReadLine(b, off) == Got(l, off + |LineBytes(l)|)
    {
      TwosRead(b, off, [l.start, l.line]);
    }
  }

  lemma LocalReads(p: PoolView, t: Pool.Table, l: LocalDef)
    requires Reread(p, t) && LocalFits(l) && Placed(t, Utf8(l.name)) && Placed(t, Utf8(l.desc))
    ensures Reads((b, o) => ReadLocal(p, b, o), l, LocalBytes(t, l))
  {
    hide Holds, Twos, Str, Reread, Placed;
    StrReads(p, t, l.name);
    StrReads(p, t, l.desc);
    forall b, off: nat | Holds(b, off, LocalBytes(t, l))
      ensures ReadLocal(p, b, off) == Got(l, off + |LocalBytes(t, l)|)
    {
      TwosRead(b, off, [l.start, l.length, IndexOf(t, Utf8(l.name)), IndexOf(t, Utf8(l.desc)), l.slot]);
    }
  }

  lemma HandlerReads(p: PoolView, t: Pool.Table, h: HandlerDef)
    requires Reread(p, t) && HandlerFits(h) && (h.catchType != "" ==> Placed(t, Class(h.catchType)))
    ensures Reads((b, o) => ReadHandler(p, b, o), h, HandlerBytes(t, h))
  {
    hide Holds, Twos, OptClassName, Reread, Placed, CatchIndex;
    CatchReads(p, t, h.catchType);
    forall b, off: nat | Holds(b, off, HandlerBytes(t, h))
      ensures ReadHandler(p, b, off) == Got(h, off + |HandlerBytes(t, h)|)
    {
      TwosRead(b, off, [h.start, h.end, h.handler, CatchIndex(t, h.catchType)]);
    }
  }

  lemma NameReads(p: PoolView, t: Pool.Table, s: string)
    requires Reread(p, t) && Placed(t, Class(s))
    ensures Reads((b, o) => ReadName(p, b, o), s, NameBytes(t, s))
  {
    hide Holds, Twos, ClassName, Reread, Placed, IndexOf;
    ClassNameReads(p, t, s);
    forall b, off: nat | Holds(b, off, NameBytes(t, s))
      ensures ReadName(p, b, off) == Got(s, off + |NameBytes(t, s)|)
    {
      TwosRead(b, off, [IndexOf(t, Class(s))]);
    }
  }

  lemma {:induction false} JoinLength(ws: seq<seq<byte>>, n: nat)
    requires forall k :: 0 <= k < |ws| ==> |ws[k]| <= n
    ensures |Join(ws)| <= n * |ws|
    decreases |ws|
  {
    if ws != [] {
      forall k | 0 <= k < |ws| - 1
        ensures |ws[1..][k]| <= n
      {
        assert ws[1..][k] == ws[k + 1];
      }
      JoinLength(ws[1..], n);
      assert n * |ws| == n + n * (|ws| - 1);
    }
  }

  /** A counted table of rows of at most ten bytes is short. */
  lemma TableLength(ws: seq<seq<byte>>)
    requires Word(|ws|) && forall k :: 0 <= k < |ws| ==> |ws[k]| <= 10
    ensures |Listed(ws)| <= 1_000_000
  {
    JoinLength(ws, 10);
  }

  // ---- attributes ---------------------------------------------------------

  /** An attribute's declared length is exactly its body. */
  lemma HeaderReads(p: PoolView, t: Pool.Table, name: string, body: seq<byte>, b: seq<byte>, off: nat)
    requires Reread(p, t) && Placed(t, Utf8(name)) && |body| < 0x1_0000_0000 && Holds(b, off, AttrBytes(t, name, body))
    ensures ReadHeader(p, b, off) == Got((name, body), off + |AttrBytes(t, name, body)|)
  {
    hide Holds, Reread, Placed, IndexOf, U4, Str, ReadTwos, ReadFour, ReadSlice;
    var i := IndexOf(t, Utf8(name));
    StrReads(p, t, name);
    HoldsParts(b, off, Twos([i]), U4(|body|) + body);
    HoldsParts(b, off + 2, U4(|body|), body);
    TwosRead(b, off, [i]);
    FourReads(b, off + 2, |body|);
    SliceReads(b, off + 6, body);
  }

  lemma CodeAttrReads(p: PoolView, t: Pool.Table, name: string, body: seq<byte>, a: CodeAttr)
    requires Reread(p, t) && Placed(t, Utf8(name)) && |body| < 0x1_0000_0000 && DecodeCodeAttr(p, name, body) == Some(a)
    ensures Reads((b, o) => ReadCodeAttr(p, b, o), a, AttrBytes(t, name, body))
  {
    hide Holds, Reread, Placed, DecodeCodeAttr, AttrBytes, ReadHeader;
    forall b, off: nat | Holds(b, off, AttrBytes(t, name, body))
      ensures ReadCodeAttr(p, b, off) == Got(a, off + |AttrBytes(t, name, body)|)
    {
      HeaderReads(p, t, name, body, b, off);
    }
  }

  lemma AttrReads(p: PoolView, t: Pool.Table, loc: Location, name: string, body: seq<byte>, a: Attr)
    requires Reread(p, t) && Placed(t, Utf8(name)) && |body| < 0x1_0000_0000 && Decode(p, loc, name, body) == Some(a)
    ensures Reads((b, o) => ReadAttr(p, loc, b, o), a, AttrBytes(t, name, body))
  {
    hide Holds, Reread, Placed, Decode, AttrBytes, ReadHeader;
    forall b, off: nat | Holds(b, off, AttrBytes(t, name, body))
      ensures ReadAttr(p, loc, b, off) == Got(a, off + |AttrBytes(t, name, body)|)
    {
      HeaderReads(p, t, name, body, b, off);
    }
  }

  lemma LinesDecode(p: PoolView, ls: seq<LineDef>)
    requires Word(|ls|) && forall k :: 0 <= k < |ls| ==> LineFits(ls[k])
    ensures DecodeCodeAttr(p, "LineNumberTable", LinesTable(ls)) == Some(LineNumberTable(ls)) && |LinesTable(ls)| <= 1_000_000
  {
    hide Counted, Reads;
    var ws := seq(|ls|, k requires 0 <= k < |ls| => LineBytes(ls[k]));
    forall k | 0 <= k < |ls|
      ensures Reads((b, o) => ReadLine(b, o), ls[k], ws[k])
    {
      LineReads(ls[k]);
    }
    HoldsAll(LinesTable(ls));
    CountedReads((b, o) => ReadLine(b, o), ls, ws, LinesTable(ls), 0);
    TableLength(ws);
  }

  ghost predicate LocalsPlaced(t: Pool.Table, ls: seq<LocalDef>) {
    forall k :: 0 <= k < |ls| ==> Placed(t, Utf8(ls[k].name)) && Placed(t, Utf8(ls[k].desc))
  }

  lemma LocalsDecode(p: PoolView, t: Pool.Table, ls: seq<LocalDef>)
    requires Reread(p, t) && Word(|ls|) && (forall k :: 0 <= k < |ls| ==> LocalFits(ls[k])) && LocalsPlaced(t, ls)
    ensures DecodeCodeAttr(p, "LocalVariableTable", LocalsTable(t, ls)) == Some(LocalVariableTable(ls)) && |LocalsTable(t, ls)| <= 1_000_000
  {
    hide Counted, Reads, Reread;
    var ws := seq(|ls|, k requires 0 <= k < |ls| => LocalBytes(t, ls[k]));
    forall k | 0 <= k < |ls|
      ensures Reads((b, o) => ReadLocal(p, b, o), ls[k], ws[k])
    {
      LocalReads(p, t, ls[k]);
    }
    HoldsAll(LocalsTable(t, ls));
    CountedReads((b, o) => ReadLocal(p, b, o), ls, ws, LocalsTable(t, ls), 0);
    TableLength(ws);
  }

  lemma ExceptionsDecode(p: PoolView, t: Pool.Table, ss: seq<string>)
    requires Reread(p, t) && Word(|ss|) && forall k :: 0 <= k < |ss| ==> Placed(t, Class(ss[k]))
    ensures Decode(p, AtMethod, "Exceptions", NamesTable(t, ss)) == Some(Exceptions(ss)) && |NamesTable(t, ss)| <= 1_000_000
  {
    hide Reread, Counted, ReadCode, DecodeString, DecodeConstant;
    var ws := seq(|ss|, k requires 0 <= k < |ss| => NameBytes(t, ss[k]));
    NamesRead(p, t, ss, NamesTable(t, ss), 0) by { HoldsAll(NamesTable(t, ss)); }
    TableLength(ws);
  }

  lemma NamesRead(p: PoolView, t: Pool.Table, ss: seq<string>, b: seq<byte>, off: nat)
    requires Reread(p, t) && Word(|ss|) && (forall k :: 0 <= k < |ss| ==> Placed(t, Class(ss[k]))) && Holds(b, off, NamesTable(t, ss))
    ensures Counted((b, o) => ReadName(p, b, o), b, off) == Got(ss, off + |NamesTable(t, ss)|)
  {
    hide Counted, Reads, Reread, Holds;
    var ws := seq(|ss|, k requires 0 <= k < |ss| => NameBytes(t, ss[k]));
    forall k | 0 <= k < |ss|
      ensures Reads((b, o) => ReadName(p, b, o), ss[k], ws[k])
    {
      NameReads(p, t, ss[k]);
    }
    CountedReads((b, o) => ReadName(p, b, o), ss, ws, b, off);
  }

  lemma StringDecode(p: PoolView, t: Pool.Table, s: string)
    requires Reread(p, t) && Placed(t, Utf8(s))
    ensures DecodeString(p, Twos([IndexOf(t, Utf8(s))])) == Some(s)
  {
    hide Reread, Placed, IndexOf, Str;
    var i := IndexOf(t, Utf8(s));
    StrReads(p, t, s);
    HoldsAll(Twos([i]));
    TwosRead(Twos([i]), 0, [i]);
  }

  lemma ConstantDecode(p: PoolView, t: Pool.Table, it: Item)
    requires Reread(p, t) && Placed(t, it) && FieldConstant(it)
    ensures DecodeConstant(p, Twos([IndexOf(t, it)])) == Some(it)
  {
    hide Faithful, Mirrors, ConstAt, Twos, ReadTwos;
    var i := IndexOf(t, it);
    IndexFits(t, it);
    HoldsAll(Twos([i]));
    TwosRead(Twos([i]), 0, [i]);
    LoadsExactly(p.c, t, p.src, p.es, i, MAJOR);
    assert t.slots[i] == Some(it);
  }

  // ---- code ---------------------------------------------------------------

  ghost predicate CodePlaced(t: Pool.Table, c: CodeDef) {
    && Placed(t, Utf8("Code")) && LocalsPlaced(t, c.locals)
    && (c.lines != [] ==> Placed(t, Utf8("LineNumberTable"))) && (c.locals != [] ==> Placed(t, Utf8("LocalVariableTable")))
    && forall k :: 0 <= k < |c.handlers| && c.handlers[k].catchType != "" ==> Placed(t, Class(c.handlers[k].catchType))
  }

  function InfoAttrs(c: CodeDef): seq<CodeAttr> {
    (if c.lines != [] then [LineNumberTable(c.lines)] else []) + (if c.locals != [] then [LocalVariableTable(c.locals)] else [])
  }

  function Info(c: CodeDef): CodeInfo { CodeInfo(c.maxStack, c.maxLocals, c.bytes, c.handlers, InfoAttrs(c)) }

  lemma CodeAttrsRead(p: PoolView, t: Pool.Table, c: CodeDef, b: seq<byte>, off: nat)
    requires Reread(p, t) && CodeFits(c) && CodePlaced(t, c) && Holds(b, off, Listed(CodeAttrs(t, c)))
    ensures Counted((b, o) => ReadCodeAttr(p, b, o), b, off) == Got(InfoAttrs(c), off + |Listed(CodeAttrs(t, c))|)
  {
    hide Counted, Reads, Reread, Holds, AttrBytes, LinesTable, LocalsTable, DecodeCodeAttr;
    if c.lines != [] {
      LinesDecode(p, c.lines);
      CodeAttrReads(p, t, "LineNumberTable", LinesTable(c.lines), LineNumberTable(c.lines));
    }
    if c.locals != [] {
      LocalsDecode(p, t, c.locals);
      CodeAttrReads(p, t, "LocalVariableTable", LocalsTable(t, c.locals), LocalVariableTable(c.locals));
    }
    CountedReads((b, o) => ReadCodeAttr(p, b, o), InfoAttrs(c), CodeAttrs(t, c), b, off);
  }

  lemma HandlersRead(p: PoolView, t: Pool.Table, hs: seq<HandlerDef>, b: seq<byte>, off: nat)
    requires Reread(p, t) && Word(|hs|) && (forall k :: 0 <= k < |hs| ==> HandlerFits(hs[k])) && Holds(b, off, HandlersTable(t, hs))
    requires forall k :: 0 <= k < |hs| && hs[k].catchType != "" ==> Placed(t, Class(hs[k].catchType))
    ensures Counted((b, o) => ReadHandler(p, b, o), b, off) == Got(hs, off + |HandlersTable(t, hs)|)
    ensures |HandlersTable(t, hs)| <= 1_000_000
  {
    hide Counted, Reads, Reread, Holds;
    var ws := seq(|hs|, k requires 0 <= k < |hs| => HandlerBytes(t, hs[k]));
    forall k | 0 <= k < |hs|
      ensures Reads((b, o) => ReadHandler(p, b, o), hs[k], ws[k])
    {
      HandlerReads(p, t, hs[k]);
    }
    CountedReads((b, o) => ReadHandler(p, b, o), hs, ws, b, off);
    TableLength(ws);
  }

  lemma CodeDecodes(p: PoolView, t: Pool.Table, c: CodeDef)
    requires Reread(p, t) && CodeFits(c) && CodePlaced(t, c)
    ensures ReadCode(p, CodeBody(t, c)) == Got(Info(c), |CodeBody(t, c)|) && |CodeBody(t, c)| < 0x1_0000_0000
  {
    hide Counted, Reread, Holds, HandlersTable, CodeAttrs, U4, Twos, ReadTwos, ReadFour, ReadSlice, Listed, InfoAttrs, CodeBody, CodePlaced;
    var b := CodeBody(t, c);
    CodePieces(t, c);
    TwosRead(b, 0, [c.maxStack, c.maxLocals]);
    FourReads(b, 4, |c.bytes|);
    SliceReads(b, 8, c.bytes);
    CodeTables(p, t, c);
  }

  lemma CodeTables(p: PoolView, t: Pool.Table, c: CodeDef)
    requires Reread(p, t) && CodeFits(c) && CodePlaced(t, c)
    ensures var b, hs, attrs := CodeBody(t, c), HandlersTable(t, c.handlers), Listed(CodeAttrs(t, c));
            && Counted((b, o) => ReadHandler(p, b, o), b, 8 + |c.bytes|) == Got(c.handlers, 8 + |c.bytes| + |hs|)
            && Counted((b, o) => ReadCodeAttr(p, b, o), b, 8 + |c.bytes| + |hs|) == Got(InfoAttrs(c), |b|)
            && |b| < 0x1_0000_0000
  {
    hide Counted, Reread, Holds, HandlersTable, CodeAttrs, Listed, InfoAttrs, CodeBody;
    var b, hs := CodeBody(t, c), HandlersTable(t, c.handlers);
    CodePieces(t, c);
    HandlersRead(p, t, c.handlers, b, 8 + |c.bytes|);
    CodeAttrsRead(p, t, c, b, 8 + |c.bytes| + |hs|);
    CodeAttrsLength(p, t, c);
  }

  /** Where the parts of a code body stand in it. */
  lemma CodePieces(t: Pool.Table, c: CodeDef)
    ensures var b, hs, attrs := CodeBody(t, c), HandlersTable(t, c.handlers), Listed(CodeAttrs(t, c));
            && Holds(b, 0, Twos([c.maxStack, c.maxLocals])) && Holds(b, 4, U4(|c.bytes|)) && Holds(b, 8, c.bytes)
            && Holds(b, 8 + |c.bytes|, hs) && Holds(b, 8 + |c.bytes| + |hs|, attrs) && |b| == 8 + |c.bytes| + |hs| + |attrs|
  {
    hide Holds, HandlersTable, CodeAttrs, U4, Twos, Listed;
    var b, hs, attrs := CodeBody(t, c), HandlersTable(t, c.handlers), Listed(CodeAttrs(t, c));
    HoldsAll(b);
    HoldsParts(b, 0, Twos([c.maxStack, c.maxLocals]), U4(|c.bytes|) + (c.bytes + (hs + attrs)));
    HoldsParts(b, 4, U4(|c.bytes|), c.bytes + (hs + attrs));
    HoldsParts(b, 8, c.bytes, hs + attrs);
    HoldsParts(b, 8 + |c.bytes|, hs, attrs);
  }

  lemma CodeAttrsLength(p: PoolView, t: Pool.Table, c: CodeDef)
    requires Reread(p, t) && CodeFits(c) && CodePlaced(t, c)
    ensures |Listed(CodeAttrs(t, c))| <= 4_000_000
  {
    hide Reread, LinesTable, LocalsTable, DecodeCodeAttr, U4;
    LinesDecode(p, c.lines);
    LocalsDecode(p, t, c.locals);
    JoinLength(CodeAttrs(t, c), 1_000_006);
  }

  // ---- members ------------------------------------------------------------

  function SignatureInfo(s: string): seq<Attr> { if s == "" then [] else [Signature(s)] }

  function FieldInfo(f: FieldDef): seq<Attr> {
    (if f.constant.Some? then [ConstantValue(f.constant.value)] else []) + SignatureInfo(f.signature)
  }

  function MethodInfo(m: MethodDef): seq<Attr> {
    (if m.code.Some? then [Code(Info(m.code.value))] else [])
    + ((if m.exceptions != [] then [Exceptions(m.exceptions)] else []) + SignatureInfo(m.signature))
  }

  ghost predicate SignaturePlaced(t: Pool.Table, s: string) { s != "" ==> Placed(t, Utf8(s)) && Placed(t, Utf8("Signature")) }

  ghost predicate FieldPlaced(t: Pool.Table, f: FieldDef) {
    && Placed(t, Utf8(f.name)) && Placed(t, Utf8(f.desc)) && SignaturePlaced(t, f.signature)
    && (f.constant.Some? ==> Placed(t, f.constant.value) && Placed(t, Utf8("ConstantValue")))
  }

  ghost predicate MethodPlaced(t: Pool.Table, m: MethodDef) {
    && Placed(t, Utf8(m.name)) && Placed(t, Utf8(m.desc)) && SignaturePlaced(t, m.signature)
    && (m.code.Some? ==> CodePlaced(t, m.code.value))
    && (m.exceptions != [] ==> Placed(t, Utf8("Exceptions")) && forall k :: 0 <= k < |m.exceptions| ==> Placed(t, Class(m.exceptions[k])))
  }

  lemma SignatureReads(p: PoolView, t: Pool.Table, loc: Location, s: string)
    requires Reread(p, t) && SignaturePlaced(t, s) && s != ""
    ensures Reads((b, o) => ReadAttr(p, loc, b, o), Signature(s), AttrBytes(t, "Signature", Twos([IndexOf(t, Utf8(s))])))
  {
    hide Reread, Reads, DecodeString, Counted, ReadCode, DecodeConstant, AttrBytes;
    StringDecode(p, t, s);
    AttrReads(p, t, loc, "Signature", Twos([IndexOf(t, Utf8(s))]), Signature(s));
  }

  lemma FieldAttrsRead(p: PoolView, t: Pool.Table, f: FieldDef, b: seq<byte>, off: nat)
    requires Reread(p, t) && FieldFits(f) && FieldPlaced(t, f) && Holds(b, off, Listed(FieldAttrs(t, f)))
    ensures Counted((b, o) => ReadAttr(p, AtField, b, o), b, off) == Got(FieldInfo(f), off + |Listed(FieldAttrs(t, f))|)
  {
    hide Counted, Reads, Reread, Holds, AttrBytes, DecodeConstant, DecodeString, ReadCode;
    if f.constant.Some? {
      ConstantDecode(p, t, f.constant.value);
      AttrReads(p, t, AtField, "ConstantValue", Twos([IndexOf(t, f.constant.value)]), ConstantValue(f.constant.value));
    }
    if f.signature != "" { SignatureReads(p, t, AtField, f.signature); }
    CountedReads((b, o) => ReadAttr(p, AtField, b, o), FieldInfo(f), FieldAttrs(t, f), b, off);
  }

  lemma CodeReads(p: PoolView, t: Pool.Table, c: CodeDef)
    requires Reread(p, t) && CodeFits(c) && CodePlaced(t, c)
    ensures Reads((b, o) => ReadAttr(p, AtMethod, b, o), Code(Info(c)), AttrBytes(t, "Code", CodeBody(t, c)))
  {
    hide Reread, Reads, ReadCode, CodeBody, Info, CodeFits, AttrBytes, Counted, DecodeString, DecodeConstant;
    CodeDecodes(p, t, c);
    AttrReads(p, t, AtMethod, "Code", CodeBody(t, c), Code(Info(c)));
  }

  lemma MethodAttrsRead(p: PoolView, t: Pool.Table, m: MethodDef, b: seq<byte>, off: nat)
    requires Reread(p, t) && MethodFits(m) && MethodPlaced(t, m) && Holds(b, off, Listed(MethodAttrs(t, m)))
    ensures Counted((b, o) => ReadAttr(p, AtMethod, b, o), b, off) == Got(MethodInfo(m), off + |Listed(MethodAttrs(t, m))|)
  {
    hide Counted, Reads, Reread, Holds, AttrBytes, Decode, CodeBody, Info, CodeFits, CodePlaced, NamesTable;
    if m.code.Some? { CodeReads(p, t, m.code.value); }
    if m.exceptions != [] {
      ExceptionsDecode(p, t, m.exceptions);
      AttrReads(p, t, AtMethod, "Exceptions", NamesTable(t, m.exceptions), Exceptions(m.exceptions));
    }
    if m.signature != "" { SignatureReads(p, t, AtMethod, m.signature); }
    CountedReads((b, o) => ReadAttr(p, AtMethod, b, o), MethodInfo(m), MethodAttrs(t, m), b, off);
  }

  lemma FieldReads(p: PoolView, t: Pool.Table, f: FieldDef)
    requires Reread(p, t) && FieldFits(f) && FieldPlaced(t, f)
    ensures Reads((b, o) => ReadMember(p, AtField, b, o), Member(f.flags, f.name, f.desc, FieldInfo(f)), FieldBytes(t, f))
  {
    hide Holds, Reread, Twos, ReadTwos, Counted, Str, FieldAttrs, FieldInfo, Listed, IndexOf;
    StrReads(p, t, f.name);
    StrReads(p, t, f.desc);
    var v := [f.flags, IndexOf(t, Utf8(f.name)), IndexOf(t, Utf8(f.desc))];
    forall b, off: nat | Holds(b, off, FieldBytes(t, f))
      ensures ReadMember(p, AtField, b, off) == Got(Member(f.flags, f.name, f.desc, FieldInfo(f)), off + |FieldBytes(t, f)|)
    {
      HoldsParts(b, off, Twos(v), Listed(FieldAttrs(t, f)));
      TwosRead(b, off, v);
      FieldAttrsRead(p, t, f, b, off + 6);
    }
  }

  lemma MethodReads(p: PoolView, t: Pool.Table, m: MethodDef)
    requires Reread(p, t) && MethodFits(m) && MethodPlaced(t, m)
    ensures Reads((b, o) => ReadMember(p, AtMethod, b, o), Member(m.flags, m.name, m.desc, MethodInfo(m)), MethodBytes(t, m))
  {
    hide Holds, Reread, Twos, ReadTwos, Counted, Str, MethodAttrs, MethodInfo, Listed, IndexOf, CodePlaced, CodeFits;
    StrReads(p, t, m.name);
    StrReads(p, t, m.desc);
    var v := [m.flags, IndexOf(t, Utf8(m.name)), IndexOf(t, Utf8(m.desc))];
    forall b, off: nat | Holds(b, off, MethodBytes(t, m))
      ensures ReadMember(p, AtMethod, b, off) == Got(Member(m.flags, m.name, m.desc, MethodInfo(m)), off + |MethodBytes(t, m)|)
    {
      HoldsParts(b, off, Twos(v), Listed(MethodAttrs(t, m)));
      TwosRead(b, off, v);
      MethodAttrsRead(p, t, m, b, off + 6);
    }
  }

  // ---- the class ----------------------------------------------------------

  function FieldMember(f: FieldDef): Member { Member(f.flags, f.name, f.desc, FieldInfo(f)) }

  function MethodMember(m: MethodDef): Member { Member(m.flags, m.name, m.desc, MethodInfo(m)) }

  function FieldMembers(fs: seq<FieldDef>): seq<Member> { seq(|fs|, k requires 0 <= k < |fs| => FieldMember(fs[k])) }

  function MethodMembers(ms: seq<MethodDef>): seq<Member> { seq(|ms|, k requires 0 <= k < |ms| => MethodMember(ms[k])) }

  function ClassAttrsInfo(d: ClassDef): seq<Attr> { if d.sourceFile == "" then [] else [SourceFile(d.sourceFile)] }

  /** What reading a built class must give. */
  function Expected(d: ClassDef): ClassInfo {
    ClassInfo(d.minor, d.flags, d.name, d.super, d.interfaces, FieldMembers(d.fields), MethodMembers(d.methods), ClassAttrsInfo(d))
  }

  ghost predicate ClassPlaced(t: Pool.Table, d: ClassDef) {
    && Placed(t, Class(d.name)) && (d.super != "" ==> Placed(t, Class(d.super)))
    && (forall k :: 0 <= k < |d.interfaces| ==> Placed(t, Class(d.interfaces[k])))
    && (forall k :: 0 <= k < |d.fields| ==> FieldPlaced(t, d.fields[k]))
    && (forall k :: 0 <= k < |d.methods| ==> MethodPlaced(t, d.methods[k]))
    && (d.sourceFile != "" ==> Placed(t, Utf8("SourceFile")) && Placed(t, Utf8(d.sourceFile)))
  }

  lemma FieldsRead(p: PoolView, t: Pool.Table, fs: seq<FieldDef>, b: seq<byte>, off: nat)
    requires Reread(p, t) && Word(|fs|) && (forall k :: 0 <= k < |fs| ==> FieldFits(fs[k]) && FieldPlaced(t, fs[k])) && Holds(b, off, FieldsTable(t, fs))
    ensures Counted((b, o) => ReadMember(p, AtField, b, o), b, off) == Got(FieldMembers(fs), off + |FieldsTable(t, fs)|)
  {
    hide Counted, Reads, Reread, Holds, FieldFits, FieldPlaced, FieldBytes, FieldInfo;
    var ws := seq(|fs|, k requires 0 <= k < |fs| => FieldBytes(t, fs[k]));
    forall k | 0 <= k < |fs|
      ensures Reads((b, o) => ReadMember(p, AtField, b, o), FieldMembers(fs)[k], ws[k])
    {
      FieldReads(p, t, fs[k]);
    }
    CountedReads((b, o) => ReadMember(p, AtField, b, o), FieldMembers(fs), ws, b, off);
  }

  lemma MethodsRead(p: PoolView, t: Pool.Table, ms: seq<MethodDef>, b: seq<byte>, off: nat)
    requires Reread(p, t) && Word(|ms|) && (forall k :: 0 <= k < |ms| ==> MethodFits(ms[k]) && MethodPlaced(t, ms[k])) && Holds(b, off, MethodsTable(t, ms))
    ensures Counted((b, o) => ReadMember(p, AtMethod, b, o), b, off) == Got(MethodMembers(ms), off + |MethodsTable(t, ms)|)
  {
    hide Counted, Reads, Reread, Holds, MethodFits, MethodPlaced, MethodBytes, MethodInfo;
    var ws := seq(|ms|, k requires 0 <= k < |ms| => MethodBytes(t, ms[k]));
    forall k | 0 <= k < |ms|
      ensures Reads((b, o) => ReadMember(p, AtMethod, b, o), MethodMembers(ms)[k], ws[k])
    {
      MethodReads(p, t, ms[k]);
    }
    CountedReads((b, o) => ReadMember(p, AtMethod, b, o), MethodMembers(ms), ws, b, off);
  }

  lemma ClassAttrsRead(p: PoolView, t: Pool.Table, d: ClassDef, b: seq<byte>, off: nat)
    requires Reread(p, t) && (d.sourceFile != "" ==> Placed(t, Utf8("SourceFile")) && Placed(t, Utf8(d.sourceFile)))
    requires Holds(b, off, Listed(ClassAttrs(t, d)))
    ensures Counted((b, o) => ReadAttr(p, AtClass, b, o), b, off) == Got(ClassAttrsInfo(d), off + |Listed(ClassAttrs(t, d))|)
  {
    hide Counted, Reads, Reread, Holds, AttrBytes, DecodeString, DecodeConstant, ReadCode;
    if d.sourceFile != "" {
      StringDecode(p, t, d.sourceFile);
      AttrReads(p, t, AtClass, "SourceFile", Twos([IndexOf(t, Utf8(d.sourceFile))]), SourceFile(d.sourceFile));
    }
    CountedReads((b, o) => ReadAttr(p, AtClass, b, o), ClassAttrsInfo(d), ClassAttrs(t, d), b, off);
  }

  lemma RestReads(p: PoolView, t: Pool.Table, d: ClassDef, off: nat)
    requires Reread(p, t) && ClassFits(d) && ClassPlaced(t, d) && Holds(p.src, off, Rest(t, d))
    ensures ReadRest(p, d.minor, off) == Got(Expected(d), off + |Rest(t, d)|)
  {
    hide Holds, Reread, Twos, ReadTwos, Counted, ClassName, OptClassName, CatchIndex, IndexOf, NamesTable, FieldsTable, MethodsTable,
         ClassAttrs, Listed, FieldFits, MethodFits, FieldPlaced, MethodPlaced, Placed, FieldMembers, MethodMembers, ClassAttrsInfo;
    var v := [d.flags, IndexOf(t, Class(d.name)), CatchIndex(t, d.super)];
    var ns, fs, ms, last := NamesTable(t, d.interfaces), FieldsTable(t, d.fields), MethodsTable(t, d.methods), Listed(ClassAttrs(t, d));
    ClassNameReads(p, t, d.name);
    CatchReads(p, t, d.super);
    HoldsParts(p.src, off, Twos(v), ns + (fs + (ms + last)));
    HoldsParts(p.src, off + 6, ns, fs + (ms + last));
    HoldsParts(p.src, off + 6 + |ns|, fs, ms + last);
    HoldsParts(p.src, off + 6 + |ns| + |fs|, ms, last);
    TwosRead(p.src, off, v);
    NamesRead(p, t, d.interfaces, p.src, off + 6);
    FieldsRead(p, t, d.fields, p.src, off + 6 + |ns|);
    MethodsRead(p, t, d.methods, p.src, off + 6 + |ns| + |fs|);
    ClassAttrsRead(p, t, d, p.src, off + 6 + |ns| + |fs| + |ms|);
  }

  // ---- interning places everything ----------------------------------------

  ghost predicate AllPlaced(t: Pool.Table, its: seq<Item>) { forall it :: it in its ==> Placed(t, it) }

  lemma PlacedParts(t: Pool.Table, a: seq<Item>, b: seq<Item>)
    requires AllPlaced(t, a + b)
    ensures AllPlaced(t, a) && AllPlaced(t, b)
  {
    assert forall it :: it in a || it in b ==> it in a + b;
  }

  lemma {:induction false} LocalItemsPlaced(t: Pool.Table, ls: seq<LocalDef>)
    requires AllPlaced(t, LocalItems(ls))
    ensures LocalsPlaced(t, ls)
  {
    if ls != [] {
      var head := [Utf8(ls[0].name), Utf8(ls[0].desc)];
      PlacedParts(t, head, LocalItems(ls[1..]));
      LocalItemsPlaced(t, ls[1..]);
      assert head[0] in head && head[1] in head;
      forall k | 0 <= k < |ls|
        ensures Placed(t, Utf8(ls[k].name)) && Placed(t, Utf8(ls[k].desc))
      {
        if k > 0 { assert ls[k] == ls[1..][k - 1]; }
      }
    }
  }

  lemma OnePlaced(t: Pool.Table, it: Item)
    requires AllPlaced(t, [it])
    ensures Placed(t, it)
  {
    assert it in [it];
  }

  lemma TwoPlaced(t: Pool.Table, a: Item, b: Item)
    requires AllPlaced(t, [a, b])
    ensures Placed(t, a) && Placed(t, b)
  {
    assert a in [a, b] && b in [a, b];
  }

  lemma NamesPlaced(t: Pool.Table, ss: seq<string>)
    requires AllPlaced(t, Names(ss))
    ensures forall k :: 0 <= k < |ss| ==> Placed(t, Class(ss[k]))
  {
    assert forall k :: 0 <= k < |ss| ==> Names(ss)[k] in Names(ss);
  }

  ghost predicate EarlierPlaced(t: Pool.Table, d: ClassDef) {
    && (forall k :: 0 <= k < |d.fields| && d.fields[k].constant.Some? ==> Placed(t, d.fields[k].constant.value))
    && (forall k :: 0 <= k < |d.methods| && d.methods[k].code.Some? ==> CatchesPlaced(t, d.methods[k].code.value.handlers))
  }

  ghost predicate CatchesPlaced(t: Pool.Table, hs: seq<HandlerDef>) {
    forall k :: 0 <= k < |hs| && hs[k].catchType != "" ==> Placed(t, Class(hs[k].catchType))
  }

  lemma FieldItemsPlaced(t: Pool.Table, f: FieldDef)
    requires AllPlaced(t, FieldItems(f)) && (f.constant.Some? ==> Placed(t, f.constant.value))
    ensures FieldPlaced(t, f)
  {
    hide Placed, AllPlaced;
    var head, mid := [Utf8(f.name), Utf8(f.desc)], if f.constant.Some? then [Utf8("ConstantValue")] else [];
    PlacedParts(t, head + mid, SignatureItems(f.signature));
    PlacedParts(t, head, mid);
    TwoPlaced(t, Utf8(f.name), Utf8(f.desc));
    if f.constant.Some? { OnePlaced(t, Utf8("ConstantValue")); }
    if f.signature != "" { TwoPlaced(t, Utf8(f.signature), Utf8("Signature")); }
  }

  lemma CodeItemsPlaced(t: Pool.Table, c: CodeDef)
    requires AllPlaced(t, CodeItems(c)) && CatchesPlaced(t, c.handlers)
    ensures CodePlaced(t, c)
  {
    hide Placed, AllPlaced, LocalsPlaced;
    var a, b := LocalItems(c.locals), [Utf8("Code")];
    var l := if c.lines != [] then [Utf8("LineNumberTable")] else [];
    var v := if c.locals != [] then [Utf8("LocalVariableTable")] else [];
    PlacedParts(t, a + b + l, v);
    PlacedParts(t, a + b, l);
    PlacedParts(t, a, b);
    LocalItemsPlaced(t, c.locals);
    OnePlaced(t, Utf8("Code"));
    if c.lines != [] { OnePlaced(t, Utf8("LineNumberTable")); }
    if c.locals != [] { OnePlaced(t, Utf8("LocalVariableTable")); }
  }

  lemma MethodItemsPlaced(t: Pool.Table, m: MethodDef)
    requires AllPlaced(t, MethodItems(m)) && (m.code.Some? ==> CatchesPlaced(t, m.code.value.handlers))
    ensures MethodPlaced(t, m)
  {
    hide Placed, AllPlaced, CodePlaced, CatchesPlaced, CodeItems;
    var head := [Utf8(m.name), Utf8(m.desc)];
    var c := if m.code.Some? then CodeItems(m.code.value) else [];
    var e := if m.exceptions != [] then Names(m.exceptions) + [Utf8("Exceptions")] else [];
    PlacedParts(t, head + c + e, SignatureItems(m.signature));
    PlacedParts(t, head + c, e);
    PlacedParts(t, head, c);
    TwoPlaced(t, Utf8(m.name), Utf8(m.desc));
    if m.code.Some? { CodeItemsPlaced(t, m.code.value); }
    if m.exceptions != [] {
      PlacedParts(t, Names(m.exceptions), [Utf8("Exceptions")]);
      NamesPlaced(t, m.exceptions);
      OnePlaced(t, Utf8("Exceptions"));
    }
    if m.signature != "" { TwoPlaced(t, Utf8(m.signature), Utf8("Signature")); }
  }

  lemma {:induction false} FieldsPlaced(t: Pool.Table, fs: seq<FieldDef>)
    requires AllPlaced(t, FieldsItems(fs)) && forall k :: 0 <= k < |fs| && fs[k].constant.Some? ==> Placed(t, fs[k].constant.value)
    ensures forall k :: 0 <= k < |fs| ==> FieldPlaced(t, fs[k])
  {
    hide Placed, AllPlaced, FieldPlaced, FieldItems;
    if fs != [] {
      PlacedParts(t, FieldItems(fs[0]), FieldsItems(fs[1..]));
      FieldItemsPlaced(t, fs[0]);
      FieldsPlaced(t, fs[1..]);
      forall k | 0 <= k < |fs|
        ensures FieldPlaced(t, fs[k])
      {
        if k > 0 { assert fs[k] == fs[1..][k - 1]; }
      }
    }
  }

  lemma {:induction false} MethodsPlaced(t: Pool.Table, ms: seq<MethodDef>)
    requires AllPlaced(t, MethodsItems(ms)) && forall k :: 0 <= k < |ms| && ms[k].code.Some? ==> CatchesPlaced(t, ms[k].code.value.handlers)
    ensures forall k :: 0 <= k < |ms| ==> MethodPlaced(t, ms[k])
  {
    hide Placed, AllPlaced, MethodPlaced, MethodItems, CatchesPlaced;
    if ms != [] {
      PlacedParts(t, MethodItems(ms[0]), MethodsItems(ms[1..]));
      MethodItemsPlaced(t, ms[0]);
      MethodsPlaced(t, ms[1..]);
      forall k | 0 <= k < |ms|
        ensures MethodPlaced(t, ms[k])
      {
        if k > 0 { assert ms[k] == ms[1..][k - 1]; }
      }
    }
  }

  lemma ClassItemsPlaced(t: Pool.Table, d: ClassDef)
    requires AllPlaced(t, ClassItems(d)) && EarlierPlaced(t, d)
    ensures ClassPlaced(t, d)
  {
    hide Placed, AllPlaced, FieldPlaced, MethodPlaced, CatchesPlaced, FieldsItems, MethodsItems, Names;
    var own, sup := [Class(d.name)], if d.super != "" then [Class(d.super)] else [];
    var last := if d.sourceFile != "" then [Utf8("SourceFile"), Utf8(d.sourceFile)] else [];
    var ns, fs, ms := Names(d.interfaces), FieldsItems(d.fields), MethodsItems(d.methods);
    PlacedParts(t, own + sup + ns + fs + ms, last);
    PlacedParts(t, own + sup + ns + fs, ms);
    PlacedParts(t, own + sup + ns, fs);
    PlacedParts(t, own + sup, ns);
    PlacedParts(t, own, sup);
    OnePlaced(t, Class(d.name));
    if d.super != "" { OnePlaced(t, Class(d.super)); }
    NamesPlaced(t, d.interfaces);
    FieldsPlaced(t, d.fields);
    MethodsPlaced(t, d.methods);
    if d.sourceFile != "" { TwoPlaced(t, Utf8("SourceFile"), Utf8(d.sourceFile)); }
  }

  // ---- the theorem --------------------------------------------------------

  /** The file reads back to the class, from any table that places everything it needs, exactly when no entry is newer than it. */
  lemma PlacedReadsBack(c: Codec, t: Pool.Table, d: ClassDef)
    requires Faithful(c) && Valid(t) && Sized(c, t) && ClassFits(d) && ClassPlaced(t, d)
    ensures ReadClass(c, ClassBytes(c, t, d)) == Some(Expected(d)) <==> Supported(t, MAJOR)
    ensures ReadClass(c, ClassBytes(c, t, d)) == None <==> !Supported(t, MAJOR)
  {
    hide Faithful, Valid, Sized, Supported, ClassFits, ClassPlaced, Holds, Emit, Rest, U4, Twos, ReadTwos, ReadFour, ReadPool, ReadRest, Expected, Mirrors;
    NotEmpty(t);
    var b := ClassBytes(c, t, d);
    var rest := Rest(t, d);
    HoldsAll(b);
    HoldsParts(b, 0, U4(MAGIC), Twos([d.minor, MAJOR]) + (Emit(c, t) + rest));
    HoldsParts(b, 4, Twos([d.minor, MAJOR]), Emit(c, t) + rest);
    HoldsParts(b, 8, Emit(c, t), rest);
    FourReads(b, 0, MAGIC);
    assert Word(d.minor) && d.minor != 65535 by { MinorFits(d); }
    TwosRead(b, 4, [d.minor, MAJOR]);
    if Supported(t, MAJOR) {
      PoolRead(c, t, b, 8, MAJOR);
      var p := PoolView(c, b, ReadPool(b, 8, MAJOR).value.0);
      RestReads(p, t, d, 8 + |Emit(c, t)|);
    } else {
      PoolRefused(c, t, b, 8, MAJOR);
    }
  }

  lemma NotEmpty(t: Pool.Table)
    requires Valid(t)
    ensures |t.slots| >= 1
  {
  }

  lemma MinorFits(d: ClassDef)
    requires ClassFits(d)
    ensures Word(d.minor) && d.minor != 65535
  {
  }

  /**
   * A class whose tables fit is read back from its file as it was built: names, interfaces, members, code, handlers, line
   * and local tables, to the last byte. `before` is whatever was interned earlier, catch types and constants included.
   * The one thing that keeps it from being read is a method type among them: it needs a later version than this file's.
   */
  lemma ClassReadsBack(c: Codec, before: seq<Item>, d: ClassDef)
    requires Faithful(c) && ClassFits(d) && !Calls(c, Empty(), before + ClassItems(d)).0.failed && Early(before, d)
    ensures var t := Calls(c, Empty(), before + ClassItems(d)).0;
            && |t.slots| >= 1
            && (ReadClass(c, ClassBytes(c, t, d)) == Some(Expected(d)) <==> forall it :: it in before ==> !it.MethodType?)
            && (ReadClass(c, ClassBytes(c, t, d)) == None <==> exists it :: it in before && it.MethodType?)
  {
    hide Faithful, ClassFits, Calls, ClassItems, Supported, EarlierPlaced, Early, ClassBytes, ReadClass, Expected, Sized, ClassPlaced;
    var its := before + ClassItems(d);
    var t := Calls(c, Empty(), its).0;
    EmptyValid();
    AnswersStand(c, Empty(), its);
    EmptySized(c);
    CallsSized(c, Empty(), its);
    AnswersPlaced(c, its);
    PlacedParts(t, before, ClassItems(d));
    EarlyPlaced(t, before, d);
    ClassItemsPlaced(t, d);
    PlacedReadsBack(c, t, d);
    NotEmpty(t);
    SupportedExactly(c, its, MAJOR);
    ClassUntyped(d);
    assert forall it :: it in its <==> it in before || it in ClassItems(d);
  }

  /** The class itself asks for names and strings only. */
  lemma ClassUntyped(d: ClassDef)
    ensures forall it :: it in ClassItems(d) ==> !it.MethodType?
  {
    hide FieldsItems, MethodsItems;
    FieldsUntyped(d.fields);
    MethodsUntyped(d.methods);
    assert forall it :: it in Names(d.interfaces) ==> it.Class?;
  }

  lemma {:induction false} FieldsUntyped(fs: seq<FieldDef>)
    ensures forall it :: it in FieldsItems(fs) ==> !it.MethodType?
    decreases |fs|
  {
    if fs != [] { FieldsUntyped(fs[1..]); }
  }

  lemma {:induction false} MethodsUntyped(ms: seq<MethodDef>)
    ensures forall it :: it in MethodsItems(ms) ==> !it.MethodType?
    decreases |ms|
  {
    if ms != [] {
      MethodUntyped(ms[0]);
      MethodsUntyped(ms[1..]);
    }
  }

  lemma MethodUntyped(m: MethodDef)
    ensures forall it :: it in MethodItems(m) ==> !it.MethodType?
  {
    hide LocalItems;
    if m.code.Some? { LocalsUntyped(m.code.value.locals); }
    assert forall it :: it in Names(m.exceptions) ==> it.Class?;
  }

  lemma {:induction false} LocalsUntyped(ls: seq<LocalDef>)
    ensures forall it :: it in LocalItems(ls) ==> !it.MethodType?
    decreases |ls|
  {
    if ls != [] { LocalsUntyped(ls[1..]); }
  }

  /** java/lang/Object with one method type interned beforehand: the builder reports nothing, and its file is not read. */
  lemma MethodTypeRefused(c: Codec)
    requires Faithful(c) && |c.enc("()V")| <= 65535 && |c.enc(OBJECT)| <= 65535
    ensures var d := ClassDef(0, 0x21, OBJECT, "", [], [], [], "");
            var t := Calls(c, Empty(), [MethodType("()V")] + ClassItems(d)).0;
            && ClassFits(d) && !t.failed && |t.slots| >= 1 && ReadClass(c, ClassBytes(c, t, d)) == None
  {
    hide Faithful, ClassBytes, ReadClass;
    var d := ClassDef(0, 0x21, OBJECT, "", [], [], [], "");
    var m, o := MethodType("()V"), Class(OBJECT);
    assert ClassItems(d) == [o] && [m] + [o] == [m, o];
    TwoCalls(c, m, o);
    TypeThenObject(c);
    ClassReadsBack(c, [m], d);
    assert m in [m] && m.MethodType?;
  }

  lemma TwoCalls(c: Codec, a: Item, b: Item)
    ensures Calls(c, Empty(), [a, b]).0 == Intern(c, Intern(c, Empty(), a), b)
  {
    hide Intern;
    var u := Intern(c, Empty(), a);
    assert [a, b][1..] == [b] && [b][1..] == [];
    assert Calls(c, u, [b]).0 == Calls(c, Intern(c, u, b), []).0;
  }

  lemma TypeThenObject(c: Codec)
    requires |c.enc("()V")| <= 65535 && |c.enc(OBJECT)| <= 65535
    ensures !Intern(c, Intern(c, Empty(), MethodType("()V")), Class(OBJECT)).failed
  {
    var m, o := MethodType("()V"), Class(OBJECT);
    var u1 := Pool.Add(Empty(), Utf8("()V"));
    assert Intern(c, Empty(), Utf8("()V")) == u1;
    OnePart(c, Empty(), Utf8("()V"), Rank(m));
    var u2 := Pool.Add(u1, m);
    assert Intern(c, Empty(), m) == u2 && |u2.slots| == 3;
    var u3 := Pool.Add(u2, Utf8(OBJECT));
    assert Intern(c, u2, Utf8(OBJECT)) == u3;
    OnePart(c, u2, Utf8(OBJECT), Rank(o));
    assert Intern(c, u2, o) == Pool.Add(u3, o);
  }

  /** Constants and catch types are interned when they are given. */
  predicate Early(before: seq<Item>, d: ClassDef) {
    && (forall k :: 0 <= k < |d.fields| && d.fields[k].constant.Some? ==> d.fields[k].constant.value in before)
    && (forall k :: 0 <= k < |d.methods| && d.methods[k].code.Some? ==> EarlyCatches(before, d.methods[k].code.value.handlers))
  }

  predicate EarlyCatches(before: seq<Item>, hs: seq<HandlerDef>) {
    forall k :: 0 <= k < |hs| && hs[k].catchType != "" ==> Class(hs[k].catchType) in before
  }

  lemma EarlyPlaced(t: Pool.Table, before: seq<Item>, d: ClassDef)
    requires AllPlaced(t, before) && Early(before, d)
    ensures EarlierPlaced(t, d)
  {
    hide Placed;
    forall k | 0 <= k < |d.methods| && d.methods[k].code.Some?
      ensures CatchesPlaced(t, d.methods[k].code.value.handlers)
    {
      assert EarlyCatches(before, d.methods[k].code.value.handlers);
    }
  }

  lemma AnswersPlaced(c: Codec, its: seq<Item>)
    requires !Calls(c, Empty(), its).0.failed
    ensures AllPlaced(Calls(c, Empty(), its).0, its)
  {
    hide Valid, Placed, Calls;
    EmptyValid();
    AnswersStand(c, Empty(), its);
    var t := Calls(c, Empty(), its).0;
    forall it | it in its
      ensures Placed(t, it)
    {
      var k :| 0 <= k < |its| && its[k] == it;
    }
  }
}
