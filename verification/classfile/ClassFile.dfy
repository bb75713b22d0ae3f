/** The class file a builder writes: its parts, what it interns for them, and their bytes. */
module ClassFile {
  import opened Bytes
  import opened Pool
  import opened PoolBuilder

  datatype LineDef = LineDef(start: nat, line: nat)

  datatype LocalDef = LocalDef(start: nat, length: nat, name: string, desc: string, slot: nat)

  /** The empty catch type catches everything. */
  datatype HandlerDef = HandlerDef(start: nat, end: nat, handler: nat, catchType: string)

  datatype CodeDef = CodeDef(maxStack: nat, maxLocals: nat, bytes: seq<byte>, handlers: seq<HandlerDef>, lines: seq<LineDef>, locals: seq<LocalDef>)

  /** An empty signature is no signature. */
  datatype FieldDef = FieldDef(flags: nat, name: string, desc: string, constant: Option<Item>, signature: string)

  datatype MethodDef = MethodDef(flags: nat, name: string, desc: string, code: Option<CodeDef>, exceptions: seq<string>, signature: string)

  datatype ClassDef = ClassDef(minor: nat, flags: nat, name: string, super: string, interfaces: seq<string>,
                               fields: seq<FieldDef>, methods: seq<MethodDef>, sourceFile: string)

  const MAGIC := 0xCAFEBABE
  const MAJOR := 49
  const OBJECT := "java/lang/Object"

  predicate Word(v: int) { 0 <= v < 0x1_0000 }

  // ---- what is interned, in order -----------------------------------------

  function Names(ss: seq<string>): (r: seq<Item>)
    ensures |r| == |ss| && forall k :: 0 <= k < |ss| ==> r[k] == Class(ss[k])
  {
    seq(|ss|, k requires 0 <= k < |ss| => Class(ss[k]))
  }

  function LocalItems(ls: seq<LocalDef>): seq<Item> {
    if ls == [] then [] else [Utf8(ls[0].name), Utf8(ls[0].desc)] + LocalItems(ls[1..])
  }

  function SignatureItems(s: string): seq<Item> { if s == "" then [] else [Utf8(s), Utf8("Signature")] }

  function FieldItems(f: FieldDef): seq<Item> {
    [Utf8(f.name), Utf8(f.desc)] + (if f.constant.Some? then [Utf8("ConstantValue")] else []) + SignatureItems(f.signature)
  }

  function CodeItems(c: CodeDef): seq<Item> {
    LocalItems(c.locals) + [Utf8("Code")]
    + (if c.lines != [] then [Utf8("LineNumberTable")] else [])
    + (if c.locals != [] then [Utf8("LocalVariableTable")] else [])
  }

  function MethodItems(m: MethodDef): seq<Item> {
    [Utf8(m.name), Utf8(m.desc)]
    + (if m.code.Some? then CodeItems(m.code.value) else [])
    + (if m.exceptions != [] then Names(m.exceptions) + [Utf8("Exceptions")] else [])
    + SignatureItems(m.signature)
  }

  function FieldsItems(fs: seq<FieldDef>): seq<Item> { if fs == [] then [] else FieldItems(fs[0]) + FieldsItems(fs[1..]) }

  function MethodsItems(ms: seq<MethodDef>): seq<Item> { if ms == [] then [] else MethodItems(ms[0]) + MethodsItems(ms[1..]) }

  function ClassItems(d: ClassDef): seq<Item> {
    [Class(d.name)] + (if d.super != "" then [Class(d.super)] else []) + Names(d.interfaces)
    + FieldsItems(d.fields) + MethodsItems(d.methods)
    + (if d.sourceFile != "" then [Utf8("SourceFile"), Utf8(d.sourceFile)] else [])
  }

  // ---- bytes --------------------------------------------------------------

  /** Consecutive u2 fields. */
  function Twos(vs: seq<nat>): (r: seq<byte>)
    ensures |r| == 2 * |vs|
  {
    if vs == [] then [] else U2(vs[0]) + Twos(vs[1..])
  }

  function Join(ws: seq<seq<byte>>): seq<byte> { if ws == [] then [] else ws[0] + Join(ws[1..]) }

  /** A u2 count and the entries. */
  function Listed(ws: seq<seq<byte>>): seq<byte> { Twos([|ws|]) + Join(ws) }

  /** attribute_info: the length excludes the six bytes before it. */
  function AttrBytes(t: Pool.Table, name: string, body: seq<byte>): seq<byte> {
    Twos([IndexOf(t, Utf8(name))]) + (U4(|body|) + body)
  }

  function LineBytes(l: LineDef): seq<byte> { Twos([l.start, l.line]) }

  function LocalBytes(t: Pool.Table, l: LocalDef): seq<byte> {
    Twos([l.start, l.length, IndexOf(t, Utf8(l.name)), IndexOf(t, Utf8(l.desc)), l.slot])
  }

  function CatchIndex(t: Pool.Table, s: string): nat { if s == "" then 0 else IndexOf(t, Class(s)) }

  function HandlerBytes(t: Pool.Table, h: HandlerDef): seq<byte> { Twos([h.start, h.end, h.handler, CatchIndex(t, h.catchType)]) }

  function NameBytes(t: Pool.Table, s: string): seq<byte> { Twos([IndexOf(t, Class(s))]) }

  function LinesTable(ls: seq<LineDef>): seq<byte> { Listed(seq(|ls|, k requires 0 <= k < |ls| => LineBytes(ls[k]))) }

  function LocalsTable(t: Pool.Table, ls: seq<LocalDef>): seq<byte> { Listed(seq(|ls|, k requires 0 <= k < |ls| => LocalBytes(t, ls[k]))) }

  function HandlersTable(t: Pool.Table, hs: seq<HandlerDef>): seq<byte> { Listed(seq(|hs|, k requires 0 <= k < |hs| => HandlerBytes(t, hs[k]))) }

  function NamesTable(t: Pool.Table, ss: seq<string>): seq<byte> { Listed(seq(|ss|, k requires 0 <= k < |ss| => NameBytes(t, ss[k]))) }

  function CodeAttrs(t: Pool.Table, c: CodeDef): seq<seq<byte>> {
    (if c.lines != [] then [AttrBytes(t, "LineNumberTable", LinesTable(c.lines))] else [])
    + (if c.locals != [] then [AttrBytes(t, "LocalVariableTable", LocalsTable(t, c.locals))] else [])
  }

  function CodeBody(t: Pool.Table, c: CodeDef): seq<byte> {
    Twos([c.maxStack, c.maxLocals]) + (U4(|c.bytes|) + (c.bytes + (HandlersTable(t, c.handlers) + Listed(CodeAttrs(t, c)))))
  }

  function SignatureAttr(t: Pool.Table, s: string): seq<seq<byte>> {
    if s == "" then [] else [AttrBytes(t, "Signature", Twos([IndexOf(t, Utf8(s))]))]
  }

  function FieldAttrs(t: Pool.Table, f: FieldDef): seq<seq<byte>> {
    (if f.constant.Some? then [AttrBytes(t, "ConstantValue", Twos([IndexOf(t, f.constant.value)]))] else []) + SignatureAttr(t, f.signature)
  }

  function MethodAttrs(t: Pool.Table, m: MethodDef): seq<seq<byte>> {
    (if m.code.Some? then [AttrBytes(t, "Code", CodeBody(t, m.code.value))] else [])
    + ((if m.exceptions != [] then [AttrBytes(t, "Exceptions", NamesTable(t, m.exceptions))] else []) + SignatureAttr(t, m.signature))
  }

  function ClassAttrs(t: Pool.Table, d: ClassDef): seq<seq<byte>> {
    if d.sourceFile == "" then [] else [AttrBytes(t, "SourceFile", Twos([IndexOf(t, Utf8(d.sourceFile))]))]
  }

  function FieldBytes(t: Pool.Table, f: FieldDef): seq<byte> {
    Twos([f.flags, IndexOf(t, Utf8(f.name)), IndexOf(t, Utf8(f.desc))]) + Listed(FieldAttrs(t, f))
  }

  function MethodBytes(t: Pool.Table, m: MethodDef): seq<byte> {
    Twos([m.flags, IndexOf(t, Utf8(m.name)), IndexOf(t, Utf8(m.desc))]) + Listed(MethodAttrs(t, m))
  }

  function FieldsTable(t: Pool.Table, fs: seq<FieldDef>): seq<byte> { Listed(seq(|fs|, k requires 0 <= k < |fs| => FieldBytes(t, fs[k]))) }

  function MethodsTable(t: Pool.Table, ms: seq<MethodDef>): seq<byte> { Listed(seq(|ms|, k requires 0 <= k < |ms| => MethodBytes(t, ms[k]))) }

  function Rest(t: Pool.Table, d: ClassDef): seq<byte> {
    Twos([d.flags, IndexOf(t, Class(d.name)), CatchIndex(t, d.super)])
    + (NamesTable(t, d.interfaces) + (FieldsTable(t, d.fields) + (MethodsTable(t, d.methods) + Listed(ClassAttrs(t, d)))))
  }

  function ClassBytes(c: Codec, t: Pool.Table, d: ClassDef): seq<byte>
    requires |t.slots| >= 1
  {
    U4(MAGIC) + (Twos([d.minor, MAJOR]) + (Emit(c, t) + Rest(t, d)))
  }

  // ---- the table sizes a class file can hold ------------------------------

  predicate LineFits(l: LineDef) { Word(l.start) && Word(l.line) }

  predicate LocalFits(l: LocalDef) { Word(l.start) && Word(l.length) && Word(l.slot) }

  predicate HandlerFits(h: HandlerDef) { Word(h.start) && Word(h.end) && Word(h.handler) }

  predicate CodeFits(c: CodeDef) {
    && Word(c.maxStack) && Word(c.maxLocals) && 1 <= |c.bytes| <= 65535
    && Word(|c.handlers|) && Word(|c.lines|) && Word(|c.locals|)
    && (forall k :: 0 <= k < |c.handlers| ==> HandlerFits(c.handlers[k]))
    && (forall k :: 0 <= k < |c.lines| ==> LineFits(c.lines[k]))
    && (forall k :: 0 <= k < |c.locals| ==> LocalFits(c.locals[k]))
  }

  /** ConstantValue names a number or a string. */
  predicate FieldConstant(it: Item) { it.Integer? || it.Float? || it.Long? || it.Double? || it.Text? }

  predicate FieldFits(f: FieldDef) { Word(f.flags) && (f.constant.Some? ==> FieldConstant(f.constant.value)) }

  predicate MethodFits(m: MethodDef) { Word(m.flags) && Word(|m.exceptions|) && (m.code.Some? ==> CodeFits(m.code.value)) }

  predicate ClassFits(d: ClassDef) {
    && Word(d.minor) && d.minor != 65535 && Word(d.flags) && (d.super == "" ==> d.name == OBJECT)
    && Word(|d.interfaces|) && Word(|d.fields|) && Word(|d.methods|)
    && (forall k :: 0 <= k < |d.fields| ==> FieldFits(d.fields[k]))
    && (forall k :: 0 <= k < |d.methods| ==> MethodFits(d.methods[k]))
  }

  // ---- backpatching -------------------------------------------------------

  /** The byte sink: appended to, and patched where a length was left open. */
  class Sink {
    var b: seq<byte>

    constructor ()
      ensures b == []
    {
      b := [];
    }

    method Put(w: seq<byte>)
      modifies this
      ensures b == old(b) + w
    {
      b := b + w;
    }

    method PatchU4(at: nat, v: nat)
      requires at + 4 <= |b|
      modifies this
      ensures b == Patch(old(b), at, U4(v))
    {
      b := Patch(b, at, U4(v));
    }

    /** Opens an attribute: the length is written as zero and its place remembered. */
    method OpenAttr(index: nat) returns (lengthAt: nat)
      modifies this
      ensures b == old(b) + Twos([index]) + U4(0) && lengthAt == |old(b)| + 2
    {
      Put(Twos([index]));
      lengthAt := |b|;
      Put(U4(0));
    }

    /** Closes it: whatever was appended since is the body, and its length goes where the zero was. */
    method CloseAttr(lengthAt: nat, ghost before: seq<byte>, ghost index: nat, ghost body: seq<byte>)
      requires b == before + Twos([index]) + U4(0) + body && lengthAt == |before| + 2
      modifies this
      ensures b == before + (Twos([index]) + (U4(|body|) + body))
    {
      hide U4;
      var start := lengthAt + 4;
      PatchU4(lengthAt, |b| - start);
      PatchedLength(before + Twos([index]), body);
      assert before + Twos([index]) + (U4(|body|) + body) == before + (Twos([index]) + (U4(|body|) + body));
    }
  }

  lemma PatchedLength(head: seq<byte>, body: seq<byte>)
    ensures Patch(head + U4(0) + body, |head|, U4(|body|)) == head + (U4(|body|) + body)
  {
    hide U4;
    var b := head + U4(0) + body;
    assert b[..|head|] == head && b[|head| + 4..] == body;
  }
}
