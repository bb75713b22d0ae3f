/** Reading a class file: bounded cursors over the bytes, every attribute body read to its exact end. */
module ClassReader {
  import opened Bytes
  import opened Pool
  import opened PoolReader
  import opened ClassFile

  /** A value and the offset after it, or a failure of any kind. */
  datatype Parsed<T> = Fail | Got(v: T, next: nat)

  /** The pool's entries with the bytes their strings alias. */
  datatype PoolView = PoolView(c: Codec, src: seq<byte>, es: seq<Raw>)

  function Str(p: PoolView, i: nat): Option<string> { StringAt(p.c, p.src, p.es, i) }

  function ClassName(p: PoolView, i: nat): Option<string> { NameAt(p.c, p.src, p.es, i, PoolBuilder.CLASS) }

  /** A class index that may be zero. */
  function OptClassName(p: PoolView, i: nat): Option<string> { if i == 0 then Some("") else ClassName(p, i) }

  // ---- cursors ------------------------------------------------------------

  /** n consecutive u2 fields. */
  function ReadTwos(b: seq<byte>, off: nat, n: nat): Parsed<seq<nat>>
    decreases n
  {
    if n == 0 then Got([], off)
    else if off + 2 > |b| then Fail
    else match ReadTwos(b, off + 2, n - 1)
      case Fail => Fail
      case Got(vs, next) => Got([U16At(b, off)] + vs, next)
  }

  function ReadFour(b: seq<byte>, off: nat): Parsed<nat> { if off + 4 > |b| then Fail else Got(U32At(b, off), off + 4) }

  function ReadSlice(b: seq<byte>, off: nat, n: nat): Parsed<seq<byte>> {
    if off + n > |b| then Fail else Got(b[off..off + n], off + n)
  }

  function Many<T>(p: (seq<byte>, nat) -> Parsed<T>, n: nat, b: seq<byte>, off: nat): Parsed<seq<T>>
    decreases n
  {
    if n == 0 then Got([], off)
    else match p(b, off)
      case Fail => Fail
      case Got(x, next) =>
        match Many(p, n - 1, b, next)
        case Fail => Fail
        case Got(xs, end) => Got([x] + xs, end)
  }

  /** A counted table. */
  function Counted<T>(p: (seq<byte>, nat) -> Parsed<T>, b: seq<byte>, off: nat): Parsed<seq<T>> {
    match ReadTwos(b, off, 1)
    case Fail => Fail
    case Got(n, next) => Many(p, if |n| == 1 then n[0] else 0, b, next)
  }

  /** What a bounded cursor read, provided it read the whole body. */
  function Exactly<T>(r: Parsed<T>, body: seq<byte>): Option<T> {
    if r.Got? && r.next == |body| then Some(r.v) else None
  }

  // ---- attributes ---------------------------------------------------------

  datatype CodeAttr = LineNumberTable(lines: seq<LineDef>) | LocalVariableTable(locals: seq<LocalDef>) | RawCode(name: string, data: seq<byte>)

  datatype CodeInfo = CodeInfo(maxStack: nat, maxLocals: nat, bytes: seq<byte>, handlers: seq<HandlerDef>, attrs: seq<CodeAttr>)

  datatype Attr =
    | SourceFile(file: string)
    | Signature(signature: string)
    | ConstantValue(constant: Item)
    | Exceptions(classes: seq<string>)
    | Code(code: CodeInfo)
    | RawAttr(name: string, data: seq<byte>)

  datatype Location = AtClass | AtField | AtMethod

  function ReadLine(b: seq<byte>, off: nat): Parsed<LineDef> {
    match ReadTwos(b, off, 2)
    case Fail => Fail
    case Got(v, next) => if |v| == 2 then Got(LineDef(v[0], v[1]), next) else Fail
  }

  function ReadLocal(p: PoolView, b: seq<byte>, off: nat): Parsed<LocalDef> {
    match ReadTwos(b, off, 5)
    case Fail => Fail
    case Got(v, next) =>
      if |v| != 5 || Str(p, v[2]).None? || Str(p, v[3]).None? then Fail
      else Got(LocalDef(v[0], v[1], Str(p, v[2]).value, Str(p, v[3]).value, v[4]), next)
  }

  function ReadHandler(p: PoolView, b: seq<byte>, off: nat): Parsed<HandlerDef> {
    match ReadTwos(b, off, 4)
    case Fail => Fail
    case Got(v, next) =>
      if |v| != 4 || OptClassName(p, v[3]).None? then Fail
      else Got(HandlerDef(v[0], v[1], v[2], OptClassName(p, v[3]).value), next)
  }

  function ReadName(p: PoolView, b: seq<byte>, off: nat): Parsed<string> {
    match ReadTwos(b, off, 1)
    case Fail => Fail
    case Got(v, next) => if |v| != 1 || ClassName(p, v[0]).None? then Fail else Got(ClassName(p, v[0]).value, next)
  }

  /** The name and the body of an attribute. */
  function ReadHeader(p: PoolView, b: seq<byte>, off: nat): Parsed<(string, seq<byte>)> {
    match ReadTwos(b, off, 1)
    case Fail => Fail
    case Got(v, o1) =>
      match ReadFour(b, o1)
      case Fail => Fail
      case Got(n, o2) =>
        if |v| != 1 || Str(p, v[0]).None? then Fail
        else match ReadSlice(b, o2, n)
          case Fail => Fail
          case Got(body, next) => Got((Str(p, v[0]).value, body), next)
  }

  function DecodeCodeAttr(p: PoolView, name: string, body: seq<byte>): Option<CodeAttr> {
    if name == "LineNumberTable" then
      (match Exactly(Counted((b, o) => ReadLine(b, o), body, 0), body) case None => None case Some(ls) => Some(LineNumberTable(ls)))
    else if name == "LocalVariableTable" then
      (match Exactly(Counted((b, o) => ReadLocal(p, b, o), body, 0), body) case None => None case Some(ls) => Some(LocalVariableTable(ls)))
    else Some(RawCode(name, body))
  }

  function ReadCodeAttr(p: PoolView, b: seq<byte>, off: nat): Parsed<CodeAttr> {
    match ReadHeader(p, b, off)
    case Fail => Fail
    case Got(h, next) => match DecodeCodeAttr(p, h.0, h.1) case None => Fail case Some(a) => Got(a, next)
  }

  /** code_length is between 1 and 65535. */
  function ReadCode(p: PoolView, b: seq<byte>): Parsed<CodeInfo> {
    match ReadTwos(b, 0, 2)
    case Fail => Fail
    case Got(v, o1) =>
      match ReadFour(b, o1)
      case Fail => Fail
      case Got(n, o2) =>
        if n == 0 || n >= 65536 || |v| != 2 then Fail
        else match ReadSlice(b, o2, n)
          case Fail => Fail
          case Got(bytes, o3) =>
            match Counted((b, o) => ReadHandler(p, b, o), b, o3)
            case Fail => Fail
            case Got(hs, o4) =>
              match Counted((b, o) => ReadCodeAttr(p, b, o), b, o4)
              case Fail => Fail
              case Got(attrs, next) => Got(CodeInfo(v[0], v[1], bytes, hs, attrs), next)
  }

  function DecodeString(p: PoolView, body: seq<byte>): Option<string> {
    match Exactly(ReadTwos(body, 0, 1), body)
    case None => None
    case Some(v) => if |v| == 1 then Str(p, v[0]) else None
  }

  /** ConstantValue may name a number or a string and nothing else. */
  function DecodeConstant(p: PoolView, body: seq<byte>): Option<Item> {
    match Exactly(ReadTwos(body, 0, 1), body)
    case None => None
    case Some(v) =>
      if |v| != 1 then None
      else match ConstAt(p.c, p.src, p.es, v[0], MAJOR)
        case None => None
        case Some(it) => if FieldConstant(it) then Some(it) else None
  }

  /** An attribute not expected at its location is kept undecoded. */
  function Decode(p: PoolView, loc: Location, name: string, body: seq<byte>): Option<Attr> {
    if name == "SourceFile" && loc == AtClass then
      (match DecodeString(p, body) case None => None case Some(s) => Some(SourceFile(s)))
    else if name == "Signature" then
      (match DecodeString(p, body) case None => None case Some(s) => Some(Signature(s)))
    else if name == "ConstantValue" && loc == AtField then
      (match DecodeConstant(p, body) case None => None case Some(it) => Some(ConstantValue(it)))
    else if name == "Exceptions" && loc == AtMethod then
      (match Exactly(Counted((b, o) => ReadName(p, b, o), body, 0), body) case None => None case Some(ss) => Some(Exceptions(ss)))
    else if name == "Code" && loc == AtMethod then
      (match Exactly(ReadCode(p, body), body) case None => None case Some(c) => Some(Code(c)))
    else Some(RawAttr(name, body))
  }

  function ReadAttr(p: PoolView, loc: Location, b: seq<byte>, off: nat): Parsed<Attr> {
    match ReadHeader(p, b, off)
    case Fail => Fail
    case Got(h, next) => match Decode(p, loc, h.0, h.1) case None => Fail case Some(a) => Got(a, next)
  }

  // ---- members and the class ----------------------------------------------

  datatype Member = Member(flags: nat, name: string, desc: string, attrs: seq<Attr>)

  datatype ClassInfo = ClassInfo(minor: nat, flags: nat, name: string, super: string, interfaces: seq<string>,
                                 fields: seq<Member>, methods: seq<Member>, attrs: seq<Attr>)

  function ReadMember(p: PoolView, loc: Location, b: seq<byte>, off: nat): Parsed<Member> {
    match ReadTwos(b, off, 3)
    case Fail => Fail
    case Got(v, next) =>
      if |v| != 3 || Str(p, v[1]).None? || Str(p, v[2]).None? then Fail
      else match Counted((b, o) => ReadAttr(p, loc, b, o), b, next)
        case Fail => Fail
        case Got(attrs, end) => Got(Member(v[0], Str(p, v[1]).value, Str(p, v[2]).value, attrs), end)
  }

  const ACC_MODULE := 0x8000

  function ReadRest(p: PoolView, minor: nat, off: nat): Parsed<ClassInfo> {
    var b := p.src;
    match ReadTwos(b, off, 3)
    case Fail => Fail
    case Got(v, o1) =>
      if |v| != 3 || ClassName(p, v[1]).None? || OptClassName(p, v[2]).None? then Fail
      else if v[2] == 0 && ClassName(p, v[1]).value != OBJECT && (v[0] / ACC_MODULE) % 2 == 0 then Fail
      else match Counted((b, o) => ReadName(p, b, o), b, o1)
        case Fail => Fail
        case Got(ifaces, o2) =>
          match Counted((b, o) => ReadMember(p, AtField, b, o), b, o2)
          case Fail => Fail
          case Got(fields, o3) =>
            match Counted((b, o) => ReadMember(p, AtMethod, b, o), b, o3)
            case Fail => Fail
            case Got(methods, o4) =>
              match Counted((b, o) => ReadAttr(p, AtClass, b, o), b, o4)
              case Fail => Fail
              case Got(attrs, next) =>
                Got(ClassInfo(minor, v[0], ClassName(p, v[1]).value, OptClassName(p, v[2]).value, ifaces, fields, methods, attrs), next)
  }

  /** A version 49 file, read to its exact end. */
  function ReadClass(c: Codec, b: seq<byte>): Option<ClassInfo> {
    match ReadFour(b, 0)
    case Fail => None
    case Got(magic, o1) =>
      match ReadTwos(b, o1, 2)
      case Fail => None
      case Got(v, o2) =>
        if magic != MAGIC || |v| != 2 || v[1] != MAJOR || v[0] == 65535 then None
        else match ReadPool(b, o2, v[1])
          case None => None
          case Some(es) => Exactly(ReadRest(PoolView(c, b, es.0), v[0], es.1), b)
  }
}
