/** The signature parser: one position and one sticky error, stepped through the string. */
module SignatureParser {
  import opened Signature

  /** Stands for the tree left behind when an error is pending. */
  const NIL := Base(' ')

  /** What was read, or nothing once an error is pending. */
  function Result<T>(t: T, err: Option<string>, i: nat): Parsed<T> { if err.None? then Got(t, i) else Fail }

  function Before<T>(xs: seq<T>, r: Parsed<seq<T>>): Parsed<seq<T>> {
    match r
    case Fail => Fail
    case Got(ys, n) => Got(xs + ys, n)
  }

  /** A class type after its leading letter. */
  function ClassTail(s: string, i: nat): Parsed<Type>
    requires i <= |s|
  {
    match ReadNamed(s, i)
    case Fail => Fail
    case Got(c, n) => if At(s, n, ';') then Got(Class(c.name, c.args, c.rest), n + 1) else Fail
  }

  class Parser {
    const s: string
    var i: nat
    var err: Option<string>

    constructor (s: string)
      ensures this.s == s && i == 0 && err.None?
    {
      this.s, this.i, this.err := s, 0, None;
    }

    /** The first error is kept. */
    method Fail(msg: string)
      modifies this`err
      ensures err.Some? && (old(err).Some? ==> err == old(err))
    {
      if err.None? { err := Some(msg); }
    }

    predicate Done()
      reads this
    {
      i >= |s|
    }

    predicate Looking(c: char)
      reads this
    {
      i < |s| && s[i] == c
    }

    method Next()
      requires i <= |s|
      modifies this
      ensures old(i) <= i <= |s| && (old(err).Some? ==> err == old(err))
      ensures if old(i) < |s| then i == old(i) + 1 && err == old(err) else err.Some?
    {
      if Done() {
        Fail("unexpected end");
      } else {
        i := i + 1;
      }
    }

    method Eat(c: char) returns (ok: bool)
      requires i <= |s|
      modifies this
      ensures old(i) <= i <= |s| && (old(err).Some? ==> err == old(err))
      ensures ok == At(s, old(i), c)
      ensures if ok then i == old(i) + 1 && err == old(err) else i == old(i) && err.Some?
    {
      if Looking(c) {
        i := i + 1;
        return true;
      }
      Fail("expected " + [c]);
      ok := false;
    }

    /** Everything up to a stop character or the end. */
    method Ident(stops: string) returns (name: string)
      requires i <= |s|
      modifies this`i
      ensures old(i) <= i == IdentEnd(s, old(i), stops) <= |s| && name == s[old(i)..i]
    {
      var start := i;
      while i < |s| && s[i] !in stops
        invariant start <= i <= |s| && IdentEnd(s, start, stops) == IdentEnd(s, i, stops)
      {
        i := i + 1;
      }
      name := s[start..i];
    }

    method ReferenceType() returns (t: Type)
      requires i <= |s|
      modifies this
      ensures old(i) <= i <= |s| && (old(err).Some? ==> err == old(err))
      ensures old(err).None? ==> ReadRef(s, old(i)) == Result(t, err, i)
      decreases |s| - i, 1
    {
      hide ReadJava, ReadNamed, IdentEnd;
      if Done() {
        Fail("unexpected end");
        return NIL;
      }
      if s[i] == '[' {
        i := i + 1;
        t := JavaType();
        t := Array(t);
      } else if s[i] == 'T' {
        i := i + 1;
        var name := Ident(";");
        var ok := Eat(';');
        if !ok { return NIL; }
        t := Var(name);
      } else if s[i] == 'L' {
        i := i + 1;
        t := ClassType();
      } else {
        Fail("not a reference type signature");
        t := NIL;
      }
    }

    method JavaType() returns (t: Type)
      requires i <= |s|
      modifies this
      ensures old(i) <= i <= |s| && (old(err).Some? ==> err == old(err))
      ensures old(err).None? ==> ReadJava(s, old(i)) == Result(t, err, i)
      decreases |s| - i, 2
    {
      hide ReadRef;
      if Done() {
        assert ReadRef(s, i) == Signature.Fail by { RefAtEnd(s); }
        Fail("unexpected end");
        return NIL;
      }
      if IsBase(s[i]) {
        t := Base(s[i]);
        i := i + 1;
        return;
      }
      t := ReferenceType();
    }

    method ClassType() returns (t: Type)
      requires i <= |s|
      modifies this
      ensures old(i) <= i <= |s| && (old(err).Some? ==> err == old(err))
      ensures old(err).None? ==> ClassTail(s, old(i)) == Result(t, err, i)
      decreases |s| - i, 5
    {
      hide IdentEnd, ReadGroup, ReadSuffixes;
      ghost var start := i;
      var name := Ident(NAME_STOPS);
      if name == "" {
        Fail("empty class name");
        return NIL;
      }
      var args := TypeArgs();
      var suffix: seq<Suffix> := [];
      ghost var all := if err.None? then ReadSuffixes(s, i) else Signature.Fail;
      NoneRead(all);
      while Looking('.') && err.None?
        invariant start < i <= |s| && (old(err).Some? ==> err == old(err))
        invariant old(err).None? ==> all == if err.None? then Before(suffix, ReadSuffixes(s, i)) else Signature.Fail
        invariant err.Some? && old(err).None? ==> ReadNamed(s, start) == Signature.Fail
        decreases |s| - i
      {
        SuffixStep(s, suffix, i);
        Next();
        var inner := Ident(NAME_STOPS);
        if inner == "" {
          Fail("empty nested class name");
          return NIL;
        }
        var more := TypeArgs();
        suffix := suffix + [Suffix(inner, more)];
      }
      if err.None? { NoSuffix(s, suffix, i); }
      var ok := Eat(';');
      if !ok { return NIL; }
      t := Class(name, args, suffix);
    }

    method TypeArgs() returns (out: seq<Arg>)
      requires i <= |s|
      modifies this
      ensures old(i) <= i <= |s| && (old(err).Some? ==> err == old(err))
      ensures old(err).None? ==> ReadGroup(s, old(i)) == Result(out, err, i)
      decreases |s| - i, 0
    {
      hide ReadArg, ReadArgs;
      if !Looking('<') { return []; }
      Next();
      out := [];
      ghost var all := ReadArgs(s, i);
      NoneRead(all);
      while !Looking('>') && err.None? && !Done()
        invariant old(i) < i <= |s| && (old(err).Some? ==> err == old(err))
        invariant old(err).None? ==> all == if err.None? then Before(out, ReadArgs(s, i)) else Signature.Fail
        decreases |s| - i, if err.None? then 1 else 0
      {
        ArgStep(s, out, i);
        var a := TypeArg();
        out := out + [a];
      }
      if err.None? { ArgsEnd(s, out, i); }
      var ok := Eat('>');
    }

    method TypeArg() returns (a: Arg)
      requires i <= |s|
      modifies this
      ensures old(i) <= i <= |s| && (old(err).Some? ==> err == old(err))
      ensures old(err).None? ==> ReadArg(s, old(i)) == Result(a, err, i)
      decreases |s| - i, 3
    {
      hide ReadRef;
      if Looking('*') {
        Next();
        return Any;
      }
      if Looking('+') {
        Next();
        var t := ReferenceType();
        return Extends(t);
      }
      if Looking('-') {
        Next();
        var t := ReferenceType();
        return Super(t);
      }
      var t := ReferenceType();
      a := Plain(t);
    }

    method TypeParams() returns (out: seq<Param>)
      requires i <= |s|
      modifies this
      ensures old(i) <= i <= |s| && (old(err).Some? ==> err == old(err))
      ensures old(err).None? ==> ReadParamGroup(s, old(i)) == Result(out, err, i)
    {
      hide ReadParam, ReadParams;
      if !Looking('<') { return []; }
      Next();
      out := [];
      ghost var all := ReadParams(s, i);
      NoneRead(all);
      while !Looking('>') && err.None? && !Done()
        invariant old(i) < i <= |s| && (old(err).Some? ==> err == old(err))
        invariant old(err).None? ==> all == if err.None? then Before(out, ReadParams(s, i)) else Signature.Fail
        decreases |s| - i, if err.None? then 1 else 0
      {
        ParamStep(s, out, i);
        var p := TypeParam();
        out := out + [p];
      }
      if err.None? { ParamsEnd(s, out, i); }
      var ok := Eat('>');
    }

    method TypeParam() returns (p: Param)
      requires i <= |s|
      modifies this
      ensures old(i) <= i <= |s| && (old(err).Some? ==> err == old(err))
      ensures old(err).None? ==> ReadParam(s, old(i)) == Result(p, err, i)
    {
      hide ReadRef, IdentEnd, ReadColons;
      IdentIs(s, i, ":");
      var name := Ident(":");
      p := Param(name, []);
      if name == "" {
        Fail("empty type parameter name");
        return;
      }
      var ok := Eat(':');
      if !ok { return; }
      ghost var b := i;
      var bounds: seq<Type> := [];
      if !Looking(':') && !Looking('>') && !Done() {
        var t := ReferenceType();
        bounds := [t];
      }
      ghost var all := if err.None? then Before(bounds, ReadColons(s, i)) else Signature.Fail;
      assert old(err).None? ==> all == ReadBounds(s, b) by { if err.None? { NoneRead(ReadColons(s, i)); } }
      while Looking(':') && err.None?
        invariant b <= i <= |s| && (old(err).Some? ==> err == old(err))
        invariant old(err).None? ==> all == if err.None? then Before(bounds, ReadColons(s, i)) else Signature.Fail
        decreases |s| - i
      {
        ColonStep(s, bounds, i);
        Next();
        var t := ReferenceType();
        bounds := bounds + [t];
      }
      if err.None? { NoColon(s, bounds, i); }
      p := Param(name, bounds);
    }
  }

  // ---- entry points -------------------------------------------------------

  method ParseFieldSignature(s: string) returns (r: Option<Type>)
    ensures r == ReadField(s)
  {
    if s == "" {
      RefAtEnd(s);
      return None;
    }
    var p := new Parser(s);
    var t := p.ReferenceType();
    if p.err.Some? || !p.Done() { return None; }
    r := Some(t);
  }

  method ParseClassSignature(s: string) returns (r: Option<ClassSig>)
    ensures r == ReadClass(s)
  {
    hide ReadRef, ReadParamGroup, ReadRefs;
    if s == "" {
      EmptyRefused();
      return None;
    }
    var p := new Parser(s);
    var params := p.TypeParams();
    var super := p.ReferenceType();
    var ifaces: seq<Type> := [];
    ghost var k := p.i;
    ghost var all := if p.err.None? then ReadRefs(s, k) else None;
    ThenNone(all);
    while !p.Done() && p.err.None?
      invariant p.i <= |s| && k <= p.i
      invariant p.err.None? ==> all == Then(ifaces, ReadRefs(s, p.i))
      invariant p.err.Some? ==> all.None?
      decreases |s| - p.i, if p.err.None? then 1 else 0
    {
      RefsStep(s, ifaces, p.i);
      var t := p.ReferenceType();
      ifaces := ifaces + [t];
    }
    if p.err.Some? || !p.Done() { return None; }
    RefsEnd(s, ifaces);
    r := Some(ClassSig(params, super, ifaces));
  }

  method ParseMethodSignature(s: string) returns (r: Option<MethodSig>)
    ensures r == ReadMethod(s)
  {
    hide ReadRef, ReadJava, ReadParamGroup, ReadJavas, ReadThrows;
    if s == "" {
      EmptyRefused();
      return None;
    }
    var p := new Parser(s);
    var params := p.TypeParams();
    var ok := p.Eat('(');
    if !ok { return None; }
    var args: seq<Type> := [];
    ghost var open := if p.err.None? then ReadJavas(s, p.i) else Fail;
    NoneRead(open);
    while !p.Looking(')') && p.err.None? && !p.Done()
      invariant p.i <= |s|
      invariant open == if p.err.None? then Before(args, ReadJavas(s, p.i)) else Fail
      decreases |s| - p.i, if p.err.None? then 1 else 0
    {
      JavasStep(s, args, p.i);
      var t := p.JavaType();
      args := args + [t];
    }
    if p.err.None? { JavasEnd(s, args, p.i); }
    ok := p.Eat(')');
    if !ok { return None; }
    assert open == if p.err.None? then Got(args, p.i) else Fail;
    var result := p.JavaType();
    var throws: seq<Type> := [];
    ghost var all := if p.err.None? then ReadThrows(s, p.i) else None;
    ThenNone(all);
    while p.Looking('^') && p.err.None?
      invariant p.i <= |s|
      invariant p.err.None? ==> all == Then(throws, ReadThrows(s, p.i))
      invariant p.err.Some? ==> all.None?
      decreases |s| - p.i
    {
      ThrowsStep(s, throws, p.i);
      p.Next();
      var t := p.ReferenceType();
      throws := throws + [t];
    }
    if p.err.None? { ThrowsEnd(s, throws, p.i); }
    if p.err.Some? || !p.Done() { return None; }
    r := Some(MethodSig(params, args, result, throws));
  }

  // ---- steps --------------------------------------------------------------

  lemma NoneRead<T>(m: Parsed<seq<T>>)
    ensures Before([], m) == m
  {
    if m.Got? { assert [] + m.v == m.v; }
  }

  lemma RefAtEnd(s: string)
    ensures ReadRef(s, |s|) == Fail
  {
  }

  lemma Moves<T>(xs: seq<T>, x: T, r: Parsed<seq<T>>)
    ensures Before(xs, match r case Fail => Fail case Got(ys, n) => Got([x] + ys, n)) == Before(xs + [x], r)
  {
    if r.Got? { assert xs + ([x] + r.v) == xs + [x] + r.v; }
  }

  lemma ArgStep(s: string, xs: seq<Arg>, i: nat)
    requires i < |s| && s[i] != '>'
    ensures Before(xs, ReadArgs(s, i)) == match ReadArg(s, i) case Fail => Fail case Got(a, m) => Before(xs + [a], ReadArgs(s, m))
  {
    hide ReadArg;
    match ReadArg(s, i)
    case Fail =>
    case Got(a, m) => Moves(xs, a, ReadArgs(s, m));
  }

  lemma ArgsEnd(s: string, xs: seq<Arg>, i: nat)
    requires i <= |s| && (i < |s| ==> s[i] == '>')
    ensures Before(xs, ReadArgs(s, i)) == if i < |s| then Got(xs, i + 1) else Fail
  {
    if i < |s| { assert xs + [] == xs; } else { RefAtEnd(s); }
  }

  lemma SuffixStep(s: string, xs: seq<Suffix>, i: nat)
    requires At(s, i, '.')
    ensures var e := IdentEnd(s, i + 1, NAME_STOPS);
            Before(xs, ReadSuffixes(s, i)) ==
            if e == i + 1 then Fail
            else match ReadGroup(s, e)
              case Fail => Fail
              case Got(args, m) => Before(xs + [Suffix(s[i + 1..e], args)], ReadSuffixes(s, m))
  {
    hide IdentEnd, ReadGroup;
    var e := IdentEnd(s, i + 1, NAME_STOPS);
    if e != i + 1 && ReadGroup(s, e).Got? {
      var g := ReadGroup(s, e);
      Moves(xs, Suffix(s[i + 1..e], g.v), ReadSuffixes(s, g.next));
    }
  }

  lemma NoSuffix(s: string, xs: seq<Suffix>, i: nat)
    requires i <= |s| && !At(s, i, '.')
    ensures Before(xs, ReadSuffixes(s, i)) == Got(xs, i)
  {
    assert xs + [] == xs;
  }

  lemma ParamStep(s: string, xs: seq<Param>, i: nat)
    requires i < |s| && s[i] != '>'
    ensures Before(xs, ReadParams(s, i)) == match ReadParam(s, i) case Fail => Fail case Got(p, m) => Before(xs + [p], ReadParams(s, m))
  {
    hide ReadParam;
    match ReadParam(s, i)
    case Fail =>
    case Got(p, m) => Moves(xs, p, ReadParams(s, m));
  }

  lemma ParamsEnd(s: string, xs: seq<Param>, i: nat)
    requires i <= |s| && (i < |s| ==> s[i] == '>')
    ensures Before(xs, ReadParams(s, i)) == if i < |s| then Got(xs, i + 1) else Fail
  {
    if i < |s| { assert xs + [] == xs; } else { NothingAtEnd(s); }
  }

  lemma ColonStep(s: string, xs: seq<Type>, i: nat)
    requires At(s, i, ':')
    ensures Before(xs, ReadColons(s, i)) == match ReadRef(s, i + 1) case Fail => Fail case Got(t, m) => Before(xs + [t], ReadColons(s, m))
  {
    hide ReadRef;
    match ReadRef(s, i + 1)
    case Fail =>
    case Got(t, m) => Moves(xs, t, ReadColons(s, m));
  }

  lemma NoColon(s: string, xs: seq<Type>, i: nat)
    requires i <= |s| && !At(s, i, ':')
    ensures Before(xs, ReadColons(s, i)) == Got(xs, i)
  {
    assert xs + [] == xs;
  }

  function Then<T>(xs: seq<T>, r: Option<seq<T>>): Option<seq<T>> {
    match r
    case None => None
    case Some(ys) => Some(xs + ys)
  }

  lemma ThenNone<T>(r: Option<seq<T>>)
    ensures Then([], r) == r
  {
    if r.Some? { assert [] + r.value == r.value; }
  }

  lemma EmptyRefused()
    ensures ReadClass("") == None && ReadMethod("") == None
  {
  }

  lemma RefsStep(s: string, xs: seq<Type>, i: nat)
    requires i < |s|
    ensures Then(xs, ReadRefs(s, i)) == match ReadRef(s, i) case Fail => None case Got(t, n) => Then(xs + [t], ReadRefs(s, n))
  {
    hide ReadRef;
    if ReadRef(s, i).Got? {
      var r := ReadRef(s, i);
      if ReadRefs(s, r.next).Some? { assert xs + ([r.v] + ReadRefs(s, r.next).value) == xs + [r.v] + ReadRefs(s, r.next).value; }
    }
  }

  lemma RefsEnd(s: string, xs: seq<Type>)
    ensures Then(xs, ReadRefs(s, |s|)) == Some(xs)
  {
    assert xs + [] == xs;
  }

  lemma JavasStep(s: string, xs: seq<Type>, i: nat)
    requires i < |s| && s[i] != ')'
    ensures Before(xs, ReadJavas(s, i)) == match ReadJava(s, i) case Fail => Fail case Got(t, m) => Before(xs + [t], ReadJavas(s, m))
  {
    hide ReadJava;
    match ReadJava(s, i)
    case Fail =>
    case Got(t, m) => Moves(xs, t, ReadJavas(s, m));
  }

  lemma JavasEnd(s: string, xs: seq<Type>, i: nat)
    requires i <= |s| && (i < |s| ==> s[i] == ')')
    ensures Before(xs, ReadJavas(s, i)) == if i < |s| then Got(xs, i + 1) else Fail
  {
    if i < |s| { assert xs + [] == xs; } else { RefAtEnd(s); }
  }

  lemma ThrowsStep(s: string, xs: seq<Type>, i: nat)
    requires At(s, i, '^')
    ensures Then(xs, ReadThrows(s, i)) == match ReadRef(s, i + 1) case Fail => None case Got(t, n) => Then(xs + [t], ReadThrows(s, n))
  {
    hide ReadRef;
    if ReadRef(s, i + 1).Got? {
      var r := ReadRef(s, i + 1);
      if ReadThrows(s, r.next).Some? { assert xs + ([r.v] + ReadThrows(s, r.next).value) == xs + [r.v] + ReadThrows(s, r.next).value; }
    }
  }

  lemma ThrowsEnd(s: string, xs: seq<Type>, i: nat)
    requires i <= |s| && !At(s, i, '^')
    ensures Then(xs, ReadThrows(s, i)) == if i == |s| then Some(xs) else None
  {
    if i == |s| { assert xs + [] == xs; }
  }
}
