/** Generic signatures: the grammar as windows of a string, the parser that steps through one, and their exact agreement. */
module Signature {

  datatype Type =
    | Base(ch: char)
    | Array(elem: Type)
    | Var(name: string)
    | Class(name: string, args: seq<Arg>, suffix: seq<Suffix>)

  datatype Arg = Any | Extends(t: Type) | Super(t: Type) | Plain(t: Type)

  datatype Suffix = Suffix(name: string, args: seq<Arg>)

  /** A type parameter; a class bound and interface bounds are one list. */
  datatype Param = Param(name: string, bounds: seq<Type>)

  datatype ClassSig = ClassSig(params: seq<Param>, super: Type, ifaces: seq<Type>)

  datatype MethodSig = MethodSig(params: seq<Param>, args: seq<Type>, result: Type, throws: seq<Type>)

  datatype Option<T> = None | Some(value: T)

  /** Void is among them: it is accepted wherever a base type is. */
  predicate IsBase(c: char) { c in "BCDFIJSZV" }

  const NAME_STOPS := "<.;"

  // ---- the language: s[i..n] spells a tree --------------------------------

  predicate Name(s: string, i: nat, n: nat, name: string, stops: string) {
    i <= n <= |s| && s[i..n] == name && forall k :: i <= k < n ==> s[k] !in stops
  }

  ghost predicate Ref(t: Type, s: string, i: nat, n: nat)
    decreases n - i, 1
  {
    && i < n <= |s|
    && match t
       case Base(_) => false
       case Array(e) => s[i] == '[' && Java(e, s, i + 1, n)
       case Var(name) => i + 2 <= n && s[i] == 'T' && Name(s, i + 1, n - 1, name, ";") && s[n - 1] == ';'
       case Class(name, args, suffix) => s[i] == 'L' && i + 3 <= n && s[n - 1] == ';' && Named(name, args, suffix, s, i + 1, n - 1)
  }

  /** A name, its arguments and its suffixes. */
  ghost predicate Named(name: string, args: seq<Arg>, suffix: seq<Suffix>, s: string, i: nat, n: nat)
    decreases n - i, 5
  {
    exists k, m | i < k <= m <= n :: Name(s, i, k, name, NAME_STOPS) && Group(args, s, k, m) && Suffixes(suffix, s, m, n)
  }

  ghost predicate Java(t: Type, s: string, i: nat, n: nat)
    decreases n - i, 2
  {
    i < n <= |s| && if t.Base? then i + 1 == n && s[i] == t.ch && IsBase(t.ch) else Ref(t, s, i, n)
  }

  /** An angle-bracketed list; an empty one may be left out. */
  ghost predicate Group(args: seq<Arg>, s: string, i: nat, n: nat)
    decreases n - i, 0
  {
    || (args == [] && i == n)
    || (i + 2 <= n <= |s| && s[i] == '<' && s[n - 1] == '>' && Args(args, s, i + 1, n - 1))
  }

  ghost predicate Args(args: seq<Arg>, s: string, i: nat, n: nat)
    decreases n - i, 4
  {
    if args == [] then i == n
    else exists k | i < k <= n :: OneArg(args[0], s, i, k) && Args(args[1..], s, k, n)
  }

  ghost predicate OneArg(a: Arg, s: string, i: nat, n: nat)
    decreases n - i, 3
  {
    && i < n <= |s|
    && match a
       case Any => s[i] == '*' && i + 1 == n
       case Extends(t) => s[i] == '+' && Ref(t, s, i + 1, n)
       case Super(t) => s[i] == '-' && Ref(t, s, i + 1, n)
       case Plain(t) => Ref(t, s, i, n)
  }

  ghost predicate Suffixes(ss: seq<Suffix>, s: string, i: nat, n: nat)
    decreases n - i, 4
  {
    if ss == [] then i == n
    else
      i < n <= |s| && s[i] == '.' && Named(ss[0].name, ss[0].args, ss[1..], s, i + 1, n)
  }

  /** Bounds after the first colon: the first may follow it at once, each other has its own. */
  ghost predicate Bounds(bs: seq<Type>, s: string, i: nat, n: nat) {
    || Colons(bs, s, i, n)
    || (bs != [] && exists k | i < k <= n :: Ref(bs[0], s, i, k) && Colons(bs[1..], s, k, n))
  }

  ghost predicate Colons(bs: seq<Type>, s: string, i: nat, n: nat)
    decreases |bs|
  {
    if bs == [] then i == n
    else i < n <= |s| && s[i] == ':' && var j := i + 1; exists k | j < k <= n :: Ref(bs[0], s, j, k) && Colons(bs[1..], s, k, n)
  }

  ghost predicate OneParam(p: Param, s: string, i: nat, n: nat) {
    && p.name != "" && i + |p.name| < n <= |s| && s[i] != '>'
    && Name(s, i, i + |p.name|, p.name, ":") && s[i + |p.name|] == ':' && Bounds(p.bounds, s, i + |p.name| + 1, n)
  }

  ghost predicate Params(ps: seq<Param>, s: string, i: nat, n: nat)
    decreases |ps|
  {
    if ps == [] then i == n else exists k | i < k <= n :: OneParam(ps[0], s, i, k) && Params(ps[1..], s, k, n)
  }

  /** Every parameter but the last has a bound. */
  predicate Bounded(ps: seq<Param>) { forall k :: 0 <= k < |ps| - 1 ==> ps[k].bounds != [] }

  ghost predicate ParamGroup(ps: seq<Param>, s: string, i: nat, n: nat) {
    || (ps == [] && i == n)
    || (i + 2 <= n <= |s| && s[i] == '<' && s[n - 1] == '>' && Params(ps, s, i + 1, n - 1))
  }

  ghost predicate Refs(ts: seq<Type>, s: string, i: nat, n: nat)
    decreases |ts|
  {
    if ts == [] then i == n else exists k | i < k <= n :: Ref(ts[0], s, i, k) && Refs(ts[1..], s, k, n)
  }

  ghost predicate Javas(ts: seq<Type>, s: string, i: nat, n: nat)
    decreases |ts|
  {
    if ts == [] then i == n else exists k | i < k <= n :: Java(ts[0], s, i, k) && Javas(ts[1..], s, k, n)
  }

  ghost predicate Throws(ts: seq<Type>, s: string, i: nat, n: nat)
    decreases |ts|
  {
    if ts == [] then i == n
    else i < n <= |s| && s[i] == '^' && var j := i + 1; exists k | j < k <= n :: Ref(ts[0], s, j, k) && Throws(ts[1..], s, k, n)
  }

  ghost predicate ClassSpelled(c: ClassSig, s: string) {
    exists k, m | 0 <= k < m <= |s| :: ParamGroup(c.params, s, 0, k) && Ref(c.super, s, k, m) && Refs(c.ifaces, s, m, |s|)
  }

  ghost predicate MethodSpelled(m: MethodSig, s: string) {
    exists k, a | 0 <= k < a < |s| ::
      && ParamGroup(m.params, s, 0, k) && s[k] == '(' && Javas(m.args, s, k + 1, a) && s[a] == ')'
      && exists r | a + 1 < r <= |s| :: Java(m.result, s, a + 1, r) && Throws(m.throws, s, r, |s|)
  }

  // ---- the parser as a function -------------------------------------------

  datatype Parsed<T> = Fail | Got(v: T, next: nat)

  function IdentEnd(s: string, i: nat, stops: string): (n: nat)
    requires i <= |s|
    ensures i <= n <= |s|
    decreases |s| - i
  {
    if i == |s| || s[i] in stops then i else IdentEnd(s, i + 1, stops)
  }

  function At(s: string, i: nat, c: char): bool { i < |s| && s[i] == c }

  function ReadRef(s: string, i: nat): (r: Parsed<Type>)
    requires i <= |s|
    ensures r.Got? ==> i < r.next <= |s|
    decreases |s| - i, 1
  {
    if At(s, i, '[') then
      (match ReadJava(s, i + 1) case Fail => Fail case Got(e, n) => Got(Array(e), n))
    else if At(s, i, 'T') then
      var e := IdentEnd(s, i + 1, ";");
      if At(s, e, ';') then Got(Var(s[i + 1..e]), e + 1) else Fail
    else if At(s, i, 'L') then
      (match ReadNamed(s, i + 1)
       case Fail => Fail
       case Got(c, n) => if At(s, n, ';') then Got(Class(c.name, c.args, c.rest), n + 1) else Fail)
    else Fail
  }

  function ReadJava(s: string, i: nat): (r: Parsed<Type>)
    requires i <= |s|
    ensures r.Got? ==> i < r.next <= |s|
    decreases |s| - i, 2
  {
    if i < |s| && IsBase(s[i]) then Got(Base(s[i]), i + 1) else ReadRef(s, i)
  }

  function ReadGroup(s: string, i: nat): (r: Parsed<seq<Arg>>)
    requires i <= |s|
    ensures r.Got? ==> i <= r.next <= |s|
    decreases |s| - i, 0
  {
    if At(s, i, '<') then ReadArgs(s, i + 1) else Got([], i)
  }

  /** Up to and over the closing bracket. */
  function ReadArgs(s: string, i: nat): (r: Parsed<seq<Arg>>)
    requires i <= |s|
    ensures r.Got? ==> i < r.next <= |s|
    decreases |s| - i, 4
  {
    if At(s, i, '>') then Got([], i + 1)
    else match ReadArg(s, i)
      case Fail => Fail
      case Got(a, m) => match ReadArgs(s, m) case Fail => Fail case Got(as', n) => Got([a] + as', n)
  }

  function ReadArg(s: string, i: nat): (r: Parsed<Arg>)
    requires i <= |s|
    ensures r.Got? ==> i < r.next <= |s|
    decreases |s| - i, 3
  {
    if At(s, i, '*') then Got(Any, i + 1)
    else if At(s, i, '+') then (match ReadRef(s, i + 1) case Fail => Fail case Got(t, n) => Got(Extends(t), n))
    else if At(s, i, '-') then (match ReadRef(s, i + 1) case Fail => Fail case Got(t, n) => Got(Super(t), n))
    else match ReadRef(s, i) case Fail => Fail case Got(t, n) => Got(Plain(t), n)
  }

  function ReadSuffixes(s: string, i: nat): (r: Parsed<seq<Suffix>>)
    requires i <= |s|
    ensures r.Got? ==> i <= r.next <= |s|
    decreases |s| - i, 4
  {
    if !At(s, i, '.') then Got([], i)
    else match ReadNamed(s, i + 1)
      case Fail => Fail
      case Got(c, n) => Got([Suffix(c.name, c.args)] + c.rest, n)
  }

  datatype Parts = Parts(name: string, args: seq<Arg>, rest: seq<Suffix>)

  function ReadNamed(s: string, i: nat): (r: Parsed<Parts>)
    requires i <= |s|
    ensures r.Got? ==> i < r.next <= |s|
    decreases |s| - i, 5
  {
    var e := IdentEnd(s, i, NAME_STOPS);
    if e == i then Fail
    else match ReadGroup(s, e)
      case Fail => Fail
      case Got(args, m) =>
        match ReadSuffixes(s, m)
        case Fail => Fail
        case Got(rest, n) => Got(Parts(s[i..e], args, rest), n)
  }

  function ReadColons(s: string, i: nat): (r: Parsed<seq<Type>>)
    requires i <= |s|
    ensures r.Got? ==> i <= r.next <= |s|
    decreases |s| - i
  {
    if !At(s, i, ':') then Got([], i)
    else match ReadRef(s, i + 1)
      case Fail => Fail
      case Got(t, m) => match ReadColons(s, m) case Fail => Fail case Got(ts, n) => Got([t] + ts, n)
  }

  function ReadBounds(s: string, i: nat): (r: Parsed<seq<Type>>)
    requires i <= |s|
    ensures r.Got? ==> i <= r.next <= |s|
  {
    if i == |s| || s[i] == ':' || s[i] == '>' then ReadColons(s, i)
    else match ReadRef(s, i)
      case Fail => Fail
      case Got(t, m) => match ReadColons(s, m) case Fail => Fail case Got(ts, n) => Got([t] + ts, n)
  }

  function ReadParam(s: string, i: nat): (r: Parsed<Param>)
    requires i <= |s|
    ensures r.Got? ==> i < r.next <= |s|
  {
    var e := IdentEnd(s, i, ":");
    if e == i || e == |s| then Fail
    else match ReadBounds(s, e + 1) case Fail => Fail case Got(bs, n) => Got(Param(s[i..e], bs), n)
  }

  function ReadParams(s: string, i: nat): (r: Parsed<seq<Param>>)
    requires i <= |s|
    ensures r.Got? ==> i < r.next <= |s|
    decreases |s| - i
  {
    if At(s, i, '>') then Got([], i + 1)
    else match ReadParam(s, i)
      case Fail => Fail
      case Got(p, m) => match ReadParams(s, m) case Fail => Fail case Got(ps, n) => Got([p] + ps, n)
  }

  function ReadParamGroup(s: string, i: nat): (r: Parsed<seq<Param>>)
    requires i <= |s|
    ensures r.Got? ==> i <= r.next <= |s|
  {
    if At(s, i, '<') then ReadParams(s, i + 1) else Got([], i)
  }

  /** Reference types to the end of the string. */
  function ReadRefs(s: string, i: nat): Option<seq<Type>>
    requires i <= |s|
    decreases |s| - i
  {
    if i == |s| then Some([])
    else match ReadRef(s, i)
      case Fail => None
      case Got(t, n) => match ReadRefs(s, n) case None => None case Some(ts) => Some([t] + ts)
  }

  /** Up to and over the closing parenthesis. */
  function ReadJavas(s: string, i: nat): (r: Parsed<seq<Type>>)
    requires i <= |s|
    ensures r.Got? ==> i < r.next <= |s|
    decreases |s| - i
  {
    if At(s, i, ')') then Got([], i + 1)
    else match ReadJava(s, i)
      case Fail => Fail
      case Got(t, m) => match ReadJavas(s, m) case Fail => Fail case Got(ts, n) => Got([t] + ts, n)
  }

  /** Throws clauses to the end of the string. */
  function ReadThrows(s: string, i: nat): Option<seq<Type>>
    requires i <= |s|
    decreases |s| - i
  {
    if i == |s| then Some([])
    else if s[i] != '^' then None
    else match ReadRef(s, i + 1)
      case Fail => None
      case Got(t, n) => match ReadThrows(s, n) case None => None case Some(ts) => Some([t] + ts)
  }

  function ReadField(s: string): Option<Type> {
    match ReadRef(s, 0) case Fail => None case Got(t, n) => if n == |s| then Some(t) else None
  }

  function ReadClass(s: string): Option<ClassSig> {
    match ReadParamGroup(s, 0)
    case Fail => None
    case Got(ps, k) =>
      match ReadRef(s, k)
      case Fail => None
      case Got(t, m) => match ReadRefs(s, m) case None => None case Some(ts) => Some(ClassSig(ps, t, ts))
  }

  function ReadMethod(s: string): Option<MethodSig> {
    match ReadParamGroup(s, 0)
    case Fail => None
    case Got(ps, k) =>
      if !At(s, k, '(') then None
      else match ReadJavas(s, k + 1)
        case Fail => None
        case Got(as', a) =>
          match ReadJava(s, a)
          case Fail => None
          case Got(t, r) => match ReadThrows(s, r) case None => None case Some(ts) => Some(MethodSig(ps, as', t, ts))
  }

  // ---- what the parser reads is spelled there -----------------------------

  lemma {:induction false} IdentIs(s: string, i: nat, stops: string)
    requires i <= |s|
    ensures var e := IdentEnd(s, i, stops);
            Name(s, i, e, s[i..e], stops) && (e < |s| ==> s[e] in stops)
    decreases |s| - i
  {
    if i < |s| && s[i] !in stops { IdentIs(s, i + 1, stops); }
  }

  lemma {:induction false} IdentEnds(s: string, i: nat, n: nat, name: string, stops: string)
    requires Name(s, i, n, name, stops) && (n < |s| ==> s[n] in stops)
    ensures IdentEnd(s, i, stops) == n
    decreases n - i
  {
    if i < n { IdentEnds(s, i + 1, n, name[1..], stops); }
  }

  lemma {:induction false} RefSound(s: string, i: nat)
    requires i <= |s|
    ensures var r := ReadRef(s, i); r.Got? ==> Ref(r.v, s, i, r.next)
    decreases |s| - i, 1
  {
    var r := ReadRef(s, i);
    if r.Fail? {
    } else if At(s, i, '[') {
      JavaSound(s, i + 1);
    } else if At(s, i, 'T') {
      IdentIs(s, i + 1, ";");
    } else {
      NamedSound(s, i + 1);
    }
  }

  lemma {:induction false} NamedSound(s: string, i: nat)
    requires i <= |s|
    ensures var r := ReadNamed(s, i); r.Got? ==> Named(r.v.name, r.v.args, r.v.rest, s, i, r.next)
    decreases |s| - i, 5
  {
    hide IdentEnd, ReadGroup, ReadSuffixes, Group, Suffixes;
    if ReadNamed(s, i).Got? {
      var e := IdentEnd(s, i, NAME_STOPS);
      IdentIs(s, i, NAME_STOPS);
      GroupSound(s, e);
      SuffixesSound(s, ReadGroup(s, e).next);
    }
  }

  lemma {:induction false} JavaSound(s: string, i: nat)
    requires i <= |s|
    ensures var r := ReadJava(s, i); r.Got? ==> Java(r.v, s, i, r.next)
    decreases |s| - i, 2
  {
    if !(i < |s| && IsBase(s[i])) { RefSound(s, i); }
  }

  lemma {:induction false} GroupSound(s: string, i: nat)
    requires i <= |s|
    ensures var r := ReadGroup(s, i); r.Got? ==> Group(r.v, s, i, r.next)
    decreases |s| - i, 0
  {
    if At(s, i, '<') { ArgsSound(s, i + 1); }
  }

  lemma {:induction false} ArgsSound(s: string, i: nat)
    requires i <= |s|
    ensures var r := ReadArgs(s, i); r.Got? ==> s[r.next - 1] == '>' && Args(r.v, s, i, r.next - 1)
    decreases |s| - i, 4
  {
    var r := ReadArgs(s, i);
    if r.Got? && !At(s, i, '>') {
      ArgSound(s, i);
      ArgsSound(s, ReadArg(s, i).next);
      assert r.v[1..] == ReadArgs(s, ReadArg(s, i).next).v;
    }
  }

  lemma {:induction false} ArgSound(s: string, i: nat)
    requires i <= |s|
    ensures var r := ReadArg(s, i); r.Got? ==> OneArg(r.v, s, i, r.next)
    decreases |s| - i, 3
  {
    if At(s, i, '*') {
    } else if At(s, i, '+') || At(s, i, '-') {
      RefSound(s, i + 1);
    } else {
      RefSound(s, i);
    }
  }

  lemma {:induction false} SuffixesSound(s: string, i: nat)
    requires i <= |s|
    ensures var r := ReadSuffixes(s, i); r.Got? ==> Suffixes(r.v, s, i, r.next)
    decreases |s| - i, 4
  {
    var r := ReadSuffixes(s, i);
    if r.Got? && At(s, i, '.') {
      NamedSound(s, i + 1);
      assert r.v[1..] == ReadNamed(s, i + 1).v.rest;
    }
  }

  // ---- what is spelled is read --------------------------------------------

  lemma {:induction false} RefComplete(t: Type, s: string, i: nat, n: nat)
    requires Ref(t, s, i, n)
    ensures ReadRef(s, i) == Got(t, n)
    decreases n - i, 1
  {
    match t
    case Array(e) => JavaComplete(e, s, i + 1, n);
    case Var(name) => IdentEnds(s, i + 1, n - 1, name, ";");
    case Class(name, args, suffix) => NamedComplete(name, args, suffix, s, i + 1, n - 1);
  }

  lemma {:induction false} NamedComplete(name: string, args: seq<Arg>, suffix: seq<Suffix>, s: string, i: nat, n: nat)
    requires Named(name, args, suffix, s, i, n) && n < |s| && s[n] == ';'
    ensures i < n && ReadNamed(s, i) == Got(Parts(name, args, suffix), n)
    decreases n - i, 5
  {
    hide Group, Suffixes, IdentEnd, ReadGroup, ReadSuffixes;
    var k, m :| i < k <= m <= n && Name(s, i, k, name, NAME_STOPS) && Group(args, s, k, m) && Suffixes(suffix, s, m, n);
    SuffixStart(suffix, s, m, n);
    GroupStart(args, s, k, m);
    IdentEnds(s, i, k, name, NAME_STOPS);
    GroupComplete(args, s, k, m);
    SuffixesComplete(suffix, s, m, n);
  }

  lemma GroupStart(args: seq<Arg>, s: string, i: nat, n: nat)
    requires i <= n < |s| && Group(args, s, i, n) && (s[n] == '.' || s[n] == ';')
    ensures s[i] in NAME_STOPS
  {
  }

  /** Suffixes begin with a dot, or stand at the semicolon. */
  lemma SuffixStart(ss: seq<Suffix>, s: string, i: nat, n: nat)
    requires Suffixes(ss, s, i, n) && n < |s| && s[n] == ';'
    ensures i < |s| && (s[i] == '.' || s[i] == ';')
  {
  }

  lemma {:induction false} JavaComplete(t: Type, s: string, i: nat, n: nat)
    requires Java(t, s, i, n)
    ensures ReadJava(s, i) == Got(t, n)
    decreases n - i, 2
  {
    if !t.Base? { RefComplete(t, s, i, n); }
  }

  lemma {:induction false} GroupComplete(args: seq<Arg>, s: string, i: nat, n: nat)
    requires i <= n < |s| && Group(args, s, i, n) && (s[n] == '.' || s[n] == ';')
    ensures ReadGroup(s, i) == Got(args, n)
    decreases n - i, 0
  {
    if i + 2 <= n && s[i] == '<' && s[n - 1] == '>' && Args(args, s, i + 1, n - 1) { ArgsComplete(args, s, i + 1, n - 1); }
  }

  lemma {:induction false} ArgsComplete(args: seq<Arg>, s: string, i: nat, n: nat)
    requires i <= n < |s| && Args(args, s, i, n) && s[n] == '>'
    ensures ReadArgs(s, i) == Got(args, n + 1)
    decreases n - i, 4
  {
    if args != [] {
      var k :| i < k <= n && OneArg(args[0], s, i, k) && Args(args[1..], s, k, n);
      ArgComplete(args[0], s, i, k);
      ArgsComplete(args[1..], s, k, n);
      assert [args[0]] + args[1..] == args;
    }
  }

  lemma {:induction false} ArgComplete(a: Arg, s: string, i: nat, n: nat)
    requires OneArg(a, s, i, n)
    ensures ReadArg(s, i) == Got(a, n) && !At(s, i, '>')
    decreases n - i, 3
  {
    match a
    case Any =>
    case Extends(t) => RefComplete(t, s, i + 1, n);
    case Super(t) => RefComplete(t, s, i + 1, n);
    case Plain(t) => RefComplete(t, s, i, n);
  }

  lemma {:induction false} SuffixesComplete(ss: seq<Suffix>, s: string, i: nat, n: nat)
    requires i <= n < |s| && Suffixes(ss, s, i, n) && s[n] == ';'
    ensures ReadSuffixes(s, i) == Got(ss, n)
    decreases n - i, 4
  {
    hide Named, ReadNamed;
    if ss != [] {
      NamedComplete(ss[0].name, ss[0].args, ss[1..], s, i + 1, n);
      assert [ss[0]] + ss[1..] == ss && Suffix(ss[0].name, ss[0].args) == ss[0];
    }
  }

  /** A reference type is read from here to there exactly when it is spelled from here to there. */
  lemma RefExactly(t: Type, s: string, i: nat, n: nat)
    requires i <= |s|
    ensures ReadRef(s, i) == Got(t, n) <==> Ref(t, s, i, n)
  {
    RefSound(s, i);
    if Ref(t, s, i, n) { RefComplete(t, s, i, n); }
  }

  // ---- parameters and whole signatures ------------------------------------

  lemma RefStart(t: Type, s: string, i: nat, n: nat)
    requires Ref(t, s, i, n)
    ensures i < n <= |s| && s[i] in "[TL"
  {
  }

  lemma {:induction false} ColonsExactly(bs: seq<Type>, s: string, i: nat, n: nat)
    requires i <= n <= |s|
    ensures ReadColons(s, i) == Got(bs, n) <==> Colons(bs, s, i, n) && !At(s, n, ':')
    decreases |s| - i
  {
    if At(s, i, ':') {
      if ReadColons(s, i) == Got(bs, n) {
        var r := ReadRef(s, i + 1);
        RefSound(s, i + 1);
        ColonsExactly(bs[1..], s, r.next, n);
      }
      if Colons(bs, s, i, n) && !At(s, n, ':') {
        assert bs != [];
        var j := i + 1;
        var k :| j < k <= n && Ref(bs[0], s, j, k) && Colons(bs[1..], s, k, n);
        RefComplete(bs[0], s, i + 1, k);
        ColonsExactly(bs[1..], s, k, n);
        assert [bs[0]] + bs[1..] == bs;
      }
    }
  }

  lemma BoundsExactly(bs: seq<Type>, s: string, i: nat, n: nat)
    requires i <= n <= |s|
    ensures ReadBounds(s, i) == Got(bs, n) <==> Bounds(bs, s, i, n) && !At(s, n, ':') && (bs == [] ==> n == |s| || s[n] == '>')
  {
    hide Colons, ReadColons, Ref, ReadRef;
    ColonsExactly(bs, s, i, n);
    ColonsStart(bs, s, i, n);
    if i < |s| && s[i] != ':' && s[i] != '>' {
      if ReadBounds(s, i) == Got(bs, n) {
        var r := ReadRef(s, i);
        RefSound(s, i);
        RefStart(r.v, s, i, r.next);
        ColonsExactly(bs[1..], s, r.next, n);
      }
      if Bounds(bs, s, i, n) && !At(s, n, ':') && bs != [] {
        var k :| i < k <= n && Ref(bs[0], s, i, k) && Colons(bs[1..], s, k, n);
        RefComplete(bs[0], s, i, k);
        ColonsExactly(bs[1..], s, k, n);
        assert [bs[0]] + bs[1..] == bs;
      }
    } else if bs != [] && exists k :: i < k <= n && Ref(bs[0], s, i, k) {
      var k :| i < k <= n && Ref(bs[0], s, i, k);
      RefStart(bs[0], s, i, k);
    }
  }

  lemma ColonsStart(bs: seq<Type>, s: string, i: nat, n: nat)
    ensures Colons(bs, s, i, n) ==> if bs == [] then i == n else At(s, i, ':')
  {
  }

  lemma ParamExactly(p: Param, s: string, i: nat, n: nat)
    requires i < n <= |s| && s[i] != '>'
    ensures ReadParam(s, i) == Got(p, n) <==> OneParam(p, s, i, n) && !At(s, n, ':') && (p.bounds == [] ==> n == |s| || s[n] == '>')
  {
    hide Bounds, ReadBounds, IdentEnd;
    var e := IdentEnd(s, i, ":");
    IdentIs(s, i, ":");
    if ReadParam(s, i) == Got(p, n) {
      BoundsExactly(p.bounds, s, e + 1, n);
    }
    if OneParam(p, s, i, n) && !At(s, n, ':') && (p.bounds == [] ==> n == |s| || s[n] == '>') {
      IdentEnds(s, i, i + |p.name|, p.name, ":");
      BoundsExactly(p.bounds, s, e + 1, n);
    }
  }

  lemma {:induction false} ParamsSound(s: string, i: nat)
    requires i <= |s|
    ensures var r := ReadParams(s, i); r.Got? ==> s[r.next - 1] == '>' && Params(r.v, s, i, r.next - 1) && Bounded(r.v)
    decreases |s| - i
  {
    hide OneParam, ReadParam;
    var r := ReadParams(s, i);
    if r.Got? && !At(s, i, '>') {
      var q := ReadParam(s, i);
      ParamsSound(s, q.next);
      NothingAtEnd(s);
      ParamExactly(q.v, s, i, q.next);
      assert r.v[1..] == ReadParams(s, q.next).v;
      BoundedFirst(r.v);
    }
  }

  lemma BoundedFirst(ps: seq<Param>)
    requires ps != []
    ensures Bounded(ps) <==> (|ps| > 1 ==> ps[0].bounds != []) && Bounded(ps[1..])
  {
    if |ps| > 1 && ps[0].bounds != [] && Bounded(ps[1..]) {
      forall k | 0 <= k < |ps| - 1
        ensures ps[k].bounds != []
      {
        if k > 0 { assert ps[k] == ps[1..][k - 1]; }
      }
    }
    if Bounded(ps) { assert forall k :: 0 <= k < |ps| - 2 ==> ps[1..][k] == ps[k + 1]; }
  }

  lemma NothingAtEnd(s: string)
    ensures ReadParam(s, |s|) == Fail
  {
  }

  lemma {:induction false} ParamsComplete(ps: seq<Param>, s: string, i: nat, n: nat)
    requires i <= n < |s| && Params(ps, s, i, n) && s[n] == '>' && Bounded(ps)
    ensures ReadParams(s, i) == Got(ps, n + 1)
    decreases |ps|
  {
    hide OneParam, ReadParam;
    if ps != [] {
      BoundedFirst(ps);
      var k :| i < k <= n && OneParam(ps[0], s, i, k) && Params(ps[1..], s, k, n);
      ParamStart(ps[0], s, i, k);
      if ps[1..] != [] {
        var j :| k < j <= n && OneParam(ps[1..][0], s, k, j) && Params(ps[1..][1..], s, j, n);
        ParamStart(ps[1], s, k, j);
      }
      ParamExactly(ps[0], s, i, k);
      ParamsComplete(ps[1..], s, k, n);
      assert [ps[0]] + ps[1..] == ps;
    }
  }

  lemma ParamStart(p: Param, s: string, i: nat, n: nat)
    requires OneParam(p, s, i, n)
    ensures i < |s| && s[i] != '>' && s[i] != ':'
  {
  }

  lemma ParamGroupExactly(ps: seq<Param>, s: string, i: nat, n: nat)
    requires i <= n <= |s| && !At(s, n, '<')
    ensures ReadParamGroup(s, i) == Got(ps, n) <==> ParamGroup(ps, s, i, n) && Bounded(ps)
  {
    hide Params, ReadParams;
    if At(s, i, '<') {
      ParamsSound(s, i + 1);
      if ParamGroup(ps, s, i, n) && Bounded(ps) { ParamsComplete(ps, s, i + 1, n - 1); }
    }
  }

  lemma {:induction false} RefsExactly(ts: seq<Type>, s: string, i: nat)
    requires i <= |s|
    ensures ReadRefs(s, i) == Some(ts) <==> Refs(ts, s, i, |s|)
    decreases |s| - i
  {
    hide Ref, ReadRef;
    if ReadRefs(s, i) == Some(ts) && i < |s| {
      RefSound(s, i);
      RefsExactly(ts[1..], s, ReadRef(s, i).next);
    }
    if Refs(ts, s, i, |s|) && ts != [] {
      var k :| i < k <= |s| && Ref(ts[0], s, i, k) && Refs(ts[1..], s, k, |s|);
      RefComplete(ts[0], s, i, k);
      RefsExactly(ts[1..], s, k);
      assert [ts[0]] + ts[1..] == ts;
    }
  }

  lemma {:induction false} ThrowsExactly(ts: seq<Type>, s: string, i: nat)
    requires i <= |s|
    ensures ReadThrows(s, i) == Some(ts) <==> Throws(ts, s, i, |s|)
    decreases |s| - i
  {
    hide Ref, ReadRef;
    if ReadThrows(s, i) == Some(ts) && i < |s| {
      RefSound(s, i + 1);
      ThrowsExactly(ts[1..], s, ReadRef(s, i + 1).next);
    }
    if Throws(ts, s, i, |s|) && ts != [] {
      var j := i + 1;
      var k :| j < k <= |s| && Ref(ts[0], s, j, k) && Throws(ts[1..], s, k, |s|);
      RefComplete(ts[0], s, i + 1, k);
      ThrowsExactly(ts[1..], s, k);
      assert [ts[0]] + ts[1..] == ts;
    }
  }

  lemma {:induction false} JavasSound(s: string, i: nat)
    requires i <= |s|
    ensures var r := ReadJavas(s, i); r.Got? ==> s[r.next - 1] == ')' && Javas(r.v, s, i, r.next - 1)
    decreases |s| - i
  {
    hide Java, ReadJava;
    var r := ReadJavas(s, i);
    if r.Got? && !At(s, i, ')') {
      JavaSound(s, i);
      JavasSound(s, ReadJava(s, i).next);
      assert r.v[1..] == ReadJavas(s, ReadJava(s, i).next).v;
    }
  }

  lemma {:induction false} JavasComplete(ts: seq<Type>, s: string, i: nat, n: nat)
    requires i <= n < |s| && Javas(ts, s, i, n) && s[n] == ')'
    ensures ReadJavas(s, i) == Got(ts, n + 1)
    decreases |ts|
  {
    hide Java, ReadJava;
    if ts != [] {
      var k :| i < k <= n && Java(ts[0], s, i, k) && Javas(ts[1..], s, k, n);
      JavaStart(ts[0], s, i, k);
      JavaComplete(ts[0], s, i, k);
      JavasComplete(ts[1..], s, k, n);
      assert [ts[0]] + ts[1..] == ts;
    }
  }

  lemma JavaStart(t: Type, s: string, i: nat, n: nat)
    requires Java(t, s, i, n)
    ensures i < n <= |s| && s[i] != ')'
  {
  }

  /** A field signature is read as a type exactly when it spells it. */
  lemma FieldExactly(s: string, t: Type)
    ensures ReadField(s) == Some(t) <==> Ref(t, s, 0, |s|)
  {
    hide Ref, ReadRef;
    RefSound(s, 0);
    if Ref(t, s, 0, |s|) { RefComplete(t, s, 0, |s|); }
  }

  /** A class signature is, too, exactly when every parameter but the last has a bound. */
  lemma ClassExactly(s: string, c: ClassSig)
    ensures ReadClass(s) == Some(c) <==> ClassSpelled(c, s) && Bounded(c.params)
  {
    hide Ref, ReadRef, ParamGroup, ReadParamGroup, Refs, ReadRefs;
    if ReadClass(s) == Some(c) {
      var k := ReadParamGroup(s, 0).next;
      RefSound(s, k);
      RefStart(c.super, s, k, ReadRef(s, k).next);
      ParamGroupExactly(c.params, s, 0, k);
      RefsExactly(c.ifaces, s, ReadRef(s, k).next);
    }
    if ClassSpelled(c, s) && Bounded(c.params) {
      var k, m :| 0 <= k < m <= |s| && ParamGroup(c.params, s, 0, k) && Ref(c.super, s, k, m) && Refs(c.ifaces, s, m, |s|);
      RefStart(c.super, s, k, m);
      ParamGroupExactly(c.params, s, 0, k);
      RefComplete(c.super, s, k, m);
      RefsExactly(c.ifaces, s, m);
    }
  }

  /** And a method signature. */
  lemma MethodExactly(s: string, c: MethodSig)
    ensures ReadMethod(s) == Some(c) <==> MethodSpelled(c, s) && Bounded(c.params)
  {
    hide Java, ReadJava, ParamGroup, ReadParamGroup, Javas, ReadJavas, Throws, ReadThrows;
    if ReadMethod(s) == Some(c) {
      var k := ReadParamGroup(s, 0).next;
      ParamGroupExactly(c.params, s, 0, k);
      var a := ReadJavas(s, k + 1).next;
      JavasSound(s, k + 1);
      JavaSound(s, a);
      ThrowsExactly(c.throws, s, ReadJava(s, a).next);
      assert Java(c.result, s, (a - 1) + 1, ReadJava(s, a).next);
    }
    if MethodSpelled(c, s) && Bounded(c.params) {
      var k, a :| 0 <= k < a < |s| && ParamGroup(c.params, s, 0, k) && s[k] == '(' && Javas(c.args, s, k + 1, a) && s[a] == ')'
        && exists r | a + 1 < r <= |s| :: Java(c.result, s, a + 1, r) && Throws(c.throws, s, r, |s|);
      var r :| a + 1 < r <= |s| && Java(c.result, s, a + 1, r) && Throws(c.throws, s, r, |s|);
      ParamGroupExactly(c.params, s, 0, k);
      JavasComplete(c.args, s, k + 1, a);
      JavaComplete(c.result, s, a + 1, r);
      ThrowsExactly(c.throws, s, r);
    }
  }

  // ---- printing -----------------------------------------------------------

  predicate NameOk(name: string, stops: string) { forall k :: 0 <= k < |name| ==> name[k] !in stops }

  predicate TypeOk(t: Type) {
    match t
    case Base(c) => IsBase(c)
    case Array(e) => TypeOk(e)
    case Var(name) => NameOk(name, ";")
    case Class(name, args, suffix) => name != "" && NameOk(name, NAME_STOPS) && ArgsOk(args) && SuffixesOk(suffix)
  }

  predicate RefOk(t: Type) { !t.Base? && TypeOk(t) }

  predicate ArgOk(a: Arg) {
    match a
    case Any => true
    case Extends(t) => !t.Base? && TypeOk(t)
    case Super(t) => !t.Base? && TypeOk(t)
    case Plain(t) => !t.Base? && TypeOk(t)
  }

  predicate ArgsOk(args: seq<Arg>) { forall k :: 0 <= k < |args| ==> ArgOk(args[k]) }

  predicate SuffixOk(x: Suffix) { x.name != "" && NameOk(x.name, NAME_STOPS) && ArgsOk(x.args) }

  predicate SuffixesOk(ss: seq<Suffix>) { forall k :: 0 <= k < |ss| ==> SuffixOk(ss[k]) }

  function Print(t: Type): string {
    match t
    case Base(c) => [c]
    case Array(e) => "[" + Print(e)
    case Var(name) => "T" + (name + ";")
    case Class(name, args, suffix) => "L" + (name + (PrintGroup(args) + (PrintSuffixes(suffix) + ";")))
  }

  function PrintGroup(args: seq<Arg>): string
    decreases args, 1
  {
    if args == [] then "" else "<" + (PrintArgs(args) + ">")
  }

  function PrintArgs(args: seq<Arg>): string
    decreases args, 0
  {
    if args == [] then "" else PrintArg(args[0]) + PrintArgs(args[1..])
  }

  function PrintArg(a: Arg): string {
    match a
    case Any => "*"
    case Extends(t) => "+" + Print(t)
    case Super(t) => "-" + Print(t)
    case Plain(t) => Print(t)
  }

  function PrintSuffixes(ss: seq<Suffix>): string {
    if ss == [] then "" else "." + (ss[0].name + (PrintGroup(ss[0].args) + PrintSuffixes(ss[1..])))
  }

  predicate Holds(s: string, i: nat, w: string) { i + |w| <= |s| && s[i..i + |w|] == w }

  lemma HoldsParts(s: string, i: nat, u: string, v: string)
    requires Holds(s, i, u + v)
    ensures Holds(s, i, u) && Holds(s, i + |u|, v)
  {
    assert (u + v)[..|u|] == u && (u + v)[|u|..] == v;
    assert s[i..i + |u|] == s[i..i + |u + v|][..|u|];
    assert s[i + |u|..i + |u| + |v|] == s[i..i + |u + v|][|u|..];
  }

  lemma HoldsChar(s: string, i: nat, c: char)
    requires Holds(s, i, [c])
    ensures i < |s| && s[i] == c
  {
    assert s[i..i + 1][0] == c;
  }

  lemma HoldsName(s: string, i: nat, name: string, stops: string)
    requires Holds(s, i, name) && NameOk(name, stops)
    ensures Name(s, i, i + |name|, name, stops)
  {
    forall k | i <= k < i + |name|
      ensures s[k] !in stops
    {
      assert s[k] == s[i..i + |name|][k - i];
    }
  }

  lemma {:induction false} PrintedRef(t: Type, s: string, i: nat)
    requires RefOk(t) && Holds(s, i, Print(t))
    ensures Ref(t, s, i, i + |Print(t)|)
    decreases t, 1
  {
    hide Holds, Name, NameOk, ArgsOk, SuffixesOk, PrintGroup, PrintSuffixes, Group, Suffixes, Named;
    match t
    case Array(e) =>
      HoldsParts(s, i, "[", Print(e));
      HoldsChar(s, i, '[');
      PrintedJava(e, s, i + 1);
    case Var(name) =>
      HoldsParts(s, i, "T", name + ";");
      HoldsParts(s, i + 1, name, ";");
      HoldsChar(s, i, 'T');
      HoldsChar(s, i + 1 + |name|, ';');
      HoldsName(s, i + 1, name, ";");
    case Class(_, _, _) => PrintedClass(t, s, i);
  }

  lemma {:induction false} PrintedClass(t: Type, s: string, i: nat)
    requires t.Class? && RefOk(t) && Holds(s, i, Print(t))
    ensures Ref(t, s, i, i + |Print(t)|)
    decreases t, 0
  {
    hide Holds, Name, NameOk, ArgsOk, SuffixesOk, PrintGroup, PrintSuffixes, Group, Suffixes, Named;
    var name, args, suffix := t.name, t.args, t.suffix;
    var rest := PrintGroup(args) + (PrintSuffixes(suffix) + ";");
    var k := i + 1 + |name|;
    var m := k + |PrintGroup(args)|;
    var n := m + |PrintSuffixes(suffix)|;
    HoldsParts(s, i, "L", name + rest);
    HoldsParts(s, i + 1, name, rest);
    HoldsParts(s, k, PrintGroup(args), PrintSuffixes(suffix) + ";");
    HoldsParts(s, m, PrintSuffixes(suffix), ";");
    HoldsChar(s, i, 'L');
    HoldsChar(s, n, ';');
    HoldsName(s, i + 1, name, NAME_STOPS);
    PrintedGroup(args, s, k);
    PrintedSuffixes(suffix, s, m);
    NamedAt(name, args, suffix, s, i + 1, k, m, n);
  }

  lemma NamedAt(name: string, args: seq<Arg>, suffix: seq<Suffix>, s: string, i: nat, k: nat, m: nat, n: nat)
    requires i < k <= m <= n && Name(s, i, k, name, NAME_STOPS) && Group(args, s, k, m) && Suffixes(suffix, s, m, n)
    ensures Named(name, args, suffix, s, i, n)
  {
  }

  lemma {:induction false} PrintedJava(t: Type, s: string, i: nat)
    requires TypeOk(t) && Holds(s, i, Print(t))
    ensures Java(t, s, i, i + |Print(t)|)
    decreases t, 2
  {
    hide Ref, Holds;
    if t.Base? { HoldsChar(s, i, t.ch); } else { PrintedRef(t, s, i); RefEnds(t, s, i, i + |Print(t)|); }
  }

  lemma RefEnds(t: Type, s: string, i: nat, n: nat)
    requires Ref(t, s, i, n)
    ensures i < n <= |s|
  {
  }

  lemma {:induction false} PrintedGroup(args: seq<Arg>, s: string, i: nat)
    requires ArgsOk(args) && Holds(s, i, PrintGroup(args))
    ensures Group(args, s, i, i + |PrintGroup(args)|)
    decreases args, 2
  {
    hide Holds, Args, PrintArgs;
    if args != [] {
      HoldsParts(s, i, "<", PrintArgs(args) + ">");
      HoldsParts(s, i + 1, PrintArgs(args), ">");
      HoldsChar(s, i, '<');
      HoldsChar(s, i + 1 + |PrintArgs(args)|, '>');
      PrintedArgs(args, s, i + 1);
    }
  }

  lemma {:induction false} PrintedArgs(args: seq<Arg>, s: string, i: nat)
    requires ArgsOk(args) && Holds(s, i, PrintArgs(args))
    ensures Args(args, s, i, i + |PrintArgs(args)|)
    decreases args, 1
  {
    hide Holds, OneArg, PrintArg, ArgOk;
    if args != [] {
      HoldsParts(s, i, PrintArg(args[0]), PrintArgs(args[1..]));
      var k := i + |PrintArg(args[0])|;
      PrintedArg(args[0], s, i);
      PrintedArgs(args[1..], s, k);
      ArgEnds(args[0], s, i, k);
      assert OneArg(args[0], s, i, k) && Args(args[1..], s, k, i + |PrintArgs(args)|);
    }
  }

  lemma ArgEnds(a: Arg, s: string, i: nat, n: nat)
    requires OneArg(a, s, i, n)
    ensures i < n <= |s|
  {
  }

  lemma {:induction false} PrintedArg(a: Arg, s: string, i: nat)
    requires ArgOk(a) && Holds(s, i, PrintArg(a))
    ensures OneArg(a, s, i, i + |PrintArg(a)|)
    decreases a, 0
  {
    hide Holds, Ref, TypeOk, Print;
    match a
    case Any => HoldsChar(s, i, '*');
    case Extends(t) =>
      HoldsParts(s, i, "+", Print(t));
      HoldsChar(s, i, '+');
      PrintedRef(t, s, i + 1);
      RefEnds(t, s, i + 1, i + 1 + |Print(t)|);
    case Super(t) =>
      HoldsParts(s, i, "-", Print(t));
      HoldsChar(s, i, '-');
      PrintedRef(t, s, i + 1);
      RefEnds(t, s, i + 1, i + 1 + |Print(t)|);
    case Plain(t) =>
      PrintedRef(t, s, i);
      RefEnds(t, s, i, i + |Print(t)|);
  }

  lemma {:induction false} PrintedSuffixes(ss: seq<Suffix>, s: string, i: nat)
    requires SuffixesOk(ss) && Holds(s, i, PrintSuffixes(ss))
    ensures Suffixes(ss, s, i, i + |PrintSuffixes(ss)|)
    decreases ss, 1
  {
    hide Holds, Name, NameOk, ArgsOk, PrintGroup, Group, Named;
    if ss != [] {
      var x := ss[0];
      assert SuffixOk(x);
      var rest := PrintGroup(x.args) + PrintSuffixes(ss[1..]);
      var k := i + 1 + |x.name|;
      var m := k + |PrintGroup(x.args)|;
      HoldsParts(s, i, ".", x.name + rest);
      HoldsParts(s, i + 1, x.name, rest);
      HoldsParts(s, k, PrintGroup(x.args), PrintSuffixes(ss[1..]));
      HoldsChar(s, i, '.');
      HoldsName(s, i + 1, x.name, NAME_STOPS);
      PrintedGroup(x.args, s, k);
      PrintedSuffixes(ss[1..], s, m);
      NamedAt(x.name, x.args, ss[1..], s, i + 1, k, m, i + |PrintSuffixes(ss)|);
      HoldsEnds(s, m, PrintSuffixes(ss[1..]));
    }
  }

  lemma HoldsEnds(s: string, i: nat, w: string)
    requires Holds(s, i, w)
    ensures i + |w| <= |s|
  {
  }

  /** Bounds as they are printed: the first right after the colon when it is a class. */
  function PrintBounds(bs: seq<Type>, direct: bool): string {
    if direct && bs != [] then Print(bs[0]) + PrintColons(bs[1..]) else PrintColons(bs)
  }

  function PrintColons(bs: seq<Type>): string { if bs == [] then "" else ":" + (Print(bs[0]) + PrintColons(bs[1..])) }

  function PrintParam(p: Param, direct: bool): string { p.name + (":" + PrintBounds(p.bounds, direct)) }

  function PrintParams(ps: seq<Param>, direct: seq<bool>): string
    requires |ps| == |direct|
  {
    if ps == [] then "" else PrintParam(ps[0], direct[0]) + PrintParams(ps[1..], direct[1..])
  }

  function PrintParamGroup(ps: seq<Param>, direct: seq<bool>): string
    requires |ps| == |direct|
  {
    if ps == [] then "" else "<" + (PrintParams(ps, direct) + ">")
  }

  function PrintAll(ts: seq<Type>): string { if ts == [] then "" else Print(ts[0]) + PrintAll(ts[1..]) }

  function PrintThrows(ts: seq<Type>): string { if ts == [] then "" else "^" + (Print(ts[0]) + PrintThrows(ts[1..])) }

  predicate AllRefs(ts: seq<Type>) { forall k :: 0 <= k < |ts| ==> RefOk(ts[k]) }

  predicate ParamOk(p: Param) { p.name != "" && p.name[0] != '>' && NameOk(p.name, ":") && AllRefs(p.bounds) }

  predicate ParamsOk(ps: seq<Param>) { forall k :: 0 <= k < |ps| ==> ParamOk(ps[k]) }

  function PrintClass(c: ClassSig, direct: seq<bool>): string
    requires |c.params| == |direct|
  {
    PrintParamGroup(c.params, direct) + (Print(c.super) + PrintAll(c.ifaces))
  }

  function PrintMethod(m: MethodSig, direct: seq<bool>): string
    requires |m.params| == |direct|
  {
    PrintParamGroup(m.params, direct) + ("(" + (PrintAll(m.args) + (")" + (Print(m.result) + PrintThrows(m.throws)))))
  }

  lemma {:induction false} PrintedColons(bs: seq<Type>, s: string, i: nat)
    requires AllRefs(bs) && Holds(s, i, PrintColons(bs))
    ensures Colons(bs, s, i, i + |PrintColons(bs)|)
    decreases |bs|
  {
    hide Holds, Ref, RefOk, Print;
    if bs != [] {
      var n := i + |PrintColons(bs)|;
      HoldsEnds(s, i, PrintColons(bs));
      HoldsParts(s, i, ":", Print(bs[0]) + PrintColons(bs[1..]));
      HoldsParts(s, i + 1, Print(bs[0]), PrintColons(bs[1..]));
      HoldsChar(s, i, ':');
      assert RefOk(bs[0]);
      PrintedRef(bs[0], s, i + 1);
      var j := i + 1;
      var k := j + |Print(bs[0])|;
      RefEnds(bs[0], s, j, k);
      PrintedColons(bs[1..], s, k);
      assert Ref(bs[0], s, j, k) && Colons(bs[1..], s, k, n);
    }
  }

  lemma PrintedParam(p: Param, direct: bool, s: string, i: nat)
    requires ParamOk(p) && Holds(s, i, PrintParam(p, direct))
    ensures OneParam(p, s, i, i + |PrintParam(p, direct)|)
  {
    hide Holds, Ref, RefOk, Print, Colons, PrintColons, Name, NameOk;
    var b := i + |p.name| + 1;
    var n := i + |PrintParam(p, direct)|;
    HoldsEnds(s, i, PrintParam(p, direct));
    HoldsParts(s, i, p.name, ":" + PrintBounds(p.bounds, direct));
    HoldsParts(s, i + |p.name|, ":", PrintBounds(p.bounds, direct));
    HoldsChar(s, i + |p.name|, ':');
    HoldsName(s, i, p.name, ":");
    FirstChar(s, i, p.name);
    if direct && p.bounds != [] {
      HoldsParts(s, b, Print(p.bounds[0]), PrintColons(p.bounds[1..]));
      assert RefOk(p.bounds[0]);
      PrintedRef(p.bounds[0], s, b);
      var k := b + |Print(p.bounds[0])|;
      RefEnds(p.bounds[0], s, b, k);
      PrintedColons(p.bounds[1..], s, k);
      assert Ref(p.bounds[0], s, b, k) && Colons(p.bounds[1..], s, k, n);
    } else {
      PrintedColons(p.bounds, s, b);
      ColonsStart(p.bounds, s, b, n);
      ColonsLong(p.bounds, s, b, n);
    }
  }

  lemma ColonsLong(bs: seq<Type>, s: string, i: nat, n: nat)
    requires Colons(bs, s, i, n)
    ensures i <= n
  {
  }

  lemma FirstChar(s: string, i: nat, w: string)
    requires Holds(s, i, w) && w != ""
    ensures i < |s| && s[i] == w[0]
  {
    assert s[i..i + |w|][0] == w[0];
  }

  lemma {:induction false} PrintedParams(ps: seq<Param>, direct: seq<bool>, s: string, i: nat)
    requires |ps| == |direct| && ParamsOk(ps) && Holds(s, i, PrintParams(ps, direct))
    ensures Params(ps, s, i, i + |PrintParams(ps, direct)|)
    decreases |ps|
  {
    hide Holds, OneParam, PrintParam;
    if ps != [] {
      var k := i + |PrintParam(ps[0], direct[0])|;
      var n := i + |PrintParams(ps, direct)|;
      HoldsParts(s, i, PrintParam(ps[0], direct[0]), PrintParams(ps[1..], direct[1..]));
      assert ParamOk(ps[0]);
      PrintedParam(ps[0], direct[0], s, i);
      PrintedParams(ps[1..], direct[1..], s, k);
      ParamEnds(ps[0], s, i, k);
      assert OneParam(ps[0], s, i, k) && Params(ps[1..], s, k, n);
    }
  }

  lemma ParamEnds(p: Param, s: string, i: nat, n: nat)
    requires OneParam(p, s, i, n)
    ensures i < n <= |s|
  {
  }

  lemma PrintedParamGroup(ps: seq<Param>, direct: seq<bool>, s: string, i: nat)
    requires |ps| == |direct| && ParamsOk(ps) && Holds(s, i, PrintParamGroup(ps, direct))
    ensures ParamGroup(ps, s, i, i + |PrintParamGroup(ps, direct)|)
  {
    hide Holds, Params, PrintParams;
    if ps != [] {
      HoldsParts(s, i, "<", PrintParams(ps, direct) + ">");
      HoldsParts(s, i + 1, PrintParams(ps, direct), ">");
      HoldsChar(s, i, '<');
      HoldsChar(s, i + 1 + |PrintParams(ps, direct)|, '>');
      PrintedParams(ps, direct, s, i + 1);
    }
  }

  lemma {:induction false} PrintedRefs(ts: seq<Type>, s: string, i: nat)
    requires AllRefs(ts) && Holds(s, i, PrintAll(ts))
    ensures Refs(ts, s, i, i + |PrintAll(ts)|)
    decreases |ts|
  {
    hide Holds, Ref, RefOk, Print;
    if ts != [] {
      var k, n := i + |Print(ts[0])|, i + |PrintAll(ts)|;
      HoldsEnds(s, i, PrintAll(ts));
      HoldsParts(s, i, Print(ts[0]), PrintAll(ts[1..]));
      assert RefOk(ts[0]);
      PrintedRef(ts[0], s, i);
      RefEnds(ts[0], s, i, k);
      PrintedRefs(ts[1..], s, k);
      assert Ref(ts[0], s, i, k) && Refs(ts[1..], s, k, n);
    }
  }

  predicate AllTypes(ts: seq<Type>) { forall k :: 0 <= k < |ts| ==> TypeOk(ts[k]) }

  lemma {:induction false} PrintedJavas(ts: seq<Type>, s: string, i: nat)
    requires AllTypes(ts) && Holds(s, i, PrintAll(ts))
    ensures Javas(ts, s, i, i + |PrintAll(ts)|)
    decreases |ts|
  {
    hide Holds, Java, TypeOk, Print;
    if ts != [] {
      var k, n := i + |Print(ts[0])|, i + |PrintAll(ts)|;
      HoldsEnds(s, i, PrintAll(ts));
      HoldsParts(s, i, Print(ts[0]), PrintAll(ts[1..]));
      assert TypeOk(ts[0]);
      PrintedJava(ts[0], s, i);
      JavaStart(ts[0], s, i, k);
      PrintedJavas(ts[1..], s, k);
      assert Java(ts[0], s, i, k) && Javas(ts[1..], s, k, n);
    }
  }

  lemma {:induction false} PrintedThrows(ts: seq<Type>, s: string, i: nat)
    requires AllRefs(ts) && Holds(s, i, PrintThrows(ts))
    ensures Throws(ts, s, i, i + |PrintThrows(ts)|)
    decreases |ts|
  {
    hide Holds, Ref, RefOk, Print;
    if ts != [] {
      var n := i + |PrintThrows(ts)|;
      HoldsEnds(s, i, PrintThrows(ts));
      HoldsParts(s, i, "^", Print(ts[0]) + PrintThrows(ts[1..]));
      HoldsParts(s, i + 1, Print(ts[0]), PrintThrows(ts[1..]));
      HoldsChar(s, i, '^');
      assert RefOk(ts[0]);
      PrintedRef(ts[0], s, i + 1);
      var j := i + 1;
      var k := j + |Print(ts[0])|;
      RefEnds(ts[0], s, j, k);
      PrintedThrows(ts[1..], s, k);
      assert Ref(ts[0], s, j, k) && Throws(ts[1..], s, k, n);
    }
  }

  lemma HoldsAll(s: string)
    ensures Holds(s, 0, s)
  {
  }

  /** A well-formed field signature is read back from its printed form. */
  lemma FieldReadsBack(t: Type)
    requires RefOk(t)
    ensures ReadField(Print(t)) == Some(t)
  {
    hide Ref, RefOk, Print, Holds, ReadField;
    HoldsAll(Print(t));
    PrintedRef(t, Print(t), 0);
    FieldExactly(Print(t), t);
  }

  /** A class signature too, whichever first bounds are printed as class bounds, exactly when only its last parameter may have no bound. */
  lemma ClassReadsBack(c: ClassSig, direct: seq<bool>)
    requires |direct| == |c.params| && ParamsOk(c.params) && RefOk(c.super) && AllRefs(c.ifaces)
    ensures ReadClass(PrintClass(c, direct)) == Some(c) <==> Bounded(c.params)
  {
    hide Ref, RefOk, Print, Holds, ReadClass, ParamGroup, PrintParamGroup, Refs, PrintAll, ParamsOk, AllRefs;
    var s := PrintClass(c, direct);
    var k := |PrintParamGroup(c.params, direct)|;
    var m := k + |Print(c.super)|;
    HoldsAll(s);
    HoldsParts(s, 0, PrintParamGroup(c.params, direct), Print(c.super) + PrintAll(c.ifaces));
    HoldsParts(s, k, Print(c.super), PrintAll(c.ifaces));
    PrintedParamGroup(c.params, direct, s, 0);
    PrintedRef(c.super, s, k);
    RefEnds(c.super, s, k, m);
    PrintedRefs(c.ifaces, s, m);
    ClassExactly(s, c);
  }

  /** And a method signature. */
  lemma MethodReadsBack(c: MethodSig, direct: seq<bool>)
    requires |direct| == |c.params| && ParamsOk(c.params) && AllTypes(c.args) && TypeOk(c.result) && AllRefs(c.throws)
    ensures ReadMethod(PrintMethod(c, direct)) == Some(c) <==> Bounded(c.params)
  {
    hide Java, TypeOk, Print, Holds, ReadMethod, ParamGroup, PrintParamGroup, Javas, PrintAll, ParamsOk, AllRefs, AllTypes, Throws, PrintThrows;
    var s := PrintMethod(c, direct);
    var res := Print(c.result) + PrintThrows(c.throws);
    var k := |PrintParamGroup(c.params, direct)|;
    var a := k + 1 + |PrintAll(c.args)|;
    var r := a + 1 + |Print(c.result)|;
    HoldsAll(s);
    HoldsParts(s, 0, PrintParamGroup(c.params, direct), "(" + (PrintAll(c.args) + (")" + res)));
    HoldsParts(s, k, "(", PrintAll(c.args) + (")" + res));
    HoldsParts(s, k + 1, PrintAll(c.args), ")" + res);
    HoldsParts(s, a, ")", res);
    HoldsParts(s, a + 1, Print(c.result), PrintThrows(c.throws));
    HoldsChar(s, k, '(');
    HoldsChar(s, a, ')');
    PrintedParamGroup(c.params, direct, s, 0);
    PrintedJavas(c.args, s, k + 1);
    PrintedJava(c.result, s, a + 1);
    JavaStart(c.result, s, a + 1, r);
    PrintedThrows(c.throws, s, r);
    assert Java(c.result, s, a + 1, r) && Throws(c.throws, s, r, |s|);
    MethodExactly(s, c);
  }

  /**
   * <A:B:Lx;>Ly; is refused, although section 4.7.9.1 of the JVM Specification allows a parameter without a bound: what
   * follows is taken for the bound of A.
   */
  lemma UnboundedRefused()
    ensures var s := "<A:B:Lx;>Ly;";
            ReadClass(s) == None && PrintClass(ClassSig([Param("A", []), Param("B", [Class("x", [], [])])], Class("y", [], []), []), [false, true]) == s
  {
    var s := "<A:B:Lx;>Ly;";
    assert IdentEnd(s, 2, ":") == 2 && IdentEnd(s, 1, ":") == 2;
    assert ReadRef(s, 3) == Fail;
    assert ReadBounds(s, 3) == Fail;
    assert ReadParam(s, 1) == Fail;
    assert ReadParams(s, 1) == Fail;
    SpelledOut("B", s);
  }

  /** <A:T:Lx;>Ly; is misread: T and x become one type variable that bounds A. */
  lemma UnboundedMisread()
    ensures var s := "<A:T:Lx;>Ly;";
            && ReadClass(s) == Some(ClassSig([Param("A", [Var(":Lx")])], Class("y", [], []), []))
            && PrintClass(ClassSig([Param("A", []), Param("T", [Class("x", [], [])])], Class("y", [], []), []), [false, true]) == s
  {
    hide ReadParams, ReadRef, ReadClass, PrintClass;
    var s := "<A:T:Lx;>Ly;";
    MisreadParams(s);
    OneLetterClass(s, 9);
    SpelledOut("T", s);
    MisreadWhole(s, Param("A", [Var(":Lx")]));
  }

  lemma MisreadWhole(s: string, p: Param)
    requires |s| == 12 && s[0] == '<' && ReadParams(s, 1) == Got([p], 9) && ReadRef(s, 9) == Got(Class("y", [], []), 12)
    ensures ReadClass(s) == Some(ClassSig([p], Class("y", [], []), []))
  {
    hide ReadParams, ReadRef;
    assert ReadRefs(s, 12) == Some([]);
  }

  lemma MisreadParams(s: string)
    requires s == "<A:T:Lx;>Ly;"
    ensures ReadParams(s, 1) == Got([Param("A", [Var(":Lx")])], 9)
  {
    assert IdentEnd(s, 2, ":") == 2 && IdentEnd(s, 1, ":") == 2 && s[1..2] == "A";
    MisreadBound(s);
    hide ReadRef, ReadBounds, IdentEnd;
    assert ReadParam(s, 1) == Got(Param("A", [Var(":Lx")]), 8);
    assert ReadParams(s, 8) == Got([], 9);
    assert [Param("A", [Var(":Lx")])] + [] == [Param("A", [Var(":Lx")])];
  }

  lemma MisreadBound(s: string)
    requires s == "<A:T:Lx;>Ly;"
    ensures ReadBounds(s, 3) == Got([Var(":Lx")], 8)
  {
    assert IdentEnd(s, 7, ";") == 7 && IdentEnd(s, 6, ";") == 7 && IdentEnd(s, 5, ";") == 7 && IdentEnd(s, 4, ";") == 7;
    assert s[4..7] == ":Lx";
    assert ReadRef(s, 3) == Got(Var(":Lx"), 8);
    hide ReadRef, IdentEnd;
    assert ReadColons(s, 8) == Got([], 8);
    assert [Var(":Lx")] + [] == [Var(":Lx")];
  }

  lemma OneLetterClass(s: string, i: nat)
    requires i + 3 == |s| && s[i..] == "Ly;"
    ensures ReadRef(s, i) == Got(Class("y", [], []), i + 3)
  {
    var w := s[i..];
    assert s[i] == w[0] && s[i + 1] == w[1] && s[i + 2] == w[2] && s[i + 1..i + 2] == "y";
    assert Name(s, i + 1, i + 2, "y", NAME_STOPS) && NAME_STOPS[2] == ';';
    IdentEnds(s, i + 1, i + 2, "y", NAME_STOPS);
    hide IdentEnd;
    assert ReadGroup(s, i + 2) == Got([], i + 2) && ReadSuffixes(s, i + 2) == Got([], i + 2);
    assert ReadNamed(s, i + 1) == Got(Parts("y", [], []), i + 2);
  }

  lemma SpelledOut(name: string, s: string)
    requires s == "<A:" + name + ":Lx;>Ly;"
    ensures PrintClass(ClassSig([Param("A", []), Param(name, [Class("x", [], [])])], Class("y", [], []), []), [false, true]) == s
  {
    var x, y := Class("x", [], []), Class("y", [], []);
    var a, b := Param("A", []), Param(name, [x]);
    assert PrintGroup([]) == "" && PrintSuffixes([]) == "" && PrintColons([]) == "";
    assert Print(x) == "Lx;" && Print(y) == "Ly;";
    assert [x][1..] == [] && PrintBounds([x], true) == "Lx;";
    assert PrintParam(a, false) == "A:";
    assert PrintParam(b, true) == name + (":" + "Lx;");
    assert PrintParam(b, true) == name + ":Lx;";
    assert [a, b][1..] == [b] && [b][1..] == [] && [false, true][1..] == [true] && [true][1..] == [];
    assert PrintParams([], []) == "";
    assert PrintParams([b], [true]) == name + ":Lx;" + "";
    assert PrintAll([]) == "";
    assert PrintParams([a, b], [false, true]) == "A:" + (name + ":Lx;");
  }
}
