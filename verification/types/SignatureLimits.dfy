/** Which of the generic signatures the parser accepts are those of the JVM Specification. */
module SignatureLimits {
  import opened Signature

  // ---- section 4.7.9.1 of the JVM Specification ---------------------------

  const FORBIDDEN := ".;[/<>:"

  predicate Identifier(name: string) { name != "" && forall k :: 0 <= k < |name| ==> name[k] !in FORBIDDEN }

  /** Identifiers with slashes between them. */
  predicate Qualified(name: string)
    decreases |name|
  {
    Identifier(name) || exists k | 0 < k < |name| - 1 :: Identifier(name[..k]) && name[k] == '/' && Qualified(name[k + 1..])
  }

  ghost predicate SpecRef(s: string, i: nat, n: nat)
    decreases n - i, 1
  {
    && i + 1 < n <= |s|
    && ((s[i] == '[' && SpecJava(s, i + 1, n))
        || (s[i] == 'T' && s[n - 1] == ';' && Identifier(s[i + 1..n - 1]))
        || (s[i] == 'L' && s[n - 1] == ';' && exists k, m | i + 1 < k <= m < n ::
              Qualified(s[i + 1..k]) && SpecGroup(s, k, m) && SpecSuffixes(s, m, n - 1)))
  }

  ghost predicate SpecJava(s: string, i: nat, n: nat)
    decreases n - i, 2
  {
    i < n <= |s| && ((i + 1 == n && s[i] in "BCDFIJSZ") || SpecRef(s, i, n))
  }

  ghost predicate SpecGroup(s: string, i: nat, n: nat)
    decreases n - i, 0
  {
    i == n || (i + 2 < n <= |s| && s[i] == '<' && s[n - 1] == '>' && SpecArgs(s, i + 1, n - 1))
  }

  /** One argument or more. */
  ghost predicate SpecArgs(s: string, i: nat, n: nat)
    decreases n - i, 4
  {
    exists k | i < k <= n :: SpecArg(s, i, k) && (k == n || SpecArgs(s, k, n))
  }

  ghost predicate SpecArg(s: string, i: nat, n: nat)
    decreases n - i, 3
  {
    i < n <= |s| && if i + 1 == n then s[i] == '*' else SpecRef(s, if s[i] == '+' || s[i] == '-' then i + 1 else i, n)
  }

  ghost predicate SpecSuffixes(s: string, i: nat, n: nat)
    decreases n - i, 4
  {
    i == n || (i < n <= |s| && s[i] == '.' && exists k, m | i + 1 < k <= m <= n ::
                 Identifier(s[i + 1..k]) && SpecGroup(s, k, m) && SpecSuffixes(s, m, n))
  }

  // ---- what a conforming signature is read as -----------------------------

  predicate Clean(t: Type) {
    match t
    case Base(c) => c in "BCDFIJSZ"
    case Array(e) => Clean(e)
    case Var(name) => Identifier(name)
    case Class(name, args, suffix) =>
      && Qualified(name) && (forall a :: a in args ==> CleanArg(a))
      && forall x :: x in suffix ==> Identifier(x.name) && forall a :: a in x.args ==> CleanArg(a)
  }

  predicate CleanArg(a: Arg) { a.Any? || Clean(a.t) }

  predicate CleanArgs(as': seq<Arg>) { forall a :: a in as' ==> CleanArg(a) }

  predicate CleanSuffixes(ss: seq<Suffix>) { forall x :: x in ss ==> Identifier(x.name) && CleanArgs(x.args) }

  /** No angle bracket closes at once. */
  predicate Filled(s: string, i: nat, n: nat) {
    forall k :: i <= k < n - 1 < |s| ==> !(s[k] == '<' && s[k + 1] == '>')
  }

  /** The window neither begins nor ends as half of an empty pair of brackets. */
  predicate Sealed(s: string, i: nat, n: nat) { i <= n <= |s| && Filled(s, i, n) && (i < n ==> s[i] != '>' && s[n - 1] != '<') }

  lemma Join(s: string, i: nat, k: nat, n: nat)
    requires i <= k <= n <= |s| && Filled(s, i, k) && Filled(s, k, n) && (i < k < n ==> s[k - 1] != '<' || s[k] != '>')
    ensures Filled(s, i, n)
  {
  }

  lemma NoBracket(s: string, i: nat, n: nat)
    requires i <= n <= |s| && forall k :: i <= k < n ==> s[k] != '<'
    ensures Filled(s, i, n)
  {
  }

  lemma IdentifierIs(s: string, i: nat, k: nat, stops: string)
    requires i < k <= |s| && Identifier(s[i..k]) && forall c :: c in stops ==> c in FORBIDDEN
    ensures Name(s, i, k, s[i..k], stops) && forall j :: i <= j < k ==> s[j] != '<' && s[j] != '>'
  {
    forall j | i <= j < k ensures s[j] !in FORBIDDEN { assert s[j] == s[i..k][j - i]; }
    assert '<' in FORBIDDEN && '>' in FORBIDDEN by { assert FORBIDDEN[4] == '<' && FORBIDDEN[5] == '>'; }
  }

  lemma {:induction false} QualifiedIs(name: string)
    requires Qualified(name)
    ensures name != "" && forall k :: 0 <= k < |name| ==> name[k] !in ".;[<>:"
    decreases |name|
  {
    if !Identifier(name) {
      var k :| 0 < k < |name| - 1 && Identifier(name[..k]) && name[k] == '/' && Qualified(name[k + 1..]);
      QualifiedIs(name[k + 1..]);
      forall j | 0 <= j < |name| ensures name[j] !in ".;[<>:" {
        if j < k { assert name[j] == name[..k][j]; } else if j > k { assert name[j] == name[k + 1..][j - k - 1]; }
      }
    }
  }

  lemma QualifiedStops(s: string, i: nat, k: nat)
    requires i < k <= |s| && Qualified(s[i..k])
    ensures Name(s, i, k, s[i..k], NAME_STOPS) && forall j :: i <= j < k ==> s[j] != '<' && s[j] != '>'
  {
    QualifiedIs(s[i..k]);
    forall j | i <= j < k ensures s[j] !in ".;[<>:" { assert s[j] == s[i..k][j - i]; }
  }

  // ---- what conforms is read as a clean tree ------------------------------

  lemma {:induction false} RefConforms(s: string, i: nat, n: nat) returns (t: Type)
    requires SpecRef(s, i, n)
    ensures Ref(t, s, i, n) && Clean(t) && Sealed(s, i, n)
    decreases n - i, 1
  {
    if s[i] == '[' {
      var e := JavaConforms(s, i + 1, n);
      t := Array(e);
      Join(s, i, i + 1, n);
    } else if s[i] == 'T' {
      t := Var(s[i + 1..n - 1]);
      IdentifierIs(s, i + 1, n - 1, ";");
      NoBracket(s, i, n);
    } else {
      t := ClassConforms(s, i, n);
    }
  }

  lemma {:induction false} ClassConforms(s: string, i: nat, n: nat) returns (t: Type)
    requires SpecRef(s, i, n) && s[i] == 'L'
    ensures t.Class? && Ref(t, s, i, n) && Clean(t) && Sealed(s, i, n)
    decreases n - i, 0
  {
    hide Qualified, Identifier, SpecGroup, SpecSuffixes, Suffixes, Group, Filled, Name;
    var k, m :| i + 1 < k <= m < n && Qualified(s[i + 1..k]) && SpecGroup(s, k, m) && SpecSuffixes(s, m, n - 1);
    QualifiedStops(s, i + 1, k);
    var args := GroupConforms(s, k, m);
    var suffix := SuffixesConform(s, m, n - 1);
    t := Class(s[i + 1..k], args, suffix);
    assert Named(t.name, args, suffix, s, i + 1, n - 1);
    NoBracket(s, i, k);
    NoBracket(s, n - 1, n);
    Join(s, i, k, m);
    Join(s, i, m, n - 1);
    Join(s, i, n - 1, n);
  }

  lemma {:induction false} JavaConforms(s: string, i: nat, n: nat) returns (t: Type)
    requires SpecJava(s, i, n)
    ensures Java(t, s, i, n) && Clean(t) && Sealed(s, i, n)
    decreases n - i, 2
  {
    if i + 1 == n && s[i] in "BCDFIJSZ" { t := Base(s[i]); } else { t := RefConforms(s, i, n); }
  }

  lemma {:induction false} GroupConforms(s: string, i: nat, n: nat) returns (as': seq<Arg>)
    requires SpecGroup(s, i, n) && i <= |s|
    ensures Group(as', s, i, n) && CleanArgs(as') && Sealed(s, i, n)
    decreases n - i, 0
  {
    if i == n {
      as' := [];
    } else {
      as' := ArgsConform(s, i + 1, n - 1);
      Join(s, i, i + 1, n - 1);
      Join(s, i, n - 1, n);
    }
  }

  lemma {:induction false} ArgsConform(s: string, i: nat, n: nat) returns (as': seq<Arg>)
    requires SpecArgs(s, i, n)
    ensures Args(as', s, i, n) && CleanArgs(as') && Sealed(s, i, n)
    decreases n - i, 4
  {
    var k :| i < k <= n && SpecArg(s, i, k) && (k == n || SpecArgs(s, k, n));
    var a := ArgConforms(s, i, k);
    var rest := [];
    if k < n { rest := ArgsConform(s, k, n); }
    as' := [a] + rest;
    assert as'[0] == a && as'[1..] == rest && OneArg(as'[0], s, i, k) && Args(as'[1..], s, k, n);
    Join(s, i, k, n);
  }

  lemma {:induction false} ArgConforms(s: string, i: nat, n: nat) returns (a: Arg)
    requires SpecArg(s, i, n)
    ensures OneArg(a, s, i, n) && CleanArg(a) && Sealed(s, i, n)
    decreases n - i, 3
  {
    if i + 1 == n {
      a := Any;
    } else if s[i] == '+' || s[i] == '-' {
      var t := RefConforms(s, i + 1, n);
      a := if s[i] == '+' then Extends(t) else Super(t);
      Join(s, i, i + 1, n);
    } else {
      var t := RefConforms(s, i, n);
      a := Plain(t);
    }
  }

  lemma {:induction false} SuffixesConform(s: string, i: nat, n: nat) returns (ss: seq<Suffix>)
    requires SpecSuffixes(s, i, n) && i <= |s|
    ensures Suffixes(ss, s, i, n) && CleanSuffixes(ss) && Sealed(s, i, n)
    decreases n - i, 4
  {
    if i == n {
      ss := [];
    } else {
      var k, m :| i + 1 < k <= m <= n && Identifier(s[i + 1..k]) && SpecGroup(s, k, m) && SpecSuffixes(s, m, n);
      IdentifierIs(s, i + 1, k, NAME_STOPS);
      var args := GroupConforms(s, k, m);
      var rest := SuffixesConform(s, m, n);
      ss := [Suffix(s[i + 1..k], args)] + rest;
      assert ss[1..] == rest && Named(ss[0].name, args, rest, s, i + 1, n);
      NoBracket(s, i, k);
      Join(s, i, k, m);
      Join(s, i, m, n);
    }
  }

  // ---- what is read as a clean tree conforms ------------------------------

  lemma {:induction false} RefClean(t: Type, s: string, i: nat, n: nat)
    requires Ref(t, s, i, n) && Clean(t) && Filled(s, i, n)
    ensures SpecRef(s, i, n)
    decreases n - i, 1
  {
    match t
    case Array(e) => JavaClean(e, s, i + 1, n);
    case Var(name) =>
    case Class(name, args, suffix) =>
      assert Named(name, args, suffix, s, i + 1, n - 1);
      var k, m :| i + 1 < k <= m <= n - 1 && Name(s, i + 1, k, name, NAME_STOPS) && Group(args, s, k, m) && Suffixes(suffix, s, m, n - 1);
      GroupClean(args, s, k, m);
      SuffixesClean(suffix, s, m, n - 1);
  }

  lemma {:induction false} JavaClean(t: Type, s: string, i: nat, n: nat)
    requires Java(t, s, i, n) && Clean(t) && Filled(s, i, n)
    ensures SpecJava(s, i, n)
    decreases n - i, 2
  {
    if !t.Base? { RefClean(t, s, i, n); }
  }

  lemma {:induction false} GroupClean(as': seq<Arg>, s: string, i: nat, n: nat)
    requires Group(as', s, i, n) && CleanArgs(as') && Filled(s, i, n) && n <= |s|
    ensures SpecGroup(s, i, n)
    decreases n - i, 0
  {
    if i != n {
      ArgsClean(as', s, i + 1, n - 1);
    }
  }

  lemma {:induction false} ArgsClean(as': seq<Arg>, s: string, i: nat, n: nat)
    requires Args(as', s, i, n) && CleanArgs(as') && Filled(s, i, n) && i < n <= |s|
    ensures SpecArgs(s, i, n)
    decreases n - i, 4
  {
    var k :| i < k <= n && OneArg(as'[0], s, i, k) && Args(as'[1..], s, k, n);
    assert as'[0] in as' && CleanArg(as'[0]);
    ArgClean(as'[0], s, i, k);
    if k < n { ArgsClean(as'[1..], s, k, n); }
  }

  lemma {:induction false} ArgClean(a: Arg, s: string, i: nat, n: nat)
    requires OneArg(a, s, i, n) && CleanArg(a) && Filled(s, i, n)
    ensures SpecArg(s, i, n)
    decreases n - i, 3
  {
    match a
    case Any =>
    case Extends(t) => RefClean(t, s, i + 1, n);
    case Super(t) => RefClean(t, s, i + 1, n);
    case Plain(t) => RefClean(t, s, i, n);
  }

  lemma {:induction false} SuffixesClean(ss: seq<Suffix>, s: string, i: nat, n: nat)
    requires Suffixes(ss, s, i, n) && CleanSuffixes(ss) && Filled(s, i, n)
    ensures SpecSuffixes(s, i, n)
    decreases n - i, 4
  {
    if ss != [] {
      var x := ss[0];
      assert Named(x.name, x.args, ss[1..], s, i + 1, n);
      var k, m :| i + 1 < k <= m <= n && Name(s, i + 1, k, x.name, NAME_STOPS) && Group(x.args, s, k, m) && Suffixes(ss[1..], s, m, n);
      GroupClean(x.args, s, k, m);
      SuffixesClean(ss[1..], s, m, n);
    }
  }

  /**
   * The field signatures of section 4.7.9.1 of the JVM Specification are exactly those read as a tree without void and with
   * legal names, and written without empty angle brackets; every other string the parser accepts lies outside it.
   */
  lemma ConformsExactly(s: string)
    ensures SpecRef(s, 0, |s|) <==> ReadField(s).Some? && Clean(ReadField(s).value) && Filled(s, 0, |s|)
  {
    hide Ref, SpecRef, Clean, Filled, ReadField;
    if SpecRef(s, 0, |s|) {
      var t := RefConforms(s, 0, |s|);
      FieldExactly(s, t);
    }
    if ReadField(s).Some? && Clean(ReadField(s).value) && Filled(s, 0, |s|) {
      FieldExactly(s, ReadField(s).value);
      RefClean(ReadField(s).value, s, 0, |s|);
    }
  }

  /** An unnamed type variable, an array of void, empty brackets and a bracket in a name are all accepted. */
  lemma StrayAccepted(s: string)
    requires s in {"T;", "[V", "La<>;", "La[;"}
    ensures ReadField(s).Some? && !SpecRef(s, 0, |s|)
  {
    var t := if s == "T;" then Var("") else if s == "[V" then Array(Base('V')) else if s == "La<>;" then Class("a", [], []) else Class("a[", [], []);
    ConformsExactly(s);
    FieldExactly(s, t);
    hide SpecRef, ReadField;
    if t.Class? {
      var k := 1 + |t.name|;
      assert Name(s, 1, k, t.name, NAME_STOPS);
      assert Group([], s, k, |s| - 1) by { assert Args([], s, k + 1, k + 1); }
      assert Suffixes([], s, |s| - 1, |s| - 1);
      assert Named(t.name, [], [], s, 1, |s| - 1);
    }
    assert Ref(t, s, 0, |s|);
    if s == "La<>;" { assert s[2] == '<' && s[3] == '>'; }
    if s == "La[;" { assert "a["[1] == FORBIDDEN[2]; }
  }
}
