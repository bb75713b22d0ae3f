/** Choosing a method: three phases of applicability, then the most specific of those that apply. */
module Overload {
  import opened Subtype
  import opened Supertypes

  datatype Phase = Strict | Loose | Varargs

  datatype Method = Method(id: nat, params: seq<Type>, varargs: bool)

  predicate ProperMethod(h: Hierarchy, m: Method) { forall k :: 0 <= k < |m.params| ==> Proper(h, m.params[k]) }

  predicate ProperAll(h: Hierarchy, ms: seq<Method>) { forall k :: 0 <= k < |ms| ==> ProperMethod(h, ms[k]) }

  // ---- specificity --------------------------------------------------------

  /** In the first two phases each parameter is below its counterpart; in the third only the counts are compared. */
  ghost predicate MoreSpecific(h: Hierarchy, a: Method, b: Method, ph: Phase) {
    if ph == Varargs then |a.params| >= |b.params|
    else |a.params| == |b.params| && forall k :: 0 <= k < |a.params| ==> Subtyping(h, a.params[k], b.params[k])
  }

  ghost predicate Beats(h: Hierarchy, ms: seq<Method>, m: Method, ph: Phase) {
    m in ms && forall x :: x in ms && x != m ==> MoreSpecific(h, m, x, ph)
  }

  lemma MoreSpecificTransitive(h: Hierarchy, a: Method, b: Method, c: Method, ph: Phase)
    requires Rooted(h) && ProperMethod(h, a) && ProperMethod(h, b) && ProperMethod(h, c)
    requires MoreSpecific(h, a, b, ph) && MoreSpecific(h, b, c, ph)
    ensures MoreSpecific(h, a, c, ph)
  {
    hide Subtyping, Proper;
    if ph != Varargs {
      forall k | 0 <= k < |a.params|
        ensures Subtyping(h, a.params[k], c.params[k])
      {
        SubtypingTransitive(h, a.params[k], b.params[k], c.params[k]);
      }
    }
  }

  method CompareMethods(h: Hierarchy, a: Method, b: Method, ph: Phase) returns (r: bool)
    requires Closed(h) && ProperMethod(h, a)
    ensures r <==> MoreSpecific(h, a, b, ph)
  {
    hide Subtyping, Proper;
    if ph == Varargs { return |a.params| >= |b.params|; }
    if |a.params| != |b.params| { return false; }
    for k := 0 to |a.params|
      invariant forall j :: 0 <= j < k ==> Subtyping(h, a.params[j], b.params[j])
    {
      var below := IsSubtype(h, a.params[k], b.params[k]);
      if !below { return false; }
    }
    r := true;
  }

  /** One scan for a candidate, one to confirm it: it finds a method at least as specific as all others exactly when there is one. */
  method MostSpecific(h: Hierarchy, ms: seq<Method>, ph: Phase) returns (r: Option<Method>)
    requires Closed(h) && Rooted(h) && ProperAll(h, ms) && |ms| > 0
    ensures r.Some? <==> exists m :: Beats(h, ms, m, ph)
    ensures r.Some? ==> Beats(h, ms, r.value, ph)
    ensures ph == Varargs ==> r == Some(ms[LastLongest(ms)])
  {
    hide Subtyping, Proper, ProperMethod, MoreSpecific;
    var best := ms[0];
    assert ms[..1] == [ms[0]];
    for i := 1 to |ms|
      invariant best in ms[..i]
      invariant ph == Varargs ==> best == ms[LastLongest(ms[..i])]
      invariant forall m :: Beats(h, ms, m, ph) && m in ms[..i] ==> best == m || MoreSpecific(h, best, m, ph)
    {
      ghost var was := best;
      var better := CompareMethods(h, ms[i], best, ph);
      if better { best := ms[i]; }
      ScanStep(h, ms, i, was, best, ph);
      if ph == Varargs { ByLength(h, ms[i], was); NextLongest(ms, i); }
    }
    assert ms[..|ms|] == ms;
    if ph == Varargs { LongestBeats(h, ms); }
    for i := 0 to |ms|
      invariant forall j :: 0 <= j < i && ms[j] != best ==> MoreSpecific(h, best, ms[j], ph)
    {
      if ms[i] != best {
        var beats := CompareMethods(h, best, ms[i], ph);
        if !beats {
          NoneBeats(h, ms, best, ms[i], ph);
          return None;
        }
      }
    }
    assert Beats(h, ms, best, ph);
    r := Some(best);
  }

  lemma BeatsOther(h: Hierarchy, ms: seq<Method>, m: Method, x: Method, ph: Phase)
    requires Beats(h, ms, m, ph) && x in ms
    ensures x == m || MoreSpecific(h, m, x, ph)
  {
  }

  /** The scan holds a method at least as specific as any overall winner it has passed. */
  lemma ScanStep(h: Hierarchy, ms: seq<Method>, i: nat, was: Method, best: Method, ph: Phase)
    requires Rooted(h) && ProperAll(h, ms) && 1 <= i < |ms| && was in ms[..i]
    requires best == if MoreSpecific(h, ms[i], was, ph) then ms[i] else was
    requires forall m :: Beats(h, ms, m, ph) && m in ms[..i] ==> was == m || MoreSpecific(h, was, m, ph)
    ensures best in ms[..i + 1]
    ensures forall m :: Beats(h, ms, m, ph) && m in ms[..i + 1] ==> best == m || MoreSpecific(h, best, m, ph)
  {
    hide Subtyping, Proper, MoreSpecific, ProperMethod;
    assert ms[..i + 1] == ms[..i] + [ms[i]];
    assert was in ms;
    forall m | Beats(h, ms, m, ph) && m in ms[..i + 1]
      ensures best == m || MoreSpecific(h, best, m, ph)
    {
      assert m in ms;
      if best != was && was != m && m in ms[..i] {
        MoreSpecificTransitive(h, ms[i], was, m, ph);
      }
      BeatsOther(h, ms, m, was, ph);
    }
  }

  /** A scan result that loses to one method leaves no overall winner. */
  lemma NoneBeats(h: Hierarchy, ms: seq<Method>, best: Method, x: Method, ph: Phase)
    requires Rooted(h) && ProperAll(h, ms) && best in ms && x in ms && x != best && !MoreSpecific(h, best, x, ph)
    requires forall m :: Beats(h, ms, m, ph) ==> best == m || MoreSpecific(h, best, m, ph)
    ensures !exists m :: Beats(h, ms, m, ph)
  {
    hide Subtyping, Proper, MoreSpecific, ProperMethod;
    forall m
      ensures !Beats(h, ms, m, ph)
    {
      if Beats(h, ms, m, ph) && m != best && m != x { MoreSpecificTransitive(h, best, m, x, ph); }
    }
  }

  /** Whatever the order of the candidates, any two winners are each as specific as the other. */
  lemma WinnersAgree(h: Hierarchy, ms: seq<Method>, ns: seq<Method>, m: Method, n: Method, ph: Phase)
    requires (forall x :: x in ms <==> x in ns) && Beats(h, ms, m, ph) && Beats(h, ns, n, ph)
    ensures m == n || (MoreSpecific(h, m, n, ph) && MoreSpecific(h, n, m, ph))
    ensures Beats(h, ns, m, ph) && Beats(h, ms, n, ph)
  {
    hide MoreSpecific;
  }

  // ---- the third phase ----------------------------------------------------

  /** Where the last of the candidates with the most parameters stands. */
  function LastLongest(ms: seq<Method>): (r: nat)
    requires ms != []
    ensures r < |ms|
  {
    var n := |ms| - 1;
    if n == 0 then 0
    else
      var p := LastLongest(ms[..n]);
      if |ms[n].params| >= |ms[p].params| then n else p
  }

  lemma ByLength(h: Hierarchy, a: Method, b: Method)
    ensures MoreSpecific(h, a, b, Varargs) <==> |a.params| >= |b.params|
  {
  }

  lemma NextLongest(ms: seq<Method>, i: nat)
    requires 1 <= i < |ms|
    ensures ms[..i + 1][..i] == ms[..i]
    ensures var p := LastLongest(ms[..i]); LastLongest(ms[..i + 1]) == if |ms[i].params| >= |ms[p].params| then i else p
  {
    assert ms[..i + 1][..i] == ms[..i];
  }

  lemma LongestBeats(h: Hierarchy, ms: seq<Method>)
    requires ms != []
    ensures Beats(h, ms, ms[LastLongest(ms)], Varargs)
  {
    var r := LastLongest(ms);
    LongestExactly(ms, r);
    forall x | x in ms
      ensures MoreSpecific(h, ms[r], x, Varargs)
    {
      var i :| 0 <= i < |ms| && ms[i] == x;
      ByLength(h, ms[r], ms[i]);
    }
  }

  /**
   * The third phase chooses a candidate exactly when none has more parameters and none after it has as many: a choice by
   * count and position, whatever the types are.
   */
  lemma {:induction false} LongestExactly(ms: seq<Method>, j: nat)
    requires j < |ms|
    ensures LastLongest(ms) == j <==>
              (forall i :: 0 <= i < |ms| ==> |ms[i].params| <= |ms[j].params|) && (forall i :: j < i < |ms| ==> |ms[i].params| < |ms[j].params|)
    decreases |ms|
  {
    var n := |ms| - 1;
    if n > 0 {
      var init := ms[..n];
      var p := LastLongest(init);
      LongestExactly(init, p);
      if j < n { LongestExactly(init, j); }
      assert forall i :: 0 <= i < n ==> init[i] == ms[i];
      assert |ms[p].params| >= |ms[0].params|;
    }
  }

  /** The parameter type an argument meets, the last one repeated. */
  function AtArg(m: Method, i: nat): Type
    requires m.params != [] && m.params[|m.params| - 1].Array?
  {
    if i < |m.params| - 1 then m.params[i] else m.params[|m.params| - 1].elem
  }

  /** Section 15.12.2.5 of the Java Language Specification for variable arity and n arguments. */
  ghost predicate TypeWise(h: Hierarchy, a: Method, b: Method, n: nat)
    requires a.params != [] && a.params[|a.params| - 1].Array? && b.params != [] && b.params[|b.params| - 1].Array?
  {
    && (forall i :: 0 <= i < n ==> Subtyping(h, AtArg(a, i), AtArg(b, i)))
    && (|b.params| == n + 1 ==> Subtyping(h, AtArg(a, n), AtArg(b, n)))
  }

  predicate Variable(ms: seq<Method>) { forall m :: m in ms ==> m.params != [] && m.params[|m.params| - 1].Array? }

  ghost predicate BelowOthers(h: Hierarchy, ms: seq<Method>, j: nat, n: nat)
    requires Variable(ms) && j < |ms|
  {
    forall i :: 0 <= i < |ms| && i != j ==> TypeWise(h, ms[j], ms[i], n)
  }

  /** The language's choice among candidates of variable arity: the one that is by type below every other. */
  ghost predicate OnlyByType(h: Hierarchy, ms: seq<Method>, j: nat, n: nat)
    requires Variable(ms) && j < |ms|
  {
    BelowOthers(h, ms, j, n) && forall i :: 0 <= i < |ms| && i != j ==> !BelowOthers(h, ms, i, n)
  }

  /**
   * The third phase makes the language's choice in the given order of the candidates if and only if that is the last of the
   * longest, and in every order if and only if it is longer than every other.
   */
  lemma ByTypeExactly(h: Hierarchy, ms: seq<Method>, j: nat, n: nat)
    requires Variable(ms) && j < |ms| && OnlyByType(h, ms, j, n)
    ensures ms[LastLongest(ms)] == ms[j] <==>
              (forall i :: 0 <= i < |ms| ==> |ms[i].params| <= |ms[j].params|) && (forall i :: j < i < |ms| ==> |ms[i].params| < |ms[j].params|)
    ensures (forall ns :: multiset(ns) == multiset(ms) && ns != [] ==> ns[LastLongest(ns)] == ms[j])
            <==> forall i :: 0 <= i < |ms| && i != j ==> |ms[i].params| < |ms[j].params|
  {
    hide BelowOthers;
    forall i | 0 <= i < |ms| && i != j
      ensures ms[i] != ms[j]
    {
      if ms[i] == ms[j] { DoubleBelow(h, ms, i, j, n); }
    }
    LongestExactly(ms, j);
    if forall i :: 0 <= i < |ms| && i != j ==> |ms[i].params| < |ms[j].params| {
      forall ns | multiset(ns) == multiset(ms) && ns != []
        ensures ns[LastLongest(ns)] == ms[j]
      {
        LongestAnywhere(ms, ns, j);
      }
    } else if ms[LastLongest(ms)] == ms[j] {
      var i :| 0 <= i < |ms| && i != j && |ms[i].params| >= |ms[j].params|;
      LongestLast(ms, i, j);
    }
  }

  /** A candidate that is there twice is below the others at both places. */
  lemma DoubleBelow(h: Hierarchy, ms: seq<Method>, i: nat, j: nat, n: nat)
    requires Variable(ms) && i < |ms| && j < |ms| && i != j && ms[i] == ms[j] && BelowOthers(h, ms, j, n)
    ensures BelowOthers(h, ms, i, n)
  {
    hide TypeWise;
  }

  lemma LongestAnywhere(ms: seq<Method>, ns: seq<Method>, j: nat)
    requires j < |ms| && multiset(ns) == multiset(ms) && ns != []
    requires forall i :: 0 <= i < |ms| && i != j ==> |ms[i].params| < |ms[j].params|
    ensures ns[LastLongest(ns)] == ms[j]
  {
    var r := LastLongest(ns);
    LongestExactly(ns, r);
    assert ms[j] in multiset(ns) && ns[r] in multiset(ms);
    var k :| 0 <= k < |ns| && ns[k] == ms[j];
    assert |ns[k].params| <= |ns[r].params|;
  }

  /** Moved to the end, a candidate as long as the longest is chosen. */
  lemma LongestLast(ms: seq<Method>, i: nat, j: nat)
    requires i < |ms| && j < |ms| && ms[i] != ms[j] && |ms[i].params| >= |ms[j].params| && ms[LastLongest(ms)] == ms[j]
    ensures exists ns :: multiset(ns) == multiset(ms) && ns != [] && ns[LastLongest(ns)] != ms[j]
  {
    var ns := ms[..i] + ms[i + 1..] + [ms[i]];
    MovedLast(ms, i);
    LongestExactly(ms, LastLongest(ms));
    LongestExactly(ns, |ns| - 1);
  }

  lemma MovedLast(ms: seq<Method>, i: nat)
    requires i < |ms|
    ensures var ns := ms[..i] + ms[i + 1..] + [ms[i]];
            multiset(ns) == multiset(ms) && forall k :: 0 <= k < |ns| ==> ns[k] in ms
  {
    assert ms == ms[..i] + [ms[i]] + ms[i + 1..];
  }

  /** f(String...) before f(Object...): by type only the first is most specific for one argument, and the second is chosen. */
  lemma ByTypeNotChosen(h: Hierarchy, str: nat)
    requires Rooted(h) && str != h.root
    ensures var s, o := Method(0, [Array(Class(str, []))], true), Method(1, [Array(Class(h.root, []))], true);
            TypeWise(h, s, o, 1) && !TypeWise(h, o, s, 1) && LastLongest([s, o]) == 1 && LastLongest([o, s]) == 1
  {
    var s, o := Method(0, [Array(Class(str, []))], true), Method(1, [Array(Class(h.root, []))], true);
    assert AtArg(s, 0) == Class(str, []) && AtArg(o, 0) == Class(h.root, []);
    RootAlone(h, str);
    LongestExactly([s, o], 1);
    LongestExactly([o, s], 1);
  }

  lemma RootAlone(h: Hierarchy, str: nat)
    requires Rooted(h) && str != h.root
    ensures Subtyping(h, Class(str, []), Class(h.root, [])) && !Subtyping(h, Class(h.root, []), Class(str, []))
  {
    FromRoot(h, str);
  }

  // ---- applicability ------------------------------------------------------

  /** An argument without a type of its own fits any parameter. Assignability, with boxing, is a parameter. */
  ghost predicate ArgFits(h: Hierarchy, assignable: (Type, Type) -> bool, arg: Option<Type>, param: Type, ph: Phase) {
    arg.None? || arg.value == param ||
    if ph == Strict then
      if arg.value.Basic? && param.Basic? then Widens(arg.value.prim, param.prim)
      else IsReference(arg.value) && IsReference(param) && Subtyping(h, arg.value, param)
    else assignable(arg.value, param)
  }

  /**
   * Section 15.12.2.2 of the Java Language Specification: by strict invocation an argument fits exactly the types reached from
   * its own by direct supertypes and widening. A wildcard is the type of no expression, and fits only itself.
   */
  lemma StrictExactly(h: Hierarchy, assignable: (Type, Type) -> bool, arg: Type, param: Type)
    requires Closed(h) && Rooted(h) && Proper(h, arg) && Proper(h, param)
    ensures ArgFits(h, assignable, Some(arg), param, Strict) <==> if arg.Wildcard? then arg == param else Below(h, arg, param)
  {
    hide Below;
    SubtypingExactly(h, arg, param);
    if Subtyping(h, arg, param) && !arg.Wildcard? { References(h, arg, param); }
  }

  /** Between different types only references are below references and primitives below primitives. */
  lemma References(h: Hierarchy, a: Type, b: Type)
    requires Proper(h, a) && Subtyping(h, a, b) && !a.Wildcard?
    ensures a == b || (a.Basic? && b.Basic?) || (IsReference(a) && IsReference(b))
    decreases a
  {
    if a != b {
      match a
      case TypeVar(_, bound) => References(h, bound.value, b);
      case Intersection(bounds) =>
        var k :| 0 <= k < |bounds| && Subtyping(h, bounds[k], b);
        References(h, bounds[k], b);
      case _ =>
    }
  }

  ghost predicate FitsFrom(h: Hierarchy, assignable: (Type, Type) -> bool, args: seq<Option<Type>>, lo: nat, hi: nat, param: Type) {
    forall i :: lo <= i < hi <= |args| ==> ArgFits(h, assignable, args[i], param, Loose)
  }

  ghost predicate Applicable(h: Hierarchy, assignable: (Type, Type) -> bool, m: Method, args: seq<Option<Type>>, ph: Phase) {
    if ph != Varargs then
      |args| == |m.params| && forall i :: 0 <= i < |args| ==> ArgFits(h, assignable, args[i], m.params[i], ph)
    else
      m.varargs && |m.params| > 0 &&
      var fixed := |m.params| - 1;
      && fixed <= |args|
      && (forall i :: 0 <= i < fixed ==> ArgFits(h, assignable, args[i], m.params[i], Loose))
      && m.params[fixed].Array?
      && ((|args| == |m.params| && ArgFits(h, assignable, args[fixed], m.params[fixed], Loose))
          || FitsFrom(h, assignable, args, fixed, |args|, m.params[fixed].elem))
  }

  predicate ProperArgs(h: Hierarchy, args: seq<Option<Type>>) { forall k :: 0 <= k < |args| && args[k].Some? ==> Proper(h, args[k].value) }

  method CheckArg(h: Hierarchy, assignable: (Type, Type) -> bool, arg: Option<Type>, param: Type, ph: Phase) returns (r: bool)
    requires Closed(h) && (arg.Some? ==> Proper(h, arg.value))
    ensures r <==> ArgFits(h, assignable, arg, param, ph)
  {
    if arg.None? || arg.value == param { return true; }
    if ph == Strict {
      if arg.value.Basic? && param.Basic? { return Widens(arg.value.prim, param.prim); }
      if IsReference(arg.value) && IsReference(param) {
        r := IsSubtype(h, arg.value, param);
        return;
      }
      return false;
    }
    r := assignable(arg.value, param);
  }

  method CheckApplicable(h: Hierarchy, assignable: (Type, Type) -> bool, m: Method, args: seq<Option<Type>>, ph: Phase) returns (r: bool)
    requires Closed(h) && ProperArgs(h, args)
    ensures r <==> Applicable(h, assignable, m, args, ph)
  {
    hide ArgFits, Proper;
    if ph == Varargs {
      if !m.varargs || |m.params| == 0 { return false; }
      var fixed := |m.params| - 1;
      if |args| < fixed { return false; }
      for i := 0 to fixed
        invariant forall j :: 0 <= j < i ==> ArgFits(h, assignable, args[j], m.params[j], Loose)
      {
        var fits := CheckArg(h, assignable, args[i], m.params[i], Loose);
        if !fits { return false; }
      }
      if !m.params[fixed].Array? { return false; }
      if |args| == |m.params| {
        var whole := CheckArg(h, assignable, args[fixed], m.params[fixed], Loose);
        if whole { return true; }
      }
      for i := fixed to |args|
        invariant FitsFrom(h, assignable, args, fixed, i, m.params[fixed].elem)
      {
        var fits := CheckArg(h, assignable, args[i], m.params[fixed].elem, Loose);
        if !fits { return false; }
      }
      return true;
    }
    if |args| != |m.params| { return false; }
    for i := 0 to |args|
      invariant forall j :: 0 <= j < i ==> ArgFits(h, assignable, args[j], m.params[j], ph)
    {
      var fits := CheckArg(h, assignable, args[i], m.params[i], ph);
      if !fits { return false; }
    }
    r := true;
  }

  // ---- what being more specific means -------------------------------------

  /** Arguments whose types are known, none a wildcard. */
  ghost predicate Known(h: Hierarchy, args: seq<Option<Type>>) {
    forall k :: 0 <= k < |args| ==> args[k].Some? && Proper(h, args[k].value) && !args[k].value.Wildcard?
  }

  predicate NoWildcards(m: Method) { forall k :: 0 <= k < |m.params| ==> !m.params[k].Wildcard? }

  /** Arguments of exactly a method's parameter types. */
  function Itself(m: Method): seq<Option<Type>> { seq(|m.params|, k requires 0 <= k < |m.params| => Some(m.params[k])) }

  /**
   * Section 15.12.2.5: a is at least as specific as b if and only if b takes, by strict invocation, whatever a takes.
   */
  lemma SpecificExactly(h: Hierarchy, assignable: (Type, Type) -> bool, a: Method, b: Method)
    requires Closed(h) && Rooted(h) && ProperMethod(h, a) && ProperMethod(h, b) && NoWildcards(a)
    ensures MoreSpecific(h, a, b, Strict) <==>
              forall args: seq<Option<Type>> :: Known(h, args) && Applicable(h, assignable, a, args, Strict) ==> Applicable(h, assignable, b, args, Strict)
  {
    hide Subtyping, Proper, ArgFits;
    if MoreSpecific(h, a, b, Strict) {
      forall args: seq<Option<Type>> | Known(h, args) && Applicable(h, assignable, a, args, Strict)
        ensures Applicable(h, assignable, b, args, Strict)
      {
        forall k | 0 <= k < |args| ensures ArgFits(h, assignable, args[k], b.params[k], Strict) {
          FitsAbove(h, assignable, args[k].value, a.params[k], b.params[k]);
        }
      }
    }
    if forall args: seq<Option<Type>> :: Known(h, args) && Applicable(h, assignable, a, args, Strict) ==> Applicable(h, assignable, b, args, Strict) {
      var args := Itself(a);
      forall k | 0 <= k < |args| ensures ArgFits(h, assignable, args[k], a.params[k], Strict) { FitsItself(h, assignable, a.params[k]); }
      assert Applicable(h, assignable, b, args, Strict);
      forall k | 0 <= k < |a.params| ensures Subtyping(h, a.params[k], b.params[k]) {
        FitsBelow(h, assignable, args[k].value, b.params[k]);
      }
    }
  }

  lemma FitsItself(h: Hierarchy, assignable: (Type, Type) -> bool, t: Type)
    ensures ArgFits(h, assignable, Some(t), t, Strict)
  {
  }

  lemma FitsBelow(h: Hierarchy, assignable: (Type, Type) -> bool, arg: Type, t: Type)
    requires ArgFits(h, assignable, Some(arg), t, Strict)
    ensures Subtyping(h, arg, t)
  {
    SubtypingReflexive(h, arg, []);
  }

  lemma FitsAbove(h: Hierarchy, assignable: (Type, Type) -> bool, arg: Type, t: Type, u: Type)
    requires Closed(h) && Rooted(h) && Proper(h, arg) && Proper(h, t) && Proper(h, u) && !arg.Wildcard?
    requires ArgFits(h, assignable, Some(arg), t, Strict) && Subtyping(h, t, u)
    ensures ArgFits(h, assignable, Some(arg), u, Strict)
  {
    hide Subtyping, Proper, ArgFits, Below;
    FitsBelow(h, assignable, arg, t);
    SubtypingTransitive(h, arg, t, u);
    SubtypingExactly(h, arg, u);
    StrictExactly(h, assignable, arg, u);
  }

  /**
   * Section 15.12.2.4: a method of variable arity takes its arguments as if its last parameter, an array, were written out once
   * for every argument from there on, none perhaps, or as the array itself.
   */
  lemma ExpansionExactly(h: Hierarchy, assignable: (Type, Type) -> bool, m: Method, args: seq<Option<Type>>)
    ensures Applicable(h, assignable, m, args, Varargs) <==>
              && m.varargs && m.params != [] && m.params[|m.params| - 1].Array? && |args| >= |m.params| - 1
              && ((forall i :: 0 <= i < |args| ==> ArgFits(h, assignable, args[i], AtArg(m, i), Loose))
                  || Applicable(h, assignable, m, args, Loose))
  {
    hide ArgFits;
  }

  // ---- selection ----------------------------------------------------------

  /** The outcome: a clear choice, an ambiguous one that falls back to the first applicable method, or none. */
  datatype Choice = Chosen(m: Method, ph: Phase) | Ambiguous(m: Method, ph: Phase) | NoMethod

  ghost predicate SomeApplicable(h: Hierarchy, assignable: (Type, Type) -> bool, ms: seq<Method>, args: seq<Option<Type>>, ph: Phase) {
    exists m :: m in ms && Applicable(h, assignable, m, args, ph)
  }

  function Order(p: Phase): nat {
    match p
    case Strict => 0
    case Loose => 1
    case Varargs => 2
  }

  predicate Earlier(p: Phase, q: Phase) { Order(p) < Order(q) }

  /** m is at least as specific as every other method applicable in the phase. */
  ghost predicate Wins(h: Hierarchy, assignable: (Type, Type) -> bool, ms: seq<Method>, args: seq<Option<Type>>, ph: Phase, m: Method) {
    && m in ms && Applicable(h, assignable, m, args, ph)
    && forall x :: x in ms && x != m && Applicable(h, assignable, x, args, ph) ==> MoreSpecific(h, m, x, ph)
  }

  method SelectMethod(h: Hierarchy, assignable: (Type, Type) -> bool, ms: seq<Method>, args: seq<Option<Type>>) returns (c: Choice)
    requires Closed(h) && Rooted(h) && ProperAll(h, ms) && ProperArgs(h, args)
    ensures c.NoMethod? <==> forall ph :: !SomeApplicable(h, assignable, ms, args, ph)
    ensures !c.NoMethod? ==> c.m in ms && Applicable(h, assignable, c.m, args, c.ph)
                             && forall p :: Earlier(p, c.ph) ==> !SomeApplicable(h, assignable, ms, args, p)
    ensures c.Chosen? ==> Wins(h, assignable, ms, args, c.ph, c.m)
    ensures c.Ambiguous? ==> forall m :: !Wins(h, assignable, ms, args, c.ph, m)
  {
    hide Applicable, MoreSpecific, Proper, ProperMethod;
    for i := 0 to 3
      invariant forall p :: Order(p) < i ==> !SomeApplicable(h, assignable, ms, args, p)
    {
      var ph := if i == 0 then Strict else if i == 1 then Loose else Varargs;
      var found: seq<Method> := [];
      for k := 0 to |ms|
        invariant forall m :: m in found <==> m in ms[..k] && Applicable(h, assignable, m, args, ph)
      {
        assert ms[..k + 1] == ms[..k] + [ms[k]];
        var fits := CheckApplicable(h, assignable, ms[k], args, ph);
        if fits { found := found + [ms[k]]; }
      }
      assert ms[..|ms|] == ms;
      if found != [] {
        assert found[0] in found;
        assert SomeApplicable(h, assignable, ms, args, ph);
        if |found| == 1 { return Chosen(found[0], ph); }
        var best := MostSpecific(h, found, ph) by { assert ProperAll(h, found) by { SubProper(h, ms, found); } }
        if best.Some? { return Chosen(best.value, ph); }
        forall m
          ensures !Wins(h, assignable, ms, args, ph, m)
        {
          assert !Beats(h, found, m, ph);
        }
        return Ambiguous(found[0], ph);
      }
    }
    c := NoMethod;
  }

  lemma SubProper(h: Hierarchy, ms: seq<Method>, ns: seq<Method>)
    requires ProperAll(h, ms) && forall m :: m in ns ==> m in ms
    ensures ProperAll(h, ns)
  {
    hide ProperMethod;
    forall k | 0 <= k < |ns|
      ensures ProperMethod(h, ns[k])
    {
      assert ns[k] in ms;
    }
  }
}
