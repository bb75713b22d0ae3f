/** Subtyping over a class graph that may have cycles. */
module Subtype {

  datatype Option<T> = None | Some(value: T)

  /** Classes are numbered. Parents are the superclass, if any, then the direct interfaces. */
  datatype Hierarchy = Hierarchy(parents: map<nat, seq<nat>>, root: nat, cloneable: nat, serializable: nat)

  predicate Closed(h: Hierarchy) { forall c, p :: c in h.parents && p in h.parents[c] ==> p in h.parents }

  // ---- reachability -------------------------------------------------------

  ghost predicate ReachIn(h: Hierarchy, a: nat, b: nat, n: nat)
    decreases n
  {
    if n == 0 then a == b else a in h.parents && exists p :: p in h.parents[a] && ReachIn(h, p, b, n - 1)
  }

  ghost predicate Reach(h: Hierarchy, a: nat, b: nat) { exists n: nat :: ReachIn(h, a, b, n) }

  lemma ReachSelf(h: Hierarchy, a: nat)
    ensures Reach(h, a, a)
  {
    assert ReachIn(h, a, a, 0);
  }

  lemma ReachUp(h: Hierarchy, a: nat, p: nat, b: nat)
    requires a in h.parents && p in h.parents[a] && Reach(h, p, b)
    ensures Reach(h, a, b)
  {
    var n: nat :| ReachIn(h, p, b, n);
    assert ReachIn(h, a, b, n + 1);
  }

  lemma {:induction false} ReachThen(h: Hierarchy, a: nat, b: nat, c: nat, n: nat)
    requires ReachIn(h, a, b, n) && Reach(h, b, c)
    ensures Reach(h, a, c)
    decreases n
  {
    if n > 0 {
      var p :| p in h.parents[a] && ReachIn(h, p, b, n - 1);
      ReachThen(h, p, b, c, n - 1);
      ReachUp(h, a, p, c);
    }
  }

  lemma ReachTransitive(h: Hierarchy, a: nat, b: nat, c: nat)
    requires Reach(h, a, b) && Reach(h, b, c)
    ensures Reach(h, a, c)
  {
    var n: nat :| ReachIn(h, a, b, n);
    ReachThen(h, a, b, c, n);
  }

  /** A set that holds the parents of its members holds all they reach. */
  ghost predicate Upward(h: Hierarchy, s: set<nat>) {
    forall c, p :: c in s && c in h.parents && p in h.parents[c] ==> p in s
  }

  lemma {:induction false} UpwardReach(h: Hierarchy, s: set<nat>, a: nat, b: nat, n: nat)
    requires Upward(h, s) && a in s && ReachIn(h, a, b, n)
    ensures b in s
    decreases n
  {
    if n > 0 {
      var p :| p in h.parents[a] && ReachIn(h, p, b, n - 1);
      UpwardReach(h, s, p, b, n - 1);
    }
  }

  lemma AllReached(h: Hierarchy, s: set<nat>, a: nat)
    requires Upward(h, s) && a in s
    ensures forall x :: Reach(h, a, x) ==> x in s
  {
    forall x | Reach(h, a, x)
      ensures x in s
    {
      var n: nat :| ReachIn(h, a, x, n);
      UpwardReach(h, s, a, x, n);
    }
  }

  // ---- the depth-first search ---------------------------------------------

  /** The visited set every level of one search shares and marks. */
  class Search {
    const h: Hierarchy
    var seen: set<nat>

    constructor (h: Hierarchy)
      ensures this.h == h && seen == {}
    {
      this.h, this.seen := h, {};
    }

    /** On failure everything newly visited has its parents visited, and the target is not among them. */
    method ClassSubtype(sub: nat, sup: nat) returns (r: bool)
      requires Closed(h) && sub in h.parents && seen <= h.parents.Keys && sup !in seen && (sup == h.root ==> sub !in seen)
      modifies this
      ensures r ==> sup == h.root || Reach(h, sub, sup)
      ensures !r ==> sup != h.root && old(seen) + {sub} <= seen <= h.parents.Keys && sup !in seen
      ensures !r ==> forall c, p :: c in seen - old(seen) && p in h.parents[c] ==> p in seen
      decreases h.parents.Keys - seen
    {
      if sub == sup {
        ReachSelf(h, sub);
        return true;
      }
      if sub in seen { return false; }
      ghost var before := seen;
      seen := seen + {sub};
      if sup == h.root { return true; }
      var ps := h.parents[sub];
      for k := 0 to |ps|
        invariant before + {sub} <= seen <= h.parents.Keys && sup !in seen
        invariant forall j :: 0 <= j < k ==> ps[j] in seen
        invariant forall c, p :: c in seen - before && c != sub && p in h.parents[c] ==> p in seen
      {
        assert ps[k] in h.parents[sub];
        ghost var was := seen;
        var found := ClassSubtype(ps[k], sup);
        if found {
          ReachUp(h, sub, ps[k], sup);
          return true;
        }
        assert forall c :: c in seen - before ==> c in seen - was || c in was - before;
      }
      r := false;
    }
  }

  /** The search answers, from nothing visited, whether the target is Object or is reachable. */
  method IsSubclass(h: Hierarchy, sub: nat, sup: nat) returns (r: bool)
    requires Closed(h) && sub in h.parents
    ensures r <==> Subclass(h, sub, sup)
  {
    var s := new Search(h);
    r := s.ClassSubtype(sub, sup);
    if !r {
      ghost var seen := s.seen;
      if Reach(h, sub, sup) {
        ghost var n: nat :| ReachIn(h, sub, sup, n);
        UpwardReach(h, seen, sub, sup, n);
        assert false;
      }
    }
  }

  ghost predicate Subclass(h: Hierarchy, sub: nat, sup: nat) { sup == h.root || Reach(h, sub, sup) }

  // ---- all supertypes, breadth first --------------------------------------

  ghost predicate NoRepeats(s: seq<nat>) { forall i, j :: 0 <= i < j < |s| ==> s[i] != s[j] }

  function Elems(s: seq<nat>): set<nat> { set x | x in s }

  lemma ElemsMore(s: seq<nat>, x: nat)
    ensures Elems(s + [x]) == Elems(s) + {x} && (x in s <==> x in Elems(s))
    ensures NoRepeats(s) && x !in s ==> NoRepeats(s + [x])
  {
  }

  lemma ElemsFirst(s: seq<nat>)
    requires s != [] && NoRepeats(s)
    ensures Elems(s) == {s[0]} + Elems(s[1..]) && s[0] !in Elems(s[1..]) && NoRepeats(s[1..])
  {
  }

  lemma ElemsNone()
    ensures Elems([]) == {}
  {
  }

  lemma ElemsAre(s: seq<nat>)
    ensures forall x :: x in s <==> x in Elems(s)
  {
  }

  lemma NextSuper(h: Hierarchy, c: nat, cur: nat, p: nat)
    requires Closed(h) && cur in h.parents && p in h.parents[cur] && Reach(h, c, cur)
    ensures Reach(h, c, p) && p in h.parents
  {
    hide Reach;
    ReachSelf(h, p);
    ReachUp(h, cur, p, p);
    ReachTransitive(h, c, cur, p);
  }

  /** Every other class reachable, each once. */
  method Supers(h: Hierarchy, c: nat) returns (out: seq<nat>)
    requires Closed(h) && c in h.parents
    ensures forall x :: x in out <==> x != c && Reach(h, c, x)
    ensures NoRepeats(out)
  {
    out := [];
    var queue := [c];
    var seen := {c};
    ghost var done: set<nat> := {};
    ReachSelf(h, c);
    ElemsMore([], c);
    assert [] + [c] == queue;
    hide Elems, NoRepeats, Reach, Closed;
    while queue != []
      invariant seen == done + Elems(queue) && seen == {c} + Elems(out) && c !in Elems(out)
      invariant seen <= h.parents.Keys && forall x :: x in seen ==> Reach(h, c, x)
      invariant done !! Elems(queue) && NoRepeats(queue) && NoRepeats(out)
      invariant forall x, p :: x in done && p in h.parents[x] ==> p in seen
      decreases h.parents.Keys - done
    {
      ElemsFirst(queue);
      var cur := queue[0];
      queue := queue[1..];
      done := done + {cur};
      var ps := h.parents[cur];
      for k := 0 to |ps|
        invariant seen == done + Elems(queue) && seen == {c} + Elems(out) && c !in Elems(out)
        invariant seen <= h.parents.Keys && forall x :: x in seen ==> Reach(h, c, x)
        invariant done !! Elems(queue) && NoRepeats(queue) && NoRepeats(out)
        invariant forall x, p :: x in done && x != cur && p in h.parents[x] ==> p in seen
        invariant forall j :: 0 <= j < k ==> ps[j] in seen
      {
        if ps[k] !in seen {
          NextSuper(h, c, cur, ps[k]);
          ElemsMore(out, ps[k]);
          ElemsMore(queue, ps[k]);
          seen := seen + {ps[k]};
          out := out + [ps[k]];
          queue := queue + [ps[k]];
        }
      }
    }
    ElemsNone();
    ElemsAre(out);
    AllReached(h, seen, c);
  }

  // ---- types --------------------------------------------------------------

  datatype Prim = Boolean | Byte | Short | Char | Int | Long | Float | Double

  /** Error-free types. Type arguments take part in identity and in nothing else; a variable carries its bound. */
  datatype Type =
    | Void
    | Null
    | Basic(prim: Prim)
    | Class(sym: nat, args: seq<Type>)
    | Array(elem: Type)
    | TypeVar(id: nat, bound: Option<Type>)
    | Wildcard(upper: Option<Type>)
    | Intersection(bounds: seq<Type>)

  predicate Widens(f: Prim, t: Prim) {
    f == t ||
    match f
    case Byte => t == Short || t == Int || t == Long || t == Float || t == Double
    case Short => t == Int || t == Long || t == Float || t == Double
    case Char => t == Int || t == Long || t == Float || t == Double
    case Int => t == Long || t == Float || t == Double
    case Long => t == Float || t == Double
    case Float => t == Double
    case _ => false
  }

  predicate IsReference(t: Type) { t.Class? || t.Array? || t.TypeVar? || t.Intersection? || t.Null? }

  ghost predicate Subtyping(h: Hierarchy, a: Type, b: Type)
    decreases a
  {
    if a == b then true
    else if a.Null? then IsReference(b)
    else if a.Basic? || b.Basic? then a.Basic? && b.Basic? && Widens(a.prim, b.prim)
    else match a
      case Array(e) =>
        if b.Array? then
          if e.Basic? || b.elem.Basic? then e == b.elem else Subtyping(h, e, b.elem)
        else b.Class? && (b.sym == h.root || b.sym == h.cloneable || b.sym == h.serializable)
      case TypeVar(_, bound) => bound.Some? && Subtyping(h, bound.value, b)
      case Intersection(bounds) => exists k :: 0 <= k < |bounds| && Subtyping(h, bounds[k], b)
      case Wildcard(bound) =>
        if bound.Some? then Subtyping(h, bound.value, b) else b.Class? && b.sym == h.root
      case Class(sym, _) => b.Class? && Subclass(h, sym, b.sym)
      case _ => false
  }

  /** Classes are in the graph; bounds are reference types. */
  predicate Proper(h: Hierarchy, t: Type) {
    match t
    case Class(sym, args) => sym in h.parents && forall k :: 0 <= k < |args| ==> Proper(h, args[k])
    case Array(e) => Proper(h, e)
    case TypeVar(_, bound) => bound.Some? ==> Proper(h, bound.value) && IsReference(bound.value)
    case Wildcard(bound) => bound.Some? ==> Proper(h, bound.value) && IsReference(bound.value)
    case Intersection(bounds) => forall k :: 0 <= k < |bounds| ==> Proper(h, bounds[k]) && IsReference(bounds[k])
    case _ => true
  }

  /** The question the checker asks, answered by structural recursion and the search. */
  method IsSubtype(h: Hierarchy, a: Type, b: Type) returns (r: bool)
    requires Closed(h) && Proper(h, a)
    ensures r <==> Subtyping(h, a, b)
    decreases a
  {
    if a == b { return true; }
    if a.Null? { return IsReference(b); }
    if a.Basic? || b.Basic? { return a.Basic? && b.Basic? && Widens(a.prim, b.prim); }
    match a
    case Array(e) =>
      if b.Array? {
        if e.Basic? || b.elem.Basic? { return e == b.elem; }
        r := IsSubtype(h, e, b.elem);
      } else {
        r := b.Class? && (b.sym == h.root || b.sym == h.cloneable || b.sym == h.serializable);
      }
    case TypeVar(_, bound) =>
      if bound.None? { return false; }
      r := IsSubtype(h, bound.value, b);
    case Intersection(bounds) =>
      for k := 0 to |bounds|
        invariant forall j :: 0 <= j < k ==> !Subtyping(h, bounds[j], b)
      {
        var one := IsSubtype(h, bounds[k], b);
        if one { return true; }
      }
      r := false;
    case Wildcard(bound) =>
      if bound.Some? { r := IsSubtype(h, bound.value, b); } else { r := b.Class? && b.sym == h.root; }
    case Class(sym, _) =>
      if !b.Class? { return false; }
      r := IsSubclass(h, sym, b.sym);
    case _ => r := false;
  }

  // ---- order laws ---------------------------------------------------------

  /** Object has no parent, and Cloneable and Serializable have none but Object. */
  predicate Rooted(h: Hierarchy) {
    && (h.root in h.parents ==> h.parents[h.root] == [])
    && (forall c :: c in h.parents && (c == h.cloneable || c == h.serializable) ==> forall p :: p in h.parents[c] ==> p == h.root)
  }

  lemma FromRoot(h: Hierarchy, c: nat)
    requires Rooted(h)
    ensures Reach(h, h.root, c) ==> c == h.root
  {
    if Reach(h, h.root, c) {
      var n: nat :| ReachIn(h, h.root, c, n);
    }
  }

  lemma FromMarker(h: Hierarchy, m: nat, c: nat)
    requires Rooted(h) && (m == h.cloneable || m == h.serializable)
    ensures Reach(h, m, c) ==> c == m || c == h.root
  {
    if Reach(h, m, c) {
      var n: nat :| ReachIn(h, m, c, n);
      if n > 0 {
        var p :| p in h.parents[m] && ReachIn(h, p, c, n - 1);
        FromRoot(h, c);
      }
    }
  }

  lemma SubclassTransitive(h: Hierarchy, a: nat, b: nat, c: nat)
    requires Rooted(h) && Subclass(h, a, b) && Subclass(h, b, c)
    ensures Subclass(h, a, c)
  {
    FromRoot(h, c);
    if c != h.root && b != h.root { ReachTransitive(h, a, b, c); }
  }

  lemma WidensTransitive(a: Prim, b: Prim, c: Prim)
    requires Widens(a, b) && Widens(b, c)
    ensures Widens(a, c)
  {
  }

  /** Subtyping is transitive on error-free types whose bounds are reference types. */
  lemma {:induction false} SubtypingTransitive(h: Hierarchy, a: Type, b: Type, c: Type)
    requires Rooted(h) && Proper(h, a) && Proper(h, b) && Proper(h, c) && Subtyping(h, a, b) && Subtyping(h, b, c)
    ensures Subtyping(h, a, c)
    decreases a, b
  {
    if a == b || b == c {
    } else if a.Null? {
      NullBelow(h, b, c);
    } else {
      match a
      case Basic(_) =>
        if b.Basic? && c.Basic? { WidensTransitive(a.prim, b.prim, c.prim); }
      case Array(e) => ArrayTransitive(h, a, b, c);
      case TypeVar(_, bound) => SubtypingTransitive(h, bound.value, b, c);
      case Intersection(bounds) =>
        var k :| 0 <= k < |bounds| && Subtyping(h, bounds[k], b);
        SubtypingTransitive(h, bounds[k], b, c);
        AboveIntersection(h, a, k, c);
      case Wildcard(bound) =>
        if bound.Some? {
          SubtypingTransitive(h, bound.value, b, c);
          AboveWildcard(h, a, c);
        } else {
          ClassAbove(h, b, c);
          FromRoot(h, c.sym);
        }
      case Class(sym, _) =>
        ClassAbove(h, b, c);
        SubclassTransitive(h, sym, b.sym, c.sym);
      case _ =>
    }
  }

  lemma NullBelow(h: Hierarchy, b: Type, c: Type)
    requires Proper(h, b) && IsReference(b) && Subtyping(h, b, c)
    ensures IsReference(c)
    decreases b
  {
    if b != c {
      match b
      case TypeVar(_, bound) => NullBelow(h, bound.value, c);
      case Intersection(bounds) =>
        var k :| 0 <= k < |bounds| && Subtyping(h, bounds[k], c);
        NullBelow(h, bounds[k], c);
      case _ =>
    }
  }

  lemma AboveIntersection(h: Hierarchy, a: Type, k: nat, c: Type)
    requires a.Intersection? && k < |a.bounds| && Subtyping(h, a.bounds[k], c)
    requires Proper(h, a)
    ensures Subtyping(h, a, c)
  {
    NotBasic(h, a.bounds[k], c);
  }

  /** Only a primitive is below a primitive. */
  lemma NotBasic(h: Hierarchy, b: Type, c: Type)
    ensures Subtyping(h, b, c) && c.Basic? ==> b.Basic?
  {
  }

  lemma AboveWildcard(h: Hierarchy, a: Type, c: Type)
    requires a.Wildcard? && a.upper.Some? && Subtyping(h, a.upper.value, c) && Proper(h, a)
    ensures Subtyping(h, a, c)
  {
    NotBasic(h, a.upper.value, c);
  }

  lemma ClassAbove(h: Hierarchy, b: Type, c: Type)
    requires b.Class? && Subtyping(h, b, c)
    ensures c.Class? && Subclass(h, b.sym, c.sym)
  {
    ReachSelf(h, b.sym);
  }

  lemma {:induction false} ArrayTransitive(h: Hierarchy, a: Type, b: Type, c: Type)
    requires Rooted(h) && Proper(h, a) && Proper(h, b) && Proper(h, c) && a.Array? && Subtyping(h, a, b) && Subtyping(h, b, c)
    ensures Subtyping(h, a, c)
    decreases a, b, 0
  {
    if b.Class? {
      ClassAbove(h, b, c);
      FromRoot(h, c.sym);
      if b.sym != h.root { FromMarker(h, b.sym, c.sym); }
    } else if b.Array? && c.Array? && a != b && b != c && !a.elem.Basic? && !b.elem.Basic? && !c.elem.Basic? {
      SubtypingTransitive(h, a.elem, b.elem, c.elem);
    }
  }

  /** Reflexive by identity; and every class type is below Object. */
  lemma SubtypingReflexive(h: Hierarchy, a: Type, args: seq<Type>)
    ensures Subtyping(h, a, a)
    ensures a.Class? ==> Subtyping(h, a, Class(h.root, args))
  {
  }
}
