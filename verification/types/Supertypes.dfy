/** Subtyping from below: the direct supertypes of section 4.10 of the Java Language Specification, and what they generate. */
module Supertypes {
  import opened Subtype

  // ---- direct supertypes --------------------------------------------------

  /** A class to a direct superclass or superinterface and to Object; type arguments do not matter. */
  ghost predicate ClassStep(h: Hierarchy, a: Type, b: Type) {
    a.Class? && b.Class? && (a.sym == b.sym || b.sym == h.root || (a.sym in h.parents && b.sym in h.parents[a.sym]))
  }

  /** An array to Object, Cloneable and Serializable. */
  ghost predicate ArrayRootStep(h: Hierarchy, a: Type, b: Type) {
    a.Array? && b.Class? && (b.sym == h.root || b.sym == h.cloneable || b.sym == h.serializable)
  }

  /** S[] to T[] where T is a direct supertype of the reference type S. */
  ghost predicate ArrayStep(h: Hierarchy, a: Type, b: Type)
    decreases a, 0
  {
    a.Array? && b.Array? && !a.elem.Basic? && !b.elem.Basic? && Direct(h, a.elem, b.elem)
  }

  ghost predicate NullStep(a: Type, b: Type) { a.Null? && (b.Class? || b.Array? || b.TypeVar? || b.Intersection?) }

  /** A type variable and a wildcard to what bounds them. */
  ghost predicate BoundStep(h: Hierarchy, a: Type, b: Type) {
    || (a.TypeVar? && a.bound == Some(b))
    || (a.Wildcard? && (if a.upper.Some? then b == a.upper.value else b.Class? && b.sym == h.root))
  }

  ghost predicate MeetStep(a: Type, b: Type) { a.Intersection? && b in a.bounds }

  /** A primitive to the next wider. */
  ghost predicate WiderStep(a: Type, b: Type) {
    a.Basic? && b.Basic? &&
    match a.prim
    case Byte => b.prim == Short
    case Short => b.prim == Int
    case Char => b.prim == Int
    case Int => b.prim == Long
    case Long => b.prim == Float
    case Float => b.prim == Double
    case _ => false
  }

  ghost predicate Direct(h: Hierarchy, a: Type, b: Type)
    decreases a, 1
  {
    ClassStep(h, a, b) || ArrayRootStep(h, a, b) || ArrayStep(h, a, b) || NullStep(a, b) || BoundStep(h, a, b) || MeetStep(a, b) || WiderStep(a, b)
  }

  /** From a up to b in n direct steps through types whose bounds are reference types. */
  ghost predicate Climbs(h: Hierarchy, a: Type, b: Type, n: nat)
    decreases n
  {
    if n == 0 then a == b else exists m :: Proper(h, m) && Direct(h, a, m) && Climbs(h, m, b, n - 1)
  }

  /** The least reflexive and transitive relation that holds the direct supertypes. */
  ghost predicate Below(h: Hierarchy, a: Type, b: Type) { exists n: nat :: Climbs(h, a, b, n) }

  // ---- climbing -----------------------------------------------------------

  lemma BelowSelf(h: Hierarchy, a: Type)
    ensures Below(h, a, a)
  {
    assert Climbs(h, a, a, 0);
  }

  lemma BelowStep(h: Hierarchy, a: Type, m: Type, b: Type)
    requires Proper(h, m) && Direct(h, a, m) && Below(h, m, b)
    ensures Below(h, a, b)
  {
    hide Direct, Proper;
    var n: nat :| Climbs(h, m, b, n);
    assert Climbs(h, a, b, n + 1);
  }

  lemma BelowOne(h: Hierarchy, a: Type, b: Type)
    requires Proper(h, b) && Direct(h, a, b)
    ensures Below(h, a, b)
  {
    hide Direct, Proper, Below;
    BelowSelf(h, b);
    BelowStep(h, a, b, b);
  }

  /** A step from a type that is not primitive leads to none that is. */
  lemma NoPrimitive(h: Hierarchy, a: Type, m: Type)
    requires Proper(h, a) && Direct(h, a, m) && !a.Basic?
    ensures !m.Basic?
  {
    if MeetStep(a, m) {
      var k :| 0 <= k < |a.bounds| && a.bounds[k] == m;
      assert IsReference(a.bounds[k]);
    } else if BoundStep(h, a, m) {
      assert !m.Basic?;
    } else if ArrayStep(h, a, m) {
    }
  }

  lemma {:induction false} ArraysClimb(h: Hierarchy, e: Type, f: Type, n: nat)
    requires Proper(h, e) && Climbs(h, e, f, n) && !e.Basic?
    ensures Climbs(h, Array(e), Array(f), n)
    decreases n
  {
    hide Direct, Proper;
    if n > 0 {
      var m :| Proper(h, m) && Direct(h, e, m) && Climbs(h, m, f, n - 1);
      NoPrimitive(h, e, m);
      ArraysClimb(h, m, f, n - 1);
      ArrayDirect(h, e, m);
      assert Direct(h, Array(e), Array(m)) && Proper(h, Array(m));
    }
  }

  lemma ArrayDirect(h: Hierarchy, e: Type, m: Type)
    requires Direct(h, e, m) && !e.Basic? && !m.Basic? && Proper(h, m)
    ensures Direct(h, Array(e), Array(m)) && Proper(h, Array(m))
  {
    assert ArrayStep(h, Array(e), Array(m));
  }

  lemma {:induction false} ClassesClimb(h: Hierarchy, a: Type, b: Type, n: nat)
    requires Closed(h) && a.Class? && b.Class? && a.sym in h.parents && Proper(h, b) && ReachIn(h, a.sym, b.sym, n)
    ensures Below(h, a, b)
    decreases n
  {
    hide Below, Direct;
    if n == 0 {
      StepClass(h, a, b);
      BelowOne(h, a, b);
    } else {
      var p :| p in h.parents[a.sym] && ReachIn(h, p, b.sym, n - 1);
      var m := Class(p, []);
      ClassesClimb(h, m, b, n - 1);
      StepClass(h, a, m);
      BelowStep(h, a, m, b);
    }
  }

  function Wider(f: Prim): Prim {
    match f
    case Byte => Short
    case Short => Int
    case Char => Int
    case Int => Long
    case Long => Float
    case _ => Double
  }

  function Room(f: Prim): nat {
    match f
    case Byte => 5
    case Short => 4
    case Char => 4
    case Int => 3
    case Long => 2
    case Float => 1
    case _ => 0
  }

  lemma {:induction false} WidensClimbs(h: Hierarchy, f: Prim, t: Prim)
    requires Widens(f, t)
    ensures Below(h, Basic(f), Basic(t))
    decreases Room(f)
  {
    hide Below, Direct;
    if f == t {
      BelowSelf(h, Basic(f));
    } else {
      WidensClimbs(h, Wider(f), t);
      StepWider(h, Basic(f), Basic(Wider(f)));
      BelowStep(h, Basic(f), Basic(Wider(f)), Basic(t));
    }
  }

  // ---- subtyping is that relation -----------------------------------------

  /** Everything the search and the recursion answer yes to is reached by direct steps. */
  lemma {:induction false} SubtypingClimbs(h: Hierarchy, a: Type, b: Type)
    requires Closed(h) && Proper(h, a) && Proper(h, b) && Subtyping(h, a, b)
    ensures Below(h, a, b)
    decreases a
  {
    hide Below, Direct, Subclass, Widens;
    if a == b {
      BelowSelf(h, a);
    } else {
      match a
      case Null => StepNull(h, a, b); BelowOne(h, a, b);
      case Basic(f) => WidensClimbs(h, f, b.prim);
      case Array(e) => ArrayClimbs(h, a, b);
      case TypeVar(_, bound) =>
        SubtypingClimbs(h, bound.value, b);
        StepBound(h, a, bound.value);
        BelowStep(h, a, bound.value, b);
      case Wildcard(bound) =>
        if bound.Some? {
          SubtypingClimbs(h, bound.value, b);
          StepBound(h, a, bound.value);
          BelowStep(h, a, bound.value, b);
        } else {
          StepBound(h, a, b);
          BelowOne(h, a, b);
        }
      case Intersection(bounds) =>
        var k :| 0 <= k < |bounds| && Subtyping(h, bounds[k], b);
        SubtypingClimbs(h, bounds[k], b);
        StepMeet(h, a, bounds[k]);
        BelowStep(h, a, bounds[k], b);
      case Class(sym, _) => ClassClimbs(h, a, b);
      case Void =>
    }
  }

  lemma StepNull(h: Hierarchy, a: Type, b: Type)
    requires a.Null? && a != b && IsReference(b)
    ensures Direct(h, a, b)
  {
    assert NullStep(a, b);
  }

  lemma StepClass(h: Hierarchy, a: Type, b: Type)
    requires ClassStep(h, a, b)
    ensures Direct(h, a, b)
  {
  }

  lemma StepArrayRoot(h: Hierarchy, a: Type, b: Type)
    requires ArrayRootStep(h, a, b)
    ensures Direct(h, a, b)
  {
  }

  lemma StepWider(h: Hierarchy, a: Type, b: Type)
    requires WiderStep(a, b)
    ensures Direct(h, a, b)
  {
  }

  lemma StepBound(h: Hierarchy, a: Type, b: Type)
    requires BoundStep(h, a, b)
    ensures Direct(h, a, b)
  {
  }

  lemma StepMeet(h: Hierarchy, a: Type, b: Type)
    requires MeetStep(a, b)
    ensures Direct(h, a, b)
  {
  }

  lemma ClassClimbs(h: Hierarchy, a: Type, b: Type)
    requires Closed(h) && Proper(h, a) && Proper(h, b) && a.Class? && b.Class? && Subclass(h, a.sym, b.sym)
    ensures Below(h, a, b)
  {
    hide Below, Direct;
    if b.sym == h.root {
      StepClass(h, a, b);
      BelowOne(h, a, b);
    } else {
      var n: nat :| ReachIn(h, a.sym, b.sym, n);
      ClassesClimb(h, a, b, n);
    }
  }

  lemma {:induction false} ArrayClimbs(h: Hierarchy, a: Type, b: Type)
    requires Closed(h) && a.Array? && a != b && Proper(h, a) && Proper(h, b) && Subtyping(h, a, b)
    ensures Below(h, a, b)
    decreases a, 0
  {
    hide Direct;
    if b.Array? {
      SubtypingClimbs(h, a.elem, b.elem);
      var n: nat :| Climbs(h, a.elem, b.elem, n);
      ArraysClimb(h, a.elem, b.elem, n);
    } else {
      StepArrayRoot(h, a, b);
      BelowOne(h, a, b);
    }
  }

  lemma {:induction false} DirectSubtyping(h: Hierarchy, a: Type, b: Type)
    requires Proper(h, a) && Proper(h, b) && Direct(h, a, b)
    ensures Subtyping(h, a, b)
    decreases a
  {
    hide Subclass;
    if ArrayStep(h, a, b) {
      DirectSubtyping(h, a.elem, b.elem);
    } else if ClassStep(h, a, b) {
      ClassDirect(h, a.sym, b.sym);
    } else if BoundStep(h, a, b) {
      SubtypingReflexive(h, b, []);
    } else if MeetStep(a, b) {
      var k :| 0 <= k < |a.bounds| && a.bounds[k] == b;
      SubtypingReflexive(h, b, []);
      AboveIntersection(h, a, k, b);
    }
  }

  lemma ClassDirect(h: Hierarchy, a: nat, b: nat)
    requires a == b || b == h.root || (a in h.parents && b in h.parents[a])
    ensures Subclass(h, a, b)
  {
    ReachSelf(h, b);
    if a in h.parents && b in h.parents[a] { ReachUp(h, a, b, b); }
  }

  lemma {:induction false} ClimbsSubtyping(h: Hierarchy, a: Type, b: Type, n: nat)
    requires Rooted(h) && Proper(h, a) && Proper(h, b) && Climbs(h, a, b, n)
    ensures Subtyping(h, a, b)
    decreases n
  {
    hide Direct, Subtyping, Proper;
    if n == 0 {
      SubtypingReflexive(h, a, []);
    } else {
      var m :| Proper(h, m) && Direct(h, a, m) && Climbs(h, m, b, n - 1);
      DirectSubtyping(h, a, m);
      ClimbsSubtyping(h, m, b, n - 1);
      SubtypingTransitive(h, a, m, b);
    }
  }

  /** Subtyping is the least reflexive and transitive relation that holds the direct supertypes of section 4.10. */
  lemma SubtypingExactly(h: Hierarchy, a: Type, b: Type)
    requires Closed(h) && Rooted(h) && Proper(h, a) && Proper(h, b)
    ensures Subtyping(h, a, b) <==> Below(h, a, b)
  {
    hide Subtyping, Climbs;
    if Subtyping(h, a, b) { SubtypingClimbs(h, a, b); }
    if n: nat :| Climbs(h, a, b, n) { ClimbsSubtyping(h, a, b, n); }
  }
}
