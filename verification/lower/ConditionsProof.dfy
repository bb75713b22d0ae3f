/** The branches emitted for a boolean expression are taken exactly when it decides so. */
module ConditionsProof {
  import opened Conditions

  // ---- runs ---------------------------------------------------------------

  lemma {:induction false} RunThen<W>(env: Env<W>, code: seq<Ins>, at: nat -> nat, m: nat, n: nat, c: Config<W>)
    ensures Run(env, code, at, m + n, c) == Run(env, code, at, n, Run(env, code, at, m, c))
  {
    hide Step;
    if m > 0 { RunThen(env, code, at, m - 1, n, Step(env, code, at, c)); }
  }

  lemma Then<W(!new)>(env: Env<W>, code: seq<Ins>, at: nat -> nat, c: Config<W>, d: Config<W>, e: Config<W>)
    requires Reaches(env, code, at, c, d) && Reaches(env, code, at, d, e)
    ensures Reaches(env, code, at, c, e)
  {
    var m :| Run(env, code, at, m, c) == d;
    var n :| Run(env, code, at, n, d) == e;
    RunThen(env, code, at, m, n, c);
  }

  lemma Stays<W(!new)>(env: Env<W>, code: seq<Ins>, at: nat -> nat, c: Config<W>)
    ensures Reaches(env, code, at, c, c)
  {
    assert Run(env, code, at, 0, c) == c;
  }

  lemma One<W(!new)>(env: Env<W>, code: seq<Ins>, at: nat -> nat, c: Config<W>)
    ensures Reaches(env, code, at, c, Step(env, code, at, c))
  {
    hide Step;
    assert Run(env, code, at, 0, Step(env, code, at, c)) == Step(env, code, at, c);
    assert Run(env, code, at, 1, c) == Step(env, code, at, c);
  }

  /** Every label stands where it is marked. */
  ghost predicate Placed(code: seq<Ins>, at: nat -> nat) {
    forall i :: 0 <= i < |code| && code[i].Mark? ==> at(code[i].l) == i
  }

  /** `part` is the code from pos on. */
  predicate Has(code: seq<Ins>, pos: nat, part: seq<Ins>) {
    pos + |part| <= |code| && code[pos..pos + |part|] == part
  }

  lemma Split(code: seq<Ins>, pos: nat, a: seq<Ins>, b: seq<Ins>)
    requires Has(code, pos, a + b)
    ensures Has(code, pos, a) && Has(code, pos + |a|, b)
  {
    assert code[pos..pos + |a|] == code[pos..pos + |a + b|][..|a|];
    assert code[pos + |a|..pos + |a| + |b|] == code[pos..pos + |a + b|][|a|..];
  }

  lemma HasAt(code: seq<Ins>, pos: nat, part: seq<Ins>, k: nat)
    requires Has(code, pos, part) && k < |part|
    ensures pos + k < |code| && code[pos + k] == part[k]
  {
    assert code[pos + k] == code[pos..pos + |part|][k];
  }

  // ---- what is to be shown ------------------------------------------------

  /** From pos control goes to the target when the truth is `when`, and to the end of the code otherwise. */
  ghost predicate Branches<W(!new)>(env: Env<W>, code: seq<Ins>, at: nat -> nat, pos: nat, end: nat, target: nat, when: bool,
                                    s: seq<Val>, w: W, t: Truth<W>) {
    match t
    case Threw(w1) => Reaches(env, code, at, Running(pos, s, w), Thrown(w1))
    case True(w1) => Reaches(env, code, at, Running(pos, s, w), Running(if when then at(target) else end, s, w1))
    case False(w1) => Reaches(env, code, at, Running(pos, s, w), Running(if when then end else at(target), s, w1))
  }

  /** From pos control reaches the end of the code with exactly 0 or 1 pushed. */
  ghost predicate Leaves<W(!new)>(env: Env<W>, code: seq<Ins>, at: nat -> nat, pos: nat, end: nat, s: seq<Val>, w: W, t: Truth<W>) {
    match t
    case Threw(w1) => Reaches(env, code, at, Running(pos, s, w), Thrown(w1))
    case True(w1) => Reaches(env, code, at, Running(pos, s, w), Running(end, s + [I(1)], w1))
    case False(w1) => Reaches(env, code, at, Running(pos, s, w), Running(end, s + [I(0)], w1))
  }

  // ---- operands -----------------------------------------------------------

  lemma FetchRuns<W(!new)>(env: Env<W>, code: seq<Ins>, at: nat -> nat, a: Operand, pos: nat, s: seq<Val>, w: W)
    requires Has(code, pos, Fetch(a))
    ensures match OperandValue(env, a, w)
            case Value(v, w1) => Reaches(env, code, at, Running(pos, s, w), Running(pos + 1, s + [v], w1))
            case Abrupt(w1) => Reaches(env, code, at, Running(pos, s, w), Thrown(w1))
  {
    HasAt(code, pos, Fetch(a), 0);
    One(env, code, at, Running(pos, s, w));
  }

  lemma FetchAsRuns<W(!new)>(env: Env<W>, code: seq<Ins>, at: nat -> nat, a: Operand, t: Ty, pos: nat, s: seq<Val>, w: W)
    requires a.Operand? && Has(code, pos, FetchAs(a, t))
    ensures match OperandValue(env, a, w)
            case Value(v, w1) => Reaches(env, code, at, Running(pos, s, w), Running(pos + |FetchAs(a, t)|, s + [Converted(env, a.ty, t, v)], w1))
            case Abrupt(w1) => Reaches(env, code, at, Running(pos, s, w), Thrown(w1))
  {
    Split(code, pos, Fetch(a), if a.ty == t then [] else [Widen(a.ty, t)]);
    FetchRuns(env, code, at, a, pos, s, w);
    var r := OperandValue(env, a, w);
    if r.Value? && a.ty != t {
      HasAt(code, pos, FetchAs(a, t), 1);
      var mid := Running(pos + 1, s + [r.v], r.w);
      One(env, code, at, mid);
      assert (s + [r.v])[..|s|] == s;
      Then(env, code, at, Running(pos, s, w), mid, Step(env, code, at, mid));
    }
  }

  /** The operands of a comparison, promoted, in order. */
  lemma PairRuns<W(!new)>(env: Env<W>, code: seq<Ins>, at: nat -> nat, a: Operand, b: Operand, t: Ty, pos: nat, s: seq<Val>, w: W)
    requires a.Operand? && b.Operand? && Has(code, pos, FetchAs(a, t) + FetchAs(b, t))
    ensures var end := pos + |FetchAs(a, t)| + |FetchAs(b, t)|;
            match Both(env, a, b, w)
            case (Value(va, _), Value(vb, w2)) =>
              Reaches(env, code, at, Running(pos, s, w),
                      Running(end, s + [Converted(env, a.ty, t, va), Converted(env, b.ty, t, vb)], w2))
            case (_, r) => Reaches(env, code, at, Running(pos, s, w), Thrown(r.w))
  {
    hide Reaches, FetchAs, Converted;
    Split(code, pos, FetchAs(a, t), FetchAs(b, t));
    FetchAsRuns(env, code, at, a, t, pos, s, w);
    var ra := OperandValue(env, a, w);
    if ra.Value? {
      var pa := Converted(env, a.ty, t, ra.v);
      var mid := Running(pos + |FetchAs(a, t)|, s + [pa], ra.w);
      FetchAsRuns(env, code, at, b, t, mid.pc, s + [pa], ra.w);
      var rb := OperandValue(env, b, ra.w);
      if rb.Value? {
        var pb := Converted(env, b.ty, t, rb.v);
        assert s + [pa] + [pb] == s + [pa, pb];
        Then(env, code, at, Running(pos, s, w), mid, Running(mid.pc + |FetchAs(b, t)|, s + [pa, pb], rb.w));
      } else {
        Then(env, code, at, Running(pos, s, w), mid, Thrown(rb.w));
      }
    }
  }

  // ---- comparisons --------------------------------------------------------

  lemma OppositeRel(k: Rel, a: int, b: int)
    ensures RelInt(Opposite(k), a, b) == !RelInt(k, a, b)
  {
  }

  /** The comparison and the zero test after it jump as the fused reading says. */
  lemma ThreeWayTest(k: Rel, t: Ty, a: Val, b: Val, when: bool)
    requires Numeric(t) && t != TInt && HasType(a, t) && HasType(b, t)
    ensures var test := if when then k else Opposite(k);
            var truth := if Unordered(k, a, b) then when else RelVal(k, a, b);
            RelInt(test, ThreeWay(t, Variant(test), a, b), 0) == (truth == when)
  {
  }

  /** When no operand is NaN, or the test is for equality, or it is emitted to jump on false, the branch is right. */
  lemma FusedTestExact(k: Rel, a: Val, b: Val, when: bool)
    ensures (if Unordered(k, a, b) then when else RelVal(k, a, b)) == RelVal(k, a, b) <==> !(when && Unordered(k, a, b))
  {
  }

  lemma Top2(s: seq<Val>, a: Val, b: Val)
    ensures (s + [a, b])[|s|] == a && (s + [a, b])[|s| + 1] == b && (s + [a, b])[..|s|] == s
    ensures |s + [a, b]| == |s| + 2
  {
  }

  lemma Top1(s: seq<Val>, a: Val)
    ensures (s + [a])[|s|] == a && (s + [a])[..|s|] == s && |s + [a]| == |s| + 1
  {
  }

  lemma CompareRuns<W(!new)>(env: Env<W>, code: seq<Ins>, at: nat -> nat, k: Rel, a: Operand, b: Operand, target: nat, when: bool,
                             pos: nat, s: seq<Val>, w: W)
    requires Behaved(env) && Typed(Compare(k, a, b)) && Has(code, pos, EmitCompare(k, a, b, target, when))
    ensures Branches(env, code, at, pos, pos + |EmitCompare(k, a, b, target, when)|, target, when, s, w,
                     Eval(env, Compare(k, a, b), when, true, w))
  {
    hide Reaches, FetchAs, ThreeWay, RelVal, Unordered, Variant;
    var t := Promoted(a.ty, b.ty);
    var test := if when then k else Opposite(k);
    var fetch := FetchAs(a, t) + FetchAs(b, t);
    var tail := if t == TInt then [IfInts(test, target)] else [Cmp(t, Variant(test)), IfZero(test, target)];
    Split(code, pos, fetch, tail);
    PairRuns(env, code, at, a, b, t, pos, s, w);
    var both := Both(env, a, b, w);
    if both.0.Value? && both.1.Value? {
      var pa, pb, w2 := Converted(env, a.ty, t, both.0.v), Converted(env, b.ty, t, both.1.v), both.1.w;
      assert HasType(pa, t) && HasType(pb, t) by { ConvertedTyped(env, a, b, w); }
      var mid := Running(pos + |fetch|, s + [pa, pb], w2);
      TestRuns(env, code, at, k, t, pa, pb, target, when, mid.pc, s, w2);
      var truth := if Unordered(k, pa, pb) then when else RelVal(k, pa, pb);
      var end := pos + |fetch| + |tail|;
      Then(env, code, at, Running(pos, s, w), mid, Running(if truth == when then at(target) else end, s, w2));
    }
  }

  lemma ConvertedTyped<W(!new)>(env: Env<W>, a: Operand, b: Operand, w: W)
    requires Behaved(env) && a.Operand? && b.Operand? && Both(env, a, b, w).0.Value? && Both(env, a, b, w).1.Value?
    ensures var t := Promoted(a.ty, b.ty);
            HasType(Converted(env, a.ty, t, Both(env, a, b, w).0.v), t) && HasType(Converted(env, b.ty, t, Both(env, a, b, w).1.v), t)
  {
    hide Promoted;
    var va, w1 := OperandValue(env, a, w).v, OperandValue(env, a, w).w;
    assert HasType(va, a.ty);
    assert HasType(OperandValue(env, b, w1).v, b.ty);
  }

  lemma TestRuns<W(!new)>(env: Env<W>, code: seq<Ins>, at: nat -> nat, k: Rel, t: Ty, a: Val, b: Val, target: nat, when: bool,
                          pos: nat, s: seq<Val>, w: W)
    requires Numeric(t) && HasType(a, t) && HasType(b, t)
    requires var test := if when then k else Opposite(k);
             Has(code, pos, if t == TInt then [IfInts(test, target)] else [Cmp(t, Variant(test)), IfZero(test, target)])
    ensures var truth := if Unordered(k, a, b) then when else RelVal(k, a, b);
            var end := pos + if t == TInt then 1 else 2;
            Reaches(env, code, at, Running(pos, s + [a, b], w), Running(if truth == when then at(target) else end, s, w))
  {
    hide Reaches, Variant, ThreeWay;
    var test := if when then k else Opposite(k);
    var c := Running(pos, s + [a, b], w);
    Top2(s, a, b);
    One(env, code, at, c);
    if t == TInt {
      HasAt(code, pos, [IfInts(test, target)], 0);
      OppositeRel(k, a.v, b.v);
    } else {
      HasAt(code, pos, [Cmp(t, Variant(test)), IfZero(test, target)], 0);
      HasAt(code, pos, [Cmp(t, Variant(test)), IfZero(test, target)], 1);
      var mid := Running(pos + 1, s + [I(ThreeWay(t, Variant(test), a, b))], w);
      assert Step(env, code, at, c) == mid;
      Top1(s, I(ThreeWay(t, Variant(test), a, b)));
      One(env, code, at, mid);
      ThreeWayTest(k, t, a, b, when);
      Then(env, code, at, c, mid, Step(env, code, at, mid));
    }
  }

  lemma SameRuns<W(!new)>(env: Env<W>, code: seq<Ins>, at: nat -> nat, eq: bool, a: Operand, b: Operand, target: nat, when: bool,
                          pos: nat, s: seq<Val>, w: W)
    requires Typed(Same(eq, a, b)) && Has(code, pos, EmitSame(eq, a, b, target, when))
    ensures Branches(env, code, at, pos, pos + |EmitSame(eq, a, b, target, when)|, target, when, s, w,
                     Eval(env, Same(eq, a, b), when, true, w))
  {
    if b.Null? || a.Null? {
      OneSided(env, code, at, eq, a, b, target, when, pos, s, w);
    } else {
      TwoSided(env, code, at, eq, a, b, target, when, pos, s, w);
    }
  }

  lemma OneSided<W(!new)>(env: Env<W>, code: seq<Ins>, at: nat -> nat, eq: bool, a: Operand, b: Operand, target: nat, when: bool,
                          pos: nat, s: seq<Val>, w: W)
    requires Typed(Same(eq, a, b)) && (a.Null? || b.Null?) && Has(code, pos, EmitSame(eq, a, b, target, when))
    ensures Branches(env, code, at, pos, pos + |EmitSame(eq, a, b, target, when)|, target, when, s, w,
                     Eval(env, Same(eq, a, b), when, true, w))
  {
    hide Reaches, Branches, Step, Has;
    NullTest(env, code, at, if b.Null? then a else b, eq, target, when, pos, s, w);
    assert EmitSame(eq, a, b, target, when) == Fetch(if b.Null? then a else b) + [IfNull(eq == when, target)];
  }

  /** The truth of comparing x with null. */
  function NullTruth<W>(env: Env<W>, x: Operand, eq: bool, w: W): Truth<W> {
    match OperandValue(env, x, w)
    case Abrupt(w1) => Threw(w1)
    case Value(v, w1) => Decided((v == R(0)) == eq, w1)
  }

  lemma NullTest<W(!new)>(env: Env<W>, code: seq<Ins>, at: nat -> nat, x: Operand, eq: bool, target: nat, when: bool,
                          pos: nat, s: seq<Val>, w: W)
    requires Has(code, pos, Fetch(x) + [IfNull(eq == when, target)])
    ensures Branches(env, code, at, pos, pos + 2, target, when, s, w, NullTruth(env, x, eq, w))
  {
    hide Reaches;
    Split(code, pos, Fetch(x), [IfNull(eq == when, target)]);
    HasAt(code, pos + 1, [IfNull(eq == when, target)], 0);
    FetchRuns(env, code, at, x, pos, s, w);
    var r := OperandValue(env, x, w);
    if r.Value? {
      var mid := Running(pos + 1, s + [r.v], r.w);
      Top1(s, r.v);
      One(env, code, at, mid);
      Then(env, code, at, Running(pos, s, w), mid, Step(env, code, at, mid));
    }
  }

  lemma TwoSided<W(!new)>(env: Env<W>, code: seq<Ins>, at: nat -> nat, eq: bool, a: Operand, b: Operand, target: nat, when: bool,
                          pos: nat, s: seq<Val>, w: W)
    requires Typed(Same(eq, a, b)) && !a.Null? && !b.Null? && Has(code, pos, EmitSame(eq, a, b, target, when))
    ensures Branches(env, code, at, pos, pos + |EmitSame(eq, a, b, target, when)|, target, when, s, w,
                     Eval(env, Same(eq, a, b), when, true, w))
  {
    hide Reaches;
    Split(code, pos, Fetch(a) + Fetch(b), [IfRefs(eq == when, target)]);
    HasAt(code, pos + 2, [IfRefs(eq == when, target)], 0);
    assert FetchAs(a, TRef) == Fetch(a) && FetchAs(b, TRef) == Fetch(b);
    PairRuns(env, code, at, a, b, TRef, pos, s, w);
    var both := Both(env, a, b, w);
    if both.0.Value? && both.1.Value? {
      var mid := Running(pos + 2, s + [both.0.v, both.1.v], both.1.w);
      Top2(s, both.0.v, both.1.v);
      One(env, code, at, mid);
      Then(env, code, at, Running(pos, s, w), mid, Step(env, code, at, mid));
    }
  }

  lemma InstanceOfRuns<W(!new)>(env: Env<W>, code: seq<Ins>, at: nat -> nat, a: Operand, cls: nat, pos: nat, s: seq<Val>, w: W)
    requires Behaved(env) && IsRef(a) && Has(code, pos, Fetch(a) + [TypeTest(cls)])
    ensures Leaves(env, code, at, pos, pos + 2, s, w, Eval(env, InstanceOf(a, cls), true, true, w))
  {
    hide Reaches;
    Split(code, pos, Fetch(a), [TypeTest(cls)]);
    HasAt(code, pos + 1, [TypeTest(cls)], 0);
    FetchRuns(env, code, at, a, pos, s, w);
    var r := OperandValue(env, a, w);
    if r.Value? {
      var mid := Running(pos + 1, s + [r.v], r.w);
      Top1(s, r.v);
      One(env, code, at, mid);
      Then(env, code, at, Running(pos, s, w), mid, Step(env, code, at, mid));
    }
  }

  // ---- materialised values as branches ------------------------------------

  /** A value followed by its zero test is a branch. */
  lemma TestedValue<W(!new)>(env: Env<W>, code: seq<Ins>, at: nat -> nat, target: nat, when: bool,
                             pos: nat, mid: nat, s: seq<Val>, w: W, t: Truth<W>)
    requires Leaves(env, code, at, pos, mid, s, w, t) && Has(code, mid, [TestZero(target, when)])
    ensures Branches(env, code, at, pos, mid + 1, target, when, s, w, t)
  {
    hide Reaches;
    HasAt(code, mid, [TestZero(target, when)], 0);
    if !t.Threw? {
      var v := I(if t.True? then 1 else 0);
      var c := Running(mid, s + [v], t.w);
      Top1(s, v);
      One(env, code, at, c);
      Then(env, code, at, Running(pos, s, w), c, Step(env, code, at, c));
    }
  }

  /** A branch followed by the two constants is a value. */
  lemma BranchedValue<W(!new)>(env: Env<W>, code: seq<Ins>, at: nat -> nat, n: nat, pos: nat, mid: nat, s: seq<Val>, w: W, t: Truth<W>)
    requires Branches(env, code, at, pos, mid, n, true, s, w, t) && Placed(code, at)
    requires Has(code, mid, [PushInt(0), Goto(n + 1), Mark(n), PushInt(1), Mark(n + 1)])
    ensures Leaves(env, code, at, pos, mid + 5, s, w, t)
  {
    hide Reaches;
    var part := [PushInt(0), Goto(n + 1), Mark(n), PushInt(1), Mark(n + 1)];
    HasAt(code, mid, part, 0);
    HasAt(code, mid, part, 1);
    HasAt(code, mid, part, 2);
    HasAt(code, mid, part, 3);
    HasAt(code, mid, part, 4);
    var c0 := Running(pos, s, w);
    if t.True? {
      Steps2(env, code, at, Running(mid + 2, s, t.w));
      Then(env, code, at, c0, Running(mid + 2, s, t.w), Running(mid + 4, s + [I(1)], t.w));
      One(env, code, at, Running(mid + 4, s + [I(1)], t.w));
      Then(env, code, at, c0, Running(mid + 4, s + [I(1)], t.w), Running(mid + 5, s + [I(1)], t.w));
    } else if t.False? {
      Steps2(env, code, at, Running(mid, s, t.w));
      Then(env, code, at, c0, Running(mid, s, t.w), Running(mid + 4, s + [I(0)], t.w));
      One(env, code, at, Running(mid + 4, s + [I(0)], t.w));
      Then(env, code, at, c0, Running(mid + 4, s + [I(0)], t.w), Running(mid + 5, s + [I(0)], t.w));
    }
  }

  lemma Steps2<W(!new)>(env: Env<W>, code: seq<Ins>, at: nat -> nat, c: Config<W>)
    ensures Reaches(env, code, at, c, Step(env, code, at, Step(env, code, at, c)))
  {
    hide Step, Reaches;
    One(env, code, at, c);
    One(env, code, at, Step(env, code, at, c));
    Then(env, code, at, c, Step(env, code, at, c), Step(env, code, at, Step(env, code, at, c)));
  }

  /** Two values in a row, or the first exception. */
  lemma TwoValues<W(!new)>(env: Env<W>, code: seq<Ins>, at: nat -> nat, pos: nat, mid: nat, end: nat, s: seq<Val>, w: W, t: Truth<W>, u: Truth<W>)
    requires Leaves(env, code, at, pos, mid, s, w, t)
    requires !t.Threw? ==> Leaves(env, code, at, mid, end, s + [I(if t.True? then 1 else 0)], t.w, u)
    ensures t.Threw? ==> Reaches(env, code, at, Running(pos, s, w), Thrown(t.w))
    ensures !t.Threw? && u.Threw? ==> Reaches(env, code, at, Running(pos, s, w), Thrown(u.w))
    ensures !t.Threw? && !u.Threw? ==>
              Reaches(env, code, at, Running(pos, s, w),
                      Running(end, s + [I(if t.True? then 1 else 0), I(if u.True? then 1 else 0)], u.w))
  {
    hide Reaches;
    if !t.Threw? {
      var a, b := I(if t.True? then 1 else 0), I(if u.True? then 1 else 0);
      assert s + [a] + [b] == s + [a, b];
      Then(env, code, at, Running(pos, s, w), Running(mid, s + [a], t.w), if u.Threw? then Thrown(u.w) else Running(end, s + [a, b], u.w));
    }
  }

  // ---- the theorem --------------------------------------------------------

  /** Continuing a branch that fell through. */
  lemma Continue<W(!new)>(env: Env<W>, code: seq<Ins>, at: nat -> nat, pos: nat, mid: nat, end: nat, target: nat, when: bool,
                          s: seq<Val>, w: W, w1: W, t: Truth<W>)
    requires Reaches(env, code, at, Running(pos, s, w), Running(mid, s, w1)) && Branches(env, code, at, mid, end, target, when, s, w1, t)
    ensures Branches(env, code, at, pos, end, target, when, s, w, t)
  {
    hide Reaches;
    match t
    case Threw(w2) => Then(env, code, at, Running(pos, s, w), Running(mid, s, w1), Thrown(w2));
    case True(w2) => Then(env, code, at, Running(pos, s, w), Running(mid, s, w1), Running(if when then at(target) else end, s, w2));
    case False(w2) => Then(env, code, at, Running(pos, s, w), Running(mid, s, w1), Running(if when then end else at(target), s, w2));
  }

  lemma ContinueValue<W(!new)>(env: Env<W>, code: seq<Ins>, at: nat -> nat, pos: nat, mid: nat, end: nat, last: nat, s: seq<Val>, w: W, w1: W, t: Truth<W>)
    requires Reaches(env, code, at, Running(pos, s, w), Running(mid, s, w1)) && Leaves(env, code, at, mid, end, s, w1, t)
    requires forall s', w' :: Reaches(env, code, at, Running(end, s', w'), Running(last, s', w'))
    ensures Leaves(env, code, at, pos, last, s, w, t)
  {
    hide Reaches;
    if t.Threw? {
      Then(env, code, at, Running(pos, s, w), Running(mid, s, w1), Thrown(t.w));
    } else {
      var s' := s + [I(if t.True? then 1 else 0)];
      Then(env, code, at, Running(pos, s, w), Running(mid, s, w1), Running(end, s', t.w));
      Then(env, code, at, Running(pos, s, w), Running(end, s', t.w), Running(last, s', t.w));
    }
  }

  /** Stepping over the mark of a skip label that both paths reach. */
  lemma OverMark<W(!new)>(env: Env<W>, code: seq<Ins>, at: nat -> nat, pos: nat, end: nat, skip: nat, target: nat, when: bool,
                          s: seq<Val>, w: W, t: Truth<W>)
    requires Branches(env, code, at, pos, end, target, when, s, w, t) && Has(code, end, [Mark(skip)])
    ensures Branches(env, code, at, pos, end + 1, target, when, s, w, t)
  {
    hide Reaches;
    HasAt(code, end, [Mark(skip)], 0);
    if !t.Threw? {
      One(env, code, at, Running(end, s, t.w));
      if t.True? != when { Then(env, code, at, Running(pos, s, w), Running(end, s, t.w), Running(end + 1, s, t.w)); }
    }
  }

  /** x decides against the skip: control is at the mark, and then past it. */
  lemma Skipped<W(!new)>(env: Env<W>, code: seq<Ins>, at: nat -> nat, pos: nat, end: nat, skip: nat, s: seq<Val>, w: W, w1: W)
    requires Placed(code, at) && Has(code, end, [Mark(skip)])
    requires Reaches(env, code, at, Running(pos, s, w), Running(at(skip), s, w1))
    ensures Reaches(env, code, at, Running(pos, s, w), Running(end + 1, s, w1))
  {
    hide Reaches;
    HasAt(code, end, [Mark(skip)], 0);
    One(env, code, at, Running(end, s, w1));
    Then(env, code, at, Running(pos, s, w), Running(end, s, w1), Running(end + 1, s, w1));
  }

  /** Wherever the emitted branch stands, it decides as the fused reading of the expression says. */
  lemma {:induction false} CondRuns<W(!new)>(env: Env<W>, code: seq<Ins>, at: nat -> nat, e: Expr, target: nat, when: bool, n: nat,
                                             pos: nat, s: seq<Val>, w: W)
    requires Typed(e) && Behaved(env) && Placed(code, at) && Has(code, pos, EmitCond(e, target, when, n).0)
    ensures Branches(env, code, at, pos, pos + |EmitCond(e, target, when, n).0|, target, when, s, w, Eval(env, e, when, true, w))
    decreases e, if Materialised(e) then 3 else 1
  {
    hide Reaches, Behaved, Placed, Has, Branches, Leaves;
    match e
    case Folded(b) => FoldedRuns(env, code, at, b, target, when, n, pos, s, w);
    case Paren(e') => CondRuns(env, code, at, e', target, when, n, pos, s, w);
    case Not(e') => NotRuns(env, code, at, e, target, when, n, pos, s, w);
    case And(_, _) => AndRuns(env, code, at, e, target, when, n, pos, s, w);
    case Or(_, _) => OrRuns(env, code, at, e, target, when, n, pos, s, w);
    case Compare(k, a, b) => CompareRuns(env, code, at, k, a, b, target, when, pos, s, w);
    case Same(eq, a, b) => SameRuns(env, code, at, eq, a, b, target, when, pos, s, w);
    case SameBool(_, _, _) => SameBoolRuns(env, code, at, e, target, when, n, pos, s, w);
    case InstanceOf(a, cls) =>
      assert Fetch(a) + [TypeTest(cls), TestZero(target, when)] == (Fetch(a) + [TypeTest(cls)]) + [TestZero(target, when)];
      Split(code, pos, Fetch(a) + [TypeTest(cls)], [TestZero(target, when)]);
      InstanceOfRuns(env, code, at, a, cls, pos, s, w);
      TestedValue(env, code, at, target, when, pos, pos + 2, s, w, Eval(env, e, true, true, w));
    case _ => TestedRuns(env, code, at, e, target, when, n, pos, s, w);
  }

  lemma FoldedRuns<W(!new)>(env: Env<W>, code: seq<Ins>, at: nat -> nat, b: bool, target: nat, when: bool, n: nat,
                            pos: nat, s: seq<Val>, w: W)
    requires Has(code, pos, EmitCond(Folded(b), target, when, n).0)
    ensures Branches(env, code, at, pos, pos + |EmitCond(Folded(b), target, when, n).0|, target, when, s, w,
                     Eval(env, Folded(b), when, true, w))
  {
    hide Reaches;
    Stays(env, code, at, Running(pos, s, w));
    if b == when {
      HasAt(code, pos, [Goto(target)], 0);
      One(env, code, at, Running(pos, s, w));
    }
  }

  lemma {:induction false} NotRuns<W(!new)>(env: Env<W>, code: seq<Ins>, at: nat -> nat, e: Expr, target: nat, when: bool, n: nat,
                                            pos: nat, s: seq<Val>, w: W)
    requires e.Not? && Typed(e) && Behaved(env) && Placed(code, at) && Has(code, pos, EmitCond(e, target, when, n).0)
    ensures Branches(env, code, at, pos, pos + |EmitCond(e, target, when, n).0|, target, when, s, w, Eval(env, e, when, true, w))
    decreases e, 0
  {
    hide Reaches, Behaved, Placed, Has;
    CondRuns(env, code, at, e.e, target, !when, n, pos, s, w);
  }

  /** Anything else is materialised and tested. */
  lemma {:induction false} TestedRuns<W(!new)>(env: Env<W>, code: seq<Ins>, at: nat -> nat, e: Expr, target: nat, when: bool, n: nat,
                                               pos: nat, s: seq<Val>, w: W)
    requires Materialised(e) && Typed(e) && Behaved(env) && Placed(code, at) && Has(code, pos, EmitCond(e, target, when, n).0)
    ensures Branches(env, code, at, pos, pos + |EmitCond(e, target, when, n).0|, target, when, s, w, Eval(env, e, when, true, w))
    decreases e, 2
  {
    hide Reaches, Behaved, Placed, Has, Branches, Leaves;
    var v := EmitValue(e, n).0;
    Split(code, pos, v, [TestZero(target, when)]);
    ValueRuns(env, code, at, e, n, pos, s, w);
    TestedValue(env, code, at, target, when, pos, pos + |v|, s, w, Eval(env, e, true, true, w));
  }

  lemma {:induction false} AndRuns<W(!new)>(env: Env<W>, code: seq<Ins>, at: nat -> nat, e: Expr, target: nat, when: bool, n: nat,
                                            pos: nat, s: seq<Val>, w: W)
    requires e.And? && Typed(e) && Behaved(env) && Placed(code, at) && Has(code, pos, EmitCond(e, target, when, n).0)
    ensures Branches(env, code, at, pos, pos + |EmitCond(e, target, when, n).0|, target, when, s, w, Eval(env, e, when, true, w))
    decreases e, 0
  {
    hide Reaches, Behaved, Placed, Has, EmitCond, EmitValue;
    var m := if when then n + 1 else n;
    var skip := if when then n else target;
    var cx := EmitCond(e.x, skip, false, m);
    var cy := EmitCond(e.y, target, when, cx.1);
    var mid := pos + |cx.0|;
    var end := mid + |cy.0|;
    AndParts(code, e, target, when, n, pos);
    CondRuns(env, code, at, e.x, skip, false, m, pos, s, w);
    var t := Eval(env, e.x, false, true, w);
    if t.True? {
      CondRuns(env, code, at, e.y, target, when, cx.1, mid, s, t.w);
      var u := Eval(env, e.y, when, true, t.w);
      Continue(env, code, at, pos, mid, end, target, when, s, w, t.w, u);
      if when { OverMark(env, code, at, pos, end, n, target, when, s, w, u); }
    } else if t.False? && when {
      Skipped(env, code, at, pos, end, n, s, w, t.w);
    }
  }

  lemma AndParts(code: seq<Ins>, e: Expr, target: nat, when: bool, n: nat, pos: nat)
    requires e.And? && Typed(e) && Has(code, pos, EmitCond(e, target, when, n).0)
    ensures var cx := EmitCond(e.x, if when then n else target, false, if when then n + 1 else n);
            var cy := EmitCond(e.y, target, when, cx.1);
            && Has(code, pos, cx.0) && Has(code, pos + |cx.0|, cy.0)
            && (when ==> Has(code, pos + |cx.0| + |cy.0|, [Mark(n)]))
            && |EmitCond(e, target, when, n).0| == |cx.0| + |cy.0| + if when then 1 else 0
  {
    hide Has;
    var cx := EmitCond(e.x, if when then n else target, false, if when then n + 1 else n);
    var cy := EmitCond(e.y, target, when, cx.1);
    if when { Split(code, pos, cx.0 + cy.0, [Mark(n)]); }
    Split(code, pos, cx.0, cy.0);
  }

  lemma {:induction false} OrRuns<W(!new)>(env: Env<W>, code: seq<Ins>, at: nat -> nat, e: Expr, target: nat, when: bool, n: nat,
                                           pos: nat, s: seq<Val>, w: W)
    requires e.Or? && Typed(e) && Behaved(env) && Placed(code, at) && Has(code, pos, EmitCond(e, target, when, n).0)
    ensures Branches(env, code, at, pos, pos + |EmitCond(e, target, when, n).0|, target, when, s, w, Eval(env, e, when, true, w))
    decreases e, 0
  {
    hide Reaches, Behaved, Placed, Has, EmitCond, EmitValue;
    var m := if when then n else n + 1;
    var skip := if when then target else n;
    var cx := EmitCond(e.x, skip, true, m);
    var cy := EmitCond(e.y, target, when, cx.1);
    var mid := pos + |cx.0|;
    var end := mid + |cy.0|;
    OrParts(code, e, target, when, n, pos);
    CondRuns(env, code, at, e.x, skip, true, m, pos, s, w);
    var t := Eval(env, e.x, true, true, w);
    if t.False? {
      CondRuns(env, code, at, e.y, target, when, cx.1, mid, s, t.w);
      var u := Eval(env, e.y, when, true, t.w);
      Continue(env, code, at, pos, mid, end, target, when, s, w, t.w, u);
      if !when { OverMark(env, code, at, pos, end, n, target, when, s, w, u); }
    } else if t.True? && !when {
      Skipped(env, code, at, pos, end, n, s, w, t.w);
    }
  }

  lemma OrParts(code: seq<Ins>, e: Expr, target: nat, when: bool, n: nat, pos: nat)
    requires e.Or? && Typed(e) && Has(code, pos, EmitCond(e, target, when, n).0)
    ensures var cx := EmitCond(e.x, if when then target else n, true, if when then n else n + 1);
            var cy := EmitCond(e.y, target, when, cx.1);
            && Has(code, pos, cx.0) && Has(code, pos + |cx.0|, cy.0)
            && (!when ==> Has(code, pos + |cx.0| + |cy.0|, [Mark(n)]))
            && |EmitCond(e, target, when, n).0| == |cx.0| + |cy.0| + if when then 0 else 1
  {
    hide Has;
    var cx := EmitCond(e.x, if when then target else n, true, if when then n else n + 1);
    var cy := EmitCond(e.y, target, when, cx.1);
    if !when { Split(code, pos, cx.0 + cy.0, [Mark(n)]); }
    Split(code, pos, cx.0, cy.0);
  }

  lemma {:induction false} SameBoolRuns<W(!new)>(env: Env<W>, code: seq<Ins>, at: nat -> nat, e: Expr, target: nat, when: bool, n: nat,
                                                 pos: nat, s: seq<Val>, w: W)
    requires e.SameBool? && Typed(e) && Behaved(env) && Placed(code, at) && Has(code, pos, EmitCond(e, target, when, n).0)
    ensures Branches(env, code, at, pos, pos + |EmitCond(e, target, when, n).0|, target, when, s, w, Eval(env, e, when, true, w))
    decreases e, 0
  {
    hide Reaches, Behaved, Placed, Has, EmitCond, EmitValue, Leaves;
    var cx := EmitValue(e.x, n);
    var cy := EmitValue(e.y, cx.1);
    SameBoolParts(code, e, target, when, n, pos);
    var mid := pos + |cx.0|;
    var end := mid + |cy.0|;
    ValueRuns(env, code, at, e.x, n, pos, s, w);
    var t := Eval(env, e.x, true, true, w);
    var u := if t.Threw? then t else Eval(env, e.y, true, true, t.w);
    if !t.Threw? { ValueRuns(env, code, at, e.y, cx.1, mid, s + [I(if t.True? then 1 else 0)], t.w); }
    TwoValues(env, code, at, pos, mid, end, s, w, t, u);
    if !t.Threw? && !u.Threw? { IfIntsRuns(env, code, at, pos, end, e.eq == when, target, t.True?, u.True?, s, w, u.w); }
  }

  lemma SameBoolParts(code: seq<Ins>, e: Expr, target: nat, when: bool, n: nat, pos: nat)
    requires e.SameBool? && Typed(e) && Has(code, pos, EmitCond(e, target, when, n).0)
    ensures var cx := EmitValue(e.x, n);
            var cy := EmitValue(e.y, cx.1);
            && Has(code, pos, cx.0) && Has(code, pos + |cx.0|, cy.0)
            && Has(code, pos + |cx.0| + |cy.0|, [IfInts(if e.eq == when then EQ else NE, target)])
            && |EmitCond(e, target, when, n).0| == |cx.0| + |cy.0| + 1
  {
    hide Has;
    var cx := EmitValue(e.x, n);
    var cy := EmitValue(e.y, cx.1);
    Split(code, pos, cx.0 + cy.0, [IfInts(if e.eq == when then EQ else NE, target)]);
    Split(code, pos, cx.0, cy.0);
  }

  /** The test on two booleans already on the stack. */
  lemma IfIntsRuns<W(!new)>(env: Env<W>, code: seq<Ins>, at: nat -> nat, pos: nat, end: nat, equal: bool, target: nat, p: bool, q: bool,
                            s: seq<Val>, w: W, w1: W)
    requires Has(code, end, [IfInts(if equal then EQ else NE, target)])
    requires Reaches(env, code, at, Running(pos, s, w), Running(end, s + [I(if p then 1 else 0), I(if q then 1 else 0)], w1))
    ensures Reaches(env, code, at, Running(pos, s, w), Running(if (p == q) == equal then at(target) else end + 1, s, w1))
  {
    hide Reaches;
    var a, b := I(if p then 1 else 0), I(if q then 1 else 0);
    var c := Running(end, s + [a, b], w1);
    HasAt(code, end, [IfInts(if equal then EQ else NE, target)], 0);
    Top2(s, a, b);
    One(env, code, at, c);
    Then(env, code, at, Running(pos, s, w), c, Step(env, code, at, c));
  }

  lemma {:induction false} ValueRuns<W(!new)>(env: Env<W>, code: seq<Ins>, at: nat -> nat, e: Expr, n: nat, pos: nat, s: seq<Val>, w: W)
    requires Typed(e) && Behaved(env) && Placed(code, at) && Has(code, pos, EmitValue(e, n).0)
    ensures Leaves(env, code, at, pos, pos + |EmitValue(e, n).0|, s, w, Eval(env, e, true, true, w))
    decreases e, if Materialised(e) then 1 else 3
  {
    hide Reaches, Behaved, Placed, Has, Branches, Leaves;
    match e
    case Folded(_) => LiteralRuns(env, code, at, e, n, pos, s, w);
    case Paren(e') => ValueRuns(env, code, at, e', n, pos, s, w);
    case InstanceOf(a, cls) => InstanceOfRuns(env, code, at, a, cls, pos, s, w);
    case Choose(_, _, _) => ChooseRuns(env, code, at, e, n, pos, s, w);
    case Bits(_, _, _) => BitsRuns(env, code, at, e, n, pos, s, w);
    case Other(_) => LiteralRuns(env, code, at, e, n, pos, s, w);
    case _ => BranchedRuns(env, code, at, e, n, pos, s, w);
  }

  lemma LiteralRuns<W(!new)>(env: Env<W>, code: seq<Ins>, at: nat -> nat, e: Expr, n: nat, pos: nat, s: seq<Val>, w: W)
    requires (e.Folded? || e.Other?) && Behaved(env) && Has(code, pos, EmitValue(e, n).0)
    ensures Leaves(env, code, at, pos, pos + 1, s, w, Eval(env, e, true, true, w))
  {
    hide Reaches;
    HasAt(code, pos, EmitValue(e, n).0, 0);
    One(env, code, at, Running(pos, s, w));
  }

  lemma {:induction false} BranchedRuns<W(!new)>(env: Env<W>, code: seq<Ins>, at: nat -> nat, e: Expr, n: nat, pos: nat, s: seq<Val>, w: W)
    requires !Materialised(e) && !e.Folded? && !e.Paren? && !e.InstanceOf?
    requires Typed(e) && Behaved(env) && Placed(code, at) && Has(code, pos, EmitValue(e, n).0)
    ensures Leaves(env, code, at, pos, pos + |EmitValue(e, n).0|, s, w, Eval(env, e, true, true, w))
    decreases e, 2
  {
    hide Reaches, Behaved, Placed, Has, Branches, Leaves;
    var c := EmitCond(e, n, true, n + 2).0;
    var tail := [PushInt(0), Goto(n + 1), Mark(n), PushInt(1), Mark(n + 1)];
    Split(code, pos, c, tail);
    CondRuns(env, code, at, e, n, true, n + 2, pos, s, w);
    BranchedValue(env, code, at, n, pos, pos + |c|, s, w, Eval(env, e, true, true, w));
  }

  lemma {:induction false} BitsRuns<W(!new)>(env: Env<W>, code: seq<Ins>, at: nat -> nat, e: Expr, n: nat, pos: nat, s: seq<Val>, w: W)
    requires e.Bits? && Typed(e) && Behaved(env) && Placed(code, at) && Has(code, pos, EmitValue(e, n).0)
    ensures Leaves(env, code, at, pos, pos + |EmitValue(e, n).0|, s, w, Eval(env, e, true, true, w))
    decreases e, 0
  {
    hide Reaches, Behaved, Placed, Has, EmitCond, EmitValue, Branches;
    var cx := EmitValue(e.x, n);
    var cy := EmitValue(e.y, cx.1);
    BitsParts(code, e, n, pos);
    var mid := pos + |cx.0|;
    var end := mid + |cy.0|;
    ValueRuns(env, code, at, e.x, n, pos, s, w);
    var t := Eval(env, e.x, true, true, w);
    var u := if t.Threw? then t else Eval(env, e.y, true, true, t.w);
    if !t.Threw? { ValueRuns(env, code, at, e.y, cx.1, mid, s + [I(if t.True? then 1 else 0)], t.w); }
    TwoValues(env, code, at, pos, mid, end, s, w, t, u);
    if !t.Threw? && !u.Threw? { LogicRuns(env, code, at, pos, end, e.op, t.True?, u.True?, s, w, u.w); }
  }

  lemma BitsParts(code: seq<Ins>, e: Expr, n: nat, pos: nat)
    requires e.Bits? && Typed(e) && Has(code, pos, EmitValue(e, n).0)
    ensures var cx := EmitValue(e.x, n);
            var cy := EmitValue(e.y, cx.1);
            && Has(code, pos, cx.0) && Has(code, pos + |cx.0|, cy.0) && Has(code, pos + |cx.0| + |cy.0|, [Logic(e.op)])
            && |EmitValue(e, n).0| == |cx.0| + |cy.0| + 1
  {
    hide Has;
    var cx := EmitValue(e.x, n);
    var cy := EmitValue(e.y, cx.1);
    Split(code, pos, cx.0 + cy.0, [Logic(e.op)]);
    Split(code, pos, cx.0, cy.0);
  }

  /** A logical instruction on two booleans already on the stack leaves 0 or 1. */
  lemma LogicRuns<W(!new)>(env: Env<W>, code: seq<Ins>, at: nat -> nat, pos: nat, end: nat, op: BitOp, p: bool, q: bool,
                           s: seq<Val>, w: W, w1: W)
    requires Has(code, end, [Logic(op)])
    requires Reaches(env, code, at, Running(pos, s, w), Running(end, s + [I(if p then 1 else 0), I(if q then 1 else 0)], w1))
    ensures Reaches(env, code, at, Running(pos, s, w), Running(end + 1, s + [I(if BitTruth(op, p, q) then 1 else 0)], w1))
  {
    hide Reaches;
    var a, b := I(if p then 1 else 0), I(if q then 1 else 0);
    var c := Running(end, s + [a, b], w1);
    HasAt(code, end, [Logic(op)], 0);
    Top2(s, a, b);
    One(env, code, at, c);
    Then(env, code, at, Running(pos, s, w), c, Step(env, code, at, c));
  }

  lemma {:induction false} ChooseRuns<W(!new)>(env: Env<W>, code: seq<Ins>, at: nat -> nat, e: Expr, n: nat, pos: nat, s: seq<Val>, w: W)
    requires e.Choose? && Typed(e) && Behaved(env) && Placed(code, at) && Has(code, pos, EmitValue(e, n).0)
    ensures Leaves(env, code, at, pos, pos + |EmitValue(e, n).0|, s, w, Eval(env, e, true, true, w))
    decreases e, 0
  {
    hide Reaches, Behaved, Placed, Has, EmitCond, EmitValue;
    var cc := EmitCond(e.c, n, false, n + 2);
    var cx := EmitValue(e.x, cc.1);
    var cy := EmitValue(e.y, cx.1);
    ChooseParts(code, e, n, pos);
    var px := pos + |cc.0|;
    var pt := px + |cx.0|;
    var py := pt + 2;
    var end := py + |cy.0|;
    CondRuns(env, code, at, e.c, n, false, n + 2, pos, s, w);
    var t := Eval(env, e.c, false, true, w);
    if t.True? {
      ValueRuns(env, code, at, e.x, cc.1, px, s, t.w);
      forall s', w' ensures Reaches(env, code, at, Running(pt, s', w'), Running(end + 1, s', w')) {
        LeaveArm(env, code, at, n, pt, end, s', w');
      }
      ContinueValue(env, code, at, pos, px, pt, end + 1, s, w, t.w, Eval(env, e.x, true, true, t.w));
    } else if t.False? {
      ElseArm(env, code, at, n, pos, pt, s, w, t.w);
      ValueRuns(env, code, at, e.y, cx.1, py, s, t.w);
      forall s', w' ensures Reaches(env, code, at, Running(end, s', w'), Running(end + 1, s', w')) {
        PassMark(env, code, at, end, n + 1, s', w');
      }
      ContinueValue(env, code, at, pos, py, end, end + 1, s, w, t.w, Eval(env, e.y, true, true, t.w));
    }
  }

  lemma ElseArm<W(!new)>(env: Env<W>, code: seq<Ins>, at: nat -> nat, n: nat, pos: nat, pt: nat, s: seq<Val>, w: W, w1: W)
    requires Placed(code, at) && Has(code, pt, [Goto(n + 1), Mark(n)])
    requires Reaches(env, code, at, Running(pos, s, w), Running(at(n), s, w1))
    ensures Reaches(env, code, at, Running(pos, s, w), Running(pt + 2, s, w1))
  {
    hide Reaches, Placed, Has;
    MarkAfterGoto(code, pt, n);
    Skipped(env, code, at, pos, pt + 1, n, s, w, w1);
  }

  lemma PassMark<W(!new)>(env: Env<W>, code: seq<Ins>, at: nat -> nat, end: nat, l: nat, s: seq<Val>, w: W)
    requires Has(code, end, [Mark(l)])
    ensures Reaches(env, code, at, Running(end, s, w), Running(end + 1, s, w))
  {
    hide Reaches;
    HasAt(code, end, [Mark(l)], 0);
    One(env, code, at, Running(end, s, w));
  }

  lemma ChooseParts(code: seq<Ins>, e: Expr, n: nat, pos: nat)
    requires e.Choose? && Typed(e) && Has(code, pos, EmitValue(e, n).0)
    ensures var cc := EmitCond(e.c, n, false, n + 2);
            var cx := EmitValue(e.x, cc.1);
            var cy := EmitValue(e.y, cx.1);
            var px := pos + |cc.0|;
            var pt := px + |cx.0|;
            && Has(code, pos, cc.0) && Has(code, px, cx.0) && Has(code, pt, [Goto(n + 1), Mark(n)])
            && Has(code, pt + 2, cy.0) && Has(code, pt + 2 + |cy.0|, [Mark(n + 1)])
            && pos + |EmitValue(e, n).0| == pt + 2 + |cy.0| + 1
  {
    hide Has;
    var cc := EmitCond(e.c, n, false, n + 2);
    var cx := EmitValue(e.x, cc.1);
    var cy := EmitValue(e.y, cx.1);
    var turn := [Goto(n + 1), Mark(n)];
    Split(code, pos, cc.0 + cx.0 + turn + cy.0, [Mark(n + 1)]);
    Split(code, pos, cc.0 + cx.0 + turn, cy.0);
    Split(code, pos, cc.0 + cx.0, turn);
    Split(code, pos, cc.0, cx.0);
  }

  lemma MarkAfterGoto(code: seq<Ins>, pt: nat, n: nat)
    requires Has(code, pt, [Goto(n + 1), Mark(n)])
    ensures Has(code, pt + 1, [Mark(n)])
  {
    assert [Goto(n + 1), Mark(n)] == [Goto(n + 1)] + [Mark(n)];
    Split(code, pt, [Goto(n + 1)], [Mark(n)]);
  }

  lemma LeaveArm<W(!new)>(env: Env<W>, code: seq<Ins>, at: nat -> nat, n: nat, pt: nat, end: nat, s: seq<Val>, w: W)
    requires Placed(code, at) && Has(code, pt, [Goto(n + 1), Mark(n)]) && Has(code, end, [Mark(n + 1)])
    ensures Reaches(env, code, at, Running(pt, s, w), Running(end + 1, s, w))
  {
    hide Reaches;
    HasAt(code, pt, [Goto(n + 1), Mark(n)], 0);
    HasAt(code, end, [Mark(n + 1)], 0);
    Steps2(env, code, at, Running(pt, s, w));
  }

  // ---- when the fused reading is the language's ---------------------------

  /** No floating relational test in e is emitted to jump when it holds. */
  predicate Exact(e: Expr, when: bool)
    requires Typed(e)
  {
    match e
    case Paren(e') => Exact(e', when)
    case Not(e') => Exact(e', !when)
    case And(x, y) => Exact(x, false) && Exact(y, when)
    case Or(x, y) => Exact(x, true) && Exact(y, when)
    case Compare(k, a, b) => when && Relational(k) ==> !Floating(Promoted(a.ty, b.ty))
    case SameBool(_, x, y) => Exact(x, true) && Exact(y, true)
    case Choose(c, x, y) => Exact(c, false) && Exact(x, true) && Exact(y, true)
    case Bits(_, x, y) => Exact(x, true) && Exact(y, true)
    case _ => true
  }

  lemma {:induction false} ExactMeans<W(!new)>(env: Env<W>, e: Expr, when: bool, w: W)
    requires Typed(e) && Behaved(env) && Exact(e, when)
    ensures Eval(env, e, when, true, w) == Eval(env, e, when, false, w)
    decreases e
  {
    hide Behaved;
    match e
    case Paren(e') => ExactMeans(env, e', when, w);
    case Not(e') => ExactMeans(env, e', !when, w);
    case And(x, y) =>
      ExactMeans(env, x, false, w);
      ExactMeans(env, y, when, Eval(env, x, false, true, w).w);
    case Or(x, y) =>
      ExactMeans(env, x, true, w);
      ExactMeans(env, y, when, Eval(env, x, true, true, w).w);
    case Compare(k, a, b) => ExactCompare(env, k, a, b, when, w);
    case SameBool(_, x, y) =>
      ExactMeans(env, x, true, w);
      ExactMeans(env, y, true, Eval(env, x, true, true, w).w);
    case Choose(c, x, y) =>
      ExactMeans(env, c, false, w);
      ExactMeans(env, x, true, Eval(env, c, false, true, w).w);
      ExactMeans(env, y, true, Eval(env, c, false, true, w).w);
    case Bits(_, x, y) =>
      ExactMeans(env, x, true, w);
      ExactMeans(env, y, true, Eval(env, x, true, true, w).w);
    case _ =>
  }

  lemma ExactCompare<W(!new)>(env: Env<W>, k: Rel, a: Operand, b: Operand, when: bool, w: W)
    requires Behaved(env) && Typed(Compare(k, a, b)) && Exact(Compare(k, a, b), when)
    ensures Eval(env, Compare(k, a, b), when, true, w) == Eval(env, Compare(k, a, b), when, false, w)
  {
    hide Promoted;
    var both := Both(env, a, b, w);
    if both.0.Value? && both.1.Value? {
      ConvertedTyped(env, a, b, w);
      var t := Promoted(a.ty, b.ty);
      var pa, pb := Converted(env, a.ty, t, both.0.v), Converted(env, b.ty, t, both.1.v);
      if Unordered(k, pa, pb) {
        UnorderedTyped(k, t, pa, pb);
        UnorderedIsFalse(k, pa, pb);
      }
    }
  }

  lemma UnorderedTyped(k: Rel, t: Ty, a: Val, b: Val)
    requires HasType(a, t) && HasType(b, t) && Unordered(k, a, b)
    ensures Floating(t) && Relational(k)
  {
  }

  lemma UnorderedIsFalse(k: Rel, a: Val, b: Val)
    requires Unordered(k, a, b)
    ensures !RelVal(k, a, b)
  {
  }

  /**
   * Conditions compile correctly: the emitted branch reaches its target exactly when the expression evaluates to
   * `when`, falls through otherwise, leaves the stack as it was, and has had the operands' effects in evaluation order.
   */
  lemma CondCorrect<W(!new)>(env: Env<W>, code: seq<Ins>, at: nat -> nat, e: Expr, target: nat, when: bool, n: nat,
                             pos: nat, s: seq<Val>, w: W)
    requires Typed(e) && Behaved(env) && Placed(code, at) && Has(code, pos, EmitCond(e, target, when, n).0) && Exact(e, when)
    ensures Branches(env, code, at, pos, pos + |EmitCond(e, target, when, n).0|, target, when, s, w, Meaning(env, e, w))
  {
    hide Behaved, Placed, Has, Branches, Exact;
    CondRuns(env, code, at, e, target, when, n, pos, s, w);
    ExactMeans(env, e, when, w);
    MeaningIgnoresPosition(env, e, when, w);
  }

  /** A materialised condition leaves exactly 0 or 1. */
  lemma ValueCorrect<W(!new)>(env: Env<W>, code: seq<Ins>, at: nat -> nat, e: Expr, n: nat, pos: nat, s: seq<Val>, w: W)
    requires Typed(e) && Behaved(env) && Placed(code, at) && Has(code, pos, EmitValue(e, n).0) && Exact(e, true)
    ensures Leaves(env, code, at, pos, pos + |EmitValue(e, n).0|, s, w, Meaning(env, e, w))
  {
    hide Behaved, Placed, Has, Leaves, Exact;
    ValueRuns(env, code, at, e, n, pos, s, w);
    ExactMeans(env, e, true, w);
  }

  // ---- labels -------------------------------------------------------------

  /** Every mark in the code is one of the labels lo..hi, and no label is marked twice. */
  ghost predicate Fresh(code: seq<Ins>, lo: nat, hi: nat) {
    && (forall i :: 0 <= i < |code| && code[i].Mark? ==> lo <= code[i].l < hi)
    && (forall i, j :: 0 <= i < j < |code| && code[i].Mark? && code[j].Mark? ==> code[i].l != code[j].l)
  }

  lemma FreshJoin(a: seq<Ins>, b: seq<Ins>, lo: nat, mid: nat, hi: nat)
    requires Fresh(a, lo, mid) && Fresh(b, mid, hi) && lo <= mid <= hi
    ensures Fresh(a + b, lo, hi)
  {
  }

  lemma FreshWider(a: seq<Ins>, lo: nat, hi: nat, lo': nat, hi': nat)
    requires Fresh(a, lo, hi) && lo' <= lo && hi <= hi'
    ensures Fresh(a, lo', hi')
  {
  }

  /** Adding code whose only marks are labels the rest does not use. */
  lemma FreshMark(a: seq<Ins>, lo: nat, hi: nat, l: nat, lo': nat)
    requires Fresh(a, lo, hi) && lo' <= l < lo && lo' <= lo <= hi
    ensures Fresh(a + [Mark(l)], lo', hi)
  {
  }

  lemma NoMarks(a: seq<Ins>, lo: nat, hi: nat)
    requires forall i :: 0 <= i < |a| ==> !a[i].Mark?
    ensures Fresh(a, lo, hi)
  {
  }

  /** The emitted code marks only labels it allocated, each at most once. */
  lemma {:induction false} CondLabels(e: Expr, target: nat, when: bool, n: nat)
    requires Typed(e)
    ensures Fresh(EmitCond(e, target, when, n).0, n, EmitCond(e, target, when, n).1)
    decreases e, if Materialised(e) then 3 else 1
  {
    hide Fresh;
    match e
    case Folded(b) => NoMarks(EmitCond(e, target, when, n).0, n, n);
    case Paren(e') => CondLabels(e', target, when, n);
    case Not(e') => CondLabels(e', target, !when, n);
    case And(x, y) => PairLabels(e, if when then n else target, target, false, when, n, when);
    case Or(x, y) => PairLabels(e, if when then target else n, target, true, when, n, !when);
    case Compare(k, a, b) => NoMarks(EmitCompare(k, a, b, target, when), n, n);
    case Same(eq, a, b) => NoMarks(EmitSame(eq, a, b, target, when), n, n);
    case SameBool(eq, x, y) => SameBoolLabels(e, target, when, n);
    case InstanceOf(a, cls) => NoMarks(EmitCond(e, target, when, n).0, n, n);
    case _ =>
      var c := EmitValue(e, n);
      ValueLabels(e, n);
      NoMarks([TestZero(target, when)], c.1, c.1);
      FreshJoin(c.0, [TestZero(target, when)], n, c.1, c.1);
  }

  lemma {:induction false} SameBoolLabels(e: Expr, target: nat, when: bool, n: nat)
    requires e.SameBool? && Typed(e)
    ensures Fresh(EmitCond(e, target, when, n).0, n, EmitCond(e, target, when, n).1)
    decreases e, 0
  {
    hide Fresh;
    var cx := EmitValue(e.x, n);
    var cy := EmitValue(e.y, cx.1);
    var last := [IfInts(if e.eq == when then EQ else NE, target)];
    ValueLabels(e.x, n);
    ValueLabels(e.y, cx.1);
    FreshJoin(cx.0, cy.0, n, cx.1, cy.1);
    NoMarks(last, cy.1, cy.1);
    FreshJoin(cx.0 + cy.0, last, n, cy.1, cy.1);
  }

  lemma {:induction false} PairLabels(e: Expr, tx: nat, ty: nat, wx: bool, wy: bool, n: nat, marks: bool)
    requires (e.And? || e.Or?) && Typed(e)
    ensures var m := if marks then n + 1 else n;
            var cx := EmitCond(e.x, tx, wx, m);
            var cy := EmitCond(e.y, ty, wy, cx.1);
            Fresh(if marks then cx.0 + cy.0 + [Mark(n)] else cx.0 + cy.0, n, cy.1)
    decreases e, 0
  {
    hide Fresh, EmitCond;
    var m := if marks then n + 1 else n;
    var cx := EmitCond(e.x, tx, wx, m);
    var cy := EmitCond(e.y, ty, wy, cx.1);
    CondLabels(e.x, tx, wx, m);
    CondLabels(e.y, ty, wy, cx.1);
    FreshJoin(cx.0, cy.0, m, cx.1, cy.1);
    if marks { FreshMark(cx.0 + cy.0, m, cy.1, n, n); }
  }

  lemma {:induction false} ValueLabels(e: Expr, n: nat)
    requires Typed(e)
    ensures Fresh(EmitValue(e, n).0, n, EmitValue(e, n).1)
    decreases e, if Materialised(e) then 1 else 3
  {
    hide Fresh;
    match e
    case Folded(b) => NoMarks(EmitValue(e, n).0, n, n);
    case Paren(e') => ValueLabels(e', n);
    case InstanceOf(a, cls) => NoMarks(EmitValue(e, n).0, n, n);
    case Choose(_, _, _) => ChooseLabels(e, n);
    case Bits(op, x, y) =>
      var cx := EmitValue(x, n);
      var cy := EmitValue(y, cx.1);
      ValueLabels(x, n);
      ValueLabels(y, cx.1);
      FreshJoin(cx.0, cy.0, n, cx.1, cy.1);
      NoMarks([Logic(op)], cy.1, cy.1);
      FreshJoin(cx.0 + cy.0, [Logic(op)], n, cy.1, cy.1);
    case Other(id) => NoMarks(EmitValue(e, n).0, n, n);
    case _ =>
      var c := EmitCond(e, n, true, n + 2);
      CondLabels(e, n, true, n + 2);
      TailLabels(c.0, n, c.1);
  }

  lemma TailLabels(a: seq<Ins>, n: nat, hi: nat)
    requires Fresh(a, n + 2, hi) && n + 2 <= hi
    ensures Fresh(a + [PushInt(0), Goto(n + 1), Mark(n), PushInt(1), Mark(n + 1)], n, hi)
  {
    var r := a + [PushInt(0), Goto(n + 1), Mark(n), PushInt(1), Mark(n + 1)];
    assert forall i :: 0 <= i < |a| ==> r[i] == a[i];
  }

  lemma {:induction false} ChooseLabels(e: Expr, n: nat)
    requires e.Choose? && Typed(e)
    ensures Fresh(EmitValue(e, n).0, n, EmitValue(e, n).1)
    decreases e, 0
  {
    hide Fresh, EmitCond;
    var cc := EmitCond(e.c, n, false, n + 2);
    var cx := EmitValue(e.x, cc.1);
    var cy := EmitValue(e.y, cx.1);
    CondLabels(e.c, n, false, n + 2);
    ValueLabels(e.x, cc.1);
    ValueLabels(e.y, cx.1);
    FreshJoin(cc.0, cx.0, n + 2, cc.1, cx.1);
    ArmLabels(cc.0 + cx.0, cy.0, n, cx.1, cy.1);
  }

  lemma ArmLabels(a: seq<Ins>, b: seq<Ins>, n: nat, mid: nat, hi: nat)
    requires Fresh(a, n + 2, mid) && Fresh(b, mid, hi) && n + 2 <= mid <= hi
    ensures Fresh(a + [Goto(n + 1), Mark(n)] + b + [Mark(n + 1)], n, hi)
  {
    var r := a + [Goto(n + 1), Mark(n)] + b + [Mark(n + 1)];
    assert forall i :: 0 <= i < |a| ==> r[i] == a[i];
    assert forall i :: 0 <= i < |b| ==> r[|a| + 2 + i] == b[i];
  }

  /** Code with fresh labels can always be placed: each label at its mark. */
  lemma PlacementExists(code: seq<Ins>, lo: nat, hi: nat)
    requires Fresh(code, lo, hi)
    ensures Placed(code, l => MarkIndex(code, l))
  {
    forall i | 0 <= i < |code| && code[i].Mark? ensures MarkIndex(code, code[i].l) == i {
      MarkIndexFinds(code, code[i].l);
    }
  }

  function MarkIndex(code: seq<Ins>, l: nat): nat {
    if code == [] then 0 else if code[0] == Mark(l) then 0 else 1 + MarkIndex(code[1..], l)
  }

  lemma {:induction false} MarkIndexFinds(code: seq<Ins>, l: nat)
    requires Mark(l) in code
    ensures MarkIndex(code, l) < |code| && code[MarkIndex(code, l)] == Mark(l)
  {
    if code[0] != Mark(l) { MarkIndexFinds(code[1..], l); }
  }
}
