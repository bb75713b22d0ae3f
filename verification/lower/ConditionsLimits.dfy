/** Where a compiled condition goes wrong: run on concrete environments, and exactly which conditions can. */
module ConditionsLimits {
  import opened Conditions
  import opened ConditionsProof

  // ---- a run ends in one place --------------------------------------------

  lemma {:induction false} StuckStays<W>(env: Env<W>, code: seq<Ins>, at: nat -> nat, n: nat)
    ensures Run(env, code, at, n, Stuck) == Stuck
  {
    if n > 0 { StuckStays(env, code, at, n - 1); }
  }

  /** Past the code there is nowhere to go. */
  lemma OneEnd<W(!new)>(env: Env<W>, code: seq<Ins>, at: nat -> nat, c: Config<W>, d: Config<W>, e: Config<W>)
    requires Reaches(env, code, at, c, d) && Reaches(env, code, at, c, e)
    requires d.Running? && d.pc >= |code| && e.Running? && e.pc >= |code|
    ensures d == e
  {
    hide Step;
    var m: nat :| Run(env, code, at, m, c) == d;
    var n: nat :| Run(env, code, at, n, c) == e;
    assert Step(env, code, at, d) == Stuck && Step(env, code, at, e) == Stuck by { PastEnd(env, code, at, d); PastEnd(env, code, at, e); }
    if m < n {
      RunThen(env, code, at, m, n - m, c);
      StuckStays(env, code, at, n - m - 1);
    } else if n < m {
      RunThen(env, code, at, n, m - n, c);
      StuckStays(env, code, at, m - n - 1);
    }
  }

  lemma PastEnd<W>(env: Env<W>, code: seq<Ins>, at: nat -> nat, c: Config<W>)
    requires c.Running? && c.pc >= |code|
    ensures Step(env, code, at, c) == Stuck
  {
  }

  /** A branch whose target is not its end cannot decide both ways. */
  lemma BranchesOneWay(env: Env<()>, code: seq<Ins>, at: nat -> nat, target: nat, when: bool, s: seq<Val>, b: bool)
    requires at(target) > |code| && Branches(env, code, at, 0, |code|, target, when, s, (), Decided(b, ()))
    ensures !Branches(env, code, at, 0, |code|, target, when, s, (), Decided(!b, ()))
  {
    hide Reaches;
    var c, there, past := Running(0, s, ()), Running(at(target), s, ()), Running(|code|, s, ());
    if Reaches(env, code, at, c, there) && Reaches(env, code, at, c, past) { OneEnd(env, code, at, c, there, past); }
  }

  lemma LeavesOneWay(env: Env<()>, code: seq<Ins>, at: nat -> nat, s: seq<Val>, b: bool)
    requires Leaves(env, code, at, 0, |code|, s, (), Decided(b, ()))
    ensures !Leaves(env, code, at, 0, |code|, s, (), Decided(!b, ()))
  {
    hide Reaches;
    var c, one, zero := Running(0, s, ()), Running(|code|, s + [I(1)], ()), Running(|code|, s + [I(0)], ());
    assert (s + [I(1)])[|s|] != (s + [I(0)])[|s|];
    if Reaches(env, code, at, c, one) && Reaches(env, code, at, c, zero) { OneEnd(env, code, at, c, one, zero); }
  }

  // ---- environments by operand --------------------------------------------

  function Amount(v: Val): Fl {
    match v
    case I(x) => Num(x as real)
    case J(x) => Num(x as real)
    case F(f) => f
    case D(f) => f
    case R(_) => Num(0.0)
  }

  function Lifted(to: Ty, v: Val): Val {
    match to
    case TBool => if HasType(v, TBool) then v else I(0)
    case TInt => if v.I? then v else I(0)
    case TLong => if v.I? then J(v.v) else if v.J? then v else J(0)
    case TFloat => F(Amount(v))
    case TDouble => D(Amount(v))
    case TRef => if v.R? then v else R(0)
  }

  /** Zero or one of a type. */
  function Small(t: Ty, x: int): Val {
    match t
    case TBool => I(x)
    case TInt => I(x)
    case TLong => J(x)
    case TFloat => F(Num(x as real))
    case TDouble => D(Num(x as real))
    case TRef => R(x)
  }

  /** Every operand has the value given to its number, or zero; the object 1 is an instance of everything. */
  function Given(m: map<nat, Val>): Env<()> {
    Env((id, t, w) => Value(if id in m && HasType(m[id], t) then m[id] else Small(t, 0), w),
        (from, to, v) => Lifted(to, v),
        (r, c) => r == 1)
  }

  lemma GivenBehaved(m: map<nat, Val>)
    ensures Behaved(Given(m))
  {
    var env := Given(m);
    forall id, t, w ensures env.run(id, t, w).Value? && HasType(env.run(id, t, w).v, t) { SmallTyped(t, 0); }
    forall from: Ty, to, v ensures HasType(env.widen(from, to, v), to) {}
  }

  lemma SmallTyped(t: Ty, x: int)
    requires 0 <= x <= 1
    ensures HasType(Small(t, x), t)
  {
  }

  // ---- comparisons --------------------------------------------------------

  /** A NaN of a floating type. */
  function NotANumber(t: Ty): Val { if t == TFloat then F(NaN) else D(NaN) }

  /** Every float and every double is NaN. */
  function AllNaN(): Env<()> {
    Env((id, t, w) => Value(if Floating(t) then NotANumber(t) else Small(t, 0), w),
        (from, to, v) => if Floating(to) then NotANumber(to) else Small(to, 0),
        (r, c) => false)
  }

  lemma AllNaNBehaved()
    ensures Behaved(AllNaN())
  {
    var env := AllNaN();
    forall id, t, w ensures env.run(id, t, w).Value? && HasType(env.run(id, t, w).v, t) { SmallTyped(t, 0); }
    forall from: Ty, to, v ensures HasType(env.widen(from, to, v), to) { SmallTyped(to, 0); }
  }

  lemma AllUnordered(k: Rel, a: Operand, b: Operand, when: bool)
    requires Typed(Compare(k, a, b)) && Relational(k) && Floating(Promoted(a.ty, b.ty))
    ensures Eval(AllNaN(), Compare(k, a, b), when, true, ()) == Decided(when, ()) && Meaning(AllNaN(), Compare(k, a, b), ()) == False(())
  {
    var env, t := AllNaN(), Promoted(a.ty, b.ty);
    var v := NotANumber(t);
    assert Both(env, a, b, ()).0.Value? && Both(env, a, b, ()).1.Value?;
    assert Converted(env, a.ty, t, Both(env, a, b, ()).0.v) == v && Converted(env, b.ty, t, Both(env, a, b, ()).1.v) == v;
    assert Unordered(k, v, v);
    UnorderedIsFalse(k, v, v);
  }

  /** Past the end of any code. */
  function Beyond(code: seq<Ins>): nat -> nat { l => |code| + 1 }

  /**
   * The code of a comparison is right in every environment and from every stack, wherever its target is, if and only if it
   * is not a floating relational test that jumps on true.
   */
  lemma CompareExactly(k: Rel, a: Operand, b: Operand, target: nat, when: bool)
    requires Typed(Compare(k, a, b))
    ensures var code := EmitCompare(k, a, b, target, when);
            Exact(Compare(k, a, b), when) <==>
              forall env: Env<()>, at: nat -> nat, s: seq<Val> :: Behaved(env) ==>
                Branches(env, code, at, 0, |code|, target, when, s, (), Meaning(env, Compare(k, a, b), ()))
  {
    hide Branches, Behaved, EmitCompare, Eval;
    var e, code := Compare(k, a, b), EmitCompare(k, a, b, target, when);
    assert Has(code, 0, code);
    if Exact(e, when) {
      forall env: Env<()>, at: nat -> nat, s: seq<Val> | Behaved(env)
        ensures Branches(env, code, at, 0, |code|, target, when, s, (), Meaning(env, e, ()))
      {
        CompareRuns(env, code, at, k, a, b, target, when, 0, s, ());
        ExactMeans(env, e, when, ());
        MeaningIgnoresPosition(env, e, when, ());
      }
    } else {
      var env, at := AllNaN(), Beyond(code);
      AllNaNBehaved();
      AllUnordered(k, a, b, when);
      CompareRuns(env, code, at, k, a, b, target, when, 0, [], ());
      BranchesOneWay(env, code, at, target, when, [], true);
    }
  }

  /** x < y on doubles that are both NaN: the code emitted to jump on true jumps, and the comparison is false. */
  lemma NaNJumps(at: nat -> nat, s: seq<Val>)
    ensures var e := Compare(LT, Operand(0, TDouble), Operand(1, TDouble));
            && Reaches(AllNaN(), EmitCond(e, 0, true, 1).0, at, Running(0, s, ()), Running(at(0), s, ()))
            && Behaved(AllNaN()) && Meaning(AllNaN(), e, ()) == False(())
  {
    hide Behaved, EmitCompare, Eval, Reaches;
    var e := Compare(LT, Operand(0, TDouble), Operand(1, TDouble));
    var code := EmitCompare(e.k, e.a, e.b, 0, true);
    assert Has(code, 0, code);
    AllNaNBehaved();
    AllUnordered(e.k, e.a, e.b, true);
    CompareRuns(AllNaN(), code, at, e.k, e.a, e.b, 0, true, 0, s, ());
  }

  // ---- whole conditions ---------------------------------------------------

  /** No leaf is a constant: nothing folded, no null compared with null or tested for its type. */
  predicate Open(e: Expr) {
    match e
    case Folded(_) => false
    case Paren(e') => Open(e')
    case Not(e') => Open(e')
    case And(x, y) => Open(x) && Open(y)
    case Or(x, y) => Open(x) && Open(y)
    case Compare(_, _, _) => true
    case Same(_, a, b) => a.Operand? || b.Operand?
    case SameBool(_, x, y) => Open(x) && Open(y)
    case InstanceOf(a, _) => a.Operand?
    case Choose(c, x, y) => Open(c) && Open(x) && Open(y)
    case Bits(_, x, y) => Open(x) && Open(y)
    case Other(_) => true
  }

  function OperandIds(a: Operand): set<nat> { if a.Operand? then {a.id} else {} }

  function Ids(e: Expr): set<nat> {
    match e
    case Folded(_) => {}
    case Paren(e') => Ids(e')
    case Not(e') => Ids(e')
    case And(x, y) => Ids(x) + Ids(y)
    case Or(x, y) => Ids(x) + Ids(y)
    case Compare(_, a, b) => OperandIds(a) + OperandIds(b)
    case Same(_, a, b) => OperandIds(a) + OperandIds(b)
    case SameBool(_, x, y) => Ids(x) + Ids(y)
    case InstanceOf(a, _) => OperandIds(a)
    case Choose(c, x, y) => Ids(c) + Ids(x) + Ids(y)
    case Bits(_, x, y) => Ids(x) + Ids(y)
    case Other(id) => {id}
  }

  /** A number names one occurrence of an operand, as a node of the syntax tree does. */
  predicate Apart(e: Expr) {
    match e
    case Paren(e') => Apart(e')
    case Not(e') => Apart(e')
    case And(x, y) => Apart(x) && Apart(y) && Ids(x) !! Ids(y)
    case Or(x, y) => Apart(x) && Apart(y) && Ids(x) !! Ids(y)
    case Compare(_, a, b) => OperandIds(a) !! OperandIds(b)
    case Same(_, a, b) => OperandIds(a) !! OperandIds(b)
    case SameBool(_, x, y) => Apart(x) && Apart(y) && Ids(x) !! Ids(y)
    case Choose(c, x, y) => Apart(c) && Apart(x) && Apart(y) && Ids(c) !! Ids(x) && Ids(c) !! Ids(y) && Ids(x) !! Ids(y)
    case Bits(_, x, y) => Apart(x) && Apart(y) && Ids(x) !! Ids(y)
    case _ => true
  }

  predicate Agree(ids: set<nat>, m: map<nat, Val>, n: map<nat, Val>) {
    forall id :: id in ids ==> (id in m <==> id in n) && (id in m ==> m[id] == n[id])
  }

  /** Only an expression's own operands matter to it. */
  lemma {:induction false} Local(e: Expr, when: bool, fused: bool, m: map<nat, Val>, n: map<nat, Val>)
    requires Typed(e) && Agree(Ids(e), m, n)
    ensures Eval(Given(m), e, when, fused, ()) == Eval(Given(n), e, when, fused, ())
    decreases e
  {
    hide Given, HasType, Both, OperandValue, Converted, RelVal, Unordered, Promoted, BitTruth;
    match e
    case Folded(_) =>
    case Paren(e') => Local(e', when, fused, m, n);
    case Not(e') => Local(e', !when, fused, m, n);
    case And(x, y) =>
      Local(x, false, fused, m, n);
      Local(y, when, fused, m, n);
      assert Eval(Given(m), x, false, fused, ()).w == ();
    case Or(x, y) =>
      Local(x, true, fused, m, n);
      Local(y, when, fused, m, n);
      assert Eval(Given(m), x, true, fused, ()).w == ();
    case SameBool(_, x, y) =>
      Local(x, true, fused, m, n);
      Local(y, true, fused, m, n);
      assert Eval(Given(m), x, true, fused, ()).w == ();
    case Choose(c, x, y) =>
      Local(c, false, fused, m, n);
      Local(x, true, fused, m, n);
      Local(y, true, fused, m, n);
      assert Eval(Given(m), c, false, fused, ()).w == ();
    case Bits(_, x, y) =>
      Local(x, true, fused, m, n);
      Local(y, true, fused, m, n);
      assert Eval(Given(m), x, true, fused, ()).w == ();
    case _ => LocalLeaf(e, when, fused, m, n);
  }

  lemma LocalLeaf(e: Expr, when: bool, fused: bool, m: map<nat, Val>, n: map<nat, Val>)
    requires (e.Compare? || e.Same? || e.InstanceOf? || e.Other?) && Typed(e) && Agree(Ids(e), m, n)
    ensures Eval(Given(m), e, when, fused, ()) == Eval(Given(n), e, when, fused, ())
  {
    hide RelVal, Unordered, Lifted, Promoted;
    if e.Compare? || e.Same? {
      assert Both(Given(m), e.a, e.b, ()) == Both(Given(n), e.a, e.b, ());
    }
  }

  /** The expression decides b, in any position and on either reading. */
  ghost predicate Decides(m: map<nat, Val>, e: Expr, b: bool)
    requires Typed(e)
  {
    forall when, fused :: Eval(Given(m), e, when, fused, ()) == Decided(b, ())
  }

  lemma Keeps(e: Expr, b: bool, m: map<nat, Val>, n: map<nat, Val>)
    requires Typed(e) && Decides(m, e, b) && Agree(Ids(e), m, n)
    ensures Decides(n, e, b)
  {
    hide Eval, Agree;
    forall when, fused
      ensures Eval(Given(n), e, when, fused, ()) == Decided(b, ())
    {
      Local(e, when, fused, m, n);
    }
  }

  /** Which of zero and one make a comparison come out as b. */
  function Pick(k: Rel, b: bool): (int, int) {
    match k
    case EQ => if b then (0, 0) else (0, 1)
    case NE => if b then (0, 1) else (0, 0)
    case LT => if b then (0, 1) else (1, 0)
    case GE => if b then (1, 0) else (0, 1)
    case GT => if b then (1, 0) else (0, 1)
    case LE => if b then (0, 1) else (1, 0)
  }

  lemma SmallLifts(from: Ty, other: Ty, x: int)
    requires Numeric(from) && Numeric(other) && 0 <= x <= 1
    ensures var to := Promoted(from, other); from != to ==> Lifted(to, Small(from, x)) == Small(to, x)
    ensures Promoted(from, other) == Promoted(other, from) && Numeric(Promoted(from, other))
  {
  }

  lemma SmallCompares(k: Rel, t: Ty, b: bool)
    requires Numeric(t)
    ensures var p := Pick(k, b);
            !Unordered(k, Small(t, p.0), Small(t, p.1)) && RelVal(k, Small(t, p.0), Small(t, p.1)) == b && 0 <= p.0 <= 1 && 0 <= p.1 <= 1
  {
  }

  lemma SteerCompare(e: Expr, b: bool) returns (m: map<nat, Val>)
    requires e.Compare? && Typed(e) && Apart(e)
    ensures m.Keys <= Ids(e) && Decides(m, e, b)
  {
    hide Promoted, Lifted, Small, RelVal, Unordered, Pick;
    var k, a, c := e.k, e.a, e.b;
    var p, t := Pick(k, b), Promoted(a.ty, c.ty);
    m := map[a.id := Small(a.ty, p.0), c.id := Small(c.ty, p.1)];
    SmallLifts(a.ty, c.ty, 0);
    SmallCompares(k, t, b);
    SmallLifts(a.ty, c.ty, p.0);
    SmallLifts(c.ty, a.ty, p.1);
    SmallTyped(a.ty, p.0);
    SmallTyped(c.ty, p.1);
    assert a.id in OperandIds(a) && c.id in OperandIds(c);
    assert Both(Given(m), a, c, ()) == (Value(Small(a.ty, p.0), ()), Value(Small(c.ty, p.1), ()));
  }

  lemma SteerLeaf(e: Expr, b: bool) returns (m: map<nat, Val>)
    requires (e.Same? || e.InstanceOf? || e.Other?) && Typed(e) && Open(e) && Apart(e)
    ensures m.Keys <= Ids(e) && Decides(m, e, b)
  {
    match e
    case Same(eq, x, y) =>
      m := (if x.Operand? then map[x.id := R(0)] else map[]) + (if y.Operand? then map[y.id := if b == eq then R(0) else R(1)] else map[]);
      if y.Null? { m := map[x.id := if b == eq then R(0) else R(1)]; }
      assert x.Operand? && y.Operand? ==> x.id in OperandIds(x) && y.id in OperandIds(y);
    case InstanceOf(x, _) => m := map[x.id := if b then R(1) else R(0)];
    case Other(id) => m := map[id := if b then I(1) else I(0)];
  }

  /** Two parts steered apart from each other. */
  lemma Joined(x: Expr, y: Expr, m: map<nat, Val>, n: map<nat, Val>)
    requires Ids(x) !! Ids(y) && m.Keys <= Ids(x) && n.Keys <= Ids(y)
    ensures Agree(Ids(x), m, m + n) && Agree(Ids(y), n, m + n) && (m + n).Keys <= Ids(x) + Ids(y)
  {
  }

  lemma DecidesUnary(m: map<nat, Val>, x: Expr, b: bool)
    requires Typed(x) && Decides(m, x, b)
    ensures Decides(m, Paren(x), b) && Decides(m, Not(x), !b)
  {
    forall when, fused
      ensures Eval(Given(m), Paren(x), when, fused, ()) == Decided(b, ()) && Eval(Given(m), Not(x), when, fused, ()) == Decided(!b, ())
    {
      assert Eval(Given(m), x, !when, fused, ()) == Decided(b, ());
    }
  }

  predicate Two(e: Expr) { e.And? || e.Or? || e.SameBool? || e.Bits? }

  /** The answer of two parts that both decide. */
  function Combined(e: Expr, p: bool, q: bool): bool
    requires Two(e)
  {
    match e
    case And(_, _) => p && q
    case Or(_, _) => p || q
    case SameBool(eq, _, _) => (p == q) == eq
    case Bits(op, _, _) => BitTruth(op, p, q)
  }

  lemma TwoDecide(env: Env<()>, e: Expr, p: bool, q: bool, when: bool, fused: bool)
    requires Two(e) && Typed(e)
    requires forall w :: Eval(env, e.x, w, fused, ()) == Decided(p, ()) && Eval(env, e.y, w, fused, ()) == Decided(q, ())
    ensures Eval(env, e, when, fused, ()) == Decided(Combined(e, p, q), ())
  {
    hide Both, OperandValue, Converted, RelVal, Unordered, BitTruth;
    var u, v := Eval(env, e.x, !e.And?, fused, ()), Eval(env, e.y, if e.And? || e.Or? then when else true, fused, ());
    assert u == Decided(p, ()) && v == Decided(q, ());
  }

  lemma DecidesTwo(m: map<nat, Val>, e: Expr, p: bool, q: bool)
    requires Two(e) && Typed(e) && Decides(m, e.x, p) && Decides(m, e.y, q)
    ensures Decides(m, e, Combined(e, p, q))
  {
    hide Eval, Given, Combined;
    forall when, fused
      ensures Eval(Given(m), e, when, fused, ()) == Decided(Combined(e, p, q), ())
    {
      TwoDecide(Given(m), e, p, q, when, fused);
    }
  }

  lemma DecidesChoose(m: map<nat, Val>, e: Expr, b: bool)
    requires e.Choose? && Typed(e) && Decides(m, e.c, true) && Decides(m, e.x, b)
    ensures Decides(m, e, b)
  {
    forall when, fused
      ensures Eval(Given(m), e, when, fused, ()) == Decided(b, ())
    {
      assert Eval(Given(m), e.c, false, fused, ()) == True(());
    }
  }

  /** An open expression can be made to decide either way. */
  lemma {:induction false} Steer(e: Expr, b: bool) returns (m: map<nat, Val>)
    requires Typed(e) && Open(e) && Apart(e)
    ensures m.Keys <= Ids(e) && Decides(m, e, b)
    decreases e
  {
    hide Agree, Eval, Decides;
    match e
    case Paren(x) =>
      m := Steer(x, b);
      DecidesUnary(m, x, b);
    case Not(x) =>
      m := Steer(x, !b);
      DecidesUnary(m, x, !b);
    case And(x, y) =>
      m := SteerTwo(e, true, b);
      DecidesTwo(m, e, true, b);
    case Or(x, y) =>
      m := SteerTwo(e, false, b);
      DecidesTwo(m, e, false, b);
    case Compare(_, _, _) => m := SteerCompare(e, b);
    case SameBool(eq, x, y) =>
      m := SteerTwo(e, true, b == eq);
      DecidesTwo(m, e, true, b == eq);
    case Bits(op, x, y) =>
      m := SteerTwo(e, op == BitAnd, b);
      DecidesTwo(m, e, op == BitAnd, b);
    case Choose(c, x, y) =>
      m := SteerThree(e, true, b, b);
      DecidesChoose(m, e, b);
    case _ => m := SteerLeaf(e, b);
  }

  lemma {:induction false} SteerTwo(e: Expr, p: bool, q: bool) returns (m: map<nat, Val>)
    requires Two(e) && Typed(e) && Open(e) && Apart(e)
    ensures m.Keys <= Ids(e) && Decides(m, e.x, p) && Decides(m, e.y, q)
    decreases e, 0
  {
    hide Agree, Eval, Decides;
    var mx := Steer(e.x, p);
    var my := Steer(e.y, q);
    Joined(e.x, e.y, mx, my);
    m := mx + my;
    Keeps(e.x, p, mx, m);
    Keeps(e.y, q, my, m);
  }

  lemma {:induction false} SteerThree(e: Expr, c: bool, p: bool, q: bool) returns (m: map<nat, Val>)
    requires e.Choose? && Typed(e) && Open(e) && Apart(e)
    ensures m.Keys <= Ids(e) && Decides(m, e.c, c) && Decides(m, e.x, p) && Decides(m, e.y, q)
    decreases e, 0
  {
    hide Agree, Eval;
    var mc := Steer(e.c, c);
    var mx := Steer(e.x, p);
    var my := Steer(e.y, q);
    m := Three(e, mc, mx, my);
    Keeps(e.c, c, mc, m);
    Keeps(e.x, p, mx, m);
    Keeps(e.y, q, my, m);
  }

  lemma Three(e: Expr, mc: map<nat, Val>, mx: map<nat, Val>, my: map<nat, Val>) returns (m: map<nat, Val>)
    requires e.Choose? && Apart(e) && mc.Keys <= Ids(e.c) && mx.Keys <= Ids(e.x) && my.Keys <= Ids(e.y)
    ensures m.Keys <= Ids(e) && Agree(Ids(e.c), mc, m) && Agree(Ids(e.x), mx, m) && Agree(Ids(e.y), my, m)
  {
    m := mc + mx + my;
  }

  // ---- the two readings part ----------------------------------------------

  /** Run as emitted the expression decides b, and it means the opposite. */
  ghost predicate Parts(m: map<nat, Val>, e: Expr, when: bool, b: bool)
    requires Typed(e)
  {
    Eval(Given(m), e, when, true, ()) == Decided(b, ()) && Eval(Given(m), e, when, false, ()) == Decided(!b, ())
  }

  lemma PartsKeep(e: Expr, when: bool, b: bool, m: map<nat, Val>, n: map<nat, Val>)
    requires Typed(e) && Parts(m, e, when, b) && Agree(Ids(e), m, n)
    ensures Parts(n, e, when, b)
  {
    hide Eval, Agree;
    Local(e, when, true, m, n);
    Local(e, when, false, m, n);
  }

  lemma PartCompare(e: Expr, when: bool) returns (m: map<nat, Val>)
    requires e.Compare? && Typed(e) && Apart(e) && !Exact(e, when)
    ensures m.Keys <= Ids(e) && Parts(m, e, when, true)
  {
    hide RelVal;
    var a, b := e.a, e.b;
    var t := Promoted(a.ty, b.ty);
    m := if Floating(a.ty) then map[a.id := NotANumber(a.ty)] else map[b.id := NotANumber(b.ty)];
    var env := Given(m);
    var both := Both(env, a, b, ());
    assert a.id in OperandIds(a) && b.id in OperandIds(b);
    var pa, pb := Converted(env, a.ty, t, both.0.v), Converted(env, b.ty, t, both.1.v);
    assert HasType(both.0.v, a.ty) && HasType(both.1.v, b.ty) by { SmallTyped(a.ty, 0); SmallTyped(b.ty, 0); }
    assert if Floating(a.ty) then both.0.v == NotANumber(a.ty) else both.1.v == NotANumber(b.ty);
    assert HasType(pa, t) && HasType(pb, t);
    assert pa == NotANumber(t) || pb == NotANumber(t);
    assert Unordered(e.k, pa, pb);
    UnorderedIsFalse(e.k, pa, pb);
  }

  /** One part decides and leaves the answer to the other, which parts. */
  lemma TwoPart(m: map<nat, Val>, e: Expr, when: bool, first: bool, b: bool)
    requires Two(e) && Typed(e)
    requires var wx, wy, free := !e.And?, if e.And? || e.Or? then when else true, Free(e);
             if first then Parts(m, e.x, wx, b) && Decides(m, e.y, free) else Decides(m, e.x, free) && Parts(m, e.y, wy, b)
    ensures Parts(m, e, when, if e.SameBool? then b == e.eq else b)
  {
    hide Given, Both, OperandValue, Converted, RelVal, Unordered;
    var env, wx, wy := Given(m), !e.And?, if e.And? || e.Or? then when else true;
    forall fused
      ensures Eval(env, e.x, wx, fused, ()).w == () && Eval(env, e.y, wy, fused, ()).w == ()
    {}
    if first {
      assert forall fused :: Eval(env, e.y, wy, fused, ()) == Decided(Free(e), ());
    } else {
      assert forall fused :: Eval(env, e.x, wx, fused, ()) == Decided(Free(e), ());
    }
  }

  /** What one operand must be for the other to decide. */
  predicate Free(e: Expr)
    requires Two(e)
  {
    e.And? || e.SameBool? || (e.Bits? && e.op == BitAnd)
  }

  lemma {:induction false} PartTwo(e: Expr, wx: bool, wy: bool, free: bool) returns (m: map<nat, Val>, b: bool, first: bool)
    requires Two(e) && Typed(e) && Open(e) && Apart(e)
    requires !Exact(e.x, wx) || !Exact(e.y, wy)
    ensures m.Keys <= Ids(e)
    ensures if first then Parts(m, e.x, wx, b) && Decides(m, e.y, free) else Decides(m, e.x, free) && Parts(m, e.y, wy, b)
    decreases e, 0
  {
    hide Agree, Eval, Exact, Parts, Decides;
    first := !Exact(e.x, wx);
    var mx: map<nat, Val>, my: map<nat, Val>;
    if first {
      mx, b := Part(e.x, wx);
      my := Steer(e.y, free);
    } else {
      mx := Steer(e.x, free);
      my, b := Part(e.y, wy);
    }
    Joined(e.x, e.y, mx, my);
    m := mx + my;
    if first {
      PartsKeep(e.x, wx, b, mx, m);
      Keeps(e.y, free, my, m);
    } else {
      Keeps(e.x, free, mx, m);
      PartsKeep(e.y, wy, b, my, m);
    }
  }

  lemma {:induction false} PartChoose(e: Expr, when: bool) returns (m: map<nat, Val>, b: bool)
    requires e.Choose? && Typed(e) && Open(e) && Apart(e) && !Exact(e, when)
    ensures m.Keys <= Ids(e) && Parts(m, e, when, b)
    decreases e, 0
  {
    hide Agree;
    var mc, mx, my;
    if !Exact(e.c, false) {
      mc, b := Part(e.c, false);
      mx := Steer(e.x, true);
      my := Steer(e.y, false);
      m := Three(e, mc, mx, my);
      PartsKeep(e.c, false, b, mc, m);
      Keeps(e.x, true, mx, m);
      Keeps(e.y, false, my, m);
      assert Eval(Given(m), e.x, true, true, ()) == True(()) && Eval(Given(m), e.y, true, true, ()) == False(());
      assert Eval(Given(m), e.x, true, false, ()) == True(()) && Eval(Given(m), e.y, true, false, ()) == False(());
    } else if !Exact(e.x, true) {
      mc := Steer(e.c, true);
      mx, b := Part(e.x, true);
      m := Three(e, mc, mx, map[]);
      Keeps(e.c, true, mc, m);
      PartsKeep(e.x, true, b, mx, m);
      assert Eval(Given(m), e.c, false, true, ()) == True(()) && Eval(Given(m), e.c, false, false, ()) == True(());
    } else {
      mc := Steer(e.c, false);
      my, b := Part(e.y, true);
      m := Three(e, mc, map[], my);
      Keeps(e.c, false, mc, m);
      PartsKeep(e.y, true, b, my, m);
      assert Eval(Given(m), e.c, false, true, ()) == False(()) && Eval(Given(m), e.c, false, false, ()) == False(());
    }
  }

  /** An open expression with a floating test that jumps when it holds can be made to part. */
  lemma {:induction false} Part(e: Expr, when: bool) returns (m: map<nat, Val>, b: bool)
    requires Typed(e) && Open(e) && Apart(e) && !Exact(e, when)
    ensures m.Keys <= Ids(e) && Parts(m, e, when, b)
    decreases e, 1
  {
    hide Agree, Given, HasType, Both, OperandValue, Converted, RelVal, Unordered;
    var first;
    match e
    case Paren(x) => m, b := Part(x, when);
    case Not(x) => m, b := Part(x, !when); b := !b;
    case And(_, _) =>
      m, b, first := PartTwo(e, false, when, true);
      TwoPart(m, e, when, first, b);
    case Or(_, _) =>
      m, b, first := PartTwo(e, true, when, false);
      TwoPart(m, e, when, first, b);
    case Compare(_, _, _) => m := PartCompare(e, when); b := true;
    case SameBool(eq, _, _) =>
      m, b, first := PartTwo(e, true, true, true);
      TwoPart(m, e, when, first, b);
      b := b == eq;
    case Choose(_, _, _) => m, b := PartChoose(e, when);
    case Bits(op, _, _) =>
      m, b, first := PartTwo(e, true, true, op == BitAnd);
      TwoPart(m, e, when, first, b);
  }

  // ---- exactly which conditions can go wrong ------------------------------

  /** The target past the code, every other label where it is marked. */
  function Placing(code: seq<Ins>, target: nat): nat -> nat { l => if l == target then |code| + 1 else MarkIndex(code, l) }

  lemma PlacedBeyond(code: seq<Ins>, target: nat, lo: nat, hi: nat)
    requires Fresh(code, lo, hi) && target < lo
    ensures Placed(code, Placing(code, target))
  {
    PlacementExists(code, lo, hi);
    var at := Placing(code, target);
    forall i | 0 <= i < |code| && code[i].Mark?
      ensures at(code[i].l) == i
    {
      assert (l => MarkIndex(code, l))(code[i].l) == i;
    }
  }

  /**
   * The branch emitted for a condition without constant leaves is right in every environment, from every stack, wherever
   * its labels are placed, if and only if no floating relational test in it jumps when it holds.
   */
  lemma CondExactly(e: Expr, target: nat, when: bool, n: nat)
    requires Typed(e) && Open(e) && Apart(e) && target < n
    ensures var code := EmitCond(e, target, when, n).0;
            Exact(e, when) <==>
              forall env: Env<()>, at: nat -> nat, s: seq<Val> :: Behaved(env) && Placed(code, at) ==>
                Branches(env, code, at, 0, |code|, target, when, s, (), Meaning(env, e, ()))
  {
    hide Branches, Behaved, EmitCond, Eval, Placed, Exact;
    var code := EmitCond(e, target, when, n).0;
    assert Has(code, 0, code);
    if Exact(e, when) {
      forall env: Env<()>, at: nat -> nat, s: seq<Val> | Behaved(env) && Placed(code, at)
        ensures Branches(env, code, at, 0, |code|, target, when, s, (), Meaning(env, e, ()))
      {
        CondCorrect(env, code, at, e, target, when, n, 0, s, ());
      }
    } else {
      var m, b := Part(e, when);
      var env, at := Given(m), Placing(code, target);
      GivenBehaved(m);
      CondLabels(e, target, when, n);
      PlacedBeyond(code, target, n, EmitCond(e, target, when, n).1);
      CondRuns(env, code, at, e, target, when, n, 0, [], ());
      MeaningIgnoresPosition(env, e, when, ());
      BranchesOneWay(env, code, at, target, when, [], b);
    }
  }

  /** So is the value made of one, if and only if none jumps when it holds where it is made. */
  lemma ValueExactly(e: Expr, n: nat)
    requires Typed(e) && Open(e) && Apart(e)
    ensures var code := EmitValue(e, n).0;
            Exact(e, true) <==>
              forall env: Env<()>, at: nat -> nat, s: seq<Val> :: Behaved(env) && Placed(code, at) ==>
                Leaves(env, code, at, 0, |code|, s, (), Meaning(env, e, ()))
  {
    hide Leaves, Behaved, EmitValue, Eval, Placed, Exact;
    var code := EmitValue(e, n).0;
    assert Has(code, 0, code);
    if Exact(e, true) {
      forall env: Env<()>, at: nat -> nat, s: seq<Val> | Behaved(env) && Placed(code, at)
        ensures Leaves(env, code, at, 0, |code|, s, (), Meaning(env, e, ()))
      {
        ValueCorrect(env, code, at, e, n, 0, s, ());
      }
    } else {
      var m, b := Part(e, true);
      var env := Given(m);
      var at: nat -> nat := l => MarkIndex(code, l);
      GivenBehaved(m);
      ValueLabels(e, n);
      PlacementExists(code, n, EmitValue(e, n).1);
      ValueRuns(env, code, at, e, n, 0, [], ());
      assert Meaning(env, e, ()) == Decided(!b, ());
      LeavesOneWay(env, code, at, [], b);
      assert Behaved(env) && Placed(code, at);
    }
  }

  /** Behind a constant a test that jumps when it holds may never run: true or x < y is right, though not for its tests. */
  lemma ConstantHides<W(!new)>(env: Env<W>, code: seq<Ins>, at: nat -> nat, x: Operand, y: Operand, target: nat, n: nat, pos: nat, s: seq<Val>, w: W)
    requires Typed(Compare(LT, x, y)) && Floating(Promoted(x.ty, y.ty)) && Behaved(env) && Placed(code, at)
    requires Has(code, pos, EmitCond(Or(Folded(true), Compare(LT, x, y)), target, true, n).0)
    ensures var e := Or(Folded(true), Compare(LT, x, y));
            !Exact(e, true) && Branches(env, code, at, pos, pos + |EmitCond(e, target, true, n).0|, target, true, s, w, Meaning(env, e, w))
  {
    hide Behaved, Placed, Has, Branches, EmitCond;
    var e := Or(Folded(true), Compare(LT, x, y));
    CondRuns(env, code, at, e, target, true, n, pos, s, w);
    assert Eval(env, Folded(true), true, true, w) == True(w) && Eval(env, Folded(true), true, false, w) == True(w);
    assert Eval(env, e, true, true, w) == Meaning(env, e, w);
  }
}
