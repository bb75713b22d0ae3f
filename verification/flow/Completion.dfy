/** Which statements can complete normally, told from runs that may take either way wherever no constant decides. */
module Completion {
  import opened Analysis
  import opened Execution
  import opened Soundness

  // ---- runs ---------------------------------------------------------------

  /** A loop's test can come out so: either way if it is not a constant, and true where there is none. */
  predicate May(test: Option<Expr>, b: bool) {
    match test
    case None => b
    case Some(x) => Folded(x).None? || Folded(x) == Some(b)
  }

  /**
   * Some run of the statement completes normally with every loop entered at most n times. Section 14.22 of the Java Language
   * Specification has the condition of an if come out either way even where it is a constant; a sequence may be empty and
   * assertions may be off.
   */
  ghost predicate Completes(s: Stmt, n: nat)
    decreases n, s, 0
  {
    match s
    case Block(ss) => CompletesAll(ss, n)
    case Labeled(body) => Completes(body, n)
    case If(_, yes, no) => Completes(yes, n) || no.None? || Completes(no.value, n)
    case While(cond, body) => Leaves(Some(cond), body, n)
    case DoWhile(body, cond) => Completes(body, n) && Leaves(Some(cond), body, n)
    case For(first, test, _, body) => CompletesAll(first, n) && Leaves(test, body, n)
    case Return(_) => false
    case Throw(_) => false
    case Sync(_, ss) => CompletesAll(ss, n)
    case _ => true
  }

  ghost predicate CompletesAll(ss: seq<Stmt>, n: nat)
    decreases n, ss, 0
  {
    ss == [] || (Completes(ss[0], n) && CompletesAll(ss[1..], n))
  }

  /** The test may fail now, or hold and fail after another round. */
  ghost predicate Leaves(test: Option<Expr>, body: Stmt, n: nat)
    decreases n, body, 1
  {
    May(test, false) || (n > 0 && May(test, true) && Completes(body, n - 1) && Leaves(test, body, n - 1))
  }

  ghost predicate Can(s: Stmt) { exists n: nat :: Completes(s, n) }

  ghost predicate CanAll(ss: seq<Stmt>) { exists n: nat :: CompletesAll(ss, n) }

  // ---- every run of the language is one of them ---------------------------

  lemma {:induction false} RunCompletes<E>(env: Env<E>, s: Stmt, w: World<E>, fuel: nat)
    requires Exec(env, s, w, fuel).Normal?
    ensures Completes(s, fuel)
    decreases fuel, s, 0
  {
    hide Eval, Each, Loop;
    match s
    case Block(ss) => RunCompletesAll(env, ss, w, fuel);
    case Labeled(body) => RunCompletes(env, body, w, fuel);
    case If(cond, yes, no) =>
      var o := Eval(env, cond, w);
      if o.x != 0 { RunCompletes(env, yes, o.w, fuel); } else if no.Some? { RunCompletes(env, no.value, o.w, fuel); }
    case While(cond, body) => LoopLeaves(env, Some(cond), [], body, w, fuel);
    case DoWhile(body, cond) =>
      RunCompletes(env, body, w, fuel);
      LoopLeaves(env, Some(cond), [], body, Exec(env, body, w, fuel).w, fuel);
    case For(first, test, post, body) =>
      RunCompletesAll(env, first, w, fuel);
      LoopLeaves(env, test, post, body, ExecAll(env, first, w, fuel).w, fuel);
    case Sync(x, ss) => RunCompletesAll(env, ss, Eval(env, x, w).w, fuel);
    case _ =>
  }

  lemma {:induction false} RunCompletesAll<E>(env: Env<E>, ss: seq<Stmt>, w: World<E>, fuel: nat)
    requires ExecAll(env, ss, w, fuel).Normal?
    ensures CompletesAll(ss, fuel)
    decreases fuel, ss, 0
  {
    hide Exec, Completes;
    if ss != [] {
      RunCompletes(env, ss[0], w, fuel);
      RunCompletesAll(env, ss[1..], Exec(env, ss[0], w, fuel).w, fuel);
    }
  }

  lemma {:induction false} LoopLeaves<E>(env: Env<E>, test: Option<Expr>, post: seq<Expr>, body: Stmt, w: World<E>, fuel: nat)
    requires Loop(env, test, post, body, w, fuel).Normal?
    ensures Leaves(test, body, fuel)
    decreases fuel, body, 1
  {
    hide Eval, EvalAll, Exec, Completes;
    if test.Some? && Folded(test.value).Some? { FoldedIs(env, test.value, w); }
    var t := EvalTest(env, test, w);
    if t.x != 0 {
      var d := Exec(env, body, t.w, fuel - 1);
      RunCompletes(env, body, t.w, fuel - 1);
      LoopLeaves(env, test, post, body, EvalAll(env, post, d.w).w, fuel - 1);
    }
  }

  // ---- more rounds allow more runs ----------------------------------------

  lemma {:induction false} CompletesMore(s: Stmt, n: nat, m: nat)
    requires Completes(s, n) && n <= m
    ensures Completes(s, m)
    decreases n, s, 0
  {
    hide May;
    match s
    case Block(ss) => AllMore(ss, n, m);
    case Labeled(body) => CompletesMore(body, n, m);
    case If(_, yes, no) =>
      if Completes(yes, n) { CompletesMore(yes, n, m); } else if no.Some? { CompletesMore(no.value, n, m); }
    case While(cond, body) => LeavesMore(Some(cond), body, n, m);
    case DoWhile(body, cond) =>
      CompletesMore(body, n, m);
      LeavesMore(Some(cond), body, n, m);
    case For(first, test, _, body) =>
      AllMore(first, n, m);
      LeavesMore(test, body, n, m);
    case Sync(_, ss) => AllMore(ss, n, m);
    case _ =>
  }

  lemma {:induction false} AllMore(ss: seq<Stmt>, n: nat, m: nat)
    requires CompletesAll(ss, n) && n <= m
    ensures CompletesAll(ss, m)
    decreases n, ss, 0
  {
    hide Completes;
    if ss != [] {
      CompletesMore(ss[0], n, m);
      AllMore(ss[1..], n, m);
    }
  }

  lemma {:induction false} LeavesMore(test: Option<Expr>, body: Stmt, n: nat, m: nat)
    requires Leaves(test, body, n) && n <= m
    ensures Leaves(test, body, m)
    decreases n, body, 1
  {
    hide Completes, May;
    if !May(test, false) {
      CompletesMore(body, n - 1, m - 1);
      LeavesMore(test, body, n - 1, m - 1);
    }
  }

  /** However many rounds a loop makes, it is left only through a test that may fail. */
  lemma {:induction false} LeftByTest(test: Option<Expr>, body: Stmt, n: nat)
    requires Leaves(test, body, n)
    ensures May(test, false)
    decreases n
  {
    hide Completes, May;
    if !May(test, false) { LeftByTest(test, body, n - 1); }
  }

  // ---- the analysis is exact ----------------------------------------------

  /** What a label stands before, what a do repeats and what a for begins with can complete; the analysis takes it for granted. */
  ghost predicate Fair(s: Stmt)
    decreases s, 0
  {
    match s
    case Block(ss) => FairAll(ss)
    case Labeled(body) => Can(body)
    case If(_, yes, no) => Fair(yes) && (no.Some? ==> Fair(no.value))
    case DoWhile(body, _) => Can(body)
    case For(first, _, _, _) => CanAll(first)
    case Sync(_, ss) => FairAll(ss)
    case _ => true
  }

  ghost predicate FairAll(ss: seq<Stmt>)
    decreases ss, 0
  {
    ss == [] || (Fair(ss[0]) && FairAll(ss[1..]))
  }

  /**
   * The analysis says that a statement can complete normally if and only if some run of it does, for every statement in
   * which what the analysis takes for granted is so.
   */
  lemma {:induction false} AliveExactly(cx: Ctx, s: Stmt, st: State)
    requires Fair(s)
    ensures AStmt(cx, s, st).alive <==> Can(s)
    decreases s, 0
  {
    hide AExpr, ACond, AEntry, ABody, AInit, Leaves;
    match s
    case Block(ss) => BlockExactly(cx, ss, st, s);
    case Labeled(body) =>
      var n: nat :| Completes(body, n);
      assert Completes(s, n);
    case If(cond, yes, no) => IfExactly(cx, s, st);
    case While(cond, body) => TestExactly(Some(cond), body, s);
    case DoWhile(body, cond) =>
      var n: nat :| Completes(body, n);
      DoExactly(s, n);
    case For(first, test, _, body) =>
      var n: nat :| CompletesAll(first, n);
      ForExactly(s, n);
    case Sync(x, ss) => BlockExactly(cx, ss, AExpr(cx, x, st).st, s);
    case Return(_) =>
    case Throw(_) =>
    case _ => assert Completes(s, 0);
  }

  lemma {:induction false} BlockExactly(cx: Ctx, ss: seq<Stmt>, st: State, s: Stmt)
    requires FairAll(ss) && (s == Block(ss) || (s.Sync? && s.stmts == ss))
    ensures ABlock(cx, ss, st, true).alive <==> Can(s)
    decreases ss, 1
  {
    hide Completes, ABlock;
    AllExactly(cx, ss, st);
    assert forall n: nat :: Completes(s, n) <==> CompletesAll(ss, n) by { Through(s, ss); }
  }

  lemma Through(s: Stmt, ss: seq<Stmt>)
    requires s == Block(ss) || (s.Sync? && s.stmts == ss)
    ensures forall n: nat :: Completes(s, n) <==> CompletesAll(ss, n)
  {
  }

  lemma {:induction false} AllExactly(cx: Ctx, ss: seq<Stmt>, st: State)
    requires FairAll(ss)
    ensures ABlock(cx, ss, st, true).alive <==> CanAll(ss)
    decreases ss, 0
  {
    hide Completes, AStmt, Fair;
    if ss == [] {
      assert CompletesAll(ss, 0);
    } else {
      var f := AStmt(cx, ss[0], st);
      AliveExactly(cx, ss[0], st);
      if f.alive {
        AllExactly(cx, ss[1..], f.st);
        if CanAll(ss[1..]) { CanCons(ss); }
        if CanAll(ss) { CanParts(ss); }
      } else {
        StaysDead(cx, ss[1..], st, f.st);
        if CanAll(ss) { CanParts(ss); }
      }
    }
  }

  lemma CanCons(ss: seq<Stmt>)
    requires ss != [] && Can(ss[0]) && CanAll(ss[1..])
    ensures CanAll(ss)
  {
    hide Completes;
    var n: nat :| Completes(ss[0], n);
    var m: nat :| CompletesAll(ss[1..], m);
    CompletesMore(ss[0], n, n + m);
    AllMore(ss[1..], m, n + m);
    assert CompletesAll(ss, n + m);
  }

  lemma CanParts(ss: seq<Stmt>)
    requires ss != [] && CanAll(ss)
    ensures Can(ss[0]) && CanAll(ss[1..])
  {
    var n: nat :| CompletesAll(ss, n);
    assert Completes(ss[0], n) && CompletesAll(ss[1..], n);
  }

  lemma {:induction false} StaysDead(cx: Ctx, ss: seq<Stmt>, st: State, u: State)
    ensures !ABlock(cx, ss, u, false).alive
    decreases |ss|
  {
    hide AStmt;
    if ss != [] { StaysDead(cx, ss[1..], st, u); }
  }

  lemma {:induction false} IfExactly(cx: Ctx, s: Stmt, st: State)
    requires s.If? && Fair(s)
    ensures AStmt(cx, s, st).alive <==> Can(s)
    decreases s, 0, 0
  {
    hide ACond;
    var c := ACond(cx, s.cond, st);
    AliveExactly(cx, s.yes, c.yes);
    if s.no.Some? { AliveExactly(cx, s.no.value, c.no); }
    if n: nat :| Completes(s, n) { assert Completes(s.yes, n) || s.no.None? || Completes(s.no.value, n); }
    if n: nat :| Completes(s.yes, n) { assert Completes(s, n); }
    if s.no.None? { assert Completes(s, 0); } else if n: nat :| Completes(s.no.value, n) { assert Completes(s, n); }
  }

  lemma TestExactly(test: Option<Expr>, body: Stmt, s: Stmt)
    requires s.While? && test == Some(s.cond) && body == s.body
    ensures Can(s) <==> !Infinite(test)
  {
    hide May;
    assert Infinite(test) <==> !May(test, false) by { Foldings(test); }
    if n: nat :| Completes(s, n) { LeftByTest(test, body, n); }
    if May(test, false) { assert Completes(s, 0); }
  }

  lemma Foldings(test: Option<Expr>)
    ensures Infinite(test) <==> !May(test, false)
  {
    if test.Some? {
      match Folded(test.value)
      case None =>
      case Some(b) => assert b || !b;
    }
  }

  lemma DoExactly(s: Stmt, n: nat)
    requires s.DoWhile? && Completes(s.body, n)
    ensures Can(s) <==> !Infinite(Some(s.cond))
  {
    hide May;
    Foldings(Some(s.cond));
    if m: nat :| Completes(s, m) { LeftByTest(Some(s.cond), s.body, m); }
    if May(Some(s.cond), false) { assert Completes(s, n); }
  }

  lemma ForExactly(s: Stmt, n: nat)
    requires s.For? && CompletesAll(s.first, n)
    ensures Can(s) <==> !Infinite(s.test)
  {
    hide May;
    Foldings(s.test);
    if m: nat :| Completes(s, m) { LeftByTest(s.test, s.body, m); }
    if May(s.test, false) { assert Completes(s, n); }
  }

  /** A body that owes a value is reported for a missing return if and only if some run of it falls off its end. */
  lemma MissingReturnExactly(cx: Ctx, params: set<nat>, body: seq<Stmt>)
    requires FairAll(body)
    ensures ABlock(cx, body, Start(params), true).alive <==> CanAll(body)
  {
    AllExactly(cx, body, Start(params));
  }

  // ---- and so are its reports ---------------------------------------------

  /** Fair all the way down. */
  ghost predicate Just(s: Stmt)
    decreases s, 0
  {
    Fair(s) &&
    match s
    case Block(ss) => JustAll(ss)
    case Labeled(body) => Just(body)
    case If(_, yes, no) => Just(yes) && (no.Some? ==> Just(no.value))
    case While(_, body) => Just(body)
    case DoWhile(body, _) => Just(body)
    case For(first, _, _, body) => JustAll(first) && Just(body)
    case ForEach(_, _, body) => Just(body)
    case Sync(_, ss) => JustAll(ss)
    case _ => true
  }

  ghost predicate JustAll(ss: seq<Stmt>)
    decreases ss, 0
  {
    ss == [] || (Just(ss[0]) && JustAll(ss[1..]))
  }

  /** x stands in s where no run gets: after statements of a block that never all complete. */
  ghost predicate Cut(x: Stmt, s: Stmt)
    decreases s, 0
  {
    match s
    case Block(ss) => CutAmong(x, ss, true)
    case Labeled(body) => Cut(x, body)
    case If(_, yes, no) => Cut(x, yes) || (no.Some? && Cut(x, no.value))
    case While(_, body) => Cut(x, body)
    case DoWhile(body, _) => Cut(x, body)
    case For(first, _, _, body) => CutWithin(x, first) || Cut(x, body)
    case ForEach(_, _, body) => Cut(x, body)
    case Sync(_, ss) => CutAmong(x, ss, true)
    case _ => false
  }

  ghost predicate CutWithin(x: Stmt, ss: seq<Stmt>)
    decreases ss, 0
  {
    exists k :: 0 <= k < |ss| && Cut(x, ss[k])
  }

  /** The block can be entered at all, or cannot. */
  ghost predicate CutAmong(x: Stmt, ss: seq<Stmt>, entered: bool)
    decreases ss, 0
  {
    exists k :: 0 <= k < |ss| && (Cut(x, ss[k]) || (x == ss[k] && !(entered && CanAll(ss[..k]))))
  }

  lemma CutNext(x: Stmt, ss: seq<Stmt>, entered: bool)
    requires ss != []
    ensures CutAmong(x, ss, entered) <==> Cut(x, ss[0]) || (x == ss[0] && !entered) || CutAmong(x, ss[1..], entered && Can(ss[0]))
  {
    hide Cut, CanAll, Can;
    var rest := ss[1..];
    assert ss[..0] == [] && CanAll([]) by { NoneCan(); }
    forall k | 1 <= k < |ss|
      ensures ss[k] == rest[k - 1] && (CanAll(ss[..k]) <==> Can(ss[0]) && CanAll(rest[..k - 1]))
    {
      assert ss[..k][0] == ss[0] && ss[..k][1..] == rest[..k - 1];
      CanBoth(ss[..k]);
    }
    if CutAmong(x, rest, entered && Can(ss[0])) {
      var k :| 0 <= k < |rest| && (Cut(x, rest[k]) || (x == rest[k] && !(entered && Can(ss[0]) && CanAll(rest[..k]))));
      assert ss[k + 1] == rest[k];
    }
  }

  lemma NoneCan()
    ensures CanAll([])
  {
    assert CompletesAll([], 0);
  }

  lemma CanBoth(ss: seq<Stmt>)
    requires ss != []
    ensures CanAll(ss) <==> Can(ss[0]) && CanAll(ss[1..])
  {
    hide Can, CanAll;
    if CanAll(ss) { CanParts(ss); }
    if Can(ss[0]) && CanAll(ss[1..]) { CanCons(ss); }
  }

  ghost predicate Told(x: Stmt, errs: set<Diag>) { Unreachable(x) in errs }

  lemma {:induction false} ExprTells(cx: Ctx, e: Expr, st: State, x: Stmt)
    ensures !Told(x, AExpr(cx, e, st).errs)
    decreases e, if ShortCircuit(e) then 1 else 0
  {
    match e
    case Assign(_, rhs) => ExprTells(cx, rhs, st, x);
    case Update(v, _, rhs) => ExprTells(cx, rhs, Read(v, st).st, x);
    case Paren(y) => ExprTells(cx, y, st, x);
    case Unary(_, y) => ExprTells(cx, y, st, x);
    case Not(y) => ExprTells(cx, y, st, x);
    case Binary(_, y, z) => ExprTells(cx, y, st, x); ExprTells(cx, z, AExpr(cx, y, st).st, x);
    case And(_, _) => CondTells(cx, e, st, x);
    case Or(_, _) => CondTells(cx, e, st, x);
    case Choose(cond, yes, no) =>
      CondTells(cx, cond, st, x);
      ExprTells(cx, yes, ACond(cx, cond, st).yes, x);
      ExprTells(cx, no, ACond(cx, cond, st).no, x);
    case Store(place, rhs) => ExprTells(cx, rhs, st, x); ExprsTell(cx, place, AExpr(cx, rhs, st).st, x);
    case Modify(place, _, rhs) => ExprTells(cx, rhs, st, x); ExprsTell(cx, place, AExpr(cx, rhs, st).st, x);
    case _ =>
  }

  lemma {:induction false} ExprsTell(cx: Ctx, es: seq<Expr>, st: State, x: Stmt)
    ensures !Told(x, AExprs(cx, es, st).errs)
    decreases es, 0
  {
    hide AExpr;
    if es != [] { ExprTells(cx, es[0], st, x); ExprsTell(cx, es[1..], AExpr(cx, es[0], st).st, x); }
  }

  lemma {:induction false} CondTells(cx: Ctx, e: Expr, st: State, x: Stmt)
    ensures !Told(x, ACond(cx, e, st).errs)
    decreases e, if ShortCircuit(e) then 0 else 1
  {
    hide AExpr;
    match e
    case Paren(y) => CondTells(cx, y, st, x);
    case Not(y) => CondTells(cx, y, st, x);
    case And(y, z) => CondTells(cx, y, st, x); CondTells(cx, z, ACond(cx, y, st).yes, x);
    case Or(y, z) => CondTells(cx, y, st, x); CondTells(cx, z, ACond(cx, y, st).no, x);
    case Choose(cond, yes, no) =>
      CondTells(cx, cond, st, x);
      CondTells(cx, yes, ACond(cx, cond, st).yes, x);
      CondTells(cx, no, ACond(cx, cond, st).no, x);
    case _ => ExprTells(cx, e, st, x);
  }

  lemma OptionTells(cx: Ctx, e: Option<Expr>, st: State, x: Stmt)
    ensures !Told(x, AOption(cx, e, st).errs)
  {
    hide AExpr;
    if e.Some? { ExprTells(cx, e.value, st, x); }
  }

  lemma TestTells(cx: Ctx, test: Option<Expr>, st: State, x: Stmt)
    ensures !Told(x, ATest(cx, test, st).errs)
  {
    hide ACond;
    if test.Some? { CondTells(cx, test.value, st, x); }
  }

  /**
   * In a statement that is fair all the way down, exactly those statements are reported unreachable that stand where no run
   * gets.
   */
  lemma {:induction false} UnreachableExactly(cx: Ctx, s: Stmt, st: State, x: Stmt)
    requires Just(s)
    ensures Unreachable(x) in AStmt(cx, s, st).errs <==> Cut(x, s)
    decreases s, 1
  {
    hide AExpr, ACond, AEntry, ABody, AInit, Fair, CutAmong, CutWithin, Told;
    assert forall errs :: Told(x, errs) <==> Unreachable(x) in errs by { Tellings(x); }
    match s
    case Do1(e) => ExprTells(cx, e, st, x);
    case Local(_, init) => if init.Some? { ExprTells(cx, init.value, st, x); }
    case Block(ss) => BlockTells(cx, ss, st, true, x);
    case Labeled(body) => UnreachableExactly(cx, body, st, x);
    case If(_, _, _) => IfTells(cx, s, st, x);
    case While(_, _) => LoopTells(cx, s, st, x);
    case DoWhile(_, _) => LoopTells(cx, s, st, x);
    case For(_, _, _, _) => LoopTells(cx, s, st, x);
    case ForEach(v, e, body) =>
      ExprTells(cx, e, st, x);
      UnreachableExactly(cx, body, Unset(AExpr(cx, e, st).st, v), x);
    case Return(e) => OptionTells(cx, e, st, x);
    case Throw(e) => ExprTells(cx, e, st, x);
    case Assert(cond, message) =>
      CondTells(cx, cond, st, x);
      OptionTells(cx, message, ACond(cx, cond, st).no, x);
    case Sync(e, ss) =>
      ExprTells(cx, e, st, x);
      BlockTells(cx, ss, AExpr(cx, e, st).st, true, x);
    case Empty =>
  }

  lemma Tellings(x: Stmt)
    ensures forall errs :: Told(x, errs) <==> Unreachable(x) in errs
  {
  }

  lemma {:induction false} IfTells(cx: Ctx, s: Stmt, st: State, x: Stmt)
    requires s.If? && Just(s)
    ensures Told(x, AStmt(cx, s, st).errs) <==> Cut(x, s)
    decreases s, 0
  {
    hide ACond, Fair;
    var c := ACond(cx, s.cond, st);
    CondTells(cx, s.cond, st, x);
    UnreachableExactly(cx, s.yes, c.yes, x);
    if s.no.Some? { UnreachableExactly(cx, s.no.value, c.no, x); }
  }

  lemma {:induction false} LoopTells(cx: Ctx, s: Stmt, st: State, x: Stmt)
    requires (s.While? || s.DoWhile? || s.For?) && Just(s)
    ensures Told(x, AStmt(cx, s, st).errs) <==> Cut(x, s)
    decreases s, 0
  {
    hide ACond, AEntry, AInit, Fair, CutWithin;
    match s
    case While(cond, body) =>
      var c := ACond(cx, cond, st);
      CondTells(cx, cond, st, x);
      EntryTells(cx, body, [], c.yes, x);
      UnreachableExactly(cx, body, AEntry(cx, body, [], c.yes).st, x);
    case DoWhile(body, cond) =>
      var b := AStmt(cx, body, st);
      UnreachableExactly(cx, body, st, x);
      CondTells(cx, cond, b.st, x);
      EntryTells(cx, body, [], ACond(cx, cond, b.st).st, x);
    case For(first, test, post, body) =>
      InitTells(cx, first, st, x);
      var i := AInit(cx, first, st);
      TestTells(cx, test, i.st, x);
      var c := ATest(cx, test, i.st);
      EntryTells(cx, body, post, c.yes, x);
      UnreachableExactly(cx, body, AEntry(cx, body, post, c.yes).st, x);
  }

  lemma {:induction false} EntryTells(cx: Ctx, body: Stmt, post: seq<Expr>, entry: State, x: Stmt)
    requires Just(body)
    ensures Told(x, AEntry(cx, body, post, entry).errs) <==> Cut(x, body)
    decreases body, 2, Weight(entry)
  {
    hide AStmt, Just, Cut;
    UnreachableExactly(cx, body, entry, x);
    var b := AStmt(cx, body, entry);
    ExprsTell(cx, post, b.st, x);
    var o := ABody(cx, body, post, entry);
    var next := Join(entry, o.st);
    JoinShrinks(entry, o.st);
    if next != entry { EntryTells(cx, body, post, next, x); }
  }

  lemma {:induction false} InitTells(cx: Ctx, ss: seq<Stmt>, st: State, x: Stmt)
    requires JustAll(ss)
    ensures Told(x, AInit(cx, ss, st).errs) <==> CutWithin(x, ss)
    decreases ss, 0
  {
    hide AStmt, Just, Cut;
    if ss != [] {
      var f := AStmt(cx, ss[0], st);
      UnreachableExactly(cx, ss[0], st, x);
      InitTells(cx, ss[1..], f.st, x);
      if k :| 0 <= k < |ss[1..]| && Cut(x, ss[1..][k]) { assert ss[k + 1] == ss[1..][k]; }
      assert forall k :: 1 <= k < |ss| ==> ss[k] == ss[1..][k - 1];
    }
  }

  lemma {:induction false} BlockTells(cx: Ctx, ss: seq<Stmt>, st: State, alive: bool, x: Stmt)
    requires JustAll(ss)
    ensures Told(x, ABlock(cx, ss, st, alive).errs) <==> CutAmong(x, ss, alive)
    decreases ss, 0
  {
    hide AStmt, Cut, CutAmong, Fair, Can;
    if ss == [] {
      assert !CutAmong(x, ss, alive) by { NoneCut(x, alive); }
    } else {
      var f := AStmt(cx, ss[0], st);
      UnreachableExactly(cx, ss[0], st, x);
      AliveExactly(cx, ss[0], st);
      CutNext(x, ss, alive);
      BlockTells(cx, ss[1..], if alive then f.st else st, alive && f.alive, x);
    }
  }

  lemma NoneCut(x: Stmt, entered: bool)
    ensures !CutAmong(x, [], entered)
  {
  }

  /** A label over a return, and a do over one, are said to complete, and cannot. */
  lemma Overstated(cx: Ctx, st: State, x: Expr)
    ensures AStmt(cx, Labeled(Return(None)), st).alive && !Can(Labeled(Return(None)))
    ensures Folded(x).None? ==> AStmt(cx, DoWhile(Return(None), x), st).alive && !Can(DoWhile(Return(None), x))
  {
    var d := DoWhile(Return(None), x);
    forall n: nat
      ensures !Completes(Labeled(Return(None)), n) && !Completes(d, n)
    {
      assert !Completes(Return(None), n);
    }
  }
}
