/** Without a "might not have been initialized" diagnostic no run reads an unassigned local. */
module Soundness {
  import opened Analysis
  import opened Execution
  import opened Gains

  // ---- what name resolution guarantees ------------------------------------

  function Declares(s: Stmt): set<nat> { if s.Local? then {s.v} else {} }

  function DeclaresAll(ss: seq<Stmt>): set<nat> { if ss == [] then {} else Declares(ss[0]) + DeclaresAll(ss[1..]) }

  /** Every use is in scope, and no declaration hides a local in scope. */
  predicate Scoped(s: Stmt, scope: set<nat>)
    decreases s, 0
  {
    match s
    case Empty => true
    case Do1(x) => Vars(x) <= scope
    case Local(v, init) => v !in scope && VarsOption(init) <= scope
    case Block(ss) => ScopedAll(ss, scope)
    case Labeled(body) => Scoped(body, scope)
    case If(cond, yes, no) => Vars(cond) <= scope && Scoped(yes, scope) && (no.Some? ==> Scoped(no.value, scope))
    case While(cond, body) => Vars(cond) <= scope && Scoped(body, scope)
    case DoWhile(body, cond) => Vars(cond) <= scope && Scoped(body, scope)
    case For(first, test, post, body) =>
      var inner := scope + DeclaresAll(first);
      ScopedAll(first, scope) && VarsOption(test) <= inner && VarsAll(post) <= inner && Scoped(body, inner)
    case ForEach(v, x, body) => v !in scope && Vars(x) <= scope && Scoped(body, scope + {v})
    case Return(result) => VarsOption(result) <= scope
    case Throw(x) => Vars(x) <= scope
    case Assert(cond, message) => Vars(cond) <= scope && VarsOption(message) <= scope
    case Sync(x, ss) => Vars(x) <= scope && ScopedAll(ss, scope)
  }

  predicate ScopedAll(ss: seq<Stmt>, scope: set<nat>)
    decreases ss, 0
  {
    ss == [] || (Scoped(ss[0], scope) && ScopedAll(ss[1..], scope + Declares(ss[0])))
  }

  // ---- where the walk follows the run -------------------------------------

  /** Every place stored to or stepped would be clean if it were walked first, as it runs first. */
  predicate Covered(cx: Ctx, e: Expr, st: State)
    decreases e, if ShortCircuit(e) then 1 else 0
  {
    match e
    case Assign(_, rhs) => Covered(cx, rhs, st)
    case Update(v, _, rhs) => Covered(cx, rhs, Read(v, st).st)
    case Paren(x) => Covered(cx, x, st)
    case Unary(_, x) => Covered(cx, x, st)
    case Not(x) => Covered(cx, x, st)
    case Binary(_, x, y) => Covered(cx, x, st) && Covered(cx, y, AExpr(cx, x, st).st)
    case And(_, _) => CoveredCond(cx, e, st)
    case Or(_, _) => CoveredCond(cx, e, st)
    case Choose(c, t, f) => CoveredCond(cx, c, st) && Covered(cx, t, ACond(cx, c, st).yes) && Covered(cx, f, ACond(cx, c, st).no)
    case Store(place, rhs) => CoveredAll(cx, place, st) && CleanAll(cx, place, st) && Covered(cx, rhs, AExprs(cx, place, st).st)
    case Modify(place, _, rhs) => CoveredAll(cx, place, st) && CleanAll(cx, place, st) && Covered(cx, rhs, AExprs(cx, place, st).st)
    case Step(place, _) => CoveredAll(cx, place, st) && CleanAll(cx, place, st)
    case _ => true
  }

  predicate CleanAll(cx: Ctx, es: seq<Expr>, st: State) { Clean(AExprs(cx, es, st).errs) }

  predicate CoveredAll(cx: Ctx, es: seq<Expr>, st: State)
    decreases es, 0
  {
    es == [] || (Covered(cx, es[0], st) && CoveredAll(cx, es[1..], AExpr(cx, es[0], st).st))
  }

  predicate CoveredCond(cx: Ctx, e: Expr, st: State)
    decreases e, if ShortCircuit(e) then 0 else 1
  {
    match e
    case Paren(x) => CoveredCond(cx, x, st)
    case Not(x) => CoveredCond(cx, x, st)
    case And(x, y) => CoveredCond(cx, x, st) && CoveredCond(cx, y, ACond(cx, x, st).yes)
    case Or(x, y) => CoveredCond(cx, x, st) && CoveredCond(cx, y, ACond(cx, x, st).no)
    case Choose(c, t, f) => CoveredCond(cx, c, st) && CoveredCond(cx, t, ACond(cx, c, st).yes) && CoveredCond(cx, f, ACond(cx, c, st).no)
    case _ => Covered(cx, e, st)
  }

  predicate CoveredOption(cx: Ctx, e: Option<Expr>, st: State) { e.Some? ==> Covered(cx, e.value, st) }

  predicate CoveredTest(cx: Ctx, e: Option<Expr>, st: State) { e.Some? ==> CoveredCond(cx, e.value, st) }

  /** The same throughout a statement, and no assert's leading operand assigns what was not already assigned. */
  predicate CoveredStmt(cx: Ctx, s: Stmt, st: State)
    decreases s, 0
  {
    match s
    case Empty => true
    case Do1(x) => Covered(cx, x, st)
    case Local(_, init) => CoveredOption(cx, init, st)
    case Block(ss) => CoveredStmts(cx, ss, st)
    case Labeled(body) => CoveredStmt(cx, body, st)
    case If(cond, yes, no) =>
      && CoveredCond(cx, cond, st) && CoveredStmt(cx, yes, ACond(cx, cond, st).yes)
      && (no.Some? ==> CoveredStmt(cx, no.value, ACond(cx, cond, st).no))
    case While(cond, body) =>
      CoveredCond(cx, cond, st) && CoveredStmt(cx, body, AEntry(cx, body, [], ACond(cx, cond, st).yes).st)
    case DoWhile(body, cond) =>
      var b := AStmt(cx, body, st).st;
      && CoveredStmt(cx, body, st) && CoveredCond(cx, cond, b)
      && CoveredStmt(cx, body, AEntry(cx, body, [], ACond(cx, cond, b).st).st)
    case For(first, test, post, body) =>
      var i := AInit(cx, first, st).st;
      var e := AEntry(cx, body, post, ATest(cx, test, i).yes).st;
      && CoveredInit(cx, first, st) && CoveredTest(cx, test, i) && CoveredStmt(cx, body, e)
      && CoveredAll(cx, post, AStmt(cx, body, e).st)
    case ForEach(v, x, body) => Covered(cx, x, st) && CoveredStmt(cx, body, Unset(AExpr(cx, x, st).st, v))
    case Return(result) => CoveredOption(cx, result, st)
    case Throw(x) => Covered(cx, x, st)
    case Assert(cond, message) =>
      CoveredCond(cx, cond, st) && CoveredOption(cx, message, ACond(cx, cond, st).no) && CondGains(cx, cond).lead <= st.da
    case Sync(x, ss) => Covered(cx, x, st) && CoveredStmts(cx, ss, AExpr(cx, x, st).st)
  }

  predicate CoveredStmts(cx: Ctx, ss: seq<Stmt>, st: State)
    decreases ss, 0
  {
    ss == [] || (CoveredStmt(cx, ss[0], st) && (AStmt(cx, ss[0], st).alive ==> CoveredStmts(cx, ss[1..], AStmt(cx, ss[0], st).st)))
  }

  predicate CoveredInit(cx: Ctx, ss: seq<Stmt>, st: State)
    decreases ss, 0
  {
    ss == [] || (CoveredStmt(cx, ss[0], st) && CoveredInit(cx, ss[1..], AStmt(cx, ss[0], st).st))
  }

  // ---- facts about the walk -----------------------------------------------

  /** Walking an expression only adds assigned variables; the state left in place is below both branches. */
  lemma {:induction false} ExprGrows(cx: Ctx, e: Expr, st: State)
    ensures st.da <= AExpr(cx, e, st).st.da
    decreases e, if ShortCircuit(e) then 1 else 0
  {
    match e
    case Opaque(_) =>
    case Const(_) =>
    case Var(_) =>
    case IncDec(_, _) =>
    case Assign(_, rhs) => ExprGrows(cx, rhs, st);
    case Update(v, _, rhs) => ExprGrows(cx, rhs, Read(v, st).st);
    case Paren(x) => ExprGrows(cx, x, st);
    case Unary(_, x) => ExprGrows(cx, x, st);
    case Not(x) => ExprGrows(cx, x, st);
    case Binary(_, x, y) => ExprGrows(cx, x, st); ExprGrows(cx, y, AExpr(cx, x, st).st);
    case And(_, _) => CondGrows(cx, e, st);
    case Or(_, _) => CondGrows(cx, e, st);
    case Choose(c, t, f) =>
      CondGrows(cx, c, st);
      ExprGrows(cx, t, ACond(cx, c, st).yes);
      ExprGrows(cx, f, ACond(cx, c, st).no);
    case Store(place, rhs) => ExprGrows(cx, rhs, st); AllGrows(cx, place, AExpr(cx, rhs, st).st);
    case Modify(place, _, rhs) => ExprGrows(cx, rhs, st); AllGrows(cx, place, AExpr(cx, rhs, st).st);
    case Step(_, _) =>
  }

  lemma {:induction false} AllGrows(cx: Ctx, es: seq<Expr>, st: State)
    ensures st.da <= AExprs(cx, es, st).st.da
    decreases es, 0
  {
    if es != [] {
      ExprGrows(cx, es[0], st);
      AllGrows(cx, es[1..], AExpr(cx, es[0], st).st);
    }
  }

  lemma {:induction false} CondGrows(cx: Ctx, e: Expr, st: State)
    ensures var c := ACond(cx, e, st); st.da <= c.st.da && c.st.da <= c.yes.da && c.st.da <= c.no.da
    decreases e, if ShortCircuit(e) then 0 else 1
  {
    match e
    case Paren(x) => CondGrows(cx, x, st);
    case Not(x) => CondGrows(cx, x, st);
    case And(x, y) => CondGrows(cx, x, st); CondGrows(cx, y, ACond(cx, x, st).yes);
    case Or(x, y) => CondGrows(cx, x, st); CondGrows(cx, y, ACond(cx, x, st).no);
    case Choose(c, t, f) =>
      CondGrows(cx, c, st);
      CondGrows(cx, t, ACond(cx, c, st).yes);
      CondGrows(cx, f, ACond(cx, c, st).no);
    case _ => ExprGrows(cx, e, st);
  }

  // ---- expressions --------------------------------------------------------

  /** Every variable in scope that the analysis calls assigned has a value. */
  predicate Claims<E>(st: State, w: World<E>, scope: set<nat>) { st.da * scope <= w.mem.Keys }

  predicate Keeps<E>(w: World<E>, w1: World<E>, scope: set<nat>) { w.mem.Keys * scope <= w1.mem.Keys }

  ghost predicate ExprOk<T, E>(o: Res<T, E>, st: State, w: World<E>, scope: set<nat>) {
    match o
    case Unassigned(_) => false
    case Raised(_) => true
    case Val(_, w1) => Claims(st, w1, scope) && Keeps(w, w1, scope)
  }

  ghost predicate CondOk<E>(o: Val<E>, c: Branches, w: World<E>, scope: set<nat>) {
    && ExprOk(o, c.st, w, scope)
    && (o.Val? ==> Claims(if o.x != 0 then c.yes else c.no, o.w, scope))
  }

  lemma {:induction false} ExprSound<E>(env: Env<E>, cx: Ctx, e: Expr, st: State, w: World<E>, scope: set<nat>)
    requires Vars(e) <= scope && Covered(cx, e, st) && Claims(st, w, scope) && Clean(AExpr(cx, e, st).errs)
    ensures ExprOk(Eval(env, e, w), AExpr(cx, e, st).st, w, scope)
    decreases e, if ShortCircuit(e) then 1 else 0
  {
    match e
    case Opaque(_) =>
    case Const(_) =>
    case Var(v) => ReadSound(v, st, w, scope);
    case Assign(v, rhs) => ExprSound(env, cx, rhs, st, w, scope);
    case Update(v, _, rhs) =>
      ReadSound(v, st, w, scope);
      ExprSound(env, cx, rhs, st, w, scope);
    case IncDec(v, _) => ReadSound(v, st, w, scope);
    case Paren(x) => ExprSound(env, cx, x, st, w, scope);
    case Unary(_, x) => ExprSound(env, cx, x, st, w, scope);
    case Not(x) => ExprSound(env, cx, x, st, w, scope);
    case Binary(_, x, y) =>
      ExprSound(env, cx, x, st, w, scope);
      var o := Eval(env, x, w);
      if o.Val? { ExprSound(env, cx, y, AExpr(cx, x, st).st, o.w, scope); }
    case And(_, _) => CondSound(env, cx, e, st, w, scope);
    case Or(_, _) => CondSound(env, cx, e, st, w, scope);
    case Choose(c, t, f) =>
      CondSound(env, cx, c, st, w, scope);
      var o := Eval(env, c, w);
      var b := ACond(cx, c, st);
      if o.Val? && o.x != 0 { ExprSound(env, cx, t, b.yes, o.w, scope); }
      if o.Val? && o.x == 0 { ExprSound(env, cx, f, b.no, o.w, scope); }
    case Store(_, _) => PlaceSound(env, cx, e, st, w, scope);
    case Modify(_, _, _) => PlaceSound(env, cx, e, st, w, scope);
    case Step(_, _) => PlaceSound(env, cx, e, st, w, scope);
  }

  lemma ReadSound<E>(v: nat, st: State, w: World<E>, scope: set<nat>)
    requires v in scope && Claims(st, w, scope) && Clean(Read(v, st).errs)
    ensures v in w.mem && Read(v, st).st == st
  {
    ReadClean(v, st);
  }

  /** The place runs first; what the walk in its own order adds is the same. */
  lemma {:induction false} PlaceSound<E>(env: Env<E>, cx: Ctx, e: Expr, st: State, w: World<E>, scope: set<nat>)
    requires (e.Store? || e.Modify? || e.Step?) && Vars(e) <= scope && Covered(cx, e, st) && Claims(st, w, scope) && Clean(AExpr(cx, e, st).errs)
    ensures ExprOk(Eval(env, e, w), AExpr(cx, e, st).st, w, scope)
    decreases e, 0, 0
  {
    var p := AExprs(cx, e.place, st);
    AllSound(env, cx, e.place, st, w, scope);
    AllGrows(cx, e.place, st);
    var o := EvalAll(env, e.place, w);
    if o.Val? && !e.Step? {
      AllGains(cx, e.place, st);
      ExprGains(cx, e.rhs, st);
      AllGains(cx, e.place, AExpr(cx, e.rhs, st).st);
      ExprCleaner(cx, e.rhs, st, p.st);
      ExprGains(cx, e.rhs, p.st);
      var w1 := if e.Store? then o.w else Fetched(env, o.x, o.w).w;
      assert w1.mem == o.w.mem;
      ExprSound(env, cx, e.rhs, p.st, w1, scope);
    }
  }

  lemma {:induction false} AllSound<E>(env: Env<E>, cx: Ctx, es: seq<Expr>, st: State, w: World<E>, scope: set<nat>)
    requires VarsAll(es) <= scope && CoveredAll(cx, es, st) && Claims(st, w, scope) && Clean(AExprs(cx, es, st).errs)
    ensures ExprOk(EvalAll(env, es, w), AExprs(cx, es, st).st, w, scope)
    decreases es, 0
  {
    hide Eval, AExpr;
    if es != [] {
      ExprSound(env, cx, es[0], st, w, scope);
      var o := Eval(env, es[0], w);
      if o.Val? { AllSound(env, cx, es[1..], AExpr(cx, es[0], st).st, o.w, scope); }
    }
  }

  lemma {:induction false} CondSound<E>(env: Env<E>, cx: Ctx, e: Expr, st: State, w: World<E>, scope: set<nat>)
    requires Vars(e) <= scope && CoveredCond(cx, e, st) && Claims(st, w, scope) && Clean(ACond(cx, e, st).errs)
    ensures CondOk(Eval(env, e, w), ACond(cx, e, st), w, scope)
    decreases e, if ShortCircuit(e) then 0 else 1
  {
    match e
    case Paren(x) => CondSound(env, cx, x, st, w, scope);
    case Not(x) => CondSound(env, cx, x, st, w, scope);
    case And(x, y) =>
      CondSound(env, cx, x, st, w, scope);
      var o := Eval(env, x, w);
      CondGrows(cx, y, ACond(cx, x, st).yes);
      if o.Val? && o.x != 0 { CondSound(env, cx, y, ACond(cx, x, st).yes, o.w, scope); }
    case Or(x, y) =>
      CondSound(env, cx, x, st, w, scope);
      var o := Eval(env, x, w);
      if o.Val? && o.x == 0 { CondSound(env, cx, y, ACond(cx, x, st).no, o.w, scope); }
    case Choose(c, t, f) =>
      CondSound(env, cx, c, st, w, scope);
      var o := Eval(env, c, w);
      if o.Val? && o.x != 0 { CondSound(env, cx, t, ACond(cx, c, st).yes, o.w, scope); }
      if o.Val? && o.x == 0 { CondSound(env, cx, f, ACond(cx, c, st).no, o.w, scope); }
    case _ => ExprSound(env, cx, e, st, w, scope);
  }

  // ---- reachability -------------------------------------------------------

  /** A constant condition evaluates to its constant and assigns nothing. */
  lemma {:induction false} FoldedIs<E>(env: Env<E>, e: Expr, w: World<E>)
    requires Folded(e).Some?
    ensures Eval(env, e, w).Val? && Eval(env, e, w).w == w && (Eval(env, e, w).x != 0 <==> Folded(e).value)
  {
    match e
    case Const(_) =>
    case Paren(x) => FoldedIs(env, x, w);
    case Not(x) => FoldedIs(env, x, w);
    case And(x, y) => FoldedIs(env, x, w); FoldedIs(env, y, w);
    case Or(x, y) => FoldedIs(env, x, w); FoldedIs(env, y, w);
    case Choose(c, t, f) => FoldedIs(env, c, w); FoldedIs(env, t, w); FoldedIs(env, f, w);
  }

  /** A loop whose test is always true is never left normally. */
  lemma {:induction false} ForeverSound<E>(env: Env<E>, test: Option<Expr>, post: seq<Expr>, body: Stmt, w: World<E>, fuel: nat)
    requires Infinite(test)
    ensures !Loop(env, test, post, body, w, fuel).Normal?
    decreases fuel
  {
    if fuel > 0 {
      if test.Some? { FoldedIs(env, test.value, w); }
      var t := EvalTest(env, test, w);
      var d := Exec(env, body, t.w, fuel - 1);
      if d.Normal? {
        var p := EvalAll(env, post, d.w);
        if p.Val? { ForeverSound(env, test, post, body, p.w, fuel - 1); }
      }
    }
  }

  /** A statement reported not alive never completes normally, in any state and under any diagnostics. */
  lemma {:induction false} AliveSound<E>(env: Env<E>, cx: Ctx, s: Stmt, st: State, w: World<E>, fuel: nat)
    ensures Exec(env, s, w, fuel).Normal? ==> AStmt(cx, s, st).alive
    decreases s, 0
  {
    hide Loop, Each, Eval, AExpr, ACond, AEntry;
    match s
    case Block(ss) => AliveAllSound(env, cx, ss, st, w, fuel);
    case If(cond, yes, no) =>
      var c := ACond(cx, cond, st);
      var o := Eval(env, cond, w);
      if o.Val? && no.Some? {
        if o.x != 0 { AliveSound(env, cx, yes, c.yes, o.w, fuel); } else { AliveSound(env, cx, no.value, c.no, o.w, fuel); }
      }
    case While(cond, body) =>
      if Infinite(Some(cond)) { ForeverSound(env, Some(cond), [], body, w, fuel); }
    case DoWhile(body, cond) =>
      var d := Exec(env, body, w, fuel);
      if Infinite(Some(cond)) && d.Normal? { ForeverSound(env, Some(cond), [], body, d.w, fuel); }
    case For(first, test, post, body) =>
      var d := ExecAll(env, first, w, fuel);
      if Infinite(test) && d.Normal? { ForeverSound(env, test, post, body, d.w, fuel); }
    case Sync(x, ss) =>
      var o := Eval(env, x, w);
      if o.Val? { AliveAllSound(env, cx, ss, AExpr(cx, x, st).st, o.w, fuel); }
    case _ =>
  }

  lemma {:induction false} AliveAllSound<E>(env: Env<E>, cx: Ctx, ss: seq<Stmt>, st: State, w: World<E>, fuel: nat)
    ensures ExecAll(env, ss, w, fuel).Normal? ==> ABlock(cx, ss, st, true).alive
    decreases ss, 0
  {
    hide AStmt, Exec;
    if ss != [] {
      AliveSound(env, cx, ss[0], st, w, fuel);
      var d := Exec(env, ss[0], w, fuel);
      var f := AStmt(cx, ss[0], st);
      if d.Normal? { AliveAllSound(env, cx, ss[1..], f.st, d.w, fuel); }
    }
  }

  // ---- loops --------------------------------------------------------------

  /** The entry state is below the first guess, is kept by the body, and its own pass was reported. */
  lemma {:induction false} EntryFixed(cx: Ctx, body: Stmt, post: seq<Expr>, entry: State)
    ensures var e := AEntry(cx, body, post, entry);
            var b := ABody(cx, body, post, e.st);
            e.st.da <= entry.da && e.st.du <= entry.du && Join(e.st, b.st) == e.st && b.errs <= e.errs
    decreases Weight(entry)
  {
    hide ABody;
    var b := ABody(cx, body, post, entry);
    var next := Join(entry, b.st);
    JoinShrinks(entry, b.st);
    if next != entry { EntryFixed(cx, body, post, next); }
  }

  ghost predicate DoneOk<E>(d: Done<E>, st: State, w: World<E>, scope: set<nat>, after: set<nat>) {
    match d
    case BadRead(_) => false
    case Normal(w1) => Claims(st, w1, after) && Keeps(w, w1, scope)
    case _ => true
  }

  lemma TestSound<E>(env: Env<E>, cx: Ctx, test: Option<Expr>, st: State, w: World<E>, scope: set<nat>)
    requires VarsOption(test) <= scope && CoveredTest(cx, test, st) && Claims(st, w, scope) && Clean(ATest(cx, test, st).errs)
    ensures CondOk(EvalTest(env, test, w), ATest(cx, test, st), w, scope)
  {
    hide Eval, ACond;
    if test.Some? { CondSound(env, cx, test.value, st, w, scope); }
  }

  /** One loop, given its entry state: it holds each time round, because nothing in scope is ever unassigned. */
  lemma {:induction false} LoopSound<E>(env: Env<E>, cx: Ctx, test: Option<Expr>, post: seq<Expr>, body: Stmt, entry: State, st: State,
                                        w: World<E>, scope: set<nat>, fuel: nat)
    requires VarsOption(test) <= scope && VarsAll(post) <= scope && Scoped(body, scope)
    requires CoveredTest(cx, test, st) && CoveredStmt(cx, body, entry) && CoveredAll(cx, post, AStmt(cx, body, entry).st)
    requires Claims(st, w, scope) && Clean(ATest(cx, test, st).errs)
    requires entry.da <= ATest(cx, test, st).yes.da && Clean(ABody(cx, body, post, entry).errs)
    ensures DoneOk(Loop(env, test, post, body, w, fuel), ATest(cx, test, st).no, w, scope, scope)
    decreases fuel, body, 1
  {
    hide Exec, EvalTest, EvalAll, ATest, AStmt, AExprs, Scoped, CoveredStmt;
    if fuel > 0 {
      TestSound(env, cx, test, st, w, scope);
      var t := EvalTest(env, test, w);
      if t.Val? && t.x != 0 {
        var b := AStmt(cx, body, entry);
        StmtSound(env, cx, body, entry, t.w, scope, fuel - 1);
        var d := Exec(env, body, t.w, fuel - 1);
        if d.Normal? {
          AllSound(env, cx, post, b.st, d.w, scope);
          var p := EvalAll(env, post, d.w);
          if p.Val? { LoopSound(env, cx, test, post, body, entry, st, p.w, scope, fuel - 1); }
        }
      }
    }
  }

  lemma {:induction false} EachSound<E>(env: Env<E>, cx: Ctx, v: nat, items: seq<int>, body: Stmt, st: State, w: World<E>, scope: set<nat>, fuel: nat)
    requires v !in scope && v !in st.da && Scoped(body, scope + {v}) && CoveredStmt(cx, body, st)
    requires Claims(st, w, scope) && Clean(AStmt(cx, body, st).errs)
    ensures DoneOk(Each(env, v, items, body, w, fuel), st, w, scope, scope)
    decreases fuel, body, 1
  {
    hide Exec, AStmt, Scoped, CoveredStmt;
    if items != [] && fuel > 0 {
      var w1 := Put(w, v, items[0]);
      StmtSound(env, cx, body, st, w1, scope + {v}, fuel - 1);
      var d := Exec(env, body, w1, fuel - 1);
      if d.Normal? { EachSound(env, cx, v, items[1..], body, st, d.w, scope, fuel - 1); }
    }
  }

  // ---- statements ---------------------------------------------------------

  lemma {:induction false} StmtsSound<E>(env: Env<E>, cx: Ctx, ss: seq<Stmt>, st: State, w: World<E>, scope: set<nat>, fuel: nat)
    requires ScopedAll(ss, scope) && CoveredStmts(cx, ss, st) && Claims(st, w, scope)
    requires Clean(ABlock(cx, ss, st, true).errs)
    ensures DoneOk(ExecAll(env, ss, w, fuel), ABlock(cx, ss, st, true).st, w, scope, scope)
    decreases fuel, ss, 0
  {
    hide Exec, AStmt, Scoped, CoveredStmt;
    if ss != [] {
      var f := AStmt(cx, ss[0], st);
      StmtSound(env, cx, ss[0], st, w, scope, fuel);
      AliveSound(env, cx, ss[0], st, w, fuel);
      var d := Exec(env, ss[0], w, fuel);
      if d.Normal? { StmtsSound(env, cx, ss[1..], f.st, d.w, scope + Declares(ss[0]), fuel); }
    }
  }

  /** The init part of a for leaves what it declares in scope. */
  lemma {:induction false} InitSound<E>(env: Env<E>, cx: Ctx, ss: seq<Stmt>, st: State, w: World<E>, scope: set<nat>, fuel: nat)
    requires ScopedAll(ss, scope) && CoveredInit(cx, ss, st) && Claims(st, w, scope)
    requires Clean(AInit(cx, ss, st).errs)
    ensures DoneOk(ExecAll(env, ss, w, fuel), AInit(cx, ss, st).st, w, scope, scope + DeclaresAll(ss))
    decreases fuel, ss, 0
  {
    hide Exec, AStmt, Scoped, CoveredStmt;
    if ss != [] {
      var f := AStmt(cx, ss[0], st);
      StmtSound(env, cx, ss[0], st, w, scope, fuel);
      var d := Exec(env, ss[0], w, fuel);
      if d.Normal? {
        InitSound(env, cx, ss[1..], f.st, d.w, scope + Declares(ss[0]), fuel);
        assert scope + Declares(ss[0]) + DeclaresAll(ss[1..]) == scope + DeclaresAll(ss);
      }
    }
  }

  lemma {:induction false} StmtSound<E>(env: Env<E>, cx: Ctx, s: Stmt, st: State, w: World<E>, scope: set<nat>, fuel: nat)
    requires Scoped(s, scope) && CoveredStmt(cx, s, st) && Claims(st, w, scope) && Clean(AStmt(cx, s, st).errs)
    ensures DoneOk(Exec(env, s, w, fuel), AStmt(cx, s, st).st, w, scope, scope + Declares(s))
    decreases fuel, s, 1
  {
    hide Eval, AExpr, ACond, Loop, Each, AEntry, ABody, Covered, CoveredCond, Vars;
    match s
    case Empty =>
    case Do1(x) => ExprSound(env, cx, x, st, w, scope);
    case Local(v, init) => if init.Some? { ExprSound(env, cx, init.value, st, w, scope); }
    case Block(ss) => StmtsSound(env, cx, ss, st, w, scope, fuel);
    case Labeled(body) => StmtSound(env, cx, body, st, w, scope, fuel);
    case If(_, _, _) => IfSound(env, cx, s, st, w, scope, fuel);
    case While(_, _) => WhileSound(env, cx, s, st, w, scope, fuel);
    case DoWhile(_, _) => DoSound(env, cx, s, st, w, scope, fuel);
    case For(_, _, _, _) => ForSound(env, cx, s, st, w, scope, fuel);
    case ForEach(v, x, body) =>
      ExprSound(env, cx, x, st, w, scope);
      var o := Eval(env, x, w);
      if o.Val? { EachSound(env, cx, v, env.items(o.x, o.w.ext), body, Unset(AExpr(cx, x, st).st, v), o.w, scope, fuel); }
    case Return(result) => if result.Some? { ExprSound(env, cx, result.value, st, w, scope); }
    case Throw(x) => ExprSound(env, cx, x, st, w, scope);
    case Assert(_, _) => AssertSound(env, cx, s, st, w, scope, fuel);
    case Sync(x, ss) =>
      ExprSound(env, cx, x, st, w, scope);
      var o := Eval(env, x, w);
      if o.Val? { StmtsSound(env, cx, ss, AExpr(cx, x, st).st, o.w, scope, fuel); }
  }

  lemma {:induction false} IfSound<E>(env: Env<E>, cx: Ctx, s: Stmt, st: State, w: World<E>, scope: set<nat>, fuel: nat)
    requires s.If? && Scoped(s, scope) && CoveredStmt(cx, s, st) && Claims(st, w, scope) && Clean(AStmt(cx, s, st).errs)
    ensures DoneOk(Exec(env, s, w, fuel), AStmt(cx, s, st).st, w, scope, scope)
    decreases fuel, s, 0
  {
    hide Eval, ACond, Covered, CoveredCond, Vars;
    var c := ACond(cx, s.cond, st);
    CondSound(env, cx, s.cond, st, w, scope);
    var o := Eval(env, s.cond, w);
    if o.Val? {
      if o.x != 0 {
        StmtSound(env, cx, s.yes, c.yes, o.w, scope, fuel);
        AliveSound(env, cx, s.yes, c.yes, o.w, fuel);
      } else if s.no.Some? {
        StmtSound(env, cx, s.no.value, c.no, o.w, scope, fuel);
        AliveSound(env, cx, s.no.value, c.no, o.w, fuel);
      }
    }
  }

  lemma {:induction false} WhileSound<E>(env: Env<E>, cx: Ctx, s: Stmt, st: State, w: World<E>, scope: set<nat>, fuel: nat)
    requires s.While? && Scoped(s, scope) && CoveredStmt(cx, s, st) && Claims(st, w, scope) && Clean(AStmt(cx, s, st).errs)
    ensures DoneOk(Exec(env, s, w, fuel), AStmt(cx, s, st).st, w, scope, scope)
    decreases fuel, s, 0
  {
    hide Eval, ACond, Covered, CoveredCond, Vars, AEntry, ABody, Loop, Folded;
    var c := ACond(cx, s.cond, st);
    CondGrows(cx, s.cond, st);
    EntryFixed(cx, s.body, [], c.yes);
    LoopSound(env, cx, Some(s.cond), [], s.body, AEntry(cx, s.body, [], c.yes).st, st, w, scope, fuel);
  }

  lemma {:induction false} DoSound<E>(env: Env<E>, cx: Ctx, s: Stmt, st: State, w: World<E>, scope: set<nat>, fuel: nat)
    requires s.DoWhile? && Scoped(s, scope) && CoveredStmt(cx, s, st) && Claims(st, w, scope) && Clean(AStmt(cx, s, st).errs)
    ensures DoneOk(Exec(env, s, w, fuel), AStmt(cx, s, st).st, w, scope, scope)
    decreases fuel, s, 0
  {
    hide Eval, ACond, Covered, CoveredCond, Vars, AEntry, ABody, Loop, Folded;
    var b := AStmt(cx, s.body, st);
    var c := ACond(cx, s.cond, b.st);
    StmtSound(env, cx, s.body, st, w, scope, fuel);
    var d := Exec(env, s.body, w, fuel);
    if d.Normal? {
      CondGrows(cx, s.cond, b.st);
      EntryFixed(cx, s.body, [], c.st);
      LoopSound(env, cx, Some(s.cond), [], s.body, AEntry(cx, s.body, [], c.st).st, b.st, d.w, scope, fuel);
    }
  }

  lemma {:induction false} ForSound<E>(env: Env<E>, cx: Ctx, s: Stmt, st: State, w: World<E>, scope: set<nat>, fuel: nat)
    requires s.For? && Scoped(s, scope) && CoveredStmt(cx, s, st) && Claims(st, w, scope) && Clean(AStmt(cx, s, st).errs)
    ensures DoneOk(Exec(env, s, w, fuel), AStmt(cx, s, st).st, w, scope, scope)
    decreases fuel, s, 0
  {
    hide Eval, Covered, CoveredCond, Vars, AEntry, ABody, Loop, Folded, ATest, AInit, ExecAll, ScopedAll;
    var i := AInit(cx, s.first, st);
    var c := ATest(cx, s.test, i.st);
    var inner := scope + DeclaresAll(s.first);
    InitSound(env, cx, s.first, st, w, scope, fuel);
    var d := ExecAll(env, s.first, w, fuel);
    if d.Normal? {
      EntryFixed(cx, s.body, s.post, c.yes);
      TestGrows(cx, s.test, i.st);
      LoopSound(env, cx, s.test, s.post, s.body, AEntry(cx, s.body, s.post, c.yes).st, i.st, d.w, inner, fuel);
    }
  }

  lemma TestGrows(cx: Ctx, test: Option<Expr>, st: State)
    ensures var c := ATest(cx, test, st); c.st.da <= c.yes.da && c.st.da <= c.no.da
  {
    hide ACond;
    if test.Some? { CondGrows(cx, test.value, st); }
  }

  lemma {:induction false} AssertSound<E>(env: Env<E>, cx: Ctx, s: Stmt, st: State, w: World<E>, scope: set<nat>, fuel: nat)
    requires s.Assert? && Scoped(s, scope) && CoveredStmt(cx, s, st) && Claims(st, w, scope) && Clean(AStmt(cx, s, st).errs)
    ensures DoneOk(Exec(env, s, w, fuel), AStmt(cx, s, st).st, w, scope, scope)
  {
    hide Eval, ACond, Covered, CoveredCond, Vars, CondGains;
    var c := ACond(cx, s.cond, st);
    CondSound(env, cx, s.cond, st, w, scope);
    CondGained(cx, s.cond, st);
    var o := Eval(env, s.cond, w);
    if o.Val? && o.x == 0 && s.message.Some? { ExprSound(env, cx, s.message.value, c.no, o.w, scope); }
  }

  // ---- whole methods ------------------------------------------------------

  /** Parameters start assigned; everything else starts neither assigned nor unassigned until it is declared. */
  function Start(params: set<nat>): State { State(params, {}) }

  /**
   * If the analysis of a method body reports no "might not have been initialized" at a read, no run of the body, for any
   * calls, arithmetic, loop counts and assertion setting, reads a local that has no value.
   */
  lemma DefiniteAssignmentSound<E>(env: Env<E>, cx: Ctx, params: set<nat>, body: seq<Stmt>, w: World<E>, fuel: nat)
    requires ScopedAll(body, params) && CoveredStmts(cx, body, Start(params))
    requires Clean(ABlock(cx, body, Start(params), true).errs) && params <= w.mem.Keys
    ensures !ExecAll(env, body, w, fuel).BadRead?
  {
    hide ScopedAll, CoveredStmts, ABlock, ExecAll;
    StmtsSound(env, cx, body, Start(params), w, params, fuel);
  }

  /** A method body not reported "missing return statement" is never left by falling off its end. */
  lemma MissingReturnSound<E>(env: Env<E>, cx: Ctx, params: set<nat>, body: seq<Stmt>, w: World<E>, fuel: nat)
    requires !ABlock(cx, body, Start(params), true).alive
    ensures !ExecAll(env, body, w, fuel).Normal?
  {
    AliveAllSound(env, cx, body, Start(params), w, fuel);
  }

  // ---- where the analysis is wrong ----------------------------------------

  /** The world in which exactly the variables called assigned have values. */
  function Least(st: State): World<()> { World(map v | v in st.da :: 0, ()) }

  /**
   * With assertions off an assert runs nothing. The state after an accepted condition then claims only what is so, in
   * every world the state before allows, exactly when all that its leading operand assigns was already assigned.
   */
  lemma AssertExactly(env: Env<()>, cx: Ctx, cond: Expr, message: Option<Expr>, st: State, fuel: nat)
    requires !env.assertions && Vars(cond) <= cx.order && Clean(ACond(cx, cond, st).errs)
    ensures var s := Assert(cond, message);
            (forall w: World<()> :: Claims(st, w, cx.order) ==>
               Exec(env, s, w, fuel).Normal? && Claims(AStmt(cx, s, st).st, Exec(env, s, w, fuel).w, cx.order))
            <==> CondGains(cx, cond).lead <= st.da
  {
    hide ACond, CondGains;
    var s := Assert(cond, message);
    var lead, left := CondGains(cx, cond).lead, ACond(cx, cond, st).st;
    CondGained(cx, cond, st);
    CondMentioned(cx, cond);
    if !(lead <= st.da) {
      var w0 := Least(st);
      assert w0.mem.Keys == st.da && Claims(st, w0, cx.order);
      var v :| v in lead && v !in st.da;
      assert v in left.da * cx.order && v !in w0.mem;
    }
  }

  /** int x; assert (x = 1) > 0; return x; */
  const ASSERTING := [Local(0, None), Assert(Binary(0, Assign(0, Opaque(0)), Opaque(1)), None), Return(Some(Var(0)))]

  lemma AssertAccepted()
    ensures ScopedAll(ASSERTING, {}) && ABlock(Ctx({0}, {0}), ASSERTING, Start({}), true).errs == {}
  {
    hide AEntry, ABody, AInit, ATest, Folded, AExprs;
    var cx, s1 := Ctx({0}, {0}), State({}, {0});
    var s2 := State({0}, {});
    assert ASSERTING[1..] == [ASSERTING[1], ASSERTING[2]] && ASSERTING[1..][1..] == [ASSERTING[2]];
    assert AStmt(cx, ASSERTING[2], s2).errs == {};
    assert ABlock(cx, [ASSERTING[2]], s2, true).errs == {};
    assert AStmt(cx, ASSERTING[1], s1) == Flow(s2, true, {});
    assert ABlock(cx, ASSERTING[1..], s1, true).errs == {};
  }

  /** It is accepted, and reads x unassigned when assertions are off. */
  lemma AssertUnsound(env: Env<()>)
    requires !env.assertions
    ensures ScopedAll(ASSERTING, {}) && ABlock(Ctx({0}, {0}), ASSERTING, Start({}), true).errs == {}
    ensures ExecAll(env, ASSERTING, World(map[], ()), 1) == BadRead(0)
  {
    AssertAccepted();
    hide ABlock, ScopedAll;
    var w := Drop(World(map[], ()), 0);
    assert ASSERTING[1..] == [ASSERTING[1], ASSERTING[2]] && ASSERTING[1..][1..] == [ASSERTING[2]];
    assert Exec(env, ASSERTING[2], w, 1) == BadRead(0);
    assert ExecAll(env, [ASSERTING[2]], w, 1) == BadRead(0);
  }

  /** a[i] = (i = 1); is accepted with i unassigned, and reads i before the right side gives it a value. */
  lemma StoreUnsound(env: Env<()>)
    ensures var body := [Local(1, None), Do1(Store([Var(0), Var(1)], Assign(1, Opaque(0))))];
            && ScopedAll(body, {0}) && ABlock(Ctx({0, 1}, {1}), body, Start({0}), true).errs == {}
            && ExecAll(env, body, World(map[0 := 7], ()), 1) == BadRead(1)
  {
    var w := Drop(World(map[0 := 7], ()), 1);
    assert 0 in w.mem && 1 !in w.mem;
    var e := Store([Var(0), Var(1)], Assign(1, Opaque(0)));
    assert [Var(0), Var(1)][1..] == [Var(1)] && [Var(1)][1..] == [];
    assert EvalAll(env, [Var(1)], w) == Unassigned(1);
    assert EvalAll(env, [Var(0), Var(1)], w) == Unassigned(1);
    OneUse(env, {0}, 1, e, w);
    var s0, s1 := State({0}, {1}), State({0, 1}, {});
    assert VarsAll([Var(1)]) == {1} && VarsAll([Var(0), Var(1)]) == {0, 1};
    assert AExpr(Ctx({0, 1}, {1}), e.rhs, s0) == Out(s1, {});
    assert AExprs(Ctx({0, 1}, {1}), [Var(1)], s1) == Out(s1, {});
    assert AExprs(Ctx({0, 1}, {1}), e.place, s1) == Out(s1, {});
    OneAccepted(Ctx({0, 1}, {1}), {0}, 1, e);
  }

  /** o.f = (o = x); is accepted with o unassigned. */
  lemma FieldStoreUnsound(env: Env<()>)
    ensures var body := [Local(0, None), Do1(Store([Var(0)], Assign(0, Opaque(0))))];
            && ScopedAll(body, {}) && ABlock(Ctx({0}, {0}), body, Start({}), true).errs == {}
            && ExecAll(env, body, World(map[], ()), 1) == BadRead(0)
  {
    var w := Drop(World(map[], ()), 0);
    var e := Store([Var(0)], Assign(0, Opaque(0)));
    assert [Var(0)][1..] == [];
    assert EvalAll(env, [Var(0)], w) == Unassigned(0);
    OneUse(env, {}, 0, e, w);
    var s0, s1 := State({}, {0}), State({0}, {});
    assert VarsAll([Var(0)]) == {0};
    assert AExpr(Ctx({0}, {0}), e.rhs, s0) == Out(s1, {});
    assert AExprs(Ctx({0}, {0}), e.place, s1) == Out(s1, {});
    OneAccepted(Ctx({0}, {0}), {}, 0, e);
  }

  /** a[0]++; is accepted with a unassigned: nothing in it is walked. So is o.f++. */
  lemma StepUnsound(env: Env<()>, place: seq<Expr>)
    requires place == [Var(0), Opaque(0)] || place == [Var(0)]
    ensures var body := [Local(0, None), Do1(Step(place, 0))];
            && ScopedAll(body, {}) && ABlock(Ctx({0}, {0}), body, Start({}), true).errs == {}
            && ExecAll(env, body, World(map[], ()), 1) == BadRead(0)
  {
    var w := Drop(World(map[], ()), 0);
    assert place[0] == Var(0);
    assert EvalAll(env, place, w) == Unassigned(0);
    OneUse(env, {}, 0, Step(place, 0), w);
    assert place[1..] == [] || place[1..] == [Opaque(0)];
    assert VarsAll([Opaque(0)]) == {} && VarsAll(place) == {0};
    OneAccepted(Ctx({0}, {0}), {}, 0, Step(place, 0));
  }

  lemma OneUse(env: Env<()>, params: set<nat>, v: nat, e: Expr, w: World<()>)
    requires v !in w.mem && Eval(env, e, w) == Unassigned(v)
    ensures forall w0: World<()> :: Drop(w0, v) == w ==> ExecAll(env, [Local(v, None), Do1(e)], w0, 1) == BadRead(v)
  {
    var use := Do1(e);
    assert Exec(env, use, w, 1) == BadRead(v);
    assert ExecAll(env, [use], w, 1) == BadRead(v);
    assert [Local(v, None), use][1..] == [use];
  }

  lemma OneAccepted(cx: Ctx, params: set<nat>, v: nat, e: Expr)
    requires v !in params && Vars(e) <= params + {v} && AExpr(cx, e, State(params, {v})).errs == {}
    ensures var body := [Local(v, None), Do1(e)];
            ScopedAll(body, params) && ABlock(cx, body, Start(params), true).errs == {}
  {
    hide Vars, AExpr;
    var use := Do1(e);
    assert [Local(v, None), use][1..] == [use] && [use][1..] == [];
    assert ScopedAll([use], params + {v});
    assert Unset(Start(params), v) == State(params, {v});
    assert ABlock(cx, [use], State(params, {v}), true).errs == {};
  }

  // ---- exactly when a store or a step is safe -----------------------------

  /** No run from a state the analysis allows reads an unassigned local. */
  ghost predicate SafeFrom(cx: Ctx, e: Expr, st: State) {
    forall env: Env<()>, w: World<()> :: Claims(st, w, cx.order) ==> !Eval(env, e, w).Unassigned?
  }

  /** Every operand is evaluated in every run, and no place is stored to. */
  predicate Straight(e: Expr) {
    match e
    case Opaque(_) => true
    case Const(_) => true
    case Var(_) => true
    case IncDec(_, _) => true
    case Assign(_, rhs) => Straight(rhs)
    case Update(_, _, rhs) => Straight(rhs)
    case Paren(x) => Straight(x)
    case Unary(_, x) => Straight(x)
    case Not(x) => Straight(x)
    case Binary(_, x, y) => Straight(x) && Straight(y)
    case _ => false
  }

  predicate StraightAll(es: seq<Expr>) { forall e :: e in es ==> Straight(e) }

  /** Everything succeeds. */
  function Smooth(): Env<()> {
    Env((_, x) => (Some(0), x), (_, _, _) => Some(0), (_, x) => (Some(0), x), (_, _, x) => (Some(0), x), (_, _) => [], false)
  }

  /** Run with just the claimed locals assigned, a straight expression reads an unassigned one exactly when the walk reports one. */
  lemma {:induction false} StraightExact(cx: Ctx, e: Expr, st: State, w: World<()>)
    requires Straight(e) && w.mem.Keys == st.da
    ensures var o := Eval(Smooth(), e, w);
            if Clean(AExpr(cx, e, st).errs) then o.Val? && o.w.mem.Keys == AExpr(cx, e, st).st.da else o.Unassigned?
    decreases e
  {
    match e
    case Opaque(_) =>
    case Const(_) =>
    case Var(v) => ReadClean(v, st);
    case IncDec(v, _) => ReadClean(v, st);
    case Assign(_, rhs) => StraightExact(cx, rhs, st, w);
    case Update(v, _, rhs) => ReadClean(v, st); if v in st.da { StraightExact(cx, rhs, st, w); }
    case Paren(x) => StraightExact(cx, x, st, w);
    case Unary(_, x) => StraightExact(cx, x, st, w);
    case Not(x) => StraightExact(cx, x, st, w);
    case Binary(_, x, y) =>
      StraightExact(cx, x, st, w);
      if Clean(AExpr(cx, x, st).errs) { StraightExact(cx, y, AExpr(cx, x, st).st, Eval(Smooth(), x, w).w); }
  }

  lemma {:induction false} StraightAllExact(cx: Ctx, es: seq<Expr>, st: State, w: World<()>)
    requires StraightAll(es) && w.mem.Keys == st.da
    ensures var o := EvalAll(Smooth(), es, w);
            if CleanAll(cx, es, st) then o.Val? && o.w.mem.Keys == AExprs(cx, es, st).st.da else o.Unassigned?
    decreases |es|
  {
    hide Eval, AExpr, Straight;
    if es != [] {
      StraightExact(cx, es[0], st, w);
      if Clean(AExpr(cx, es[0], st).errs) { StraightAllExact(cx, es[1..], AExpr(cx, es[0], st).st, Eval(Smooth(), es[0], w).w); }
    }
  }

  /**
   * An accepted store, compound store or ++ on an element or a field is safe when walking its place first, as it runs
   * first, reports nothing; and only then, if every operand of the place is evaluated in every run.
   */
  lemma PlaceExactly(cx: Ctx, e: Expr, st: State)
    requires (e.Store? || e.Modify? || e.Step?) && Vars(e) <= cx.order && Clean(AExpr(cx, e, st).errs)
    requires CoveredAll(cx, e.place, st) && (!e.Step? ==> Covered(cx, e.rhs, AExprs(cx, e.place, st).st))
    ensures CleanAll(cx, e.place, st) ==> SafeFrom(cx, e, st)
    ensures StraightAll(e.place) ==> (SafeFrom(cx, e, st) <==> CleanAll(cx, e.place, st))
  {
    hide Eval, AExpr, Straight, CoveredAll;
    if CleanAll(cx, e.place, st) {
      forall env: Env<()>, w: World<()> | Claims(st, w, cx.order)
        ensures !Eval(env, e, w).Unassigned?
      {
        ExprSound(env, cx, e, st, w, cx.order);
      }
    } else if StraightAll(e.place) {
      var w0 := Least(st);
      assert w0.mem.Keys == st.da && Claims(st, w0, cx.order);
      StraightAllExact(cx, e.place, st, w0);
      PlaceFirst(Smooth(), e, w0);
    }
  }

  lemma PlaceFirst(env: Env<()>, e: Expr, w: World<()>)
    requires (e.Store? || e.Modify? || e.Step?) && EvalAll(env, e.place, w).Unassigned?
    ensures Eval(env, e, w).Unassigned?
  {
  }

  /** Where paths part, the walk is more careful than the runs: y && !y && i never reads i. */
  lemma CarefulPlace()
    ensures var e := Step([And(Var(0), And(Not(Var(0)), Var(1)))], 0);
            SafeFrom(Ctx({0, 1}, {}), e, State({0}, {})) && !CleanAll(Ctx({0, 1}, {}), e.place, State({0}, {}))
  {
    var cx, st := Ctx({0, 1}, {}), State({0}, {});
    var x := And(Var(0), And(Not(Var(0)), Var(1)));
    assert Uninitialized(1) in Read(1, st).errs;
    assert ACond(cx, Var(1), st).errs == {Uninitialized(1)};
    assert ACond(cx, x.y, st).errs == {Uninitialized(1)};
    assert Uninitialized(1) in AExpr(cx, x, st).errs;
    assert Uninitialized(1) in AExprs(cx, [x], st).errs;
    forall env: Env<()>, w: World<()> | Claims(st, w, cx.order)
      ensures !Eval(env, Step([x], 0), w).Unassigned?
    {
      assert 0 in st.da * cx.order;
      EitherWay(env, w);
      OneOperand(env, x, w);
    }
  }

  lemma EitherWay(env: Env<()>, w: World<()>)
    requires 0 in w.mem
    ensures !Eval(env, And(Var(0), And(Not(Var(0)), Var(1))), w).Unassigned?
  {
    assert Eval(env, Var(0), w) == Val(w.mem[0], w);
    if w.mem[0] != 0 {
      assert Eval(env, Not(Var(0)), w) == Val(0, w);
      assert Eval(env, And(Not(Var(0)), Var(1)), w) == Val(0, w);
    }
  }

  lemma OneOperand(env: Env<()>, x: Expr, w: World<()>)
    requires !Eval(env, x, w).Unassigned?
    ensures !Eval(env, Step([x], 0), w).Unassigned?
  {
    hide Eval;
    var o := Eval(env, x, w);
    assert [x][1..] == [] && [x][0] == x;
    if o.Val? { assert EvalAll(env, [], o.w) == Val([], o.w); }
    assert !EvalAll(env, [x], w).Unassigned?;
    StepRuns(env, x, w);
  }

  lemma StepRuns(env: Env<()>, x: Expr, w: World<()>)
    requires !EvalAll(env, [x], w).Unassigned?
    ensures !Eval(env, Step([x], 0), w).Unassigned?
  {
    hide EvalAll;
  }
}
