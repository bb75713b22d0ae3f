/** Definite assignment and reachability on the fragment without break, continue, switch, try and lambdas. */
module Analysis {

  datatype Option<T> = None | Some(value: T)

  /**
   * Locals are numbered. Const stands for any expression that folds to a boolean constant without operands of its own.
   * The place of an element is its array and its index, the place of a field its object, in evaluation order.
   */
  datatype Expr =
    | Opaque(id: nat)
    | Const(b: bool)
    | Var(v: nat)
    | Assign(v: nat, rhs: Expr)
    | Update(v: nat, op: nat, rhs: Expr)
    | IncDec(v: nat, op: nat)
    | Paren(x: Expr)
    | Unary(op: nat, x: Expr)
    | Binary(op: nat, x: Expr, y: Expr)
    | Not(x: Expr)
    | And(x: Expr, y: Expr)
    | Or(x: Expr, y: Expr)
    | Choose(cond: Expr, yes: Expr, no: Expr)
    | Store(place: seq<Expr>, rhs: Expr)
    | Modify(place: seq<Expr>, op: nat, rhs: Expr)
    | Step(place: seq<Expr>, op: nat)

  datatype Stmt =
    | Empty
    | Do1(x: Expr)
    | Local(v: nat, init: Option<Expr>)
    | Block(stmts: seq<Stmt>)
    | Labeled(body: Stmt)
    | If(cond: Expr, yes: Stmt, no: Option<Stmt>)
    | While(cond: Expr, body: Stmt)
    | DoWhile(body: Stmt, cond: Expr)
    | For(first: seq<Stmt>, test: Option<Expr>, post: seq<Expr>, body: Stmt)
    | ForEach(v: nat, x: Expr, body: Stmt)
    | Return(result: Option<Expr>)
    | Throw(x: Expr)
    | Assert(cond: Expr, message: Option<Expr>)
    | Sync(x: Expr, stmts: seq<Stmt>)

  // ---- the state ----------------------------------------------------------

  /** Two independent facts per variable: definitely assigned, definitely unassigned. */
  datatype State = State(da: set<nat>, du: set<nat>)

  function Join(a: State, b: State): State { State(a.da * b.da, a.du * b.du) }

  function Set(st: State, v: nat): State { State(st.da + {v}, st.du - {v}) }

  function Unset(st: State, v: nat): State { State(st.da - {v}, st.du + {v}) }

  datatype Diag = Uninitialized(v: nat) | AssignedAgain(v: nat) | Unreachable(s: Stmt) | BlankAtReturn(v: nat)

  /** The locals of the method and those of them declared without an initialiser. */
  datatype Ctx = Ctx(order: set<nat>, blanks: set<nat>)

  /** A path that cannot be taken: everything holds there. */
  function Full(cx: Ctx, st: State): State { State(st.da + cx.order, st.du + cx.order) }

  datatype Out = Out(st: State, errs: set<Diag>)

  /** The state left in place, and the facts on each branch. */
  datatype Branches = Branches(st: State, yes: State, no: State, errs: set<Diag>)

  function Read(v: nat, st: State): Out {
    if v in st.da then Out(st, {}) else Out(Set(st, v), {Uninitialized(v)})
  }

  function Write(cx: Ctx, v: nat, st: State): Out {
    Out(Set(st, v), if v in cx.blanks && v !in st.du then {AssignedAgain(v)} else {})
  }

  // ---- expressions --------------------------------------------------------

  predicate ShortCircuit(e: Expr) { e.And? || e.Or? }

  function AExpr(cx: Ctx, e: Expr, st: State): Out
    decreases e, if ShortCircuit(e) then 1 else 0
  {
    match e
    case Opaque(_) => Out(st, {})
    case Const(_) => Out(st, {})
    case Var(v) => Read(v, st)
    case Assign(v, rhs) =>
      var r := AExpr(cx, rhs, st);
      var o := Write(cx, v, r.st);
      Out(o.st, r.errs + o.errs)
    case Update(v, _, rhs) =>
      var q := Read(v, st);
      var r := AExpr(cx, rhs, q.st);
      var o := Write(cx, v, r.st);
      Out(o.st, q.errs + r.errs + o.errs)
    case IncDec(v, _) =>
      var q := Read(v, st);
      var o := Write(cx, v, q.st);
      Out(o.st, q.errs + o.errs)
    case Paren(x) => AExpr(cx, x, st)
    case Unary(_, x) => AExpr(cx, x, st)
    case Not(x) => AExpr(cx, x, st)
    case Binary(_, x, y) =>
      var l := AExpr(cx, x, st);
      var r := AExpr(cx, y, l.st);
      Out(r.st, l.errs + r.errs)
    case And(_, _) => var c := ACond(cx, e, st); Out(c.st, c.errs)
    case Or(_, _) => var c := ACond(cx, e, st); Out(c.st, c.errs)
    case Choose(cond, yes, no) =>
      var c := ACond(cx, cond, st);
      var t := AExpr(cx, yes, c.yes);
      var f := AExpr(cx, no, c.no);
      Out(Join(t.st, f.st), c.errs + t.errs + f.errs)
    // The right side is walked before the place it is stored to.
    case Store(place, rhs) => var r := AExpr(cx, rhs, st); var p := AExprs(cx, place, r.st); Out(p.st, r.errs + p.errs)
    case Modify(place, _, rhs) => var r := AExpr(cx, rhs, st); var p := AExprs(cx, place, r.st); Out(p.st, r.errs + p.errs)
    // ++ and -- look for a local to read and write, find none, and walk nothing.
    case Step(_, _) => Out(st, {})
  }

  function AExprs(cx: Ctx, es: seq<Expr>, st: State): Out
    decreases es, 0
  {
    if es == [] then Out(st, {})
    else
      var o := AExpr(cx, es[0], st);
      var r := AExprs(cx, es[1..], o.st);
      Out(r.st, o.errs + r.errs)
  }

  function ACond(cx: Ctx, e: Expr, st: State): Branches
    decreases e, if ShortCircuit(e) then 0 else 1
  {
    match e
    case Paren(x) => ACond(cx, x, st)
    case Not(x) => var c := ACond(cx, x, st); Branches(c.st, c.no, c.yes, c.errs)
    case And(x, y) =>
      var l := ACond(cx, x, st);
      var r := ACond(cx, y, l.yes);
      Branches(l.st, r.yes, Join(l.no, r.no), l.errs + r.errs)
    case Or(x, y) =>
      var l := ACond(cx, x, st);
      var r := ACond(cx, y, l.no);
      Branches(l.st, Join(l.yes, r.yes), r.no, l.errs + r.errs)
    case Choose(cond, yes, no) =>
      var c := ACond(cx, cond, st);
      var t := ACond(cx, yes, c.yes);
      var f := ACond(cx, no, c.no);
      Branches(c.st, Join(t.yes, f.yes), Join(t.no, f.no), c.errs + t.errs + f.errs)
    case _ =>
      var o := AExpr(cx, e, st);
      Branches(o.st,
               if e == Const(false) then Full(cx, o.st) else o.st,
               if e == Const(true) then Full(cx, o.st) else o.st,
               o.errs)
  }

  /** The value of a constant expression. */
  function Folded(e: Expr): Option<bool> {
    match e
    case Const(b) => Some(b)
    case Paren(x) => Folded(x)
    case Not(x) => (match Folded(x) case Some(b) => Some(!b) case None => None)
    case And(x, y) => if Folded(x).Some? && Folded(y).Some? then Some(Folded(x).value && Folded(y).value) else None
    case Or(x, y) => if Folded(x).Some? && Folded(y).Some? then Some(Folded(x).value || Folded(y).value) else None
    case Choose(c, t, f) =>
      if Folded(c).Some? && Folded(t).Some? && Folded(f).Some? then (if Folded(c).value then Folded(t) else Folded(f)) else None
    case _ => None
  }

  // ---- statements ---------------------------------------------------------

  datatype Flow = Flow(st: State, alive: bool, errs: set<Diag>)

  function AOption(cx: Ctx, e: Option<Expr>, st: State): Out {
    match e
    case None => Out(st, {})
    case Some(x) => AExpr(cx, x, st)
  }

  function Weight(st: State): nat { |st.da| + |st.du| }

  lemma JoinShrinks(a: State, b: State)
    ensures Join(a, b) != a ==> Weight(Join(a, b)) < Weight(a)
  {
    Subset(a.da * b.da, a.da);
    Subset(a.du * b.du, a.du);
  }

  lemma Subset(a: set<nat>, b: set<nat>)
    requires a <= b
    ensures |a| <= |b| && (a != b ==> |a| < |b|)
  {
    assert b == a + (b - a);
    assert |b| == |a| + |b - a|;
  }

  /** One pass over a loop body, for statement loops and for loops with a post part. */
  function ABody(cx: Ctx, body: Stmt, post: seq<Expr>, st: State): Out
    decreases body, 1, 0
  {
    var b := AStmt(cx, body, st);
    var p := AExprs(cx, post, b.st);
    Out(p.st, b.errs + p.errs)
  }

  /** The loop entry state: shrunk until the body takes it to itself. */
  function AEntry(cx: Ctx, body: Stmt, post: seq<Expr>, entry: State): Out
    decreases body, 2, Weight(entry)
  {
    var b := ABody(cx, body, post, entry);
    var next := Join(entry, b.st);
    JoinShrinks(entry, b.st);
    if next == entry then Out(entry, b.errs)
    else
      var r := AEntry(cx, body, post, next);
      Out(r.st, b.errs + r.errs)
  }

  function ABlock(cx: Ctx, ss: seq<Stmt>, st: State, alive: bool): Flow
    decreases ss, 0, 0
  {
    if ss == [] then Flow(st, alive, {})
    else if !alive then
      var f := AStmt(cx, ss[0], st);
      var r := ABlock(cx, ss[1..], st, false);
      Flow(r.st, r.alive, {Unreachable(ss[0])} + f.errs + r.errs)
    else
      var f := AStmt(cx, ss[0], st);
      var r := ABlock(cx, ss[1..], f.st, f.alive);
      Flow(r.st, r.alive, f.errs + r.errs)
  }

  /** The init part of a for runs each statement whether or not the one before completes. */
  function AInit(cx: Ctx, ss: seq<Stmt>, st: State): Out
    decreases ss, 0, 0
  {
    if ss == [] then Out(st, {})
    else
      var f := AStmt(cx, ss[0], st);
      var r := AInit(cx, ss[1..], f.st);
      Out(r.st, f.errs + r.errs)
  }

  function ATest(cx: Ctx, test: Option<Expr>, st: State): Branches {
    match test
    case None => Branches(st, st, st, {})
    case Some(x) => ACond(cx, x, st)
  }

  predicate Infinite(test: Option<Expr>) { test.None? || Folded(test.value) == Some(true) }

  function BlanksLeft(cx: Ctx, st: State): set<Diag> { set v | v in cx.blanks && v !in st.da :: BlankAtReturn(v) }

  function AStmt(cx: Ctx, s: Stmt, st: State): Flow
    decreases s, 0, 0
  {
    match s
    case Empty => Flow(st, true, {})
    case Do1(x) => var o := AExpr(cx, x, st); Flow(o.st, true, o.errs)
    case Local(v, None) => Flow(Unset(st, v), true, {})
    case Local(v, Some(x)) => var o := AExpr(cx, x, st); Flow(Set(o.st, v), true, o.errs)
    case Block(ss) => ABlock(cx, ss, st, true)
    case Labeled(body) => var f := AStmt(cx, body, st); Flow(f.st, true, f.errs)
    case If(cond, yes, no) =>
      var c := ACond(cx, cond, st);
      var t := AStmt(cx, yes, c.yes);
      (match no
       case None => Flow(Join(t.st, c.no), true, c.errs + t.errs)
       case Some(els) =>
         var f := AStmt(cx, els, c.no);
         Flow(if t.alive && f.alive then Join(t.st, f.st) else if t.alive then t.st else if f.alive then f.st else c.st,
              t.alive || f.alive, c.errs + t.errs + f.errs))
    case While(cond, body) =>
      var c := ACond(cx, cond, st);
      var e := AEntry(cx, body, [], c.yes);
      var errs := c.errs + e.errs + AStmt(cx, body, e.st).errs;
      if Folded(cond) == Some(true) then Flow(c.st, false, errs) else Flow(Join(c.st, c.no), true, errs)
    case DoWhile(body, cond) =>
      var b := AStmt(cx, body, st);
      var c := ACond(cx, cond, b.st);
      var e := AEntry(cx, body, [], c.st);
      var errs := b.errs + c.errs + e.errs;
      if Folded(cond) == Some(true) then Flow(c.st, false, errs) else Flow(c.no, true, errs)
    case For(first, test, post, body) =>
      var i := AInit(cx, first, st);
      var c := ATest(cx, test, i.st);
      var e := AEntry(cx, body, post, c.yes);
      var errs := i.errs + c.errs + e.errs + AStmt(cx, body, e.st).errs;
      if Infinite(test) then Flow(c.st, false, errs) else Flow(c.no, true, errs)
    case ForEach(v, x, body) =>
      var o := AExpr(cx, x, st);
      var entry := Unset(o.st, v);
      Flow(entry, true, o.errs + AStmt(cx, body, entry).errs)
    case Return(result) =>
      var o := AOption(cx, result, st);
      Flow(o.st, false, o.errs + BlanksLeft(cx, o.st))
    case Throw(x) => var o := AExpr(cx, x, st); Flow(o.st, false, o.errs)
    case Assert(cond, message) =>
      var c := ACond(cx, cond, st);
      Flow(c.st, true, c.errs + AOption(cx, message, c.no).errs)
    case Sync(x, ss) =>
      var o := AExpr(cx, x, st);
      var f := ABlock(cx, ss, o.st, true);
      Flow(f.st, f.alive, o.errs + f.errs)
  }

  /** Every statement after the first that cannot complete is reported, not only the first of them. */
  lemma {:induction false} EveryDeadReported(cx: Ctx, ss: seq<Stmt>, st: State, alive: bool, j: nat, k: nat)
    requires j <= k < |ss| && !ABlock(cx, ss[..j], st, alive).alive
    ensures Unreachable(ss[k]) in ABlock(cx, ss, st, alive).errs
    decreases |ss|
  {
    hide AStmt;
    var f := AStmt(cx, ss[0], st);
    var next := Flow(if alive then f.st else st, if alive then f.alive else false, {});
    if j > 0 {
      assert ss[..j][0] == ss[0] && ss[..j][1..] == ss[1..][..j - 1];
      EveryDeadReported(cx, ss[1..], next.st, next.alive, j - 1, k - 1);
    } else if k > 0 {
      assert ss[1..][..0] == [];
      EveryDeadReported(cx, ss[1..], next.st, next.alive, 0, k - 1);
    }
  }
}
