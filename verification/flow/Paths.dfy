/**
 * Definite assignment told from paths: which runs that may take either way wherever no constant decides leave a local without
 * a value, and which read it then.
 */
module Paths {
  import opened Analysis
  import opened Execution
  import opened Gains
  import opened Completion

  // ---- paths through an expression ----------------------------------------

  /** Some evaluation ends normally without having read or assigned v. */
  predicate Stays(v: nat, e: Expr)
    decreases e, 1
  {
    match e
    case Var(u) => u != v
    case Assign(u, rhs) => u != v && Stays(v, rhs)
    case Update(u, _, rhs) => u != v && Stays(v, rhs)
    case IncDec(u, _) => u != v
    case Paren(x) => Stays(v, x)
    case Unary(_, x) => Stays(v, x)
    case Not(x) => Stays(v, x)
    case Binary(_, x, y) => Stays(v, x) && Stays(v, y)
    case And(x, y) => StaysAs(v, x, false) || (StaysAs(v, x, true) && Stays(v, y))
    case Or(x, y) => StaysAs(v, x, true) || (StaysAs(v, x, false) && Stays(v, y))
    case Choose(c, x, y) => (StaysAs(v, c, true) && Stays(v, x)) || (StaysAs(v, c, false) && Stays(v, y))
    case Store(place, rhs) => StaysAll(v, place) && Stays(v, rhs)
    case Modify(place, _, rhs) => StaysAll(v, place) && Stays(v, rhs)
    case Step(place, _) => StaysAll(v, place)
    case _ => true
  }

  predicate StaysAll(v: nat, es: seq<Expr>)
    decreases es, 0
  {
    es == [] || (Stays(v, es[0]) && StaysAll(v, es[1..]))
  }

  /** And the value is b. */
  predicate StaysAs(v: nat, e: Expr, b: bool)
    decreases e, 2
  {
    match e
    case Const(c) => c == b
    case Paren(x) => StaysAs(v, x, b)
    case Not(x) => StaysAs(v, x, !b)
    case And(x, y) => if b then StaysAs(v, x, true) && StaysAs(v, y, true) else StaysAs(v, x, false) || (StaysAs(v, x, true) && StaysAs(v, y, false))
    case Or(x, y) => if b then StaysAs(v, x, true) || (StaysAs(v, x, false) && StaysAs(v, y, true)) else StaysAs(v, x, false) && StaysAs(v, y, false)
    case Choose(c, x, y) => (StaysAs(v, c, true) && StaysAs(v, x, b)) || (StaysAs(v, c, false) && StaysAs(v, y, b))
    case _ => Stays(v, e)
  }

  /** Some evaluation reads v without a value. */
  predicate Touches(v: nat, e: Expr)
    decreases e, 1
  {
    match e
    case Var(u) => u == v
    case Assign(_, rhs) => Touches(v, rhs)
    case Update(u, _, rhs) => u == v || Touches(v, rhs)
    case IncDec(u, _) => u == v
    case Paren(x) => Touches(v, x)
    case Unary(_, x) => Touches(v, x)
    case Not(x) => Touches(v, x)
    case Binary(_, x, y) => Touches(v, x) || (Stays(v, x) && Touches(v, y))
    case And(x, y) => Touches(v, x) || (StaysAs(v, x, true) && Touches(v, y))
    case Or(x, y) => Touches(v, x) || (StaysAs(v, x, false) && Touches(v, y))
    case Choose(c, x, y) => Touches(v, c) || (StaysAs(v, c, true) && Touches(v, x)) || (StaysAs(v, c, false) && Touches(v, y))
    case Store(place, rhs) => TouchesAll(v, place) || (StaysAll(v, place) && Touches(v, rhs))
    case Modify(place, _, rhs) => TouchesAll(v, place) || (StaysAll(v, place) && Touches(v, rhs))
    case Step(place, _) => TouchesAll(v, place)
    case _ => false
  }

  predicate TouchesAll(v: nat, es: seq<Expr>)
    decreases es, 0
  {
    es != [] && (Touches(v, es[0]) || (Stays(v, es[0]) && TouchesAll(v, es[1..])))
  }

  // ---- where the walk is exact --------------------------------------------

  /** The operand evaluated first leaves v alone: all that the state after a condition goes by. */
  predicate LeadStays(v: nat, e: Expr) {
    match e
    case Paren(x) => LeadStays(v, x)
    case Not(x) => LeadStays(v, x)
    case And(x, _) => LeadStays(v, x)
    case Or(x, _) => LeadStays(v, x)
    case Choose(c, _, _) => LeadStays(v, c)
    case _ => Stays(v, e)
  }

  /** No place mentions v, and a value of && or || whose first operand leaves v alone may leave it alone. */
  predicate Tidy(v: nat, e: Expr)
    decreases e, if ShortCircuit(e) then 1 else 0
  {
    match e
    case Assign(_, rhs) => Tidy(v, rhs)
    case Update(_, _, rhs) => Tidy(v, rhs)
    case Paren(x) => Tidy(v, x)
    case Unary(_, x) => Tidy(v, x)
    case Not(x) => Tidy(v, x)
    case Binary(_, x, y) => Tidy(v, x) && Tidy(v, y)
    case And(_, _) => TidyCond(v, e) && (LeadStays(v, e) ==> Stays(v, e))
    case Or(_, _) => TidyCond(v, e) && (LeadStays(v, e) ==> Stays(v, e))
    case Choose(c, x, y) => TidyCond(v, c) && Tidy(v, x) && Tidy(v, y)
    case Store(place, rhs) => v !in VarsAll(place) && Tidy(v, rhs)
    case Modify(place, _, rhs) => v !in VarsAll(place) && Tidy(v, rhs)
    case Step(place, _) => v !in VarsAll(place)
    case _ => true
  }

  predicate TidyCond(v: nat, e: Expr)
    decreases e, if ShortCircuit(e) then 0 else 1
  {
    match e
    case Paren(x) => TidyCond(v, x)
    case Not(x) => TidyCond(v, x)
    case And(x, y) => TidyCond(v, x) && TidyCond(v, y)
    case Or(x, y) => TidyCond(v, x) && TidyCond(v, y)
    case Choose(c, x, y) => TidyCond(v, c) && TidyCond(v, x) && TidyCond(v, y)
    case _ => Tidy(v, e)
  }

  predicate TidyOption(v: nat, e: Option<Expr>) { e.Some? ==> Tidy(v, e.value) }

  predicate TidyAll(v: nat, es: seq<Expr>) { forall k :: 0 <= k < |es| ==> Tidy(v, es[k]) }

  // ---- expressions --------------------------------------------------------

  /** What the walk says of v after walking e from a state, as the paths have it. */
  predicate Told(v: nat, before: State, after: State, stays: bool) { v !in after.da <==> v !in before.da && stays }

  predicate Reported(v: nat, before: State, errs: set<Diag>, touches: bool) { Uninitialized(v) in errs <==> v !in before.da && touches }

  lemma {:induction false} Unmentioned(v: nat, e: Expr)
    requires v !in Vars(e)
    ensures Stays(v, e) && !Touches(v, e) && Tidy(v, e)
    decreases e, 2
  {
    match e
    case Assign(_, rhs) => Unmentioned(v, rhs);
    case Update(_, _, rhs) => Unmentioned(v, rhs);
    case Paren(x) => Unmentioned(v, x);
    case Unary(_, x) => Unmentioned(v, x);
    case Not(x) => Unmentioned(v, x);
    case Binary(_, x, y) => Unmentioned(v, x); Unmentioned(v, y);
    case And(x, y) => Unmentioned(v, x); Unmentioned(v, y); UnmentionedCond(v, e);
    case Or(x, y) => Unmentioned(v, x); Unmentioned(v, y); UnmentionedCond(v, e);
    case Choose(c, x, y) => UnmentionedCond(v, c); Unmentioned(v, c); Unmentioned(v, x); Unmentioned(v, y);
    case Store(place, rhs) => UnmentionedAll(v, place); Unmentioned(v, rhs);
    case Modify(place, _, rhs) => UnmentionedAll(v, place); Unmentioned(v, rhs);
    case Step(place, _) => UnmentionedAll(v, place);
    case _ =>
  }

  lemma {:induction false} UnmentionedAll(v: nat, es: seq<Expr>)
    requires v !in VarsAll(es)
    ensures StaysAll(v, es) && !TouchesAll(v, es)
    decreases es, 0
  {
    if es != [] { Unmentioned(v, es[0]); UnmentionedAll(v, es[1..]); }
  }

  /** A condition may come out one way at least. */
  lemma {:induction false} UnmentionedCond(v: nat, e: Expr)
    requires v !in Vars(e)
    ensures StaysAs(v, e, true) || StaysAs(v, e, false)
    ensures TidyCond(v, e)
    decreases e, 1
  {
    match e
    case Paren(x) => UnmentionedCond(v, x);
    case Not(x) => UnmentionedCond(v, x);
    case And(x, y) => UnmentionedCond(v, x); UnmentionedCond(v, y);
    case Or(x, y) => UnmentionedCond(v, x); UnmentionedCond(v, y);
    case Choose(c, x, y) => UnmentionedCond(v, c); UnmentionedCond(v, x); UnmentionedCond(v, y);
    case Const(_) =>
    case _ => UnmentionedRest(v, e);
  }

  lemma {:induction false} UnmentionedRest(v: nat, e: Expr)
    requires v !in Vars(e) && !e.Paren? && !e.Not? && !e.And? && !e.Or? && !e.Choose? && !e.Const?
    ensures Stays(v, e) && Tidy(v, e)
    decreases e, 0
  {
    match e
    case Assign(_, rhs) => Unmentioned(v, rhs);
    case Update(_, _, rhs) => Unmentioned(v, rhs);
    case Unary(_, x) => Unmentioned(v, x);
    case Binary(_, x, y) => Unmentioned(v, x); Unmentioned(v, y);
    case Store(place, rhs) => UnmentionedAll(v, place); Unmentioned(v, rhs);
    case Modify(place, _, rhs) => UnmentionedAll(v, place); Unmentioned(v, rhs);
    case Step(place, _) => UnmentionedAll(v, place);
    case _ =>
  }

  /** The walk of an expression says exactly what its paths do. */
  lemma {:induction false} ExprExactly(cx: Ctx, v: nat, e: Expr, st: State)
    requires v in cx.order && Tidy(v, e)
    ensures Told(v, st, AExpr(cx, e, st).st, Stays(v, e)) && Reported(v, st, AExpr(cx, e, st).errs, Touches(v, e))
    decreases e, if ShortCircuit(e) then 1 else 0
  {
    match e
    case Assign(_, rhs) => ExprExactly(cx, v, rhs, st);
    case Update(u, _, rhs) => ExprExactly(cx, v, rhs, Read(u, st).st);
    case Paren(x) => ExprExactly(cx, v, x, st);
    case Unary(_, x) => ExprExactly(cx, v, x, st);
    case Not(x) => ExprExactly(cx, v, x, st);
    case Binary(_, x, y) => ExprExactly(cx, v, x, st); ExprExactly(cx, v, y, AExpr(cx, x, st).st);
    case And(_, _) => CondExactly(cx, v, e, st); StaysLead(v, e);
    case Or(_, _) => CondExactly(cx, v, e, st); StaysLead(v, e);
    case Choose(c, x, y) =>
      CondExactly(cx, v, c, st);
      ExprExactly(cx, v, x, ACond(cx, c, st).yes);
      ExprExactly(cx, v, y, ACond(cx, c, st).no);
    case Store(place, rhs) => ExprExactly(cx, v, rhs, st); PlacesUnmentioned(cx, v, place, AExpr(cx, rhs, st).st);
    case Modify(place, _, rhs) => ExprExactly(cx, v, rhs, st); PlacesUnmentioned(cx, v, place, AExpr(cx, rhs, st).st);
    case Step(place, _) => UnmentionedAll(v, place);
    case _ =>
  }

  lemma {:induction false} PlacesUnmentioned(cx: Ctx, v: nat, es: seq<Expr>, st: State)
    requires v in cx.order && v !in VarsAll(es)
    ensures Told(v, st, AExprs(cx, es, st).st, true) && Reported(v, st, AExprs(cx, es, st).errs, false)
    ensures StaysAll(v, es) && !TouchesAll(v, es)
    decreases es, 0
  {
    UnmentionedAll(v, es);
    if es != [] {
      Unmentioned(v, es[0]);
      ExprExactly(cx, v, es[0], st);
      PlacesUnmentioned(cx, v, es[1..], AExpr(cx, es[0], st).st);
    }
  }

  /** What leaves v alone whatever the value, the leading operand leaves alone too. */
  lemma {:induction false} StaysLead(v: nat, e: Expr)
    ensures Stays(v, e) || StaysAs(v, e, true) || StaysAs(v, e, false) ==> LeadStays(v, e)
    decreases e
  {
    match e
    case Paren(x) => StaysLead(v, x);
    case Not(x) => StaysLead(v, x);
    case And(x, y) => StaysLead(v, x);
    case Or(x, y) => StaysLead(v, x);
    case Choose(c, x, y) => StaysLead(v, c);
    case _ =>
  }

  lemma {:induction false} CondExactly(cx: Ctx, v: nat, e: Expr, st: State)
    requires v in cx.order && TidyCond(v, e)
    ensures var c := ACond(cx, e, st);
            && Told(v, st, c.st, LeadStays(v, e)) && Told(v, st, c.yes, StaysAs(v, e, true)) && Told(v, st, c.no, StaysAs(v, e, false))
            && Reported(v, st, c.errs, Touches(v, e))
    decreases e, if ShortCircuit(e) then 0 else 1
  {
    match e
    case Paren(x) => CondExactly(cx, v, x, st);
    case Not(x) => CondExactly(cx, v, x, st);
    case And(x, y) => CondExactly(cx, v, x, st); CondExactly(cx, v, y, ACond(cx, x, st).yes);
    case Or(x, y) => CondExactly(cx, v, x, st); CondExactly(cx, v, y, ACond(cx, x, st).no);
    case Choose(c, x, y) =>
      CondExactly(cx, v, c, st);
      CondExactly(cx, v, x, ACond(cx, c, st).yes);
      CondExactly(cx, v, y, ACond(cx, c, st).no);
    case Const(_) =>
    case _ => ExprExactly(cx, v, e, st);
  }

  // ---- paths through a statement ------------------------------------------

  /** No declaration of v inside; a new local of the same number would be another. */
  predicate Free(v: nat, s: Stmt)
    decreases s, 0
  {
    match s
    case Local(u, _) => u != v
    case Block(ss) => FreeAll(v, ss)
    case Labeled(body) => Free(v, body)
    case If(_, yes, no) => Free(v, yes) && (no.Some? ==> Free(v, no.value))
    case While(_, body) => Free(v, body)
    case DoWhile(body, _) => Free(v, body)
    case For(first, _, _, body) => FreeAll(v, first) && Free(v, body)
    case ForEach(u, _, body) => u != v && Free(v, body)
    case Sync(_, ss) => FreeAll(v, ss)
    case _ => true
  }

  predicate FreeAll(v: nat, ss: seq<Stmt>)
    decreases ss, 0
  {
    ss == [] || (Free(v, ss[0]) && FreeAll(v, ss[1..]))
  }

  predicate OutAs(v: nat, test: Option<Expr>, b: bool) {
    match test
    case None => b
    case Some(x) => StaysAs(v, x, b)
  }

  /** Some path through the statement, entering each loop at most n times, completes normally and leaves v without a value. */
  ghost predicate Passes(v: nat, s: Stmt, n: nat)
    decreases n, s, 0
  {
    match s
    case Do1(x) => Stays(v, x)
    case Local(_, init) => init.Some? ==> Stays(v, init.value)
    case Block(ss) => PassesAll(v, ss, n)
    case Labeled(body) => Passes(v, body, n)
    case If(c, yes, no) => (StaysAs(v, c, true) && Passes(v, yes, n)) || (StaysAs(v, c, false) && (no.None? || Passes(v, no.value, n)))
    case While(c, body) => Rounds(v, Some(c), [], body, n)
    case DoWhile(body, c) => Passes(v, body, n) && Rounds(v, Some(c), [], body, n)
    case For(first, test, post, body) => PassesAll(v, first, n) && Rounds(v, test, post, body, n)
    case ForEach(_, x, _) => Stays(v, x)
    case Return(_) => false
    case Throw(_) => false
    case Sync(x, ss) => Stays(v, x) && PassesAll(v, ss, n)
    case _ => true
  }

  ghost predicate PassesAll(v: nat, ss: seq<Stmt>, n: nat)
    decreases n, ss, 0
  {
    ss == [] || (Passes(v, ss[0], n) && PassesAll(v, ss[1..], n))
  }

  ghost predicate Rounds(v: nat, test: Option<Expr>, post: seq<Expr>, body: Stmt, n: nat)
    decreases n, body, 1
  {
    OutAs(v, test, false)
    || (n > 0 && OutAs(v, test, true) && Passes(v, body, n - 1) && StaysAll(v, post) && Rounds(v, test, post, body, n - 1))
  }

  /** Some such path reads v while it has no value. */
  ghost predicate Reads(v: nat, s: Stmt, n: nat)
    decreases n, s, 0
  {
    match s
    case Do1(x) => Touches(v, x)
    case Local(_, init) => init.Some? && Touches(v, init.value)
    case Block(ss) => ReadsAll(v, ss, n)
    case Labeled(body) => Reads(v, body, n)
    case If(c, yes, no) =>
      Touches(v, c) || (StaysAs(v, c, true) && Reads(v, yes, n)) || (StaysAs(v, c, false) && no.Some? && Reads(v, no.value, n))
    case While(c, body) => RoundReads(v, Some(c), [], body, n)
    case DoWhile(body, c) => Reads(v, body, n) || (Passes(v, body, n) && RoundReads(v, Some(c), [], body, n))
    case For(first, test, post, body) => ReadsAll(v, first, n) || (PassesAll(v, first, n) && RoundReads(v, test, post, body, n))
    case ForEach(_, x, body) => Touches(v, x) || (Stays(v, x) && Reads(v, body, n))
    case Return(x) => x.Some? && Touches(v, x.value)
    case Throw(x) => Touches(v, x)
    case Assert(c, m) => Touches(v, c) || (StaysAs(v, c, false) && m.Some? && Touches(v, m.value))
    case Sync(x, ss) => Touches(v, x) || (Stays(v, x) && ReadsAll(v, ss, n))
    case Empty => false
  }

  ghost predicate ReadsAll(v: nat, ss: seq<Stmt>, n: nat)
    decreases n, ss, 0
  {
    ss != [] && (Reads(v, ss[0], n) || (Passes(v, ss[0], n) && ReadsAll(v, ss[1..], n)))
  }

  ghost predicate RoundReads(v: nat, test: Option<Expr>, post: seq<Expr>, body: Stmt, n: nat)
    decreases n, body, 1
  {
    || (test.Some? && Touches(v, test.value))
    || (n > 0 && OutAs(v, test, true)
        && (Reads(v, body, n - 1)
            || (Passes(v, body, n - 1) && (TouchesAll(v, post) || (StaysAll(v, post) && RoundReads(v, test, post, body, n - 1))))))
  }

  ghost predicate Pass(v: nat, s: Stmt) { exists n: nat :: Passes(v, s, n) }

  ghost predicate PassAll(v: nat, ss: seq<Stmt>) { exists n: nat :: PassesAll(v, ss, n) }

  ghost predicate Read1(v: nat, s: Stmt) { exists n: nat :: Reads(v, s, n) }

  ghost predicate ReadAll(v: nat, ss: seq<Stmt>) { exists n: nat :: ReadsAll(v, ss, n) }

  // ---- more rounds allow more paths ---------------------------------------

  lemma {:induction false} PassesMore(v: nat, s: Stmt, n: nat, m: nat)
    requires n <= m
    ensures Passes(v, s, n) ==> Passes(v, s, m)
    decreases n, s, 0
  {
    hide Stays, StaysAs;
    match s
    case Block(ss) => PassesAllMore(v, ss, n, m);
    case Labeled(body) => PassesMore(v, body, n, m);
    case If(_, yes, no) =>
      PassesMore(v, yes, n, m);
      if no.Some? { PassesMore(v, no.value, n, m); }
    case While(c, body) => RoundsMore(v, Some(c), [], body, n, m);
    case DoWhile(body, c) =>
      PassesMore(v, body, n, m);
      RoundsMore(v, Some(c), [], body, n, m);
    case For(first, test, post, body) =>
      PassesAllMore(v, first, n, m);
      RoundsMore(v, test, post, body, n, m);
    case Sync(_, ss) => PassesAllMore(v, ss, n, m);
    case _ =>
  }

  lemma {:induction false} PassesAllMore(v: nat, ss: seq<Stmt>, n: nat, m: nat)
    requires n <= m
    ensures PassesAll(v, ss, n) ==> PassesAll(v, ss, m)
    decreases n, ss, 0
  {
    hide Passes;
    if ss != [] {
      PassesMore(v, ss[0], n, m);
      PassesAllMore(v, ss[1..], n, m);
    }
  }

  lemma {:induction false} RoundsMore(v: nat, test: Option<Expr>, post: seq<Expr>, body: Stmt, n: nat, m: nat)
    requires n <= m
    ensures Rounds(v, test, post, body, n) ==> Rounds(v, test, post, body, m)
    decreases n, body, 1
  {
    hide Passes, OutAs, StaysAll;
    if n > 0 {
      PassesMore(v, body, n - 1, m - 1);
      RoundsMore(v, test, post, body, n - 1, m - 1);
    }
  }

  lemma {:induction false} ReadsMore(v: nat, s: Stmt, n: nat, m: nat)
    requires n <= m
    ensures Reads(v, s, n) ==> Reads(v, s, m)
    decreases n, s, 0
  {
    hide Stays, StaysAs, Touches, Passes;
    match s
    case Block(ss) => ReadsAllMore(v, ss, n, m);
    case Labeled(body) => ReadsMore(v, body, n, m);
    case If(_, yes, no) =>
      ReadsMore(v, yes, n, m);
      if no.Some? { ReadsMore(v, no.value, n, m); }
    case While(c, body) => RoundReadsMore(v, Some(c), [], body, n, m);
    case DoWhile(body, c) =>
      ReadsMore(v, body, n, m);
      PassesMore(v, body, n, m);
      RoundReadsMore(v, Some(c), [], body, n, m);
    case For(first, test, post, body) =>
      ReadsAllMore(v, first, n, m);
      PassesAllMore(v, first, n, m);
      RoundReadsMore(v, test, post, body, n, m);
    case ForEach(_, _, body) => ReadsMore(v, body, n, m);
    case Sync(_, ss) => ReadsAllMore(v, ss, n, m);
    case _ =>
  }

  lemma {:induction false} ReadsAllMore(v: nat, ss: seq<Stmt>, n: nat, m: nat)
    requires n <= m
    ensures ReadsAll(v, ss, n) ==> ReadsAll(v, ss, m)
    decreases n, ss, 0
  {
    hide Passes, Reads;
    if ss != [] {
      ReadsMore(v, ss[0], n, m);
      PassesMore(v, ss[0], n, m);
      ReadsAllMore(v, ss[1..], n, m);
    }
  }

  lemma {:induction false} RoundReadsMore(v: nat, test: Option<Expr>, post: seq<Expr>, body: Stmt, n: nat, m: nat)
    requires n <= m
    ensures RoundReads(v, test, post, body, n) ==> RoundReads(v, test, post, body, m)
    decreases n, body, 1
  {
    hide Passes, Reads, OutAs, StaysAll, TouchesAll, Touches;
    if n > 0 {
      ReadsMore(v, body, n - 1, m - 1);
      PassesMore(v, body, n - 1, m - 1);
      RoundReadsMore(v, test, post, body, n - 1, m - 1);
    }
  }

  // ---- paths however many rounds they make --------------------------------

  lemma {:induction false} RoundsOut(v: nat, test: Option<Expr>, post: seq<Expr>, body: Stmt, n: nat)
    requires Rounds(v, test, post, body, n)
    ensures OutAs(v, test, false)
    decreases n
  {
    hide Passes, OutAs, StaysAll;
    if !OutAs(v, test, false) { RoundsOut(v, test, post, body, n - 1); }
  }

  /** A read inside a loop is one that the first round could make. */
  lemma {:induction false} RoundReadsIn(v: nat, test: Option<Expr>, post: seq<Expr>, body: Stmt, n: nat)
    requires RoundReads(v, test, post, body, n)
    ensures LoopReads(v, test, post, body)
    decreases n
  {
    hide Passes, Reads, OutAs, StaysAll, TouchesAll, Touches;
    if !(test.Some? && Touches(v, test.value)) {
      if Reads(v, body, n - 1) {
      } else if !TouchesAll(v, post) {
        RoundReadsIn(v, test, post, body, n - 1);
      }
    }
  }

  ghost predicate LoopReads(v: nat, test: Option<Expr>, post: seq<Expr>, body: Stmt) {
    (test.Some? && Touches(v, test.value)) || (OutAs(v, test, true) && (Read1(v, body) || (Pass(v, body) && TouchesAll(v, post))))
  }

  lemma LoopReadsRound(v: nat, test: Option<Expr>, post: seq<Expr>, body: Stmt) returns (n: nat)
    requires LoopReads(v, test, post, body)
    ensures RoundReads(v, test, post, body, n)
  {
    hide Passes, Reads, OutAs, StaysAll, TouchesAll, Touches;
    if test.Some? && Touches(v, test.value) {
      n := 0;
    } else if m: nat :| Reads(v, body, m) {
      n := m + 1;
    } else {
      var m: nat :| Passes(v, body, m);
      n := m + 1;
    }
  }

  lemma SeqPaths(v: nat, ss: seq<Stmt>)
    requires ss != []
    ensures PassAll(v, ss) <==> Pass(v, ss[0]) && PassAll(v, ss[1..])
    ensures ReadAll(v, ss) <==> Read1(v, ss[0]) || (Pass(v, ss[0]) && ReadAll(v, ss[1..]))
  {
    hide Passes, Reads;
    var rest := ss[1..];
    if n: nat :| PassesAll(v, ss, n) { assert Passes(v, ss[0], n) && PassesAll(v, rest, n); }
    if n: nat :| ReadsAll(v, ss, n) { assert Reads(v, ss[0], n) || (Passes(v, ss[0], n) && ReadsAll(v, rest, n)); }
    if n: nat :| Reads(v, ss[0], n) { assert ReadsAll(v, ss, n); }
    if n: nat :| Passes(v, ss[0], n) {
      if m: nat :| PassesAll(v, rest, m) {
        PassesMore(v, ss[0], n, n + m);
        PassesAllMore(v, rest, m, n + m);
        assert PassesAll(v, ss, n + m);
      }
      if m: nat :| ReadsAll(v, rest, m) {
        PassesMore(v, ss[0], n, n + m);
        ReadsAllMore(v, rest, m, n + m);
        assert ReadsAll(v, ss, n + m);
      }
    }
  }

  lemma NonePaths(v: nat)
    ensures PassAll(v, []) && !ReadAll(v, [])
  {
    assert PassesAll(v, [], 0);
  }

  lemma IfPaths(v: nat, s: Stmt)
    requires s.If?
    ensures Pass(v, s) <==> (StaysAs(v, s.cond, true) && Pass(v, s.yes)) || (StaysAs(v, s.cond, false) && (s.no.None? || Pass(v, s.no.value)))
    ensures Read1(v, s) <==> Touches(v, s.cond) || (StaysAs(v, s.cond, true) && Read1(v, s.yes)) || (StaysAs(v, s.cond, false) && s.no.Some? && Read1(v, s.no.value))
  {
    hide StaysAs, Touches;
    if n: nat :| Passes(v, s, n) {
      assert (StaysAs(v, s.cond, true) && Passes(v, s.yes, n)) || (StaysAs(v, s.cond, false) && (s.no.None? || Passes(v, s.no.value, n)));
    }
    if n: nat :| Reads(v, s, n) {
      assert Touches(v, s.cond) || (StaysAs(v, s.cond, true) && Reads(v, s.yes, n))
             || (StaysAs(v, s.cond, false) && s.no.Some? && Reads(v, s.no.value, n));
    }
    if n: nat :| Passes(v, s.yes, n) { assert StaysAs(v, s.cond, true) ==> Passes(v, s, n); }
    if n: nat :| Reads(v, s.yes, n) { assert StaysAs(v, s.cond, true) ==> Reads(v, s, n); }
    if Touches(v, s.cond) { assert Reads(v, s, 0); }
    if s.no.None? {
      assert StaysAs(v, s.cond, false) ==> Passes(v, s, 0);
    } else {
      if n: nat :| Passes(v, s.no.value, n) { assert StaysAs(v, s.cond, false) ==> Passes(v, s, n); }
      if n: nat :| Reads(v, s.no.value, n) { assert StaysAs(v, s.cond, false) ==> Reads(v, s, n); }
    }
  }

  lemma WhilePaths(v: nat, s: Stmt)
    requires s.While?
    ensures Pass(v, s) <==> StaysAs(v, s.cond, false)
    ensures Read1(v, s) <==> LoopReads(v, Some(s.cond), [], s.body)
  {
    hide StaysAs, LoopReads;
    var t := Some(s.cond);
    if n: nat :| Passes(v, s, n) { RoundsOut(v, t, [], s.body, n); }
    if StaysAs(v, s.cond, false) { assert Passes(v, s, 0); }
    if n: nat :| Reads(v, s, n) { RoundReadsIn(v, t, [], s.body, n); }
    if LoopReads(v, t, [], s.body) {
      var n := LoopReadsRound(v, t, [], s.body);
      assert Reads(v, s, n);
    }
  }

  lemma DoPaths(v: nat, s: Stmt)
    requires s.DoWhile?
    ensures Pass(v, s) <==> Pass(v, s.body) && StaysAs(v, s.cond, false)
    ensures Read1(v, s) <==> Read1(v, s.body) || (Pass(v, s.body) && LoopReads(v, Some(s.cond), [], s.body))
  {
    hide StaysAs, LoopReads;
    var t := Some(s.cond);
    if n: nat :| Passes(v, s, n) { assert Passes(v, s.body, n); RoundsOut(v, t, [], s.body, n); }
    if n: nat :| Passes(v, s.body, n) {
      if StaysAs(v, s.cond, false) { assert Passes(v, s, n); }
      if LoopReads(v, t, [], s.body) {
        var m := LoopReadsRound(v, t, [], s.body);
        PassesMore(v, s.body, n, n + m);
        RoundReadsMore(v, t, [], s.body, m, n + m);
        assert Reads(v, s, n + m);
      }
    }
    if n: nat :| Reads(v, s, n) {
      if !Reads(v, s.body, n) {
        RoundReadsIn(v, t, [], s.body, n);
        assert Passes(v, s.body, n);
      }
    }
    if n: nat :| Reads(v, s.body, n) { assert Reads(v, s, n); }
  }

  lemma ForPaths(v: nat, s: Stmt)
    requires s.For?
    ensures Pass(v, s) <==> PassAll(v, s.first) && OutAs(v, s.test, false)
    ensures Read1(v, s) <==> ReadAll(v, s.first) || (PassAll(v, s.first) && LoopReads(v, s.test, s.post, s.body))
  {
    hide OutAs, LoopReads;
    if n: nat :| Passes(v, s, n) { assert PassesAll(v, s.first, n); RoundsOut(v, s.test, s.post, s.body, n); }
    if n: nat :| PassesAll(v, s.first, n) {
      if OutAs(v, s.test, false) { assert Passes(v, s, n); }
      if LoopReads(v, s.test, s.post, s.body) {
        var m := LoopReadsRound(v, s.test, s.post, s.body);
        PassesAllMore(v, s.first, n, n + m);
        RoundReadsMore(v, s.test, s.post, s.body, m, n + m);
        assert Reads(v, s, n + m);
      }
    }
    if n: nat :| Reads(v, s, n) {
      if !ReadsAll(v, s.first, n) {
        RoundReadsIn(v, s.test, s.post, s.body, n);
        assert PassesAll(v, s.first, n);
      }
    }
    if n: nat :| ReadsAll(v, s.first, n) { assert Reads(v, s, n); }
  }

  lemma BlockPaths(v: nat, s: Stmt, ss: seq<Stmt>)
    requires s == Block(ss)
    ensures Pass(v, s) <==> PassAll(v, ss)
    ensures Read1(v, s) <==> ReadAll(v, ss)
  {
    assert forall n: nat :: (Passes(v, s, n) <==> PassesAll(v, ss, n)) && (Reads(v, s, n) <==> ReadsAll(v, ss, n));
  }

  lemma SyncPaths(v: nat, s: Stmt)
    requires s.Sync?
    ensures Pass(v, s) <==> Stays(v, s.x) && PassAll(v, s.stmts)
    ensures Read1(v, s) <==> Touches(v, s.x) || (Stays(v, s.x) && ReadAll(v, s.stmts))
  {
    hide Stays, Touches;
    forall n: nat
      ensures Passes(v, s, n) <==> Stays(v, s.x) && PassesAll(v, s.stmts, n)
      ensures Reads(v, s, n) <==> Touches(v, s.x) || (Stays(v, s.x) && ReadsAll(v, s.stmts, n))
    {}
    if Touches(v, s.x) { assert Reads(v, s, 0); }
  }

  lemma EachPaths(v: nat, s: Stmt)
    requires s.ForEach?
    ensures Pass(v, s) <==> Stays(v, s.x)
    ensures Read1(v, s) <==> Touches(v, s.x) || (Stays(v, s.x) && Read1(v, s.body))
  {
    hide Stays, Touches;
    if Stays(v, s.x) { assert Passes(v, s, 0); }
    if n: nat :| Reads(v, s, n) { assert Touches(v, s.x) || Reads(v, s.body, n); }
    if n: nat :| Reads(v, s.body, n) { assert Stays(v, s.x) ==> Reads(v, s, n); }
    if Touches(v, s.x) { assert Reads(v, s, 0); }
  }

  lemma LabelPaths(v: nat, s: Stmt)
    requires s.Labeled?
    ensures Pass(v, s) <==> Pass(v, s.body)
    ensures Read1(v, s) <==> Read1(v, s.body)
  {
    assert forall n: nat :: (Passes(v, s, n) <==> Passes(v, s.body, n)) && (Reads(v, s, n) <==> Reads(v, s.body, n));
  }

  // ---- statements ---------------------------------------------------------

  /**
   * Where the walk of a statement is exact: nothing in it is dead, an if without else can complete or else may be false with v
   * left alone, what the first operand of a loop's or an assert's condition leaves alone the condition may leave alone, and
   * expressions are tidy.
   */
  ghost predicate TidyStmt(v: nat, s: Stmt)
    decreases s, 0
  {
    match s
    case Empty => true
    case Do1(x) => Tidy(v, x)
    case Local(_, init) => TidyOption(v, init)
    case Block(ss) => TidyStmts(v, ss)
    case Labeled(body) => TidyStmt(v, body) && Can(body)
    case If(c, yes, no) =>
      && TidyCond(v, c) && TidyStmt(v, yes)
      && if no.Some? then TidyStmt(v, no.value) else Can(yes) || StaysAs(v, c, false)
    case While(c, body) => TidyCond(v, c) && TidyStmt(v, body) && (LeadStays(v, c) ==> StaysAs(v, c, false) || Folded(c) == Some(true))
    case DoWhile(body, c) => TidyStmt(v, body) && Can(body) && TidyCond(v, c)
    case For(first, test, post, body) =>
      && TidyStmts(v, first) && CanAll(first) && (test.Some? ==> TidyCond(v, test.value))
      && TidyAll(v, post) && TidyStmt(v, body) && (post == [] || Can(body))
    case ForEach(_, x, body) => Tidy(v, x) && TidyStmt(v, body)
    case Return(x) => TidyOption(v, x)
    case Throw(x) => Tidy(v, x)
    case Assert(c, m) => TidyCond(v, c) && TidyOption(v, m) && LeadStays(v, c)
    case Sync(x, ss) => Tidy(v, x) && TidyStmts(v, ss)
  }

  ghost predicate TidyStmts(v: nat, ss: seq<Stmt>)
    decreases ss, 0
  {
    ss == [] || (TidyStmt(v, ss[0]) && (ss[1..] != [] ==> Can(ss[0])) && TidyStmts(v, ss[1..]))
  }

  lemma {:induction false} TidyFair(v: nat, s: Stmt)
    requires TidyStmt(v, s)
    ensures Fair(s)
    decreases s, 0
  {
    hide Tidy, TidyCond, StaysAs, LeadStays, Can, CanAll;
    match s
    case Block(ss) => TidyFairAll(v, ss);
    case If(_, yes, no) =>
      TidyFair(v, yes);
      if no.Some? { TidyFair(v, no.value); }
    case Sync(_, ss) => TidyFairAll(v, ss);
    case _ =>
  }

  lemma {:induction false} TidyFairAll(v: nat, ss: seq<Stmt>)
    requires TidyStmts(v, ss)
    ensures FairAll(ss)
    decreases ss, 0
  {
    hide TidyStmt, Fair, Can;
    if ss != [] {
      TidyFair(v, ss[0]);
      TidyFairAll(v, ss[1..]);
    }
  }

  /** v once assigned stays assigned where it is not declared, and is not reported. */
  ghost predicate Kept(v: nat, before: State, f: Flow) { v in before.da ==> v in f.st.da && Uninitialized(v) !in f.errs }

  /** What a walk from a state in which v has no value says of it: whether it may still have none, if anything comes after, and whether it is read. */
  ghost predicate Follows(v: nat, before: State, f: Flow, passes: bool, touched: bool) {
    && Kept(v, before, f)
    && (v !in before.da ==> (f.alive ==> (v !in f.st.da <==> passes)) && (Uninitialized(v) in f.errs <==> touched))
  }

  lemma OptionExactly(cx: Ctx, v: nat, e: Option<Expr>, st: State)
    requires v in cx.order && TidyOption(v, e)
    ensures var o := AOption(cx, e, st);
            && Told(v, st, o.st, e.None? || Stays(v, e.value)) && Reported(v, st, o.errs, e.Some? && Touches(v, e.value))
  {
    hide Tidy, Stays, Touches, AExpr;
    if e.Some? { ExprExactly(cx, v, e.value, st); }
  }

  lemma LoopTestExactly(cx: Ctx, v: nat, test: Option<Expr>, st: State)
    requires v in cx.order && (test.Some? ==> TidyCond(v, test.value))
    ensures var c := ATest(cx, test, st);
            && (test.Some? ==> Told(v, st, c.yes, OutAs(v, test, true)) && Told(v, st, c.no, OutAs(v, test, false)))
            && (test.None? ==> c.yes == st) && (v in st.da ==> v in c.st.da) && Reported(v, st, c.errs, test.Some? && Touches(v, test.value))
  {
    hide TidyCond, StaysAs, Touches, ACond;
    if test.Some? { CondExactly(cx, v, test.value, st); }
  }

  lemma {:induction false} ExprsExactly(cx: Ctx, v: nat, es: seq<Expr>, st: State)
    requires v in cx.order && TidyAll(v, es)
    ensures Told(v, st, AExprs(cx, es, st).st, StaysAll(v, es)) && Reported(v, st, AExprs(cx, es, st).errs, TouchesAll(v, es))
    decreases |es|
  {
    hide Tidy, Stays, Touches, AExpr;
    if es != [] {
      ExprExactly(cx, v, es[0], st);
      ExprsExactly(cx, v, es[1..], AExpr(cx, es[0], st).st);
    }
  }

  /** The walk of a statement says exactly what its paths do. */
  lemma {:induction false} StmtExactly(cx: Ctx, v: nat, s: Stmt, st: State)
    requires v in cx.order && Free(v, s) && TidyStmt(v, s)
    ensures Follows(v, st, AStmt(cx, s, st), Pass(v, s), Read1(v, s))
    decreases s, 1
  {
    hide Tidy, TidyCond, Stays, StaysAs, Touches, AExpr, ACond, AEntry, ABody, AInit, ABlock, LeadStays, LoopReads, Can, CanAll;
    match s
    case Block(ss) =>
      BlockPaths(v, s, ss);
      SeqExactly(cx, v, ss, st);
    case Labeled(body) =>
      LabelPaths(v, s);
      StmtExactly(cx, v, body, st);
      TidyFair(v, body);
      AliveExactly(cx, body, st);
    case If(_, _, _) => IfFollows(cx, v, s, st);
    case While(_, _) => WhileFollows(cx, v, s, st);
    case DoWhile(_, _) => DoFollows(cx, v, s, st);
    case For(_, _, _, _) => ForFollows(cx, v, s, st);
    case ForEach(u, x, body) =>
      EachPaths(v, s);
      ExprExactly(cx, v, x, st);
      StmtExactly(cx, v, body, Unset(AExpr(cx, x, st).st, u));
    case Sync(x, ss) =>
      SyncPaths(v, s);
      ExprExactly(cx, v, x, st);
      SeqExactly(cx, v, ss, AExpr(cx, x, st).st);
    case _ => LeafFollows(cx, v, s, st);
  }

  lemma LeafFollows(cx: Ctx, v: nat, s: Stmt, st: State)
    requires s.Empty? || s.Do1? || s.Local? || s.Return? || s.Throw? || s.Assert?
    requires v in cx.order && Free(v, s) && TidyStmt(v, s)
    ensures Follows(v, st, AStmt(cx, s, st), Pass(v, s), Read1(v, s))
  {
    hide Tidy, TidyCond, Stays, StaysAs, Touches, AExpr, ACond, LeadStays;
    assert Pass(v, s) <==> Passes(v, s, 0);
    assert Read1(v, s) <==> Reads(v, s, 0);
    match s
    case Do1(x) => ExprExactly(cx, v, x, st);
    case Local(_, init) => if init.Some? { ExprExactly(cx, v, init.value, st); }
    case Return(x) => OptionExactly(cx, v, x, st);
    case Throw(x) => ExprExactly(cx, v, x, st);
    case Assert(c, m) =>
      CondExactly(cx, v, c, st);
      OptionExactly(cx, v, m, ACond(cx, c, st).no);
    case Empty =>
  }

  lemma {:induction false} SeqExactly(cx: Ctx, v: nat, ss: seq<Stmt>, st: State)
    requires v in cx.order && FreeAll(v, ss) && TidyStmts(v, ss)
    ensures Follows(v, st, ABlock(cx, ss, st, true), PassAll(v, ss), ReadAll(v, ss))
    decreases ss, 0
  {
    hide AStmt, Free, TidyStmt, Can, Pass, Read1, PassAll, ReadAll, Fair;
    if ss == [] {
      NonePaths(v);
    } else {
      var f := AStmt(cx, ss[0], st);
      SeqPaths(v, ss);
      StmtExactly(cx, v, ss[0], st);
      TidyFair(v, ss[0]);
      AliveExactly(cx, ss[0], st);
      if ss[1..] == [] {
        NonePaths(v);
      } else {
        SeqExactly(cx, v, ss[1..], f.st);
      }
    }
  }

  lemma {:induction false} IfFollows(cx: Ctx, v: nat, s: Stmt, st: State)
    requires s.If? && v in cx.order && Free(v, s) && TidyStmt(v, s)
    ensures Follows(v, st, AStmt(cx, s, st), Pass(v, s), Read1(v, s))
    decreases s, 0
  {
    hide TidyCond, StaysAs, Touches, ACond, LeadStays, Can, Pass, Read1;
    var c := ACond(cx, s.cond, st);
    IfPaths(v, s);
    CondExactly(cx, v, s.cond, st);
    StmtExactly(cx, v, s.yes, c.yes);
    TidyFair(v, s.yes);
    AliveExactly(cx, s.yes, c.yes);
    if s.no.Some? {
      StmtExactly(cx, v, s.no.value, c.no);
      TidyFair(v, s.no.value);
      AliveExactly(cx, s.no.value, c.no);
      PassCan(v, s.no.value);
    }
    PassCan(v, s.yes);
  }

  /** A path that leaves v alone is a path. */
  lemma PassCan(v: nat, s: Stmt)
    ensures Pass(v, s) ==> Can(s)
  {
    hide Passes, Completes;
    if n: nat :| Passes(v, s, n) { PassesComplete(v, s, n); }
  }

  lemma {:induction false} PassesComplete(v: nat, s: Stmt, n: nat)
    requires Passes(v, s, n)
    ensures Completes(s, n)
    decreases n, s, 0
  {
    hide Stays, StaysAs;
    match s
    case Block(ss) => AllComplete(v, ss, n);
    case Labeled(body) => PassesComplete(v, body, n);
    case If(c, yes, no) =>
      if StaysAs(v, c, true) && Passes(v, yes, n) { PassesComplete(v, yes, n); } else if no.Some? { PassesComplete(v, no.value, n); }
    case While(c, body) => RoundsLeave(v, Some(c), [], body, n);
    case DoWhile(body, c) =>
      PassesComplete(v, body, n);
      RoundsLeave(v, Some(c), [], body, n);
    case For(first, test, post, body) =>
      AllComplete(v, first, n);
      RoundsLeave(v, test, post, body, n);
    case Sync(_, ss) => AllComplete(v, ss, n);
    case _ =>
  }

  lemma {:induction false} AllComplete(v: nat, ss: seq<Stmt>, n: nat)
    requires PassesAll(v, ss, n)
    ensures CompletesAll(ss, n)
    decreases n, ss, 0
  {
    hide Passes, Completes;
    if ss != [] {
      PassesComplete(v, ss[0], n);
      AllComplete(v, ss[1..], n);
    }
  }

  lemma {:induction false} RoundsLeave(v: nat, test: Option<Expr>, post: seq<Expr>, body: Stmt, n: nat)
    requires Rounds(v, test, post, body, n)
    ensures Leaves(test, body, n)
    decreases n, body, 1
  {
    hide Passes, Completes, StaysAll;
    OutMay(v, test, true);
    OutMay(v, test, false);
    if !OutAs(v, test, false) {
      PassesComplete(v, body, n - 1);
      RoundsLeave(v, test, post, body, n - 1);
    }
  }

  lemma OutMay(v: nat, test: Option<Expr>, b: bool)
    ensures OutAs(v, test, b) ==> May(test, b)
  {
    if test.Some? { FoldedAs(v, test.value, b); }
  }

  /** A constant condition comes out as its constant. */
  lemma {:induction false} FoldedAs(v: nat, e: Expr, b: bool)
    ensures StaysAs(v, e, b) ==> Folded(e).None? || Folded(e) == Some(b)
    decreases e
  {
    match e
    case Paren(x) => FoldedAs(v, x, b);
    case Not(x) => FoldedAs(v, x, !b);
    case And(x, y) => FoldedAs(v, x, true); FoldedAs(v, x, false); FoldedAs(v, y, b);
    case Or(x, y) => FoldedAs(v, x, true); FoldedAs(v, x, false); FoldedAs(v, y, b);
    case Choose(c, x, y) => FoldedAs(v, c, true); FoldedAs(v, c, false); FoldedAs(v, x, b); FoldedAs(v, y, b);
    case _ =>
  }

  lemma {:induction false} EntryExactly(cx: Ctx, v: nat, body: Stmt, post: seq<Expr>, entry: State)
    requires v in cx.order && Free(v, body) && TidyStmt(v, body) && TidyAll(v, post) && (post == [] || Can(body))
    ensures var e := AEntry(cx, body, post, entry);
            && (v in e.st.da <==> v in entry.da)
            && (Uninitialized(v) in e.errs <==> v !in entry.da && (Read1(v, body) || (Pass(v, body) && TouchesAll(v, post))))
    decreases body, 2, Weight(entry)
  {
    hide AStmt, Free, TidyStmt, Can, Pass, Read1, Fair, Tidy, Stays, Touches, StaysAll, TouchesAll;
    var b := AStmt(cx, body, entry);
    StmtExactly(cx, v, body, entry);
    TidyFair(v, body);
    AliveExactly(cx, body, entry);
    ExprsExactly(cx, v, post, b.st);
    NoExprs(cx, v, b.st);
    var o := ABody(cx, body, post, entry);
    var next := Join(entry, o.st);
    JoinShrinks(entry, o.st);
    if next != entry { EntryExactly(cx, v, body, post, next); }
  }

  lemma NoExprs(cx: Ctx, v: nat, st: State)
    ensures AExprs(cx, [], st) == Out(st, {}) && StaysAll(v, []) && !TouchesAll(v, [])
  {
  }

  lemma {:induction false} WhileFollows(cx: Ctx, v: nat, s: Stmt, st: State)
    requires s.While? && v in cx.order && Free(v, s) && TidyStmt(v, s)
    ensures Follows(v, st, AStmt(cx, s, st), Pass(v, s), Read1(v, s))
    decreases s, 0
  {
    hide TidyCond, StaysAs, Touches, ACond, AEntry, LeadStays, Can, Pass, Read1, TouchesAll;
    var c := ACond(cx, s.cond, st);
    WhilePaths(v, s);
    CondExactly(cx, v, s.cond, st);
    EntryExactly(cx, v, s.body, [], c.yes);
    NoExprs(cx, v, st);
    StmtExactly(cx, v, s.body, AEntry(cx, s.body, [], c.yes).st);
  }

  lemma {:induction false} DoFollows(cx: Ctx, v: nat, s: Stmt, st: State)
    requires s.DoWhile? && v in cx.order && Free(v, s) && TidyStmt(v, s)
    ensures Follows(v, st, AStmt(cx, s, st), Pass(v, s), Read1(v, s))
    decreases s, 0
  {
    hide TidyCond, StaysAs, Touches, ACond, AEntry, LeadStays, Can, Pass, Read1, TouchesAll;
    var b := AStmt(cx, s.body, st);
    var c := ACond(cx, s.cond, b.st);
    DoPaths(v, s);
    StmtExactly(cx, v, s.body, st);
    TidyFair(v, s.body);
    AliveExactly(cx, s.body, st);
    CondExactly(cx, v, s.cond, b.st);
    EntryExactly(cx, v, s.body, [], c.st);
    NoExprs(cx, v, st);
  }

  lemma {:induction false} InitExactly(cx: Ctx, v: nat, ss: seq<Stmt>, st: State)
    requires v in cx.order && FreeAll(v, ss) && TidyStmts(v, ss) && CanAll(ss)
    ensures var i := AInit(cx, ss, st); Follows(v, st, Flow(i.st, true, i.errs), PassAll(v, ss), ReadAll(v, ss))
    decreases ss, 0
  {
    hide AStmt, Free, TidyStmt, Can, CanAll, Pass, Read1, PassAll, ReadAll, Fair;
    if ss == [] {
      NonePaths(v);
    } else {
      SeqPaths(v, ss);
      CanParts(ss);
      StmtExactly(cx, v, ss[0], st);
      TidyFair(v, ss[0]);
      AliveExactly(cx, ss[0], st);
      InitExactly(cx, v, ss[1..], AStmt(cx, ss[0], st).st);
    }
  }

  lemma {:induction false} ForFollows(cx: Ctx, v: nat, s: Stmt, st: State)
    requires s.For? && v in cx.order && Free(v, s) && TidyStmt(v, s)
    ensures Follows(v, st, AStmt(cx, s, st), Pass(v, s), Read1(v, s))
    decreases s, 0
  {
    hide TidyCond, OutAs, Touches, ATest, AEntry, AInit, LeadStays, Can, CanAll, Pass, Read1, PassAll, ReadAll, TouchesAll, TidyAll;
    var i := AInit(cx, s.first, st);
    var c := ATest(cx, s.test, i.st);
    ForPaths(v, s);
    InitExactly(cx, v, s.first, st);
    LoopTestExactly(cx, v, s.test, i.st);
    assert s.test.None? ==> OutAs(v, s.test, true) by { NoTest(v, s.test); }
    EntryExactly(cx, v, s.body, s.post, c.yes);
    StmtExactly(cx, v, s.body, AEntry(cx, s.body, s.post, c.yes).st);
  }

  lemma NoTest(v: nat, test: Option<Expr>)
    ensures test.None? ==> OutAs(v, test, true)
  {
  }

  /**
   * A local declared without a value: a read of it in the rest of its block is reported if and only if some path to the read
   * has not assigned it, and after the rest it counts as assigned if and only if no path leaves it without a value.
   */
  lemma DeclaredExactly(cx: Ctx, v: nat, rest: seq<Stmt>, st: State)
    requires v in cx.order && FreeAll(v, rest) && TidyStmts(v, rest)
    ensures var f := ABlock(cx, [Local(v, None)] + rest, st, true);
            (Uninitialized(v) in f.errs <==> ReadAll(v, rest)) && (f.alive ==> (v in f.st.da <==> !PassAll(v, rest)))
  {
    hide TidyStmts, FreeAll;
    var ss := [Local(v, None)] + rest;
    assert ss[0] == Local(v, None) && ss[1..] == rest;
    SeqExactly(cx, v, rest, Unset(st, v));
  }

  // ---- every run of the language takes one of the paths -------------------

  /** How an evaluation from w bears on v: a value it has is never lost, and one it does not have is a matter of the paths. */
  ghost predicate Runs<T, E>(v: nat, w: World<E>, o: Res<T, E>, stays: bool, touches: bool) {
    if v in w.mem then o != Unassigned(v) && (o.Val? ==> v in o.w.mem)
    else (o.Val? && v !in o.w.mem ==> stays) && (o == Unassigned(v) ==> touches)
  }

  lemma {:induction false} EvalPaths<E>(env: Env<E>, v: nat, e: Expr, w: World<E>)
    ensures var o := Eval(env, e, w);
            Runs(v, w, o, Stays(v, e) && (o.Val? ==> StaysAs(v, e, o.x != 0)), Touches(v, e))
    decreases e, 1
  {
    match e
    case Assign(_, rhs) => EvalPaths(env, v, rhs, w);
    case Update(_, _, rhs) => EvalPaths(env, v, rhs, w);
    case Paren(x) => EvalPaths(env, v, x, w);
    case Unary(_, x) => EvalPaths(env, v, x, w);
    case Not(x) => EvalPaths(env, v, x, w);
    case Binary(_, x, y) =>
      EvalPaths(env, v, x, w);
      if Eval(env, x, w).Val? { EvalPaths(env, v, y, Eval(env, x, w).w); }
    case And(_, _) => LogicPaths(env, v, e, w);
    case Or(_, _) => LogicPaths(env, v, e, w);
    case Choose(_, _, _) => LogicPaths(env, v, e, w);
    case Store(_, _) => PlacePaths(env, v, e, w);
    case Modify(_, _, _) => PlacePaths(env, v, e, w);
    case Step(_, _) => PlacePaths(env, v, e, w);
    case _ =>
  }

  lemma {:induction false} LogicPaths<E>(env: Env<E>, v: nat, e: Expr, w: World<E>)
    requires e.And? || e.Or? || e.Choose?
    ensures var o := Eval(env, e, w);
            Runs(v, w, o, Stays(v, e) && (o.Val? ==> StaysAs(v, e, o.x != 0)), Touches(v, e))
    decreases e, 0
  {
    match e
    case And(x, y) =>
      EvalPaths(env, v, x, w);
      if Eval(env, x, w).Val? { EvalPaths(env, v, y, Eval(env, x, w).w); }
    case Or(x, y) =>
      EvalPaths(env, v, x, w);
      if Eval(env, x, w).Val? { EvalPaths(env, v, y, Eval(env, x, w).w); }
    case Choose(c, x, y) =>
      EvalPaths(env, v, c, w);
      var o := Eval(env, c, w);
      if o.Val? { EvalPaths(env, v, if o.x != 0 then x else y, o.w); }
  }

  lemma {:induction false} PlacePaths<E>(env: Env<E>, v: nat, e: Expr, w: World<E>)
    requires e.Store? || e.Modify? || e.Step?
    ensures var o := Eval(env, e, w);
            Runs(v, w, o, Stays(v, e) && (o.Val? ==> StaysAs(v, e, o.x != 0)), Touches(v, e))
    decreases e, 0
  {
    match e
    case Store(place, rhs) =>
      EvalAllPaths(env, v, place, w);
      if EvalAll(env, place, w).Val? { EvalPaths(env, v, rhs, EvalAll(env, place, w).w); }
    case Modify(place, _, rhs) =>
      EvalAllPaths(env, v, place, w);
      var o := EvalAll(env, place, w);
      if o.Val? && Fetched(env, o.x, o.w).Val? { EvalPaths(env, v, rhs, Fetched(env, o.x, o.w).w); }
    case Step(place, _) => EvalAllPaths(env, v, place, w);
  }

  lemma {:induction false} EvalAllPaths<E>(env: Env<E>, v: nat, es: seq<Expr>, w: World<E>)
    ensures Runs(v, w, EvalAll(env, es, w), StaysAll(v, es), TouchesAll(v, es))
    decreases es, 0
  {
    hide Eval, Stays, StaysAs, Touches;
    if es != [] {
      EvalPaths(env, v, es[0], w);
      var o := Eval(env, es[0], w);
      if o.Val? { EvalAllPaths(env, v, es[1..], o.w); }
    }
  }

  ghost predicate Ends<E>(v: nat, w: World<E>, d: Done<E>, passes: bool, touched: bool) {
    if v in w.mem then d != BadRead(v) && (d.Normal? ==> v in d.w.mem)
    else (d.Normal? && v !in d.w.mem ==> passes) && (d == BadRead(v) ==> touched)
  }

  /** A run that reads v without a value, or ends with none, takes one of the paths, with as many rounds. */
  lemma {:induction false} RunTakesPath<E>(env: Env<E>, v: nat, s: Stmt, w: World<E>, fuel: nat)
    requires Free(v, s)
    ensures Ends(v, w, Exec(env, s, w, fuel), Passes(v, s, fuel), Reads(v, s, fuel))
    decreases fuel, s, 2
  {
    hide Eval, Stays, StaysAs, Touches, Loop, Each, ExecAll;
    match s
    case Do1(x) => EvalPaths(env, v, x, w);
    case Local(_, init) => if init.Some? { EvalPaths(env, v, init.value, w); }
    case Block(ss) => RunsTakePaths(env, v, ss, w, fuel);
    case Labeled(body) => RunTakesPath(env, v, body, w, fuel);
    case If(c, yes, no) =>
      EvalPaths(env, v, c, w);
      var o := Eval(env, c, w);
      if o.Val? {
        if o.x != 0 { RunTakesPath(env, v, yes, o.w, fuel); } else if no.Some? { RunTakesPath(env, v, no.value, o.w, fuel); }
      }
    case While(c, body) => LoopTakesPath(env, v, Some(c), [], body, w, fuel);
    case DoWhile(body, c) =>
      RunTakesPath(env, v, body, w, fuel);
      var d := Exec(env, body, w, fuel);
      if d.Normal? { LoopTakesPath(env, v, Some(c), [], body, d.w, fuel); }
    case For(first, test, post, body) =>
      RunsTakePaths(env, v, first, w, fuel);
      var d := ExecAll(env, first, w, fuel);
      if d.Normal? { LoopTakesPath(env, v, test, post, body, d.w, fuel); }
    case ForEach(u, x, body) =>
      EvalPaths(env, v, x, w);
      var o := Eval(env, x, w);
      if o.Val? { EachTakesPath(env, v, u, env.items(o.x, o.w.ext), body, o.w, fuel); }
    case Return(x) => if x.Some? { EvalPaths(env, v, x.value, w); }
    case Throw(x) => EvalPaths(env, v, x, w);
    case Assert(c, m) => AssertTakesPath(env, v, s, w, fuel);
    case Sync(x, ss) =>
      EvalPaths(env, v, x, w);
      var o := Eval(env, x, w);
      if o.Val? { RunsTakePaths(env, v, ss, o.w, fuel); }
    case Empty =>
  }

  lemma AssertTakesPath<E>(env: Env<E>, v: nat, s: Stmt, w: World<E>, fuel: nat)
    requires s.Assert?
    ensures Ends(v, w, Exec(env, s, w, fuel), Passes(v, s, fuel), Reads(v, s, fuel))
  {
    hide Eval, Stays, StaysAs, Touches;
    EvalPaths(env, v, s.cond, w);
    var o := Eval(env, s.cond, w);
    if o.Val? && s.message.Some? { EvalPaths(env, v, s.message.value, o.w); }
  }

  lemma {:induction false} RunsTakePaths<E>(env: Env<E>, v: nat, ss: seq<Stmt>, w: World<E>, fuel: nat)
    requires FreeAll(v, ss)
    ensures Ends(v, w, ExecAll(env, ss, w, fuel), PassesAll(v, ss, fuel), ReadsAll(v, ss, fuel))
    decreases fuel, ss, 0
  {
    hide Exec, Passes, Reads, Free;
    if ss != [] {
      RunTakesPath(env, v, ss[0], w, fuel);
      var d := Exec(env, ss[0], w, fuel);
      if d.Normal? { RunsTakePaths(env, v, ss[1..], d.w, fuel); }
    }
  }

  lemma {:induction false} LoopTakesPath<E>(env: Env<E>, v: nat, test: Option<Expr>, post: seq<Expr>, body: Stmt, w: World<E>, fuel: nat)
    requires Free(v, body)
    ensures Ends(v, w, Loop(env, test, post, body, w, fuel), Rounds(v, test, post, body, fuel), RoundReads(v, test, post, body, fuel))
    decreases fuel, body, 1
  {
    hide Eval, EvalAll, Exec, Passes, Reads, Stays, StaysAs, Touches, StaysAll, TouchesAll, Free;
    if fuel > 0 {
      if test.Some? { EvalPaths(env, v, test.value, w); }
      var t := EvalTest(env, test, w);
      if t.Val? && t.x != 0 {
        RunTakesPath(env, v, body, t.w, fuel - 1);
        var d := Exec(env, body, t.w, fuel - 1);
        if d.Normal? {
          EvalAllPaths(env, v, post, d.w);
          var p := EvalAll(env, post, d.w);
          if p.Val? { LoopTakesPath(env, v, test, post, body, p.w, fuel - 1); }
        }
      }
    }
  }

  lemma {:induction false} EachTakesPath<E>(env: Env<E>, v: nat, u: nat, items: seq<int>, body: Stmt, w: World<E>, fuel: nat)
    requires Free(v, body) && u != v
    ensures Ends(v, w, Each(env, u, items, body, w, fuel), true, Reads(v, body, fuel))
    decreases fuel, body, 1
  {
    hide Exec, Passes, Reads, Free;
    if items != [] && fuel > 0 {
      var w1 := Put(w, u, items[0]);
      RunTakesPath(env, v, body, w1, fuel - 1);
      ReadsMore(v, body, fuel - 1, fuel);
      var d := Exec(env, body, w1, fuel - 1);
      if d.Normal? { EachTakesPath(env, v, u, items[1..], body, d.w, fuel - 1); }
    }
  }

  // ---- where the walk rejects what it need not ----------------------------

  /** The statement, then a read of v. */
  function Behind(v: nat, s: Stmt): seq<Stmt> { [s, Do1(Var(v))] }

  lemma ReportedBehind(cx: Ctx, v: nat, s: Stmt, st: State)
    requires var f := AStmt(cx, s, Unset(st, v)); f.alive && v !in f.st.da
    ensures Uninitialized(v) in ABlock(cx, [Local(v, None)] + Behind(v, s), st, true).errs
  {
    hide AStmt;
    var u := Unset(st, v);
    var ss := [Local(v, None)] + Behind(v, s);
    assert ss[0] == Local(v, None) && ss[1..] == Behind(v, s) && Behind(v, s)[1..] == [Do1(Var(v))] && [Do1(Var(v))][1..] == [];
    assert AStmt(cx, Local(v, None), st) == Flow(u, true, {}) by { DeclaresNone(cx, v, st); }
    var f := AStmt(cx, s, u);
    assert Uninitialized(v) in AStmt(cx, Do1(Var(v)), f.st).errs by { ReadsNone(cx, v, f.st); }
    assert Uninitialized(v) in ABlock(cx, [Do1(Var(v))], f.st, true).errs;
    assert Uninitialized(v) in ABlock(cx, Behind(v, s), u, true).errs;
  }

  lemma DeclaresNone(cx: Ctx, v: nat, st: State)
    ensures AStmt(cx, Local(v, None), st) == Flow(Unset(st, v), true, {})
  {
  }

  lemma ReadsNone(cx: Ctx, v: nat, st: State)
    requires v !in st.da
    ensures Uninitialized(v) in AStmt(cx, Do1(Var(v)), st).errs
  {
  }

  lemma NotReadBehind(v: nat, s: Stmt)
    requires !Read1(v, s) && !Pass(v, s)
    ensures !ReadAll(v, Behind(v, s))
  {
    hide Read1, Pass, ReadAll;
    SeqPaths(v, Behind(v, s));
    assert Behind(v, s)[0] == s;
  }

  lemma Atoms(v: nat)
    ensures var p, a := Opaque(0), Assign(v, Opaque(1));
            && Stays(v, p) && !Touches(v, p) && Tidy(v, p) && TidyCond(v, p) && LeadStays(v, p) && StaysAs(v, p, true) && StaysAs(v, p, false)
            && !Stays(v, a) && !Touches(v, a) && Tidy(v, a) && TidyCond(v, a) && !LeadStays(v, a) && !StaysAs(v, a, true) && !StaysAs(v, a, false)
  {
    var r := Opaque(1);
    assert Stays(v, r) && !Touches(v, r) && Tidy(v, r);
  }

  /** while (p || (v = e) != 0); leaves v assigned on every path, and a read behind it is reported. */
  lemma WhileOverreported(cx: Ctx, v: nat, st: State)
    requires v in cx.order
    ensures var s := While(Or(Opaque(0), Assign(v, Opaque(1))), Empty);
            Uninitialized(v) in ABlock(cx, [Local(v, None)] + Behind(v, s), st, true).errs && !ReadAll(v, Behind(v, s))
  {
    var c := Or(Opaque(0), Assign(v, Opaque(1)));
    var s := While(c, Empty);
    Atoms(v);
    assert TidyCond(v, c) && LeadStays(v, c) && !StaysAs(v, c, false) && !Touches(v, c);
    assert Folded(Opaque(0)).None? && Folded(c).None?;
    CondExactly(cx, v, c, Unset(st, v));
    ReportedBehind(cx, v, s, st);
    WhilePaths(v, s);
    assert !Read1(v, Empty);
    NotReadBehind(v, s);
  }

  /** if (!(p && (v = e) != 0)) return; likewise. */
  lemma IfOverreported(cx: Ctx, v: nat, st: State)
    requires v in cx.order
    ensures var s := If(Not(And(Opaque(0), Assign(v, Opaque(1)))), Return(None), None);
            Uninitialized(v) in ABlock(cx, [Local(v, None)] + Behind(v, s), st, true).errs && !ReadAll(v, Behind(v, s))
  {
    var b := And(Opaque(0), Assign(v, Opaque(1)));
    var c := Not(b);
    var s := If(c, Return(None), None);
    Atoms(v);
    assert TidyCond(v, b) && StaysAs(v, b, false) && !StaysAs(v, b, true) && !Touches(v, b);
    assert TidyCond(v, c) && StaysAs(v, c, true) && !StaysAs(v, c, false) && !Touches(v, c);
    CondExactly(cx, v, c, Unset(st, v));
    ReportedBehind(cx, v, s, st);
    IfPaths(v, s);
    assert !Pass(v, Return(None)) && !Read1(v, Return(None));
    NotReadBehind(v, s);
  }

  /** (p ? v = e : (v = e)) && q likewise. */
  lemma ValueOverreported(cx: Ctx, v: nat, st: State)
    requires v in cx.order
    ensures var s := Do1(And(Choose(Opaque(0), Assign(v, Opaque(1)), Assign(v, Opaque(1))), Opaque(0)));
            Uninitialized(v) in ABlock(cx, [Local(v, None)] + Behind(v, s), st, true).errs && !ReadAll(v, Behind(v, s))
  {
    var x := Choose(Opaque(0), Assign(v, Opaque(1)), Assign(v, Opaque(1)));
    var e := And(x, Opaque(0));
    var s := Do1(e);
    Atoms(v);
    assert TidyCond(v, x) && LeadStays(v, x) && !StaysAs(v, x, true) && !StaysAs(v, x, false) && !Touches(v, x);
    assert TidyCond(v, e) && LeadStays(v, e) && !Stays(v, e) && !Touches(v, e);
    CondExactly(cx, v, e, Unset(st, v));
    ReportedBehind(cx, v, s, st);
    assert !Pass(v, s) && !Read1(v, s);
    NotReadBehind(v, s);
  }

  /** In a[v = e] = v the place is evaluated first, and the right side is walked first and reported. */
  lemma PlaceOverreported(cx: Ctx, v: nat, st: State)
    requires v in cx.order
    ensures var e := Store([Opaque(0), Assign(v, Opaque(1))], Var(v));
            Uninitialized(v) in AExpr(cx, e, Unset(st, v)).errs && !Touches(v, e)
  {
    var place := [Opaque(0), Assign(v, Opaque(1))];
    Atoms(v);
    assert place[1..] == [Assign(v, Opaque(1))] && place[1..][1..] == [];
    assert !StaysAll(v, place[1..]) && !TouchesAll(v, place[1..]);
  }
}
