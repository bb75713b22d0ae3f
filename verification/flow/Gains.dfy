/** What walking an expression adds to the assigned locals, told from the expression alone. */
module Gains {
  import opened Analysis

  function Vars(e: Expr): set<nat> {
    match e
    case Opaque(_) => {}
    case Const(_) => {}
    case Var(v) => {v}
    case Assign(v, rhs) => {v} + Vars(rhs)
    case Update(v, _, rhs) => {v} + Vars(rhs)
    case IncDec(v, _) => {v}
    case Paren(x) => Vars(x)
    case Unary(_, x) => Vars(x)
    case Not(x) => Vars(x)
    case Binary(_, x, y) => Vars(x) + Vars(y)
    case And(x, y) => Vars(x) + Vars(y)
    case Or(x, y) => Vars(x) + Vars(y)
    case Choose(c, t, f) => Vars(c) + Vars(t) + Vars(f)
    case Store(place, rhs) => VarsAll(place) + Vars(rhs)
    case Modify(place, _, rhs) => VarsAll(place) + Vars(rhs)
    case Step(place, _) => VarsAll(place)
  }

  function VarsAll(es: seq<Expr>): set<nat> { if es == [] then {} else Vars(es[0]) + VarsAll(es[1..]) }

  lemma {:induction false} VarsParts(es: seq<Expr>)
    ensures forall k :: 0 <= k < |es| ==> Vars(es[k]) <= VarsAll(es)
    decreases |es|
  {
    hide Vars;
    if es != [] {
      VarsParts(es[1..]);
      forall k | 0 < k < |es|
        ensures Vars(es[k]) <= VarsAll(es)
      {
        assert es[k] == es[1..][k - 1];
      }
    }
  }

  function VarsOption(e: Option<Expr>): set<nat> { match e case None => {} case Some(x) => Vars(x) }

  /** Assigned by the operand evaluated first, when the condition is true, and when it is false. */
  datatype Gained = Gained(lead: set<nat>, yes: set<nat>, no: set<nat>)

  /** The locals an expression assigns on every path, as far as the walk follows it. */
  function Gains(cx: Ctx, e: Expr): set<nat>
    decreases e, if ShortCircuit(e) then 1 else 0
  {
    match e
    case Opaque(_) => {}
    case Const(_) => {}
    case Var(_) => {}
    case Assign(v, rhs) => {v} + Gains(cx, rhs)
    case Update(v, _, rhs) => {v} + Gains(cx, rhs)
    case IncDec(v, _) => {v}
    case Paren(x) => Gains(cx, x)
    case Unary(_, x) => Gains(cx, x)
    case Not(x) => Gains(cx, x)
    case Binary(_, x, y) => Gains(cx, x) + Gains(cx, y)
    case And(_, _) => CondGains(cx, e).lead
    case Or(_, _) => CondGains(cx, e).lead
    case Choose(c, t, f) => var g := CondGains(cx, c); (g.yes + Gains(cx, t)) * (g.no + Gains(cx, f))
    case Store(place, rhs) => Gains(cx, rhs) + GainsAll(cx, place)
    case Modify(place, _, rhs) => Gains(cx, rhs) + GainsAll(cx, place)
    case Step(_, _) => {}
  }

  function GainsAll(cx: Ctx, es: seq<Expr>): set<nat>
    decreases es, 0
  {
    if es == [] then {} else Gains(cx, es[0]) + GainsAll(cx, es[1..])
  }

  function CondGains(cx: Ctx, e: Expr): Gained
    decreases e, if ShortCircuit(e) then 0 else 1
  {
    match e
    case Paren(x) => CondGains(cx, x)
    case Not(x) => var g := CondGains(cx, x); Gained(g.lead, g.no, g.yes)
    case And(x, y) => var l, r := CondGains(cx, x), CondGains(cx, y); Gained(l.lead, l.yes + r.yes, l.no * (l.yes + r.no))
    case Or(x, y) => var l, r := CondGains(cx, x), CondGains(cx, y); Gained(l.lead, l.yes * (l.no + r.yes), l.no + r.no)
    case Choose(c, t, f) =>
      var g, y, n := CondGains(cx, c), CondGains(cx, t), CondGains(cx, f);
      Gained(g.lead, (g.yes + y.yes) * (g.no + n.yes), (g.yes + y.no) * (g.no + n.no))
    case _ =>
      var g := Gains(cx, e);
      Gained(g, if e == Const(false) then g + cx.order else g, if e == Const(true) then g + cx.order else g)
  }

  // ---- the walk adds exactly that -----------------------------------------

  predicate Clean(errs: set<Diag>) { forall d :: d in errs ==> !d.Uninitialized? }

  lemma ReadClean(v: nat, st: State)
    ensures Clean(Read(v, st).errs) <==> v in st.da
  {
    assert v in st.da || Uninitialized(v) in Read(v, st).errs;
  }

  /** A walk that reports no read adds what the expression gains, whatever was assigned before. */
  lemma {:induction false} ExprGains(cx: Ctx, e: Expr, st: State)
    requires Clean(AExpr(cx, e, st).errs)
    ensures AExpr(cx, e, st).st.da == st.da + Gains(cx, e)
    decreases e, if ShortCircuit(e) then 1 else 0
  {
    match e
    case Opaque(_) =>
    case Const(_) =>
    case Var(v) => ReadClean(v, st);
    case IncDec(v, _) => ReadClean(v, st);
    case Assign(_, rhs) => ExprGains(cx, rhs, st);
    case Update(v, _, rhs) => ReadClean(v, st); ExprGains(cx, rhs, st);
    case Paren(x) => ExprGains(cx, x, st);
    case Unary(_, x) => ExprGains(cx, x, st);
    case Not(x) => ExprGains(cx, x, st);
    case Binary(_, x, y) => ExprGains(cx, x, st); ExprGains(cx, y, AExpr(cx, x, st).st);
    case And(_, _) => CondGained(cx, e, st);
    case Or(_, _) => CondGained(cx, e, st);
    case Choose(c, t, f) =>
      CondGained(cx, c, st);
      ExprGains(cx, t, ACond(cx, c, st).yes);
      ExprGains(cx, f, ACond(cx, c, st).no);
    case Store(place, rhs) => ExprGains(cx, rhs, st); AllGains(cx, place, AExpr(cx, rhs, st).st);
    case Modify(place, _, rhs) => ExprGains(cx, rhs, st); AllGains(cx, place, AExpr(cx, rhs, st).st);
    case Step(_, _) =>
  }

  lemma {:induction false} AllGains(cx: Ctx, es: seq<Expr>, st: State)
    requires Clean(AExprs(cx, es, st).errs)
    ensures AExprs(cx, es, st).st.da == st.da + GainsAll(cx, es)
    decreases es, 0
  {
    if es != [] {
      ExprGains(cx, es[0], st);
      AllGains(cx, es[1..], AExpr(cx, es[0], st).st);
    }
  }

  lemma {:induction false} CondGained(cx: Ctx, e: Expr, st: State)
    requires Clean(ACond(cx, e, st).errs)
    ensures var c, g := ACond(cx, e, st), CondGains(cx, e);
            c.st.da == st.da + g.lead && c.yes.da == st.da + g.yes && c.no.da == st.da + g.no
    decreases e, if ShortCircuit(e) then 0 else 1
  {
    match e
    case Paren(x) => CondGained(cx, x, st);
    case Not(x) => CondGained(cx, x, st);
    case And(x, y) => CondGained(cx, x, st); CondGained(cx, y, ACond(cx, x, st).yes);
    case Or(x, y) => CondGained(cx, x, st); CondGained(cx, y, ACond(cx, x, st).no);
    case Choose(c, t, f) =>
      CondGained(cx, c, st);
      CondGained(cx, t, ACond(cx, c, st).yes);
      CondGained(cx, f, ACond(cx, c, st).no);
    case _ => ExprGains(cx, e, st);
  }

  /** With more assigned beforehand a clean walk stays clean. */
  lemma {:induction false} ExprCleaner(cx: Ctx, e: Expr, st: State, more: State)
    requires Clean(AExpr(cx, e, st).errs) && st.da <= more.da
    ensures Clean(AExpr(cx, e, more).errs)
    decreases e, if ShortCircuit(e) then 1 else 0
  {
    match e
    case Opaque(_) =>
    case Const(_) =>
    case Var(v) => ReadClean(v, st);
    case IncDec(v, _) => ReadClean(v, st);
    case Assign(_, rhs) => ExprCleaner(cx, rhs, st, more);
    case Update(v, _, rhs) => ReadClean(v, st); ExprCleaner(cx, rhs, st, more);
    case Paren(x) => ExprCleaner(cx, x, st, more);
    case Unary(_, x) => ExprCleaner(cx, x, st, more);
    case Not(x) => ExprCleaner(cx, x, st, more);
    case Binary(_, x, y) =>
      ExprCleaner(cx, x, st, more);
      ExprGains(cx, x, st);
      ExprGains(cx, x, more);
      ExprCleaner(cx, y, AExpr(cx, x, st).st, AExpr(cx, x, more).st);
    case And(_, _) => CondCleaner(cx, e, st, more);
    case Or(_, _) => CondCleaner(cx, e, st, more);
    case Choose(c, t, f) =>
      CondCleaner(cx, c, st, more);
      CondGained(cx, c, st);
      CondGained(cx, c, more);
      ExprCleaner(cx, t, ACond(cx, c, st).yes, ACond(cx, c, more).yes);
      ExprCleaner(cx, f, ACond(cx, c, st).no, ACond(cx, c, more).no);
    case Store(place, rhs) =>
      ExprCleaner(cx, rhs, st, more);
      ExprGains(cx, rhs, st);
      ExprGains(cx, rhs, more);
      AllCleaner(cx, place, AExpr(cx, rhs, st).st, AExpr(cx, rhs, more).st);
    case Modify(place, _, rhs) =>
      ExprCleaner(cx, rhs, st, more);
      ExprGains(cx, rhs, st);
      ExprGains(cx, rhs, more);
      AllCleaner(cx, place, AExpr(cx, rhs, st).st, AExpr(cx, rhs, more).st);
    case Step(_, _) =>
  }

  lemma {:induction false} AllCleaner(cx: Ctx, es: seq<Expr>, st: State, more: State)
    requires Clean(AExprs(cx, es, st).errs) && st.da <= more.da
    ensures Clean(AExprs(cx, es, more).errs)
    decreases es, 0
  {
    if es != [] {
      ExprCleaner(cx, es[0], st, more);
      ExprGains(cx, es[0], st);
      ExprGains(cx, es[0], more);
      AllCleaner(cx, es[1..], AExpr(cx, es[0], st).st, AExpr(cx, es[0], more).st);
    }
  }

  lemma {:induction false} CondCleaner(cx: Ctx, e: Expr, st: State, more: State)
    requires Clean(ACond(cx, e, st).errs) && st.da <= more.da
    ensures Clean(ACond(cx, e, more).errs)
    decreases e, if ShortCircuit(e) then 0 else 1
  {
    match e
    case Paren(x) => CondCleaner(cx, x, st, more);
    case Not(x) => CondCleaner(cx, x, st, more);
    case And(x, y) =>
      CondCleaner(cx, x, st, more);
      CondGained(cx, x, st);
      CondGained(cx, x, more);
      CondCleaner(cx, y, ACond(cx, x, st).yes, ACond(cx, x, more).yes);
    case Or(x, y) =>
      CondCleaner(cx, x, st, more);
      CondGained(cx, x, st);
      CondGained(cx, x, more);
      CondCleaner(cx, y, ACond(cx, x, st).no, ACond(cx, x, more).no);
    case Choose(c, t, f) =>
      CondCleaner(cx, c, st, more);
      CondGained(cx, c, st);
      CondGained(cx, c, more);
      CondCleaner(cx, t, ACond(cx, c, st).yes, ACond(cx, c, more).yes);
      CondCleaner(cx, f, ACond(cx, c, st).no, ACond(cx, c, more).no);
    case _ => ExprCleaner(cx, e, st, more);
  }

  // ---- what is gained is mentioned ----------------------------------------

  lemma {:induction false} GainsMentioned(cx: Ctx, e: Expr)
    ensures Gains(cx, e) <= Vars(e) + cx.order
    decreases e, if ShortCircuit(e) then 1 else 0
  {
    match e
    case Opaque(_) =>
    case Const(_) =>
    case Var(_) =>
    case IncDec(_, _) =>
    case Assign(_, rhs) => GainsMentioned(cx, rhs);
    case Update(_, _, rhs) => GainsMentioned(cx, rhs);
    case Paren(x) => GainsMentioned(cx, x);
    case Unary(_, x) => GainsMentioned(cx, x);
    case Not(x) => GainsMentioned(cx, x);
    case Binary(_, x, y) => GainsMentioned(cx, x); GainsMentioned(cx, y);
    case And(_, _) => CondMentioned(cx, e);
    case Or(_, _) => CondMentioned(cx, e);
    case Choose(c, t, f) => CondMentioned(cx, c); GainsMentioned(cx, t); GainsMentioned(cx, f);
    case Store(place, rhs) => GainsMentioned(cx, rhs); AllMentioned(cx, place);
    case Modify(place, _, rhs) => GainsMentioned(cx, rhs); AllMentioned(cx, place);
    case Step(_, _) =>
  }

  lemma {:induction false} AllMentioned(cx: Ctx, es: seq<Expr>)
    ensures GainsAll(cx, es) <= VarsAll(es) + cx.order
    decreases es, 0
  {
    if es != [] { GainsMentioned(cx, es[0]); AllMentioned(cx, es[1..]); }
  }

  lemma {:induction false} CondMentioned(cx: Ctx, e: Expr)
    ensures var g := CondGains(cx, e); g.lead + g.yes + g.no <= Vars(e) + cx.order
    decreases e, if ShortCircuit(e) then 0 else 1
  {
    match e
    case Paren(x) => CondMentioned(cx, x);
    case Not(x) => CondMentioned(cx, x);
    case And(x, y) => CondMentioned(cx, x); CondMentioned(cx, y);
    case Or(x, y) => CondMentioned(cx, x); CondMentioned(cx, y);
    case Choose(c, t, f) => CondMentioned(cx, c); CondMentioned(cx, t); CondMentioned(cx, f);
    case _ => GainsMentioned(cx, e);
  }
}
