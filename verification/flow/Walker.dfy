/** The walk over a method body: it changes the caller's states in place and collects diagnostics. */
module FlowWalker {
  import opened Analysis
  import opened Bits
  import opened Gains
  import opened Soundness

  predicate Below(vs: set<nat>, n: nat) { forall v :: v in vs ==> v < n }

  function Upto(n: nat): set<nat> { if n == 0 then {} else Upto(n - 1) + {n - 1} }

  /** The locals a statement mentions or declares have a bit. */
  predicate Fits(s: Stmt, n: nat)
    decreases s
  {
    match s
    case Empty => true
    case Do1(x) => Below(Vars(x), n)
    case Local(v, init) => v < n && Below(VarsOption(init), n)
    case Block(ss) => forall k :: 0 <= k < |ss| ==> Fits(ss[k], n)
    case Labeled(body) => Fits(body, n)
    case If(cond, yes, no) => Below(Vars(cond), n) && Fits(yes, n) && (no.Some? ==> Fits(no.value, n))
    case While(cond, body) => Below(Vars(cond), n) && Fits(body, n)
    case DoWhile(body, cond) => Below(Vars(cond), n) && Fits(body, n)
    case For(first, test, post, body) =>
      && (forall k :: 0 <= k < |first| ==> Fits(first[k], n)) && Below(VarsOption(test), n)
      && (forall k :: 0 <= k < |post| ==> Below(Vars(post[k]), n)) && Fits(body, n)
    case ForEach(v, x, body) => v < n && Below(Vars(x), n) && Fits(body, n)
    case Return(result) => Below(VarsOption(result), n)
    case Throw(x) => Below(Vars(x), n)
    case Assert(cond, message) => Below(Vars(cond), n) && Below(VarsOption(message), n)
    case Sync(x, ss) => Below(Vars(x), n) && forall k :: 0 <= k < |ss| ==> Fits(ss[k], n)
  }

  lemma EntryUnfolds(cx: Ctx, body: Stmt, post: seq<Expr>, entry: State)
    ensures var b := ABody(cx, body, post, entry);
            var next := Join(entry, b.st);
            AEntry(cx, body, post, entry)
            == if next == entry then Out(entry, b.errs)
               else Out(AEntry(cx, body, post, next).st, b.errs + AEntry(cx, body, post, next).errs)
  {
    hide ABody;
    JoinShrinks(entry, ABody(cx, body, post, entry).st);
  }

  /** The two states of a condition. */
  datatype Cond = Cond(yes: Facts, no: Facts)

  class Walker {
    const n: nat
    const blanks: set<nat>
    const words: nat
    ghost const cx: Ctx
    var errs: set<Diag>

    ghost predicate Valid() {
      n <= 64 * words && cx == Ctx(Upto(n), blanks)
    }

    constructor (n: nat, blanks: set<nat>)
      ensures Valid() && this.n == n && this.blanks == blanks && errs == {}
    {
      this.n, this.blanks, this.words, errs := n, blanks, (n + 63) / 64, {};
      this.cx := Ctx(Upto(n), blanks);
    }

    /** The start of a method: parameters assigned, every other local neither. */
    method NewState(params: set<nat>) returns (f: Facts)
      requires Valid() && Below(params, n)
      ensures fresh(f.da) && fresh(f.du) && Holds(f, words) && View(f) == Start(params)
    {
      hide Members;
      var da := New(words);
      var du := New(words);
      for i := 0 to n
        invariant Members(da[..]) == set v | v in params && v < i
        invariant Members(du[..]) == {}
      {
        if i in params { SetBitAt(da, i); }
      }
      f := Facts(da, du);
      assert params == set v | v in params && v < n;
    }

    method FullyAssigned(f: Facts) returns (g: Facts)
      requires Valid() && Holds(f, words)
      ensures fresh(g.da) && fresh(g.du) && Holds(g, words) && View(g) == Full(cx, View(f))
    {
      hide Members;
      g := CloneFacts(f);
      ghost var st := View(f);
      for i := 0 to n
        invariant View(g) == State(st.da + Upto(i), st.du + Upto(i))
      {
        SetBitAt(g.da, i);
        SetBitAt(g.du, i);
      }
    }

    method Report(d: Diag)
      modifies this`errs
      ensures errs == old(errs) + {d}
    {
      errs := errs + {d};
    }

    method Read(v: nat, f: Facts)
      requires Valid() && Holds(f, words) && v < n
      modifies f.da, f.du, this`errs
      ensures Out(View(f), errs) == var o := Analysis.Read(v, old(View(f))); Out(o.st, old(errs) + o.errs)
    {
      hide Members;
      var known := Has(f.da, v);
      if !known {
        Report(Uninitialized(v));
        AssignFacts(f, v, words);
      }
    }

    method Write(v: nat, f: Facts)
      requires Valid() && Holds(f, words) && v < n
      modifies f.da, f.du, this`errs
      ensures Out(View(f), errs) == var o := Analysis.Write(cx, v, old(View(f))); Out(o.st, old(errs) + o.errs)
    {
      hide Members;
      var blank := Has(f.du, v);
      if v in blanks && !blank { Report(AssignedAgain(v)); }
      AssignFacts(f, v, words);
    }

    method Expression(e: Expr, f: Facts)
      requires Valid() && Holds(f, words) && Below(Vars(e), n)
      modifies f.da, f.du, this`errs
      ensures Out(View(f), errs) == var o := AExpr(cx, e, old(View(f))); Out(o.st, old(errs) + o.errs)
      decreases e, if ShortCircuit(e) then 4 else 1
    {
      hide Members, Analysis.Read, Analysis.Write;
      match e
      case Opaque(_) =>
      case Const(_) =>
      case Var(v) => Read(v, f);
      case Assign(v, rhs) => Expression(rhs, f); Write(v, f);
      case Update(v, _, rhs) => Read(v, f); Expression(rhs, f); Write(v, f);
      case IncDec(v, _) => Read(v, f); Write(v, f);
      case Paren(x) => Expression(x, f);
      case Unary(_, x) => Expression(x, f);
      case Not(x) => Expression(x, f);
      case Binary(_, x, y) => Expression(x, f); Expression(y, f);
      case And(_, _) => var _ := Condition(e, f);
      case Or(_, _) => var _ := Condition(e, f);
      case Choose(_, _, _) => Chosen(e, f);
      case Store(place, rhs) => VarsParts(place); Expression(rhs, f); Expressions(place, f);
      case Modify(place, _, rhs) => VarsParts(place); Expression(rhs, f); Expressions(place, f);
      case Step(_, _) =>
    }

    /** Both arms of a conditional, each from its branch. */
    method Chosen(e: Expr, f: Facts)
      requires Valid() && Holds(f, words) && Below(Vars(e), n) && e.Choose?
      modifies f.da, f.du, this`errs
      ensures Out(View(f), errs) == var o := AExpr(cx, e, old(View(f))); Out(o.st, old(errs) + o.errs)
      decreases e, 0
    {
      hide Members;
      var c := Condition(e.cond, f);
      Expression(e.yes, c.yes);
      Expression(e.no, c.no);
      var j := JoinFacts(c.yes, c.no);
      CopyInto(f, j, words);
    }

    /** Walks a condition, leaving its first operand's effect in place and answering with a new state for each branch. */
    method Condition(e: Expr, f: Facts) returns (p: Cond)
      requires Valid() && Holds(f, words) && Below(Vars(e), n)
      modifies f.da, f.du, this`errs
      ensures fresh(p.yes.da) && fresh(p.yes.du) && fresh(p.no.da) && fresh(p.no.du)
      ensures Holds(p.yes, words) && Holds(p.no, words) && Apart(p.yes, p.no)
      ensures Branches(View(f), View(p.yes), View(p.no), errs)
              == var c := ACond(cx, e, old(View(f))); Branches(c.st, c.yes, c.no, old(errs) + c.errs)
      decreases e, 3
    {
      hide Members, AExpr;
      match e
      case Paren(x) => p := Condition(x, f);
      case Not(x) =>
        var c := Condition(x, f);
        p := Cond(c.no, c.yes);
      case And(_, _) => p := Both(e, f);
      case Or(_, _) => p := Both(e, f);
      case Choose(_, _, _) => p := Either(e, f);
      case _ => p := Leaf(e, f);
    }

    /** && and ||: the right operand starts from one branch of the left. */
    method Both(e: Expr, f: Facts) returns (p: Cond)
      requires Valid() && Holds(f, words) && Below(Vars(e), n) && ShortCircuit(e)
      modifies f.da, f.du, this`errs
      ensures fresh(p.yes.da) && fresh(p.yes.du) && fresh(p.no.da) && fresh(p.no.du)
      ensures Holds(p.yes, words) && Holds(p.no, words) && Apart(p.yes, p.no)
      ensures Branches(View(f), View(p.yes), View(p.no), errs)
              == var c := ACond(cx, e, old(View(f))); Branches(c.st, c.yes, c.no, old(errs) + c.errs)
      decreases e, 2
    {
      hide Members, AExpr;
      var l := Condition(e.x, f);
      if e.And? {
        var r := Condition(e.y, l.yes);
        var j := JoinFacts(l.no, r.no);
        p := Cond(r.yes, j);
      } else {
        var r := Condition(e.y, l.no);
        var j := JoinFacts(l.yes, r.yes);
        p := Cond(j, r.no);
      }
    }

    method Either(e: Expr, f: Facts) returns (p: Cond)
      requires Valid() && Holds(f, words) && Below(Vars(e), n) && e.Choose?
      modifies f.da, f.du, this`errs
      ensures fresh(p.yes.da) && fresh(p.yes.du) && fresh(p.no.da) && fresh(p.no.du)
      ensures Holds(p.yes, words) && Holds(p.no, words) && Apart(p.yes, p.no)
      ensures Branches(View(f), View(p.yes), View(p.no), errs)
              == var c := ACond(cx, e, old(View(f))); Branches(c.st, c.yes, c.no, old(errs) + c.errs)
      decreases e, 2
    {
      hide Members, AExpr;
      var c := Condition(e.cond, f);
      var t := Condition(e.yes, c.yes);
      var o := Condition(e.no, c.no);
      var jt := JoinFacts(t.yes, o.yes);
      var jf := JoinFacts(t.no, o.no);
      p := Cond(jt, jf);
    }

    method Leaf(e: Expr, f: Facts) returns (p: Cond)
      requires Valid() && Holds(f, words) && Below(Vars(e), n)
      requires !e.Paren? && !e.Not? && !e.And? && !e.Or? && !e.Choose?
      modifies f.da, f.du, this`errs
      ensures fresh(p.yes.da) && fresh(p.yes.du) && fresh(p.no.da) && fresh(p.no.du)
      ensures Holds(p.yes, words) && Holds(p.no, words) && Apart(p.yes, p.no)
      ensures Branches(View(f), View(p.yes), View(p.no), errs)
              == var c := ACond(cx, e, old(View(f))); Branches(c.st, c.yes, c.no, old(errs) + c.errs)
      decreases e, 2
    {
      hide Members, AExpr;
      Expression(e, f);
      var yes := CloneFacts(f);
      var no := CloneFacts(f);
      if e == Const(true) {
        no := FullyAssigned(f);
      } else if e == Const(false) {
        yes := FullyAssigned(f);
      }
      p := Cond(yes, no);
    }

    method Expressions(es: seq<Expr>, f: Facts)
      requires Valid() && Holds(f, words) && forall k :: 0 <= k < |es| ==> Below(Vars(es[k]), n)
      modifies f.da, f.du, this`errs
      ensures Out(View(f), errs) == var o := AExprs(cx, es, old(View(f))); Out(o.st, old(errs) + o.errs)
      decreases es, 0
    {
      hide Members, AExpr, Vars, Below;
      ghost var st, was := View(f), errs;
      ghost var all := AExprs(cx, es, st);
      for i := 0 to |es|
        invariant AExprs(cx, es[i..], View(f)).st == all.st
        invariant errs + AExprs(cx, es[i..], View(f)).errs == was + all.errs
      {
        assert es[i..][0] == es[i] && es[i..][1..] == es[i + 1..];
        Expression(es[i], f);
      }
    }

    method MaybeExpression(e: Option<Expr>, f: Facts)
      requires Valid() && Holds(f, words) && Below(VarsOption(e), n)
      modifies f.da, f.du, this`errs
      ensures Out(View(f), errs) == var o := AOption(cx, e, old(View(f))); Out(o.st, old(errs) + o.errs)
    {
      hide Members, AExpr;
      if e.Some? { Expression(e.value, f); }
    }

    /** An absent loop condition is true. */
    method Test(test: Option<Expr>, f: Facts) returns (p: Cond)
      requires Valid() && Holds(f, words) && Below(VarsOption(test), n)
      modifies f.da, f.du, this`errs
      ensures fresh(p.yes.da) && fresh(p.yes.du) && fresh(p.no.da) && fresh(p.no.du)
      ensures Holds(p.yes, words) && Holds(p.no, words) && Apart(p.yes, p.no)
      ensures Branches(View(f), View(p.yes), View(p.no), errs)
              == var c := ATest(cx, test, old(View(f))); Branches(c.st, c.yes, c.no, old(errs) + c.errs)
    {
      hide Members, ACond;
      if test.Some? {
        p := Condition(test.value, f);
      } else {
        var yes := CloneFacts(f);
        var no := CloneFacts(f);
        p := Cond(yes, no);
      }
    }

    /** Reports every local declared without an initialiser that may be unassigned at a return. */
    method CheckBlanks(f: Facts)
      requires Valid() && Holds(f, words) && Below(blanks, n)
      modifies this`errs
      ensures errs == old(errs) + BlanksLeft(cx, View(f))
    {
      hide Members;
      ghost var was := errs;
      for i := 0 to n
        invariant errs == was + set v | v in blanks && v !in View(f).da && v < i :: BlankAtReturn(v)
      {
        var known := Has(f.da, i);
        if i in blanks && !known { Report(BlankAtReturn(i)); }
      }
    }

    // ---- statements -------------------------------------------------------

    /** Whether the statement can complete normally; its assignments are left in f. */
    method Statement(s: Stmt, f: Facts) returns (alive: bool)
      requires Valid() && Holds(f, words) && Fits(s, n) && Below(blanks, n)
      modifies f.da, f.du, this`errs
      ensures Flow(View(f), alive, errs) == var o := AStmt(cx, s, old(View(f))); Flow(o.st, o.alive, old(errs) + o.errs)
      decreases s, 2
    {
      hide Members, AExpr, ACond, AEntry, Folded, Vars;
      match s
      case Empty => alive := true;
      case Do1(x) => Expression(x, f); alive := true;
      case Local(v, init) =>
        if init.Some? {
          Expression(init.value, f);
          AssignFacts(f, v, words);
        } else {
          ClearBitAt(f.da, v);
          SetBitAt(f.du, v);
        }
        alive := true;
      case Block(ss) => alive := Statements(ss, f);
      case Labeled(body) =>
        var _ := Statement(body, f);
        alive := true;
      case If(_, _, _) => alive := IfStatement(s, f);
      case While(_, _) => alive := WhileStatement(s, f);
      case DoWhile(_, _) => alive := DoStatement(s, f);
      case For(_, _, _, _) => alive := ForStatement(s, f);
      case ForEach(v, x, body) =>
        Expression(x, f);
        ClearBitAt(f.da, v);
        SetBitAt(f.du, v);
        var entry := CloneFacts(f);
        var _ := Statement(body, entry);
        alive := true;
      case Return(result) =>
        MaybeExpression(result, f);
        CheckBlanks(f);
        alive := false;
      case Throw(x) => Expression(x, f); alive := false;
      case Assert(cond, message) =>
        var c := Condition(cond, f);
        MaybeExpression(message, c.no);
        alive := true;
      case Sync(x, ss) =>
        Expression(x, f);
        alive := Statements(ss, f);
    }

    /** A statement list; what follows a dead statement is walked on a copy. */
    method Statements(ss: seq<Stmt>, f: Facts) returns (alive: bool)
      requires Valid() && Holds(f, words) && Below(blanks, n) && forall k :: 0 <= k < |ss| ==> Fits(ss[k], n)
      modifies f.da, f.du, this`errs
      ensures Flow(View(f), alive, errs) == var o := ABlock(cx, ss, old(View(f)), true); Flow(o.st, o.alive, old(errs) + o.errs)
      decreases ss, 0
    {
      hide Members, AStmt, Fits;
      alive := true;
      ghost var was := errs;
      ghost var all := ABlock(cx, ss, View(f), true);
      for i := 0 to |ss|
        invariant var rest := ABlock(cx, ss[i..], View(f), alive);
                  rest.st == all.st && rest.alive == all.alive && errs + rest.errs == was + all.errs
      {
        assert ss[i..][0] == ss[i] && ss[i..][1..] == ss[i + 1..];
        if alive {
          alive := Statement(ss[i], f);
        } else {
          Report(Unreachable(ss[i]));
          var copy := CloneFacts(f);
          var _ := Statement(ss[i], copy);
        }
      }
    }

    method InitStatements(ss: seq<Stmt>, f: Facts)
      requires Valid() && Holds(f, words) && Below(blanks, n) && forall k :: 0 <= k < |ss| ==> Fits(ss[k], n)
      modifies f.da, f.du, this`errs
      ensures Out(View(f), errs) == var o := AInit(cx, ss, old(View(f))); Out(o.st, old(errs) + o.errs)
      decreases ss, 0
    {
      hide Members, AStmt, Fits;
      ghost var was := errs;
      ghost var all := AInit(cx, ss, View(f));
      for i := 0 to |ss|
        invariant var rest := AInit(cx, ss[i..], View(f)); rest.st == all.st && errs + rest.errs == was + all.errs
      {
        assert ss[i..][0] == ss[i] && ss[i..][1..] == ss[i + 1..];
        var _ := Statement(ss[i], f);
      }
    }

    method IfStatement(s: Stmt, f: Facts) returns (alive: bool)
      requires s.If? && Valid() && Holds(f, words) && Fits(s, n) && Below(blanks, n)
      modifies f.da, f.du, this`errs
      ensures Flow(View(f), alive, errs) == var o := AStmt(cx, s, old(View(f))); Flow(o.st, o.alive, old(errs) + o.errs)
      decreases s, 1
    {
      hide Members, ACond, Vars;
      var c := Condition(s.cond, f);
      var thenAlive := Statement(s.yes, c.yes);
      if s.no.None? {
        var merged := JoinFacts(c.yes, c.no);
        CopyInto(f, merged, words);
        return true;
      }
      var elseAlive := Statement(s.no.value, c.no);
      if thenAlive && elseAlive {
        var merged := JoinFacts(c.yes, c.no);
        CopyInto(f, merged, words);
      } else if thenAlive {
        CopyInto(f, c.yes, words);
      } else if elseAlive {
        CopyInto(f, c.no, words);
      }
      alive := thenAlive || elseAlive;
    }

    /** One round of a loop: its body, then its post part. */
    method Round(body: Stmt, post: seq<Expr>, f: Facts)
      requires Valid() && Holds(f, words) && Fits(body, n) && Below(blanks, n)
      requires forall k :: 0 <= k < |post| ==> Below(Vars(post[k]), n)
      modifies f.da, f.du, this`errs
      ensures Out(View(f), errs) == var o := ABody(cx, body, post, old(View(f))); Out(o.st, old(errs) + o.errs)
      decreases body, 3
    {
      hide Members, AStmt, AExprs, Fits;
      var _ := Statement(body, f);
      Expressions(post, f);
    }

    /** Runs the body until its entry state is what it leaves: each round that changes it makes it smaller. */
    method Settle(body: Stmt, post: seq<Expr>, first: Facts) returns (entry: Facts)
      requires Valid() && Holds(first, words) && Fits(body, n) && Below(blanks, n)
      requires forall k :: 0 <= k < |post| ==> Below(Vars(post[k]), n)
      modifies this`errs
      ensures entry == first || (fresh(entry.da) && fresh(entry.du))
      ensures Holds(entry, words)
      ensures Out(View(entry), errs) == var o := AEntry(cx, body, post, old(View(first))); Out(o.st, old(errs) + o.errs)
      decreases body, 4
    {
      hide Members, AStmt, AExprs, Fits, ABody, AEntry, Weight, Below;
      entry := first;
      ghost var was := errs;
      ghost var all := AEntry(cx, body, post, View(first));
      while true
        invariant entry == first || (fresh(entry.da) && fresh(entry.du))
        invariant Holds(entry, words)
        invariant var rest := AEntry(cx, body, post, View(entry)); rest.st == all.st && errs + rest.errs == was + all.errs
        decreases Weight(View(entry))
      {
        ghost var st := View(entry);
        EntryUnfolds(cx, body, post, st);
        var b := CloneFacts(entry);
        Round(body, post, b);
        var next := JoinFacts(entry, b);
        JoinShrinks(st, View(b));
        var same := EqualFacts(next, entry);
        if same { break; }
        entry := next;
      }
    }

    method WhileStatement(s: Stmt, f: Facts) returns (alive: bool)
      requires s.While? && Valid() && Holds(f, words) && Fits(s, n) && Below(blanks, n)
      modifies f.da, f.du, this`errs
      ensures Flow(View(f), alive, errs) == var o := AStmt(cx, s, old(View(f))); Flow(o.st, o.alive, old(errs) + o.errs)
      decreases s, 1
    {
      hide Members, ACond, AEntry, Folded, Vars;
      var c := Condition(s.cond, f);
      var entry := Settle(s.body, [], c.yes);
      var last := CloneFacts(entry);
      var _ := Statement(s.body, last);
      if Folded(s.cond) == Some(true) { return false; }
      var merged := JoinFacts(f, c.no);
      CopyInto(f, merged, words);
      alive := true;
    }

    method DoStatement(s: Stmt, f: Facts) returns (alive: bool)
      requires s.DoWhile? && Valid() && Holds(f, words) && Fits(s, n) && Below(blanks, n)
      modifies f.da, f.du, this`errs
      ensures Flow(View(f), alive, errs) == var o := AStmt(cx, s, old(View(f))); Flow(o.st, o.alive, old(errs) + o.errs)
      decreases s, 1
    {
      hide Members, ACond, AEntry, Folded, Vars;
      var _ := Statement(s.body, f);
      var c := Condition(s.cond, f);
      var first := CloneFacts(f);
      var _ := Settle(s.body, [], first);
      if Folded(s.cond) == Some(true) { return false; }
      CopyInto(f, c.no, words);
      alive := true;
    }

    method ForStatement(s: Stmt, f: Facts) returns (alive: bool)
      requires s.For? && Valid() && Holds(f, words) && Fits(s, n) && Below(blanks, n)
      modifies f.da, f.du, this`errs
      ensures Flow(View(f), alive, errs) == var o := AStmt(cx, s, old(View(f))); Flow(o.st, o.alive, old(errs) + o.errs)
      decreases s, 1
    {
      hide Members, ATest, AEntry, AInit, Infinite, Vars;
      InitStatements(s.first, f);
      var c := Test(s.test, f);
      var entry := Settle(s.body, s.post, c.yes);
      var last := CloneFacts(entry);
      var _ := Statement(s.body, last);
      if Infinite(s.test) { return false; }
      CopyInto(f, c.no, words);
      alive := true;
    }

    /** A whole method body; the answer is whether a return statement is missing. */
    method MethodBody(params: set<nat>, body: seq<Stmt>, returnsValue: bool) returns (missing: bool)
      requires Valid() && Below(params, n) && Below(blanks, n) && forall k :: 0 <= k < |body| ==> Fits(body[k], n)
      modifies this`errs
      ensures missing <==> returnsValue && ABlock(cx, body, Start(params), true).alive
      ensures errs == old(errs) + ABlock(cx, body, Start(params), true).errs
    {
      hide ABlock, Members;
      var f := NewState(params);
      var alive := Statements(body, f);
      missing := alive && returnsValue;
    }
  }
}
