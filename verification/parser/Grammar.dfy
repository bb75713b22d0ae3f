/** The binary operators as the Java Language Specification has them, a production for each level. */
module Grammar {
  import opened Precedence

  /** Sections 15.17 to 15.24, tightest first. */
  datatype Level =
    | Unaries | Multiplicative | Additive | Shifts | Relational | Equality | Ands | Xors | Ors | ConditionalAnd | ConditionalOr

  /** The level whose expressions are this level's right operands, and alone are expressions of this level. */
  function Below(l: Level): Level {
    match l
    case ConditionalOr => ConditionalAnd
    case ConditionalAnd => Ors
    case Ors => Xors
    case Xors => Ands
    case Ands => Equality
    case Equality => Relational
    case Relational => Shifts
    case Shifts => Additive
    case Additive => Multiplicative
    case Multiplicative => Unaries
    case Unaries => Unaries
  }

  /** The operators between a level's own expressions and the level's below. */
  predicate Has(l: Level, op: Op) {
    match l
    case ConditionalOr => op == One(LOR)
    case ConditionalAnd => op == One(LAND)
    case Ors => op == One(OR)
    case Xors => op == One(XOR)
    case Ands => op == One(AND)
    case Equality => op == One(EQL) || op == One(NEQ)
    case Relational => op == One(LSS) || op == One(GTR) || op == One(LEQ) || op == One(GEQ)
    case Shifts => op == One(SHL) || op == SHR || op == USHR
    case Additive => op == One(ADD) || op == One(SUB)
    case Multiplicative => op == One(MUL) || op == One(QUO) || op == One(REM)
    case Unaries => false
  }

  function Height(l: Level): nat { if l.Unaries? then 0 else 1 + Depth(l) }

  function Depth(l: Level): nat {
    match l
    case ConditionalOr => 10
    case ConditionalAnd => 9
    case Ors => 8
    case Xors => 7
    case Ands => 6
    case Equality => 5
    case Relational => 4
    case Shifts => 3
    case Additive => 2
    case Multiplicative => 1
    case Unaries => 0
  }

  /** The tokens from i to n are an expression of the level, with tree t. */
  ghost predicate Derives(l: Level, toks: seq<Token>, i: nat, n: nat, t: Expr)
    decreases t, Height(l)
  {
    && i < n <= |toks|
    && if l.Unaries? then n == i + 1 && t.Leaf? && toks[i].kind == Operand(t.id)
       else
         || Derives(Below(l), toks, i, n, t)
         || (t.Binary? && Has(l, t.op) && exists k, j | i < k < j < n ::
               Derives(l, toks, i, k, t.x) && Operator(toks, k, j, t.op) && Derives(Below(l), toks, j, n, t.y))
         || (l.Relational? && t.InstanceOf? && i + 2 < n && toks[n - 2].kind == INSTANCEOF && toks[n - 1].kind == TypeName(t.ty)
             && Derives(l, toks, i, n - 2, t.x))
  }

  /** The shifts to the right are two and three > without space; everything else is one token. */
  predicate Operator(toks: seq<Token>, k: nat, j: nat, op: Op) {
    && k < j <= |toks| && (forall q :: k < q < j ==> toks[q].adjacent)
    && match op
       case One(m) => j == k + 1 && toks[k].kind == Sym(m)
       case SHR => j == k + 2 && toks[k].kind == Sym(GTR) && toks[k + 1].kind == Sym(GTR)
       case USHR => j == k + 3 && toks[k].kind == Sym(GTR) && toks[k + 1].kind == Sym(GTR) && toks[k + 2].kind == Sym(GTR)
  }

  // ---- levels and binding powers ------------------------------------------

  /** The least binding power with which the climb reads exactly the level's expressions. */
  function Power(l: Level): nat { 11 - Depth(l) }

  lemma Powers(l: Level, op: Op)
    ensures Has(l, op) <==> !l.Unaries? && Prec(op) == Power(l)
    ensures !l.Unaries? ==> Power(Below(l)) == Power(l) + 1
    ensures Power(l) == RELATIONAL <==> l.Relational?
    ensures 1 <= Power(l) <= TIGHTEST && (Power(l) == TIGHTEST <==> l.Unaries?)
  {
  }

  lemma OperatorIs(toks: seq<Token>, k: nat, j: nat, op: Op)
    ensures Operator(toks, k, j, op) <==> OpSpelled(toks, k, op) && j == k + OpWidth(op)
  {
  }

  ghost predicate Tree(l: Level, toks: seq<Token>, i: nat, n: nat, t: Expr) {
    Spelled(toks, i, t) && Canonical(t) && Root(t) >= Power(l) && n == i + Width(t)
  }

  /**
   * The level's derivations are exactly the spellings of canonical trees that bind at least as tight as the level does: the
   * numbers in the operator table are the grammar's levels.
   */
  lemma {:induction false} DerivesExactly(l: Level, toks: seq<Token>, i: nat, n: nat, t: Expr)
    ensures Derives(l, toks, i, n, t) <==> Tree(l, toks, i, n, t)
    decreases t, Height(l)
  {
    hide OpSpelled, Operator, Has, Prec, Spelled, Canonical, Root, Width, OpWidth, Power;
    Powers(l, One(LOR));
    if l.Unaries? {
      LeafOnly(toks, i, n, t);
    } else {
      DerivesExactly(Below(l), toks, i, n, t);
      if t.Binary? {
        BinaryExactly(l, toks, i, n, t);
      } else if t.InstanceOf? {
        InstanceExactly(l, toks, i, n, t);
      } else {
        LeafBelow(l, toks, i, n, t);
      }
    }
  }

  lemma LeafOnly(toks: seq<Token>, i: nat, n: nat, t: Expr)
    ensures Derives(Unaries, toks, i, n, t) <==> Tree(Unaries, toks, i, n, t)
  {
    match t
    case Binary(op, _, _) => PrecBound(op);
    case _ =>
  }

  lemma LeafBelow(l: Level, toks: seq<Token>, i: nat, n: nat, t: Expr)
    requires !l.Unaries? && !t.Binary? && !t.InstanceOf? && (Derives(Below(l), toks, i, n, t) <==> Tree(Below(l), toks, i, n, t))
    ensures Derives(l, toks, i, n, t) <==> Tree(l, toks, i, n, t)
  {
    Powers(l, One(LOR));
    hide Derives, Power;
    assert Derives(l, toks, i, n, t) <==> Derives(Below(l), toks, i, n, t) by { LeafDerives(l, toks, i, n, t); }
  }

  lemma LeafDerives(l: Level, toks: seq<Token>, i: nat, n: nat, t: Expr)
    requires !l.Unaries? && !t.Binary? && !t.InstanceOf?
    ensures Derives(l, toks, i, n, t) <==> Derives(Below(l), toks, i, n, t)
  {
  }

  ghost predicate Split(l: Level, toks: seq<Token>, i: nat, k: nat, j: nat, n: nat, t: Expr)
    requires t.Binary?
  {
    i < k < j < n && Derives(l, toks, i, k, t.x) && Operator(toks, k, j, t.op) && Derives(Below(l), toks, j, n, t.y)
  }

  lemma BinaryDerives(l: Level, toks: seq<Token>, i: nat, n: nat, t: Expr)
    requires !l.Unaries? && t.Binary?
    ensures Derives(l, toks, i, n, t) <==>
              i < n <= |toks| && (Derives(Below(l), toks, i, n, t) || (Has(l, t.op) && exists k: nat, j: nat :: Split(l, toks, i, k, j, n, t)))
  {
    hide Has, Operator;
    if i < n <= |toks| && Has(l, t.op) {
      if k: nat, j: nat :| Split(l, toks, i, k, j, n, t) {
        assert i < k < j < n && Derives(l, toks, i, k, t.x) && Operator(toks, k, j, t.op) && Derives(Below(l), toks, j, n, t.y);
      }
      if k, j :| i < k < j < n && Derives(l, toks, i, k, t.x) && Operator(toks, k, j, t.op) && Derives(Below(l), toks, j, n, t.y) {
        assert Split(l, toks, i, k, j, n, t);
      }
    }
  }

  lemma {:induction false} BinaryExactly(l: Level, toks: seq<Token>, i: nat, n: nat, t: Expr)
    requires !l.Unaries? && t.Binary? && (Derives(Below(l), toks, i, n, t) <==> Tree(Below(l), toks, i, n, t))
    ensures Derives(l, toks, i, n, t) <==> Tree(l, toks, i, n, t)
    decreases t, 1
  {
    hide OpSpelled, Operator, Has, Prec, Derives, Power, OpWidth, Split, Tree;
    Powers(l, t.op);
    BinaryDerives(l, toks, i, n, t);
    if k: nat, j: nat :| Split(l, toks, i, k, j, n, t) {
      SplitTree(l, toks, i, k, j, n, t);
    }
    if Tree(l, toks, i, n, t) { TreeSplits(l, toks, i, n, t); }
    if Tree(Below(l), toks, i, n, t) {
      BelowTree(l, toks, i, n, t);
      InBounds(Below(l), toks, i, n, t);
    }
  }

  lemma InBounds(l: Level, toks: seq<Token>, i: nat, n: nat, t: Expr)
    requires Derives(l, toks, i, n, t)
    ensures i < n <= |toks|
  {
  }

  lemma BelowTree(l: Level, toks: seq<Token>, i: nat, n: nat, t: Expr)
    requires Tree(Below(l), toks, i, n, t) && !l.Unaries?
    ensures Tree(l, toks, i, n, t)
  {
    Powers(l, One(LOR));
  }

  lemma {:induction false} SplitTree(l: Level, toks: seq<Token>, i: nat, k: nat, j: nat, n: nat, t: Expr)
    requires !l.Unaries? && t.Binary? && Split(l, toks, i, k, j, n, t)
    ensures Has(l, t.op) ==> Tree(l, toks, i, n, t)
    decreases t, 0
  {
    hide OpSpelled, Operator, Has, Prec, Derives, Power, OpWidth;
    Powers(l, t.op);
    DerivesExactly(l, toks, i, k, t.x);
    DerivesExactly(Below(l), toks, j, n, t.y);
    OperatorIs(toks, k, j, t.op);
    if Has(l, t.op) { SpelledBinary(toks, i, t.op, t.x, t.y); }
  }

  lemma {:induction false} TreeSplits(l: Level, toks: seq<Token>, i: nat, n: nat, t: Expr)
    requires !l.Unaries? && t.Binary? && Tree(l, toks, i, n, t)
    ensures Tree(Below(l), toks, i, n, t) || (i < n <= |toks| && Has(l, t.op) && exists k: nat, j: nat :: Split(l, toks, i, k, j, n, t))
    decreases t, 0
  {
    hide OpSpelled, Operator, Has, Prec, Derives, Power, OpWidth;
    Powers(l, t.op);
    if !Tree(Below(l), toks, i, n, t) {
      var k := i + Width(t.x);
      var j := k + OpWidth(t.op);
      BinaryParts(toks, i, t);
      StartsWithOperand(toks, i, t.x);
      StartsWithOperand(toks, j, t.y);
      DerivesExactly(l, toks, i, k, t.x);
      DerivesExactly(Below(l), toks, j, n, t.y);
      OperatorIs(toks, k, j, t.op);
      assert Split(l, toks, i, k, j, n, t);
    }
  }

  lemma {:induction false} InstanceExactly(l: Level, toks: seq<Token>, i: nat, n: nat, t: Expr)
    requires !l.Unaries? && t.InstanceOf? && (Derives(Below(l), toks, i, n, t) <==> Tree(Below(l), toks, i, n, t))
    ensures Derives(l, toks, i, n, t) <==> Tree(l, toks, i, n, t)
    decreases t, 0
  {
    hide Prec, Power;
    Powers(l, One(LOR));
    if n >= 2 { DerivesExactly(l, toks, i, n - 2, t.x); }
    if Spelled(toks, i, t) { StartsWithOperand(toks, i, t.x); }
  }

  // ---- the parser reads the grammar ---------------------------------------

  /** No operator stands there. */
  predicate Over(toks: seq<Token>, n: nat)
    requires n <= |toks|
  {
    n == |toks| || (!toks[n].kind.Sym? && toks[n].kind != INSTANCEOF)
  }

  lemma OverStops(toks: seq<Token>, n: nat, min: nat)
    requires n <= |toks| && Over(toks, n)
    ensures Stops(toks, n, min)
  {
  }

  /** Tokens that the grammar derives, with no operator after them, are read back as the derivation's tree. */
  lemma ReadsGrammar(l: Level, toks: seq<Token>, i: nat, n: nat, t: Expr)
    requires Derives(l, toks, i, n, t) && Over(toks, n)
    ensures Parse(toks, i, Power(l)) == (t, n)
  {
    hide Parse, Derives, Stops;
    DerivesExactly(l, toks, i, n, t);
    OverStops(toks, n, Power(l));
    ParsesCanonical(toks, i, t, Power(l));
  }

  /**
   * A whole result is a derivation of exactly the tokens consumed if and only if none of them is an operator tighter than
   * instanceof directly after one.
   */
  lemma ReadIsGrammar(l: Level, toks: seq<Token>, i: nat)
    requires i <= |toks| && Whole(Parse(toks, i, Power(l)).0)
    ensures var r := Parse(toks, i, Power(l)); Derives(l, toks, i, r.1, r.0) <==> NoneTight(toks, i, r.1)
  {
    hide Parse, Derives, NoneTight, Stops, Whole, Canonical, Spelled, Shaped;
    var r := Parse(toks, i, Power(l));
    Powers(l, One(LOR));
    ParseSound(toks, i, Power(l));
    ParseCanonicalExactly(toks, i, Power(l));
    DerivesExactly(l, toks, i, r.1, r.0);
  }

  /** At most one tree is derived for any tokens. */
  lemma Unambiguous(l: Level, toks: seq<Token>, i: nat, n: nat, t: Expr, u: Expr)
    requires Derives(l, toks, i, n, t) && Derives(l, toks, i, n, u)
    ensures t == u
  {
    hide Derives, Parse;
    Truncated(l, toks, i, n, t);
    Truncated(l, toks, i, n, u);
    ReadsGrammar(l, toks[..n], i, n, t);
    ReadsGrammar(l, toks[..n], i, n, u);
  }

  /** A derivation looks at no token past its own. */
  lemma {:induction false} Truncated(l: Level, toks: seq<Token>, i: nat, n: nat, t: Expr)
    requires Derives(l, toks, i, n, t)
    ensures n <= |toks| && Derives(l, toks[..n], i, n, t)
  {
    hide Canonical, Root, Width;
    DerivesExactly(l, toks, i, n, t);
    DerivesExactly(l, toks[..n], i, n, t);
    SpelledCut(toks, i, n, t);
  }

  lemma {:induction false} SpelledCut(toks: seq<Token>, i: nat, n: nat, t: Expr)
    requires Spelled(toks, i, t) && i + Width(t) <= n <= |toks|
    ensures Spelled(toks[..n], i, t)
    decreases t
  {
    match t
    case Leaf(_) =>
    case Binary(op, x, y) =>
      SpelledCut(toks, i, n, x);
      SpelledCut(toks, i + Width(x) + OpWidth(op), n, y);
    case InstanceOf(x, _) => SpelledCut(toks, i, n, x);
  }
}
