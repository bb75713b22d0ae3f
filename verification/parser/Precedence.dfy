/** Precedence climbing over the binary operators, with shift operators rejoined from adjacent `>` tokens. */
module Precedence {

  // ---- tokens -------------------------------------------------------------

  /** Operators the scanner delivers as one token; it never merges two `>`. */
  datatype Mark = LOR | LAND | OR | XOR | AND | EQL | NEQ | LSS | GTR | LEQ | GEQ | SHL | ADD | SUB | MUL | QUO | REM

  /** What a unary expression, a type or a pattern consumes counts as one token. */
  datatype Kind = Operand(id: nat) | TypeName(id: nat) | Sym(m: Mark) | INSTANCEOF | Other(id: nat)

  datatype Token = Token(kind: Kind, adjacent: bool)

  datatype Op = One(m: Mark) | SHR | USHR

  datatype Joined = NoJoin | Shift(op: Op, n: nat) | ShiftAssign(n: nat)

  predicate IsMark(t: Token, m: Mark) { t.kind == Sym(m) }

  /** The compound shift operator spelled by the head of the tokens: greedy, later tokens adjacent. */
  function Join(toks: seq<Token>): Joined {
    if |toks| < 2 || !IsMark(toks[0], GTR) || !toks[1].adjacent then NoJoin
    else if IsMark(toks[1], GEQ) then ShiftAssign(2)
    else if !IsMark(toks[1], GTR) then NoJoin
    else if |toks| >= 3 && toks[2].adjacent && IsMark(toks[2], GEQ) then ShiftAssign(3)
    else if |toks| >= 3 && toks[2].adjacent && IsMark(toks[2], GTR) then Shift(USHR, 3)
    else Shift(SHR, 2)
  }

  function MarkPrecedence(m: Mark): nat {
    match m
    case LOR => 1
    case LAND => 2
    case OR => 3
    case XOR => 4
    case AND => 5
    case EQL => 6
    case NEQ => 6
    case LSS => 7
    case GTR => 7
    case LEQ => 7
    case GEQ => 7
    case SHL => 8
    case ADD => 9
    case SUB => 9
    case MUL => 10
    case QUO => 10
    case REM => 10
  }

  const RELATIONAL := 7

  function Prec(op: Op): nat {
    match op
    case One(m) => MarkPrecedence(m)
    case SHR => 8
    case USHR => 8
  }

  datatype Found = NoOp | Op(op: Op, n: nat)

  /** The binary operator at the cursor and how many tokens spell it. */
  function BinaryOp(toks: seq<Token>, i: nat): (r: Found)
    requires i <= |toks|
    ensures r.Op? ==> 1 <= r.n <= |toks| - i
  {
    if i == |toks| || !toks[i].kind.Sym? then NoOp
    else match Join(toks[i..])
      case ShiftAssign(_) => NoOp
      case Shift(op, n) => Op(op, n)
      case NoJoin => Op(One(toks[i].kind.m), 1)
  }

  // ---- trees --------------------------------------------------------------

  /** A Bad operand or type stands where the operand or type parser found nothing. */
  datatype Expr = Leaf(id: nat) | BadLeaf | Binary(op: Op, x: Expr, y: Expr) | InstanceOf(x: Expr, ty: nat) | BadInstance(x: Expr)

  predicate Whole(t: Expr) {
    match t
    case Leaf(_) => true
    case BadLeaf => false
    case Binary(_, x, y) => Whole(x) && Whole(y)
    case InstanceOf(x, _) => Whole(x)
    case BadInstance(_) => false
  }

  const TIGHTEST := 11

  /** The binding power of the outermost operator; an operand binds tightest. */
  function Root(t: Expr): nat {
    match t
    case Binary(op, _, _) => Prec(op)
    case InstanceOf(_, _) => RELATIONAL
    case BadInstance(_) => RELATIONAL
    case _ => TIGHTEST
  }

  /** Left operands bind at least as tight as their operator, right operands strictly tighter. */
  predicate Canonical(t: Expr) {
    match t
    case Binary(op, x, y) => Canonical(x) && Canonical(y) && Root(x) >= Prec(op) && Root(y) > Prec(op)
    case InstanceOf(x, _) => Canonical(x) && Root(x) >= RELATIONAL
    case BadInstance(x) => Canonical(x) && Root(x) >= RELATIONAL
    case _ => true
  }

  function OpWidth(op: Op): nat {
    match op
    case One(_) => 1
    case SHR => 2
    case USHR => 3
  }

  function Width(t: Expr): nat {
    match t
    case Leaf(_) => 1
    case BadLeaf => 0
    case Binary(op, x, y) => Width(x) + OpWidth(op) + Width(y)
    case InstanceOf(x, _) => Width(x) + 2
    case BadInstance(x) => Width(x) + 1
  }

  predicate OpSpelled(toks: seq<Token>, i: nat, op: Op) {
    && i + OpWidth(op) <= |toks|
    && match op
       case One(m) => IsMark(toks[i], m)
       case SHR => IsMark(toks[i], GTR) && IsMark(toks[i + 1], GTR) && toks[i + 1].adjacent
       case USHR =>
         && IsMark(toks[i], GTR) && IsMark(toks[i + 1], GTR) && toks[i + 1].adjacent
         && IsMark(toks[i + 2], GTR) && toks[i + 2].adjacent
  }

  /** The tokens from i on spell the tree, in order and without brackets. */
  predicate Spelled(toks: seq<Token>, i: nat, t: Expr)
    decreases t
  {
    && i + Width(t) <= |toks|
    && match t
       case Leaf(id) => toks[i].kind == Operand(id)
       case BadLeaf => false
       case Binary(op, x, y) =>
         && Spelled(toks, i, x) && OpSpelled(toks, i + Width(x), op) && Spelled(toks, i + Width(x) + OpWidth(op), y)
       case InstanceOf(x, ty) =>
         && Spelled(toks, i, x) && toks[i + Width(x)].kind == INSTANCEOF && toks[i + Width(x) + 1].kind == TypeName(ty)
       case BadInstance(_) => false
  }

  /** No operator of at least the given power continues an expression at the cursor. */
  predicate Stops(toks: seq<Token>, i: nat, min: nat)
    requires i <= |toks|
  {
    && (i < |toks| && toks[i].kind == INSTANCEOF ==> RELATIONAL < min)
    && (BinaryOp(toks, i).Op? ==> Prec(BinaryOp(toks, i).op) < min)
  }

  // ---- the climb ----------------------------------------------------------

  function Unary(toks: seq<Token>, i: nat): (r: (Expr, nat))
    requires i <= |toks|
    ensures i <= r.1 <= |toks|
  {
    if i < |toks| && toks[i].kind.Operand? then (Leaf(toks[i].kind.id), i + 1) else (BadLeaf, i)
  }

  function Parse(toks: seq<Token>, i: nat, min: nat): (r: (Expr, nat))
    requires i <= |toks|
    ensures i <= r.1 <= |toks|
    decreases |toks| - i, 1
  {
    var u := Unary(toks, i);
    Climb(toks, u.0, u.1, min)
  }

  /** The loop: x is what has been read so far. */
  function Climb(toks: seq<Token>, x: Expr, i: nat, min: nat): (r: (Expr, nat))
    requires i <= |toks|
    ensures i <= r.1 <= |toks|
    decreases |toks| - i, 0
  {
    if i < |toks| && toks[i].kind == INSTANCEOF then
      if RELATIONAL < min then (x, i)
      else if i + 1 < |toks| && toks[i + 1].kind.TypeName? then Climb(toks, InstanceOf(x, toks[i + 1].kind.id), i + 2, min)
      else Climb(toks, BadInstance(x), i + 1, min)
    else
      var f := BinaryOp(toks, i);
      if f.NoOp? || Prec(f.op) < min then (x, i)
      else
        var y := Parse(toks, i + f.n, Prec(f.op) + 1);
        Climb(toks, Binary(f.op, x, y.0), y.1, min)
  }

  class Parser {
    const toks: seq<Token>
    var i: nat

    constructor (toks: seq<Token>)
      ensures this.toks == toks && i == 0
    {
      this.toks, this.i := toks, 0;
    }

    method ParseUnary() returns (x: Expr)
      requires i <= |toks|
      modifies this
      ensures (x, i) == Unary(toks, old(i))
    {
      if i < |toks| && toks[i].kind.Operand? {
        x := Leaf(toks[i].kind.id);
        i := i + 1;
      } else {
        x := BadLeaf;
      }
    }

    method ParseBinary(min: nat) returns (x: Expr)
      requires i <= |toks|
      modifies this
      ensures (x, i) == Parse(toks, old(i), min)
      decreases |toks| - i
    {
      hide BinaryOp, Prec, Unary;
      ghost var start := i;
      x := ParseUnary();
      while true
        invariant start <= i <= |toks|
        invariant Climb(toks, x, i, min) == Parse(toks, start, min)
        decreases |toks| - i
      {
        if i < |toks| && toks[i].kind == INSTANCEOF {
          if RELATIONAL < min { return; }
          i := i + 1;
          if i < |toks| && toks[i].kind.TypeName? {
            x := InstanceOf(x, toks[i].kind.id);
            i := i + 1;
          } else {
            x := BadInstance(x);
          }
          continue;
        }
        var f := BinaryOp(toks, i);
        if f.NoOp? || Prec(f.op) < min { return; }
        i := i + f.n;
        var y := ParseBinary(Prec(f.op) + 1);
        x := Binary(f.op, x, y);
      }
    }
  }

  // ---- exactness ----------------------------------------------------------

  /** An operator followed by an operand is found exactly as it is spelled. */
  lemma OpFound(toks: seq<Token>, i: nat, op: Op)
    requires OpSpelled(toks, i, op) && i + OpWidth(op) < |toks| && toks[i + OpWidth(op)].kind.Operand?
    ensures BinaryOp(toks, i) == Op(op, OpWidth(op))
  {
    var s := toks[i..];
    assert s[0] == toks[i] && s[1] == toks[i + 1];
    if |s| >= 3 { assert s[2] == toks[i + 2]; }
    if op == USHR { assert toks[i + 3] == s[3]; }
  }

  /** What was found is spelled there. */
  lemma FoundSpelled(toks: seq<Token>, i: nat)
    requires i <= |toks| && BinaryOp(toks, i).Op?
    ensures var f := BinaryOp(toks, i); f.n == OpWidth(f.op) && OpSpelled(toks, i, f.op)
  {
    var s := toks[i..];
    assert s[0] == toks[i];
    if |s| >= 2 { assert s[1] == toks[i + 1]; }
    if |s| >= 3 { assert s[2] == toks[i + 2]; }
  }

  lemma {:induction false} StartsWithOperand(toks: seq<Token>, i: nat, t: Expr)
    requires Spelled(toks, i, t)
    ensures Width(t) >= 1 && toks[i].kind.Operand?
  {
    match t
    case Leaf(_) =>
    case Binary(_, x, _) => StartsWithOperand(toks, i, x);
    case InstanceOf(x, _) => StartsWithOperand(toks, i, x);
  }

  lemma PrecBound(op: Op)
    ensures 1 <= Prec(op) < TIGHTEST
  {
  }

  lemma StopsMore(toks: seq<Token>, i: nat, m: nat, n: nat)
    requires i <= |toks| && Stops(toks, i, m) && m <= n
    ensures Stops(toks, i, n)
  {
  }

  lemma StopsAtOp(toks: seq<Token>, i: nat, op: Op, n: nat)
    requires i < |toks| && OpSpelled(toks, i, op) && BinaryOp(toks, i).Op? && BinaryOp(toks, i).op == op && Prec(op) < n
    ensures Stops(toks, i, n) && toks[i].kind != INSTANCEOF
  {
  }

  lemma ClimbStops(toks: seq<Token>, x: Expr, i: nat, min: nat)
    requires i <= |toks| && Stops(toks, i, min)
    ensures Climb(toks, x, i, min) == (x, i)
  {
  }

  lemma ClimbTakes(toks: seq<Token>, x: Expr, i: nat, min: nat)
    requires i < |toks| && toks[i].kind != INSTANCEOF && BinaryOp(toks, i).Op? && Prec(BinaryOp(toks, i).op) >= min
    ensures var f := BinaryOp(toks, i);
            var y := Parse(toks, i + f.n, Prec(f.op) + 1);
            Climb(toks, x, i, min) == Climb(toks, Binary(f.op, x, y.0), y.1, min)
  {
  }

  /** Reading a canonical tree's tokens, the climb comes to hold that tree with its tokens consumed. */
  lemma {:induction false} ClimbsTo(toks: seq<Token>, i: nat, t: Expr, min: nat)
    requires Spelled(toks, i, t) && Canonical(t) && Root(t) >= min
    requires Stops(toks, i + Width(t), Root(t) + 1)
    ensures Parse(toks, i, min) == Climb(toks, t, i + Width(t), min)
    decreases t
  {
    hide BinaryOp, OpSpelled, OpWidth, Prec, Stops;
    match t
    case Leaf(_) =>
    case Binary(op, x, y) => ClimbsToBinary(toks, i, t, min);
    case InstanceOf(x, _) =>
      assert Stops(toks, i + Width(x), Root(x) + 1) by { StopsAtInstance(toks, i + Width(x), Root(x) + 1); }
      ClimbsTo(toks, i, x, min);
  }

  lemma StopsAtInstance(toks: seq<Token>, i: nat, n: nat)
    requires i < |toks| && toks[i].kind == INSTANCEOF && RELATIONAL < n
    ensures Stops(toks, i, n)
  {
  }

  lemma BinaryParts(toks: seq<Token>, i: nat, t: Expr)
    requires t.Binary? && Spelled(toks, i, t) && Canonical(t)
    ensures var k := i + Width(t.x);
            var j := k + OpWidth(t.op);
            && k < j <= |toks| && Spelled(toks, i, t.x) && OpSpelled(toks, k, t.op) && Spelled(toks, j, t.y)
            && Canonical(t.x) && Canonical(t.y) && Root(t.x) >= Prec(t.op) && Root(t.y) > Prec(t.op)
            && Root(t) == Prec(t.op) && i + Width(t) == j + Width(t.y) <= |toks|
  {
    hide BinaryOp, Prec, OpSpelled;
    SpelledFits(toks, i + Width(t.x) + OpWidth(t.op), t.y);
  }

  lemma {:induction false} ClimbsToBinary(toks: seq<Token>, i: nat, t: Expr, min: nat)
    requires t.Binary? && Spelled(toks, i, t) && Canonical(t) && Root(t) >= min
    requires Stops(toks, i + Width(t), Root(t) + 1)
    ensures Parse(toks, i, min) == Climb(toks, t, i + Width(t), min)
    decreases t, 0
  {
    hide BinaryOp, OpSpelled, Prec, Stops, Parse, Climb, Spelled, Canonical, OpWidth, Width, Root;
    var op, x, y := t.op, t.x, t.y;
    var k := i + Width(x);
    var j := k + OpWidth(op);
    BinaryParts(toks, i, t);
    StartsWithOperand(toks, j, y);
    OpFound(toks, k, op);
    StopsAtOp(toks, k, op, Root(x) + 1);
    ClimbsTo(toks, i, x, min);
    ClimbTakes(toks, x, k, min);
    StopsMore(toks, j + Width(y), Prec(op) + 1, Root(y) + 1);
    ClimbsTo(toks, j, y, Prec(op) + 1);
    ClimbStops(toks, y, j + Width(y), Prec(op) + 1);
  }

  /** Precedence climbing is complete: tokens spelling a canonical tree, before any suffix that does not continue it, give that tree. */
  lemma ParsesCanonical(toks: seq<Token>, i: nat, t: Expr, min: nat)
    requires Spelled(toks, i, t) && Canonical(t) && Root(t) >= min && Stops(toks, i + Width(t), min)
    ensures Parse(toks, i, min) == (t, i + Width(t))
  {
    hide Parse, Climb, Stops;
    StopsMore(toks, i + Width(t), min, Root(t) + 1);
    ClimbsTo(toks, i, t, min);
    ClimbStops(toks, t, i + Width(t), min);
  }

  // ---- soundness ----------------------------------------------------------

  /** Canonical, but for operators taken after an instanceof whatever their power. */
  predicate Shaped(t: Expr) {
    match t
    case Binary(op, x, y) => Shaped(x) && Shaped(y) && (Root(x) >= Prec(op) || x.InstanceOf?) && Root(y) > Prec(op)
    case InstanceOf(x, _) => Shaped(x) && Root(x) >= RELATIONAL
    case BadInstance(x) => Shaped(x)
    case _ => true
  }

  /** What the climb has read by position i. */
  predicate Got(toks: seq<Token>, start: nat, x: Expr, i: nat, min: nat)
    requires i <= |toks|
  {
    Shaped(x) && Root(x) >= min && Spelled(toks, start, x) && i == start + Width(x)
  }

  lemma TakesShaped(toks: seq<Token>, start: nat, x: Expr, i: nat, min: nat, y: Expr)
    requires i <= |toks| && Got(toks, start, x, i, min) && (Stops(toks, i, Root(x) + 1) || x.InstanceOf?)
    requires BinaryOp(toks, i).Op? && Prec(BinaryOp(toks, i).op) >= min
    requires var f := BinaryOp(toks, i);
             Shaped(y) && Root(y) > Prec(f.op) && Spelled(toks, i + f.n, y)
    ensures var f := BinaryOp(toks, i);
            Got(toks, start, Binary(f.op, x, y), i + f.n + Width(y), min)
  {
    hide BinaryOp, OpSpelled, Prec, OpWidth, Spelled, Shaped;
    FoundSpelled(toks, i);
    var f := BinaryOp(toks, i);
    SpelledBinary(toks, start, f.op, x, y);
    assert Stops(toks, i, Root(x) + 1) ==> Prec(f.op) <= Root(x);
    ShapedBinary(f.op, x, y);
  }

  lemma SpelledBinary(toks: seq<Token>, i: nat, op: Op, x: Expr, y: Expr)
    requires Spelled(toks, i, x) && OpSpelled(toks, i + Width(x), op) && Spelled(toks, i + Width(x) + OpWidth(op), y)
    ensures Spelled(toks, i, Binary(op, x, y)) && Width(Binary(op, x, y)) == Width(x) + OpWidth(op) + Width(y)
  {
    hide OpSpelled;
    SpelledFits(toks, i + Width(x) + OpWidth(op), y);
  }

  lemma SpelledFits(toks: seq<Token>, i: nat, t: Expr)
    requires Spelled(toks, i, t)
    ensures i + Width(t) <= |toks|
  {
  }

  lemma ShapedBinary(op: Op, x: Expr, y: Expr)
    requires Shaped(x) && Shaped(y) && (Root(x) >= Prec(op) || x.InstanceOf?) && Root(y) > Prec(op)
    ensures Shaped(Binary(op, x, y)) && Root(Binary(op, x, y)) == Prec(op)
  {
    hide Prec;
  }

  /**
   * A whole result is spelled by exactly the tokens consumed, right operands bind strictly tighter, left operands at least
   * as tight unless they are an instanceof, and the next token does not continue it.
   */
  lemma {:induction false} ParseSound(toks: seq<Token>, i: nat, min: nat)
    requires i <= |toks| && min <= TIGHTEST
    ensures var r := Parse(toks, i, min); Whole(r.0) ==> Got(toks, i, r.0, r.1, min) && Stops(toks, r.1, min)
    decreases |toks| - i, 1
  {
    var u := Unary(toks, i);
    if u.0.Leaf? { OperandStops(toks, i); }
    ClimbSound(toks, i, u.0, u.1, min);
  }

  lemma OperandStops(toks: seq<Token>, i: nat)
    requires i < |toks|
    ensures Stops(toks, i + 1, TIGHTEST + 1)
  {
    if BinaryOp(toks, i + 1).Op? { PrecBound(BinaryOp(toks, i + 1).op); }
  }

  lemma {:induction false} ClimbSound(toks: seq<Token>, start: nat, x: Expr, i: nat, min: nat)
    requires start <= i <= |toks| && min <= TIGHTEST
    requires Whole(x) ==> Got(toks, start, x, i, min) && (Stops(toks, i, Root(x) + 1) || x.InstanceOf?)
    ensures var r := Climb(toks, x, i, min); Whole(r.0) ==> Got(toks, start, r.0, r.1, min) && Stops(toks, r.1, min)
    decreases |toks| - i, 0
  {
    hide Shaped, BinaryOp, Prec, Got, Parse;
    if i < |toks| && toks[i].kind == INSTANCEOF {
      if RELATIONAL >= min {
        if i + 1 < |toks| && toks[i + 1].kind.TypeName? {
          InstanceShaped(toks, start, x, i, min);
          ClimbSound(toks, start, InstanceOf(x, toks[i + 1].kind.id), i + 2, min);
        } else {
          ClimbSound(toks, start, BadInstance(x), i + 1, min);
        }
      } else {
        StopsAtInstance(toks, i, min);
      }
    } else if BinaryOp(toks, i).Op? && Prec(BinaryOp(toks, i).op) >= min {
      var f := BinaryOp(toks, i);
      PrecBound(f.op);
      ParseSound(toks, i + f.n, Prec(f.op) + 1);
      var y := Parse(toks, i + f.n, Prec(f.op) + 1);
      if Whole(x) && Whole(y.0) {
        GotShape(toks, i + f.n, y.0, y.1, Prec(f.op) + 1);
        TakesShaped(toks, start, x, i, min, y.0);
      }
      ClimbSound(toks, start, Binary(f.op, x, y.0), y.1, min);
    }
  }

  lemma GotShape(toks: seq<Token>, start: nat, x: Expr, i: nat, min: nat)
    requires i <= |toks| && Got(toks, start, x, i, min)
    ensures Shaped(x) && Root(x) >= min && Spelled(toks, start, x) && i == start + Width(x)
  {
  }

  lemma InstanceShaped(toks: seq<Token>, start: nat, x: Expr, i: nat, min: nat)
    requires i + 1 < |toks| && toks[i].kind == INSTANCEOF && toks[i + 1].kind.TypeName? && RELATIONAL >= min
    requires Whole(x) ==> Got(toks, start, x, i, min) && (Stops(toks, i, Root(x) + 1) || x.InstanceOf?)
    ensures Whole(x) ==> Got(toks, start, InstanceOf(x, toks[i + 1].kind.id), i + 2, min)
  {
  }

  /** An operator tighter than instanceof directly after an instanceof and its type. */
  predicate Tight(toks: seq<Token>, k: nat)
    requires k <= |toks|
  {
    k >= 2 && toks[k - 2].kind == INSTANCEOF && BinaryOp(toks, k).Op? && Prec(BinaryOp(toks, k).op) > RELATIONAL
  }

  ghost predicate NoneTight(toks: seq<Token>, lo: nat, hi: nat)
    requires hi <= |toks|
  {
    forall k :: lo + 2 <= k < hi ==> !Tight(toks, k)
  }

  lemma OperatorBefore(toks: seq<Token>, k: nat, op: Op)
    requires OpSpelled(toks, k, op)
    ensures OpWidth(op) >= 1 && toks[k + OpWidth(op) - 1].kind != INSTANCEOF
  {
  }

  /** The last token of a spelled tree. */
  lemma {:induction false} EndsWith(toks: seq<Token>, i: nat, t: Expr)
    requires Spelled(toks, i, t) && Shaped(t)
    ensures Width(t) >= 1 && toks[i + Width(t) - 1].kind != INSTANCEOF
    ensures Width(t) >= 2 && toks[i + Width(t) - 2].kind == INSTANCEOF ==> t.InstanceOf? || Root(t) < RELATIONAL
    decreases t
  {
    hide BinaryOp, OpSpelled, Prec, OpWidth;
    match t
    case Leaf(_) =>
    case Binary(op, x, y) =>
      EndsWith(toks, i + Width(x) + OpWidth(op), y);
      OperatorBefore(toks, i + Width(x), op);
      EndsOfRight(toks, i + Width(x) + OpWidth(op), Width(y));
    case InstanceOf(x, _) =>
  }

  /** The token before the last of a right operand is its own or the operator's. */
  lemma EndsOfRight(toks: seq<Token>, j: nat, w: nat)
    requires 1 <= j && 1 <= w && j + w <= |toks| && toks[j - 1].kind != INSTANCEOF
    ensures toks[j + w - 2].kind == INSTANCEOF ==> w >= 2
  {
  }

  /** The trees the climb builds are canonical exactly when no operator tighter than instanceof follows one directly. */
  lemma {:induction false} CanonicalExactly(toks: seq<Token>, i: nat, t: Expr)
    requires Spelled(toks, i, t) && Shaped(t) && Whole(t)
    ensures Canonical(t) <==> NoneTight(toks, i, i + Width(t))
    decreases t, 1
  {
    match t
    case Leaf(_) =>
    case Binary(_, _, _) => CanonicalBinary(toks, i, t);
    case InstanceOf(x, _) =>
      CanonicalExactly(toks, i, x);
      NotOperator(toks, i + Width(x));
      NotOperator(toks, i + Width(x) + 1);
  }

  lemma {:induction false} CanonicalBinary(toks: seq<Token>, i: nat, t: Expr)
    requires t.Binary? && Spelled(toks, i, t) && Shaped(t) && Whole(t)
    ensures Canonical(t) <==> NoneTight(toks, i, i + Width(t))
    decreases t, 0
  {
    hide BinaryOp, Prec, OpSpelled, Tight, OpWidth, NoneTight, Root;
    var op, x, y := t.op, t.x, t.y;
    var k := i + Width(x);
    var j := k + OpWidth(op);
    CanonicalExactly(toks, i, x);
    CanonicalExactly(toks, j, y);
    StartsWithOperand(toks, j, y);
    OpFound(toks, k, op);
    TightHere(toks, i, t);
    assert j > k by { PrecWidth(op); }
    SplitTight(toks, i, k, j, j + Width(y), op);
  }

  lemma PrecWidth(op: Op)
    ensures OpWidth(op) >= 1
  {
  }

  /** At the operator itself. */
  lemma TightHere(toks: seq<Token>, i: nat, t: Expr)
    requires t.Binary? && Spelled(toks, i, t) && Shaped(t)
    requires BinaryOp(toks, i + Width(t.x)) == Op(t.op, OpWidth(t.op))
    ensures Root(t.x) >= Prec(t.op) <==> (Width(t.x) >= 2 ==> !Tight(toks, i + Width(t.x)))
    ensures Width(t.x) >= 1 && toks[i + Width(t.x) - 1].kind != INSTANCEOF
  {
    hide BinaryOp, OpSpelled;
    EndsWith(toks, i, t.x);
    PrecBound(t.op);
    if Width(t.x) == 1 { assert t.x.Leaf? by { WidthOne(toks, i, t.x); } }
  }

  lemma WidthOne(toks: seq<Token>, i: nat, t: Expr)
    requires Spelled(toks, i, t) && Width(t) == 1
    ensures t.Leaf?
  {
    match t
    case Leaf(_) =>
    case Binary(op, x, y) => StartsWithOperand(toks, i, x); assert false;
    case InstanceOf(x, _) => assert false;
  }

  lemma NotOperator(toks: seq<Token>, k: nat)
    requires k < |toks| && !toks[k].kind.Sym?
    ensures !Tight(toks, k)
  {
  }

  /** Tight positions of a binary tree are those of its operands and possibly its operator. */
  lemma SplitTight(toks: seq<Token>, i: nat, k: nat, j: nat, e: nat, op: Op)
    requires i < k < j < e <= |toks| && j == k + OpWidth(op) && OpSpelled(toks, k, op) && toks[j].kind.Operand?
    requires toks[k - 1].kind != INSTANCEOF
    ensures NoneTight(toks, i, e) <==> NoneTight(toks, i, k) && NoneTight(toks, j, e) && (k >= i + 2 ==> !Tight(toks, k))
  {
    hide Tight;
    forall q | k < q < j + 2 && q < e
      ensures !Tight(toks, q)
    {
      if q == j { NotOperator(toks, j); } else { NotAfter(toks, q); }
    }
  }

  lemma NotAfter(toks: seq<Token>, k: nat)
    requires 2 <= k <= |toks| && toks[k - 2].kind != INSTANCEOF
    ensures !Tight(toks, k)
  {
  }

  /** The parser returns a canonical tree exactly when the tokens it consumed hold no operator tighter than an instanceof directly after one. */
  lemma ParseCanonicalExactly(toks: seq<Token>, i: nat, min: nat)
    requires i <= |toks| && min <= TIGHTEST && Whole(Parse(toks, i, min).0)
    ensures var r := Parse(toks, i, min); Canonical(r.0) <==> NoneTight(toks, i, r.1)
  {
    hide Parse, Canonical, NoneTight, Whole, Spelled, Stops;
    ParseSound(toks, i, min);
    CanonicalExactly(toks, i, Parse(toks, i, min).0);
  }

  /** a instanceof T + b, a syntax error of the language, is read as a sum. */
  lemma SumOfInstance()
    ensures var toks := [Token(Operand(0), false), Token(INSTANCEOF, false), Token(TypeName(0), false), Token(Sym(ADD), false), Token(Operand(1), false)];
            var r := Parse(toks, 0, 1);
            r == (Binary(One(ADD), InstanceOf(Leaf(0), 0), Leaf(1)), 5) && !Canonical(r.0)
  {
    var toks := [Token(Operand(0), false), Token(INSTANCEOF, false), Token(TypeName(0), false), Token(Sym(ADD), false), Token(Operand(1), false)];
    assert BinaryOp(toks, 3) == Op(One(ADD), 1) by { assert toks[3..] == [toks[3], toks[4]]; }
    assert BinaryOp(toks, 5) == NoOp;
    assert Climb(toks, Leaf(1), 5, 10) == (Leaf(1), 5);
    assert Parse(toks, 4, 10) == (Leaf(1), 5);
    var sum := Binary(One(ADD), InstanceOf(Leaf(0), 0), Leaf(1));
    assert Climb(toks, sum, 5, 1) == (sum, 5);
    assert Climb(toks, InstanceOf(Leaf(0), 0), 3, 1) == (sum, 5);
    assert Climb(toks, Leaf(0), 1, 1) == (sum, 5);
  }
}
