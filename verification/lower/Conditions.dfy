/** Boolean expressions compiled to branches: what is emitted, and what running it does. */
module Conditions {

  // ---- values -------------------------------------------------------------

  datatype Ty = TBool | TInt | TLong | TFloat | TDouble | TRef

  /** A floating-point value as far as comparisons can tell. */
  datatype Fl = NaN | Num(r: real)

  datatype Val = I(v: int) | J(v: int) | F(f: Fl) | D(f: Fl) | R(ref: int)

  predicate HasType(v: Val, t: Ty) {
    match t
    case TBool => v == I(0) || v == I(1)
    case TInt => v.I?
    case TLong => v.J?
    case TFloat => v.F?
    case TDouble => v.D?
    case TRef => v.R?
  }

  datatype Rel = EQ | NE | LT | GE | GT | LE

  /** The comparison that holds exactly when `k` does not, on ordered values. */
  function Opposite(k: Rel): Rel {
    match k
    case EQ => NE
    case NE => EQ
    case LT => GE
    case GE => LT
    case GT => LE
    case LE => GT
  }

  predicate RelInt(k: Rel, a: int, b: int) {
    match k
    case EQ => a == b
    case NE => a != b
    case LT => a < b
    case GE => a >= b
    case GT => a > b
    case LE => a <= b
  }

  /** Section 15.20.1 and 15.21.1 of the Java Language Specification: NaN is unordered and unequal to everything. */
  predicate RelFl(k: Rel, a: Fl, b: Fl) {
    if a.NaN? || b.NaN? then k == NE
    else match k
      case EQ => a.r == b.r
      case NE => a.r != b.r
      case LT => a.r < b.r
      case GE => a.r >= b.r
      case GT => a.r > b.r
      case LE => a.r <= b.r
  }

  predicate RelVal(k: Rel, a: Val, b: Val) {
    match (a, b)
    case (I(x), I(y)) => RelInt(k, x, y)
    case (J(x), J(y)) => RelInt(k, x, y)
    case (F(x), F(y)) => RelFl(k, x, y)
    case (D(x), D(y)) => RelFl(k, x, y)
    case _ => false
  }

  /** A floating relational comparison one of whose operands is NaN. */
  predicate Unordered(k: Rel, a: Val, b: Val) {
    Relational(k) &&
    match (a, b)
    case (F(x), F(y)) => x.NaN? || y.NaN?
    case (D(x), D(y)) => x.NaN? || y.NaN?
    case _ => false
  }

  predicate Numeric(t: Ty) { t == TInt || t == TLong || t == TFloat || t == TDouble }

  predicate Floating(t: Ty) { t == TFloat || t == TDouble }

  predicate Relational(k: Rel) { k != EQ && k != NE }

  /** Binary numeric promotion; a boolean reaches the stack as an int. */
  function Promoted(a: Ty, b: Ty): Ty {
    if a == TDouble || b == TDouble then TDouble
    else if a == TFloat || b == TFloat then TFloat
    else if a == TLong || b == TLong then TLong
    else TInt
  }

  // ---- source expressions -------------------------------------------------

  /** An operand whose own code is not at issue here. */
  datatype Operand = Operand(id: nat, ty: Ty) | Null

  datatype BitOp = BitAnd | BitOr | BitXor

  datatype Expr =
    | Folded(known: bool)
    | Paren(e: Expr)
    | Not(e: Expr)
    | And(x: Expr, y: Expr)
    | Or(x: Expr, y: Expr)
    | Compare(k: Rel, a: Operand, b: Operand)
    | Same(eq: bool, a: Operand, b: Operand)
    | SameBool(eq: bool, x: Expr, y: Expr)
    | InstanceOf(a: Operand, cls: nat)
    | Choose(c: Expr, x: Expr, y: Expr)
    | Bits(op: BitOp, x: Expr, y: Expr)
    | Other(id: nat)

  /** What the type checker guarantees. */
  predicate Typed(e: Expr) {
    match e
    case Folded(_) => true
    case Paren(e') => Typed(e')
    case Not(e') => Typed(e')
    case And(x, y) => Typed(x) && Typed(y)
    case Or(x, y) => Typed(x) && Typed(y)
    case Compare(_, a, b) => a.Operand? && b.Operand? && Numeric(a.ty) && Numeric(b.ty)
    case Same(_, a, b) => IsRef(a) && IsRef(b)
    case SameBool(_, x, y) => Typed(x) && Typed(y)
    case InstanceOf(a, _) => IsRef(a)
    case Choose(c, x, y) => Typed(c) && Typed(x) && Typed(y)
    case Bits(_, x, y) => Typed(x) && Typed(y)
    case Other(_) => true
  }

  predicate IsRef(a: Operand) { a.Null? || a.ty == TRef }

  // ---- what expressions mean ----------------------------------------------

  /** Evaluating an operand yields a value or completes abruptly, and either way may change the world. */
  datatype Res<W> = Value(v: Val, w: W) | Abrupt(w: W)

  datatype Env<!W> = Env(run: (nat, Ty, W) -> Res<W>, widen: (Ty, Ty, Val) -> Val, isInstance: (int, nat) -> bool)

  ghost predicate Behaved<W(!new)>(env: Env<W>) {
    && (forall id, t, w :: env.run(id, t, w).Value? ==> HasType(env.run(id, t, w).v, t))
    && (forall from, to, v :: HasType(v, from) ==> HasType(env.widen(from, to, v), to))
  }

  function Converted<W>(env: Env<W>, from: Ty, to: Ty, v: Val): Val {
    if from == to then v else env.widen(from, to, v)
  }

  function OperandValue<W>(env: Env<W>, a: Operand, w: W): Res<W> {
    match a
    case Null => Value(R(0), w)
    case Operand(id, ty) => env.run(id, ty, w)
  }

  datatype Truth<W> = True(w: W) | False(w: W) | Threw(w: W)

  function Decided<W>(b: bool, w: W): Truth<W> { if b then True(w) else False(w) }

  /** Both operands in order, then the test. */
  function Both<W>(env: Env<W>, a: Operand, b: Operand, w: W): (Res<W>, Res<W>) {
    match OperandValue(env, a, w)
    case Abrupt(w1) => (Abrupt(w1), Abrupt(w1))
    case Value(va, w1) => (Value(va, w1), OperandValue(env, b, w1))
  }

  function BitTruth(op: BitOp, a: bool, b: bool): bool {
    match op
    case BitAnd => a && b
    case BitOr => a || b
    case BitXor => a != b
  }

  /**
   * Evaluation in the order of chapter 15 of the Java Language Specification. `when` and `fused` select what a
   * floating relational test with a NaN operand is taken to decide: the language's answer, or the answer of the
   * branch emitted for it, which always jumps and so reads as `when`.
   */
  function Eval<W>(env: Env<W>, e: Expr, when: bool, fused: bool, w: W): Truth<W>
    requires Typed(e)
    decreases e
  {
    match e
    case Folded(b) => Decided(b, w)
    case Paren(e') => Eval(env, e', when, fused, w)
    case Not(e') =>
      (match Eval(env, e', !when, fused, w)
       case True(w1) => False(w1)
       case False(w1) => True(w1)
       case Threw(w1) => Threw(w1))
    case And(x, y) =>
      (match Eval(env, x, false, fused, w)
       case True(w1) => Eval(env, y, when, fused, w1)
       case r => r)
    case Or(x, y) =>
      (match Eval(env, x, true, fused, w)
       case False(w1) => Eval(env, y, when, fused, w1)
       case r => r)
    case Compare(k, a, b) =>
      (match Both(env, a, b, w)
       case (Value(va, _), Value(vb, w2)) =>
         var t := Promoted(a.ty, b.ty);
         var pa, pb := Converted(env, a.ty, t, va), Converted(env, b.ty, t, vb);
         Decided(if fused && Unordered(k, pa, pb) then when else RelVal(k, pa, pb), w2)
       case (_, r) => Threw(r.w))
    case Same(eq, a, b) =>
      (match Both(env, a, b, w)
       case (Value(va, _), Value(vb, w2)) => Decided((va == vb) == eq, w2)
       case (_, r) => Threw(r.w))
    case SameBool(eq, x, y) =>
      (match Eval(env, x, true, fused, w)
       case Threw(w1) => Threw(w1)
       case r => match Eval(env, y, true, fused, r.w)
         case Threw(w2) => Threw(w2)
         case r2 => Decided((r.True? == r2.True?) == eq, r2.w))
    case InstanceOf(a, cls) =>
      (match OperandValue(env, a, w)
       case Value(v, w1) => Decided(v.R? && v.ref != 0 && env.isInstance(v.ref, cls), w1)
       case Abrupt(w1) => Threw(w1))
    case Choose(c, x, y) =>
      (match Eval(env, c, false, fused, w)
       case True(w1) => Eval(env, x, true, fused, w1)
       case False(w1) => Eval(env, y, true, fused, w1)
       case Threw(w1) => Threw(w1))
    case Bits(op, x, y) =>
      (match Eval(env, x, true, fused, w)
       case Threw(w1) => Threw(w1)
       case r => match Eval(env, y, true, fused, r.w)
         case Threw(w2) => Threw(w2)
         case r2 => Decided(BitTruth(op, r.True?, r2.True?), r2.w))
    case Other(id) =>
      (match env.run(id, TBool, w)
       case Value(v, w1) => Decided(v != I(0), w1)
       case Abrupt(w1) => Threw(w1))
  }

  /** The value the Java Language Specification gives the expression. */
  function Meaning<W>(env: Env<W>, e: Expr, w: W): Truth<W>
    requires Typed(e)
  {
    Eval(env, e, true, false, w)
  }

  /** Without the fused reading the position of an expression does not matter. */
  lemma {:induction false} MeaningIgnoresPosition<W>(env: Env<W>, e: Expr, when: bool, w: W)
    requires Typed(e)
    ensures Eval(env, e, when, false, w) == Meaning(env, e, w)
    decreases e
  {
    match e
    case Paren(e') => MeaningIgnoresPosition(env, e', when, w);
    case Not(e') =>
      MeaningIgnoresPosition(env, e', when, w);
      MeaningIgnoresPosition(env, e', !when, w);
    case And(x, y) =>
      var r := Eval(env, x, false, false, w);
      MeaningIgnoresPosition(env, y, when, r.w);
    case Or(x, y) =>
      var r := Eval(env, x, true, false, w);
      MeaningIgnoresPosition(env, y, when, r.w);
    case _ =>
  }

  // ---- emitted code -------------------------------------------------------

  datatype Ins =
    | Load(id: nat, ty: Ty)
    | PushNull
    | PushInt(v: int)
    | Widen(from: Ty, to: Ty)
    | Cmp(ty: Ty, g: bool)
    | TypeTest(cls: nat)
    | Logic(op: BitOp)
    | IfZero(k: Rel, l: nat)
    | IfInts(k: Rel, l: nat)
    | IfRefs(eq: bool, l: nat)
    | IfNull(isNull: bool, l: nat)
    | Goto(l: nat)
    | Mark(l: nat)

  /** Code together with the next unused label. */
  type Code = (seq<Ins>, nat)

  function Fetch(a: Operand): seq<Ins> {
    match a
    case Null => [PushNull]
    case Operand(id, ty) => [Load(id, ty)]
  }

  function FetchAs(a: Operand, t: Ty): seq<Ins>
    requires a.Operand?
  {
    Fetch(a) + if a.ty == t then [] else [Widen(a.ty, t)]
  }

  /** The variant of the three-way comparison chosen for the test that follows. */
  function Variant(k: Rel): bool { k == GT || k == GE }

  function EmitCompare(k: Rel, a: Operand, b: Operand, target: nat, when: bool): seq<Ins>
    requires a.Operand? && b.Operand?
  {
    var t := Promoted(a.ty, b.ty);
    var test := if when then k else Opposite(k);
    FetchAs(a, t) + FetchAs(b, t)
    + if t == TInt then [IfInts(test, target)] else [Cmp(t, Variant(test)), IfZero(test, target)]
  }

  /** Against a literal null one operand is fetched, otherwise both. */
  function EmitSame(eq: bool, a: Operand, b: Operand, target: nat, when: bool): seq<Ins> {
    if b.Null? then Fetch(a) + [IfNull(eq == when, target)]
    else if a.Null? then Fetch(b) + [IfNull(eq == when, target)]
    else Fetch(a) + Fetch(b) + [IfRefs(eq == when, target)]
  }

  /** Forms that reach a branch only by being materialised and tested. */
  predicate Materialised(e: Expr) { e.Choose? || e.Bits? || e.Other? }

  function TestZero(target: nat, when: bool): Ins { IfZero(if when then NE else EQ, target) }

  /** e as a branch to target, taken when e evaluates to `when`. */
  function EmitCond(e: Expr, target: nat, when: bool, n: nat): (r: Code)
    requires Typed(e)
    ensures r.1 >= n
    decreases e, if Materialised(e) then 1 else 0
  {
    match e
    case Folded(b) => (if b == when then [Goto(target)] else [], n)
    case Paren(e') => EmitCond(e', target, when, n)
    case Not(e') => EmitCond(e', target, !when, n)
    case And(x, y) =>
      if when then
        var cx := EmitCond(x, n, false, n + 1);
        var cy := EmitCond(y, target, true, cx.1);
        (cx.0 + cy.0 + [Mark(n)], cy.1)
      else
        var cx := EmitCond(x, target, false, n);
        var cy := EmitCond(y, target, false, cx.1);
        (cx.0 + cy.0, cy.1)
    case Or(x, y) =>
      if when then
        var cx := EmitCond(x, target, true, n);
        var cy := EmitCond(y, target, true, cx.1);
        (cx.0 + cy.0, cy.1)
      else
        var cx := EmitCond(x, n, true, n + 1);
        var cy := EmitCond(y, target, false, cx.1);
        (cx.0 + cy.0 + [Mark(n)], cy.1)
    case Compare(k, a, b) => (EmitCompare(k, a, b, target, when), n)
    case Same(eq, a, b) => (EmitSame(eq, a, b, target, when), n)
    case SameBool(eq, x, y) =>
      var cx := EmitValue(x, n);
      var cy := EmitValue(y, cx.1);
      (cx.0 + cy.0 + [IfInts(if eq == when then EQ else NE, target)], cy.1)
    case InstanceOf(a, cls) => (Fetch(a) + [TypeTest(cls), TestZero(target, when)], n)
    case _ =>
      var c := EmitValue(e, n);
      (c.0 + [TestZero(target, when)], c.1)
  }

  /** e as the int 0 or 1 on the stack. */
  function EmitValue(e: Expr, n: nat): (r: Code)
    requires Typed(e)
    ensures r.1 >= n
    decreases e, if Materialised(e) then 0 else 1
  {
    match e
    case Folded(b) => ([PushInt(if b then 1 else 0)], n)
    case Paren(e') => EmitValue(e', n)
    case InstanceOf(a, cls) => (Fetch(a) + [TypeTest(cls)], n)
    case Choose(c, x, y) =>
      var cc := EmitCond(c, n, false, n + 2);
      var cx := EmitValue(x, cc.1);
      var cy := EmitValue(y, cx.1);
      (cc.0 + cx.0 + [Goto(n + 1), Mark(n)] + cy.0 + [Mark(n + 1)], cy.1)
    case Bits(op, x, y) =>
      var cx := EmitValue(x, n);
      var cy := EmitValue(y, cx.1);
      (cx.0 + cy.0 + [Logic(op)], cy.1)
    case Other(id) => ([Load(id, TBool)], n)
    case _ =>
      var c := EmitCond(e, n, true, n + 2);
      (c.0 + [PushInt(0), Goto(n + 1), Mark(n), PushInt(1), Mark(n + 1)], c.1)
  }

  // ---- running code -------------------------------------------------------

  datatype Config<W> = Running(pc: nat, stack: seq<Val>, w: W) | Thrown(w: W) | Stuck

  /** The three-way comparison: NaN yields 1 in the g variant and -1 in the l variant. */
  function ThreeWay(ty: Ty, g: bool, a: Val, b: Val): int {
    if Unordered(LT, a, b) then (if g then 1 else -1)
    else if RelVal(LT, a, b) then -1 else if RelVal(EQ, a, b) then 0 else 1
  }

  function LogicOf(op: BitOp, a: int, b: int): int
    requires 0 <= a <= 1 && 0 <= b <= 1
  {
    if BitTruth(op, a == 1, b == 1) then 1 else 0
  }

  function Jump<W>(to: nat, pc: nat, taken: bool, stack: seq<Val>, w: W): Config<W> {
    Running(if taken then to else pc + 1, stack, w)
  }

  /** One instruction; `at` says where each label is marked. */
  function Step<W>(env: Env<W>, code: seq<Ins>, at: nat -> nat, c: Config<W>): Config<W> {
    if !c.Running? then c
    else if c.pc >= |code| then Stuck
    else
      var s, n, w := c.stack, |c.stack|, c.w;
      match code[c.pc]
      case Load(id, ty) =>
        (match env.run(id, ty, w)
         case Value(v, w1) => Running(c.pc + 1, s + [v], w1)
         case Abrupt(w1) => Thrown(w1))
      case PushNull => Running(c.pc + 1, s + [R(0)], w)
      case PushInt(v) => Running(c.pc + 1, s + [I(v)], w)
      case Widen(from, to) => if n < 1 then Stuck else Running(c.pc + 1, s[..n - 1] + [env.widen(from, to, s[n - 1])], w)
      case Cmp(ty, g) => if n < 2 then Stuck else Running(c.pc + 1, s[..n - 2] + [I(ThreeWay(ty, g, s[n - 2], s[n - 1]))], w)
      case TypeTest(cls) =>
        if n < 1 || !s[n - 1].R? then Stuck
        else Running(c.pc + 1, s[..n - 1] + [I(if s[n - 1].ref != 0 && env.isInstance(s[n - 1].ref, cls) then 1 else 0)], w)
      case Logic(op) =>
        if n < 2 || !HasType(s[n - 2], TBool) || !HasType(s[n - 1], TBool) then Stuck
        else Running(c.pc + 1, s[..n - 2] + [I(LogicOf(op, s[n - 2].v, s[n - 1].v))], w)
      case IfZero(k, l) => if n < 1 || !s[n - 1].I? then Stuck else Jump(at(l), c.pc, RelInt(k, s[n - 1].v, 0), s[..n - 1], w)
      case IfInts(k, l) =>
        if n < 2 || !s[n - 2].I? || !s[n - 1].I? then Stuck
        else Jump(at(l), c.pc, RelInt(k, s[n - 2].v, s[n - 1].v), s[..n - 2], w)
      case IfRefs(eq, l) => if n < 2 then Stuck else Jump(at(l), c.pc, (s[n - 2] == s[n - 1]) == eq, s[..n - 2], w)
      case IfNull(isNull, l) => if n < 1 then Stuck else Jump(at(l), c.pc, (s[n - 1] == R(0)) == isNull, s[..n - 1], w)
      case Goto(l) => Running(at(l), s, w)
      case Mark(_) => Running(c.pc + 1, s, w)
  }

  function Run<W>(env: Env<W>, code: seq<Ins>, at: nat -> nat, n: nat, c: Config<W>): Config<W> {
    if n == 0 then c else Run(env, code, at, n - 1, Step(env, code, at, c))
  }

  ghost predicate Reaches<W>(env: Env<W>, code: seq<Ins>, at: nat -> nat, c: Config<W>, c': Config<W>) {
    exists n: nat :: Run(env, code, at, n, c) == c'
  }
}
