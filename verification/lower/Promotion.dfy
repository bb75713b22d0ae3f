/** Numeric promotion stated apart from the functions the compiler and the language's rules share. */
module Promotion {
  import L = Lvalues
  import C = Conditions
  type Kind = L.Kind

  /** The widening primitive conversions of section 5.1.2 of the Java Language Specification. */
  predicate Widening(from: Kind, to: Kind) {
    match from
    case KByte => to in {L.KShort, L.KInt, L.KLong, L.KFloat, L.KDouble}
    case KShort => to in {L.KInt, L.KLong, L.KFloat, L.KDouble}
    case KChar => to in {L.KInt, L.KLong, L.KFloat, L.KDouble}
    case KInt => to in {L.KLong, L.KFloat, L.KDouble}
    case KLong => to in {L.KFloat, L.KDouble}
    case KFloat => to in {L.KDouble}
    case _ => false
  }

  predicate Becomes(from: Kind, to: Kind) { from == to || Widening(from, to) }

  /** Both operands become p, and p becomes every other type of arithmetic that both become. */
  ghost predicate Least(p: Kind, a: Kind, b: Kind) {
    && p in {L.KInt, L.KLong, L.KFloat, L.KDouble} && Becomes(a, p) && Becomes(b, p)
    && forall q :: q in {L.KInt, L.KLong, L.KFloat, L.KDouble} && Becomes(a, q) && Becomes(b, q) ==> Becomes(p, q)
  }

  /** Section 5.6 of the Java Language Specification: two operands are promoted to the least type of arithmetic they become. */
  lemma PromotedLeast(a: Kind, b: Kind, p: Kind)
    requires L.Numeric(a) && L.Numeric(b)
    ensures Least(p, a, b) <==> p == L.Promoted2(a, b)
  {
    if Least(p, a, b) { LeastUnique(p, L.Promoted2(a, b), a, b); }
  }

  /** And so is one. */
  lemma UnaryLeast(a: Kind, p: Kind)
    requires L.Numeric(a)
    ensures Least(p, a, a) <==> p == L.Promoted(a)
  {
    if Least(p, a, a) { LeastUnique(p, L.Promoted(a), a, a); }
  }

  lemma LeastUnique(p: Kind, q: Kind, a: Kind, b: Kind)
    requires Least(p, a, b) && Least(q, a, b)
    ensures p == q
  {
  }

  function KindOf(t: C.Ty): Kind {
    match t
    case TBool => L.KBool
    case TInt => L.KInt
    case TLong => L.KLong
    case TFloat => L.KFloat
    case TDouble => L.KDouble
    case TRef => L.KRef
  }

  /** The same of the operands of a comparison. */
  lemma ComparedLeast(a: C.Ty, b: C.Ty, p: C.Ty)
    requires C.Numeric(a) && C.Numeric(b)
    ensures Least(KindOf(p), KindOf(a), KindOf(b)) <==> p == C.Promoted(a, b)
  {
    PromotedLeast(KindOf(a), KindOf(b), KindOf(p));
  }

  /** The one that ++ adds is the int converted to the promoted type. */
  lemma OneConverts<E>(env: L.Env<E>, k: Kind, delta: int)
    requires L.Numeric(k) && -1 <= delta <= 1
    ensures L.One(env, L.Promoted(k), delta) == L.Convert(env, L.KInt, L.Promoted(k), L.VI(delta))
  {
  }

  /** Section 15.19: five bits of the distance shift an int and six a long, negative distances included. */
  lemma DistanceMasked(k: Kind, v: L.Value, d: nat)
    requires L.Integral(k) && (v.VI? || v.VL?)
    ensures d == L.Distance(k, v) <==> if k == L.KLong then d < 64 && (v.v - d) % 64 == 0 else d < 32 && (v.v - d) % 32 == 0
  {
    if k == L.KLong { Masked64(v.v, d); } else { Masked32(v.v, d); }
  }

  lemma Masked32(v: int, d: nat)
    ensures d == v % 32 <==> d < 32 && (v - d) % 32 == 0
  {
  }

  lemma Masked64(v: int, d: nat)
    ensures d == v % 64 <==> d < 64 && (v - d) % 64 == 0
  {
  }

  lemma NoArithmetic(it: L.Item, rhs: nat, from: Kind, to: Kind, value: bool, i: L.Ins)
    requires i in L.Address(it) + L.DupAddress(it) + [L.Load(it)] || i in L.Convs(L.Primitive(from, to)) || i in L.EvalAs(rhs, from, to)
             || i in L.StashIf(it, value) + [L.Store(it)]
    ensures !i.Arith?
  {
    hide L.Primitive;
  }

  /** The arithmetic a compound assignment does is in the least type that the variable and the right side both become. */
  lemma ComputedInLeast(it: L.Item, op: L.Op, rhs: nat, rk: Kind, value: bool, p: Kind, i: L.Ins)
    requires L.Numeric(it.kind) && L.Numeric(rk) && !L.IsShift(op) && Least(p, it.kind, rk) && i.Arith?
    ensures i in L.EmitCompound(it, op, rhs, rk, value) <==> i == L.Arith(op, p)
  {
    hide L.Primitive, L.Address, L.DupAddress, L.EvalAs, L.Convs, L.StashIf, L.Promoted2, Least;
    PromotedLeast(it.kind, rk, p);
    var a, b, c, d, e := L.Address(it) + L.DupAddress(it) + [L.Load(it)], L.Convs(L.Primitive(it.kind, p)), L.EvalAs(rhs, rk, p),
                         L.Convs(L.Primitive(p, it.kind)), L.StashIf(it, value) + [L.Store(it)];
    assert L.EmitCompound(it, op, rhs, rk, value) == a + b + c + [L.Arith(op, p)] + d + e;
    if i in a || i in c || i in e { NoArithmetic(it, rhs, rk, p, value, i); }
    if i in b { NoArithmetic(it, rhs, it.kind, p, value, i); }
    if i in d { NoArithmetic(it, rhs, p, it.kind, value, i); }
  }
}
