/** What instructions do to an operand stack of typed values, and that the writer counts its slots right. */
module Effects {
  import opened Bytes
  import opened Opcode
  import opened Layout
  import opened Calls
  import opened Decode
  import opened Pass
  import opened Resolve
  import opened Replay
  import opened StackDiscipline

  // ---- typed stacks -------------------------------------------------------

  /** The computational types of section 2.11.1 of the JVM Specification. */
  datatype Comp = Int | Long | Float | Double | Ref

  function Slots(t: Comp): nat { if t == Long || t == Double then 2 else 1 }

  /** A long or double takes two slots. */
  datatype Slot = Single(t: Comp) | High(t: Comp) | Low(t: Comp)

  function Laid(t: Comp): seq<Slot> { if Slots(t) == 2 then [High(t), Low(t)] else [Single(t)] }

  function Spread(ts: seq<Comp>): seq<Slot> { if ts == [] then [] else Laid(ts[0]) + Spread(ts[1..]) }

  /** The stack holds values, and half of none. */
  predicate Whole(s: seq<Slot>) {
    s == [] || (if s[|s| - 1].Single? then Slots(s[|s| - 1].t) == 1 && Whole(s[..|s| - 1])
                else |s| >= 2 && Slots(s[|s| - 1].t) == 2 && s[|s| - 2..] == Laid(s[|s| - 1].t) && Whole(s[..|s| - 2]))
  }

  // ---- what instructions do -----------------------------------------------

  /** Operands off and results on, or the top `from` slots rearranged, counted from the lowest. */
  datatype Effect = Moves(takes: seq<Comp>, gives: seq<Comp>) | Copies(from: nat, order: seq<nat>)

  /** Four arithmetic types in the order in which opcodes come. */
  function Arithmetic(k: nat): Comp
    requires k < 4
  {
    if k == 0 then Int else if k == 1 then Long else if k == 2 then Float else Double
  }

  /** int, long, float, double, reference, and then byte, char and short, which are ints on the stack. */
  function Element(k: nat): Comp
    requires k < 8
  {
    if k < 4 then Arithmetic(k) else if k == 4 then Ref else Int
  }

  /** Section 6.5 of the JVM Specification, for the instructions whose opcode is all there is and names no local. */
  function Simple(o: byte): Option<Effect> {
    if o == 0x00 then Some(Moves([], []))
    else if o == 0x01 then Some(Moves([], [Ref]))
    else if 0x02 <= o <= 0x08 then Some(Moves([], [Int]))
    else if 0x09 <= o <= 0x0a then Some(Moves([], [Long]))
    else if 0x0b <= o <= 0x0d then Some(Moves([], [Float]))
    else if 0x0e <= o <= 0x0f then Some(Moves([], [Double]))
    else if 0x2e <= o <= 0x35 then Some(Moves([Ref, Int], [Element(o - 0x2e)]))
    else if 0x4f <= o <= 0x56 then Some(Moves([Ref, Int, Element(o - 0x4f)], []))
    else if 0x57 <= o <= 0x5f then Some(Shuffle(o))
    else if 0x60 <= o <= 0x73 then var t := Arithmetic((o - 0x60) % 4); Some(Moves([t, t], [t]))
    else if 0x74 <= o <= 0x77 then var t := Arithmetic(o - 0x74); Some(Moves([t], [t]))
    else if 0x78 <= o <= 0x7d then var t := Arithmetic((o - 0x78) % 2); Some(Moves([t, Int], [t]))
    else if 0x7e <= o <= 0x83 then var t := Arithmetic((o - 0x7e) % 2); Some(Moves([t, t], [t]))
    else if 0x85 <= o <= 0x93 then Some(Conversion(o))
    else if o == 0x94 then Some(Moves([Long, Long], [Int]))
    else if 0x95 <= o <= 0x96 then Some(Moves([Float, Float], [Int]))
    else if 0x97 <= o <= 0x98 then Some(Moves([Double, Double], [Int]))
    else if 0xac <= o <= 0xb0 then Some(Moves([Element(o - 0xac)], []))
    else if o == 0xb1 then Some(Moves([], []))
    else if o == 0xbe then Some(Moves([Ref], [Int]))
    else if o == 0xbf || o == 0xc2 || o == 0xc3 then Some(Moves([Ref], []))
    else None
  }

  /** pop, pop2, dup, dup_x1, dup_x2, dup2, dup2_x1, dup2_x2 and swap. */
  function Shuffle(o: byte): Effect
    requires 0x57 <= o <= 0x5f
  {
    [Copies(1, []), Copies(2, []),
     Copies(1, [0, 0]), Copies(2, [1, 0, 1]), Copies(3, [2, 0, 1, 2]),
     Copies(2, [0, 1, 0, 1]), Copies(3, [1, 2, 0, 1, 2]), Copies(4, [2, 3, 0, 1, 2, 3]),
     Copies(2, [1, 0])][o - 0x57]
  }

  /** From each of the four types to the other three, and then int to byte, char and short. */
  function Conversion(o: byte): Effect
    requires 0x85 <= o <= 0x93
  {
    if o >= 0x91 then Moves([Int], [Int])
    else
      var from, k := (o - 0x85) / 3, (o - 0x85) % 3;
      Moves([Arithmetic(from)], [Arithmetic(if k < from then k else k + 1)])
  }

  /** The call's instruction may have this effect; a field's type, a constant's and a method's are known by width alone. */
  ghost predicate Does(c: Call, e: Effect)
    requires Typed(c)
  {
    match c
    case Place(_) => e == Moves([], [])
    case Try(_, _, _, _) => e == Moves([], [])
    case Inc(_, _) => e == Moves([], [])
    case Local(op, _) => e == if op <= 0x19 then Moves([], [Element(op - 0x15)]) else Moves([Element(op - 0x36)], [])
    case Iconst(_, _) => e == Moves([], [Int])
    case Ldc(_, wide) => exists t: Comp :: (wide <==> Slots(t) == 2) && e == Moves([], [t])
    case Op(op) => Simple(op) == Some(e)
    case Field(op, _, width) => exists t: Comp :: Slots(t) == width && e == FieldMoves(op, t)
    case Invoke(op, _, args, ret) =>
      && e.Moves? && |e.gives| <= 1 && |Spread(e.takes)| == args && |Spread(e.gives)| == ret
      && (op != 0xb8 ==> e.takes != [] && e.takes[0] == Ref)
    case TypeRef(op, _) =>
      e == if op == 0xbb then Moves([], [Ref]) else if op == 0xbd then Moves([Int], [Ref])
           else if op == 0xc0 then Moves([Ref], [Ref]) else Moves([Ref], [Int])
    case NewArray(_) => e == Moves([Int], [Ref])
    case MultiNewArray(_, dims, _) => dims >= 0 && e == Moves(seq(dims, _ => Int), [Ref])
    case Jump(op, _) => e == Moves(Tested(op), [])
    case TableSwitch(_, _, _, _) => e == Moves([Int], [])
    case LookupSwitch(_, _, _) => e == Moves([Int], [])
  }

  /** getstatic, putstatic, getfield and putfield. */
  function FieldMoves(op: byte, t: Comp): Effect {
    if op == 0xb2 then Moves([], [t])
    else if op == 0xb3 then Moves([t], [])
    else if op == 0xb4 then Moves([Ref], [t])
    else Moves([Ref, t], [])
  }

  function Tested(op: byte): seq<Comp> {
    if 0x99 <= op <= 0x9e then [Int]
    else if 0x9f <= op <= 0xa4 then [Int, Int]
    else if 0xa5 <= op <= 0xa6 then [Ref, Ref]
    else if op == 0xa7 then []
    else [Ref]
  }

  /** Returns, athrow, goto and the switches. */
  predicate Leaves(c: Call) {
    (c.Op? && (0xac <= c.op <= 0xb1 || c.op == 0xbf)) || (c.Jump? && c.op == 0xa7) || c.TableSwitch? || c.LookupSwitch?
  }

  predicate InRange(e: Effect) { e.Copies? ==> forall i :: 0 <= i < |e.order| ==> e.order[i] < e.from }

  /** The stack afterwards; none if the operands are not there, or if a copy would tear a long or double apart. */
  function Apply(e: Effect, s: seq<Slot>): Option<seq<Slot>>
    requires InRange(e)
  {
    var n := Taken(e);
    if |s| < n then None
    else
      var low, top := s[..|s| - n], s[|s| - n..];
      match e
      case Moves(takes, gives) => if top == Spread(takes) then Some(low + Spread(gives)) else None
      case Copies(_, order) =>
        var r := low + seq(|order|, i requires 0 <= i < |order| => top[order[i]]);
        if Whole(r) then Some(r) else None
  }

  function Taken(e: Effect): nat { if e.Moves? then |Spread(e.takes)| else e.from }

  function Given(e: Effect): nat { if e.Moves? then |Spread(e.gives)| else |e.order| }

  // ---- the counts ---------------------------------------------------------

  lemma SpreadNone()
    ensures Spread([]) == []
  {
  }

  lemma SpreadOne(t: Comp)
    ensures Spread([t]) == Laid(t) && |Spread([t])| == Slots(t)
  {
  }

  lemma SpreadTwo(t: Comp, u: Comp)
    ensures Spread([t, u]) == Laid(t) + Laid(u)
  {
    assert [t, u][1..] == [u];
    SpreadOne(u);
  }

  lemma SpreadThree(t: Comp, u: Comp, v: Comp)
    ensures Spread([t, u, v]) == Laid(t) + Laid(u) + Laid(v)
  {
    assert [t, u, v][1..] == [u, v];
    SpreadTwo(u, v);
  }

  lemma {:induction false} SpreadInts(n: nat)
    ensures |Spread(seq(n, _ => Int))| == n
  {
    if n > 0 {
      assert seq(n, _ => Int)[1..] == seq(n - 1, _ => Int);
      SpreadInts(n - 1);
    }
  }

  lemma SpreadSmall(e: Effect)
    requires e.Moves? && |e.takes| <= 3 && |e.gives| <= 1
    ensures Taken(e) == SlotsAt(e.takes, 0) + SlotsAt(e.takes, 1) + SlotsAt(e.takes, 2) && Given(e) == SlotsAt(e.gives, 0)
  {
    var t, g := e.takes, e.gives;
    if |t| == 1 { SpreadOne(t[0]); assert t == [t[0]]; }
    if |t| == 2 { SpreadTwo(t[0], t[1]); assert t == [t[0], t[1]]; }
    if |t| == 3 { SpreadThree(t[0], t[1], t[2]); assert t == [t[0], t[1], t[2]]; }
    if |g| == 1 { SpreadOne(g[0]); assert g == [g[0]]; }
  }

  lemma SimpleSmall(o: byte)
    requires Simple(o).Some?
    ensures var e := Simple(o).value; InRange(e) && (e.Moves? ==> |e.takes| <= 3 && |e.gives| <= 1)
  {
    if 0x57 <= o <= 0x5f { ShuffleFits(o); }
  }

  lemma ShuffleFits(o: byte)
    requires 0x57 <= o <= 0x5f
    ensures Shuffle(o).Copies? && InRange(Shuffle(o))
  {
  }

  /**
   * The writer emits an instruction without operands exactly when the specification has one that names no local, and its
   * slot counts are the slots of the operands and of the results.
   */
  lemma SimpleExactly(o: byte)
    ensures SimpleDelta(o).Delta? <==> Simple(o).Some?
    ensures Simple(o).Some? ==> SimpleDelta(o) == Delta(Taken(Simple(o).value), Given(Simple(o).value))
    ensures Simple(o).Some? ==> KindOf(o).NoOperand? && (Terminates(o) <==> Leaves(Op(o)))
  {
    if o < 0x57 { SimpleLow(o); } else if o <= 0x5f { SimpleShuffle(o); } else if o <= 0x83 { SimpleArithmetic(o); } else if o <= 0x93 { SimpleConversion(o); } else { SimpleHigh(o); }
  }

  lemma SimpleLow(o: byte)
    requires o < 0x57
    ensures Agrees(o)
  {
    Counted(o);
  }

  lemma SimpleShuffle(o: byte)
    requires 0x57 <= o <= 0x5f
    ensures Agrees(o)
  {
    ShuffleFits(o);
    CopiesCount(Shuffle(o));
  }

  lemma SimpleArithmetic(o: byte)
    requires 0x60 <= o <= 0x83
    ensures Agrees(o)
  {
    Counted(o);
  }

  lemma SimpleConversion(o: byte)
    requires 0x84 <= o <= 0x93
    ensures Agrees(o)
  {
    hide Spread, Taken, Given;
    Counted(o);
  }

  lemma SimpleHigh(o: byte)
    requires 0x94 <= o
    ensures Agrees(o)
  {
    hide Spread, Taken, Given;
    Counted(o);
  }

  predicate Agrees(o: byte) {
    if Simple(o).None? then SimpleDelta(o).NotEmitted?
    else
      var e := Simple(o).value;
      SimpleDelta(o) == Delta(Taken(e), Given(e)) && KindOf(o).NoOperand? && (Terminates(o) <==> Leaves(Op(o)))
  }

  lemma Counted(o: byte)
    requires Simple(o).Some? ==> Simple(o).value.Moves?
    ensures Simple(o).Some? ==>
              var e := Simple(o).value;
              && |e.takes| <= 3 && |e.gives| <= 1
              && Taken(e) == SlotsAt(e.takes, 0) + SlotsAt(e.takes, 1) + SlotsAt(e.takes, 2) && Given(e) == SlotsAt(e.gives, 0)
  {
    hide Spread, Taken, Given;
    if Simple(o).Some? {
      SimpleSmall(o);
      SpreadSmall(Simple(o).value);
    }
  }

  function SlotsAt(ts: seq<Comp>, i: nat): nat { if i < |ts| then Slots(ts[i]) else 0 }

  lemma CopiesCount(e: Effect)
    requires e.Copies?
    ensures Taken(e) == e.from && Given(e) == |e.order|
  {
  }

  // ---- every call ---------------------------------------------------------

  predicate Casts(c: Call) { c.TypeRef? && (c.op == 0xc0 || c.op == 0xc1) }

  /** What the writer counts off and on is what the effect takes and gives, but for casts and type tests: only their difference is. */
  ghost predicate Counts(c: Call, e: Effect)
    requires Typed(c)
  {
    var k := Lower(c);
    && InRange(e) && (Leaves(c) <==> Ends(k))
    && if Casts(c) then Pops(k) == Pushes(k) == 0 && Taken(e) == Given(e) == 1 else Pops(k) == Taken(e) && Pushes(k) == Given(e)
  }

  lemma CallCounts(c: Call, e: Effect)
    requires Typed(c) && !Lower(c).Refused? && Does(c, e)
    ensures Counts(c, e)
  {
    hide Spread, Zip, Sort, Simple, SimpleDelta, LocalEnc, IncEnc, IconstEnc, LdcEnc, InvokeEnc, U2, U4, U1;
    match c
    case Op(op) => OpCounts(c, e);
    case Local(op, slot) => LocalCounts(c, e);
    case Field(op, _, _) => FieldCounts(c, e);
    case MultiNewArray(_, dims, _) =>
      SpreadInts(dims);
      SpreadOne(Ref);
    case TableSwitch(_, _, _, _) => SpreadSmall(e); SpreadNone();
    case LookupSwitch(_, _, _) => SpreadSmall(e); SpreadNone();
    case Invoke(_, _, _, _) =>
    case _ => PlainCounts(c, e);
  }

  lemma OpCounts(c: Call, e: Effect)
    requires c.Op? && Typed(c) && !Lower(c).Refused? && Does(c, e)
    ensures Counts(c, e)
  {
    hide Spread, Simple, SimpleDelta, Taken, Given, KindOf, Terminates;
    SimpleExactly(c.op);
    SimpleSmall(c.op);
  }

  lemma LocalCounts(c: Call, e: Effect)
    requires c.Local? && Typed(c) && !Lower(c).Refused? && Does(c, e)
    ensures Counts(c, e)
    ensures Lower(c).locals == c.slot + Taken(e) + Given(e)
  {
    hide Spread, LocalEnc, Taken, Given;
    SpreadSmall(e);
  }

  lemma FieldCounts(c: Call, e: Effect)
    requires c.Field? && Typed(c) && Does(c, e)
    ensures Counts(c, e)
  {
    hide Spread, Taken, Given, U2;
    SpreadSmall(e);
  }

  lemma PlainCounts(c: Call, e: Effect)
    requires c.Place? || c.Try? || c.Inc? || c.Iconst? || c.Ldc? || c.TypeRef? || c.NewArray? || c.Jump?
    requires Typed(c) && !Lower(c).Refused? && Does(c, e)
    ensures Counts(c, e)
  {
    hide Spread, Taken, Given, U2, IncEnc, IconstEnc, LdcEnc;
    SpreadSmall(e);
  }

  // ---- stacks -------------------------------------------------------------

  /** An effect needs exactly the slots it takes: with fewer it has none to work on, and what lies under them stays. */
  lemma ApplyCounts(e: Effect, s: seq<Slot>)
    requires InRange(e)
    ensures |s| < Taken(e) ==> Apply(e, s).None?
    ensures Apply(e, s).Some? ==> var r := Apply(e, s).value; |r| == |s| - Taken(e) + Given(e) && r[..|s| - Taken(e)] == s[..|s| - Taken(e)]
  {
    hide Spread, Whole;
  }

  lemma WholeMore(s: seq<Slot>, t: Comp)
    requires Whole(s)
    ensures Whole(s + Laid(t))
  {
    var r := s + Laid(t);
    if Slots(t) == 2 { assert r[..|r| - 2] == s && r[|r| - 2..] == Laid(t); } else { assert r[..|r| - 1] == s; }
  }

  lemma {:induction false} WholeThen(s: seq<Slot>, ts: seq<Comp>)
    requires Whole(s)
    ensures Whole(s + Spread(ts))
    decreases |ts|
  {
    hide Whole, Laid;
    if ts == [] {
      assert s + Spread(ts) == s;
    } else {
      WholeMore(s, ts[0]);
      WholeThen(s + Laid(ts[0]), ts[1..]);
      assert s + Spread(ts) == s + Laid(ts[0]) + Spread(ts[1..]);
    }
  }

  /** And with those slots on the stack, a whole stack, it has its effect: no count is larger than needed. */
  lemma ApplyPossible(o: byte) returns (s: seq<Slot>)
    requires Simple(o).Some?
    ensures var e := Simple(o).value; InRange(e) && Whole(s) && |s| == Taken(e) && Apply(e, s).Some?
  {
    SimpleSmall(o);
    var e := Simple(o).value;
    if e.Moves? {
      s := Spread(e.takes);
      WholeThen([], e.takes);
      assert [] + Spread(e.takes) == s;
    } else {
      s := seq(e.from, _ => Single(Int));
      Ints(s);
      var top := s[|s| - e.from..];
      var r := s[..|s| - e.from] + seq(|e.order|, i requires 0 <= i < |e.order| => top[e.order[i]]);
      Ints(r);
    }
  }

  lemma {:induction false} Ints(s: seq<Slot>)
    requires forall i :: 0 <= i < |s| ==> s[i] == Single(Int)
    ensures Whole(s)
    decreases |s|
  {
    if s != [] { Ints(s[..|s| - 1]); }
  }

  // ---- every path ---------------------------------------------------------

  /** The labels a call can go to. */
  function Goals(c: Call): seq<nat> {
    match c
    case Jump(_, l) => [l]
    case TableSwitch(_, _, def, targets) => [def] + targets
    case LookupSwitch(def, _, targets) => [def] + targets
    case _ => []
  }

  lemma GoalsAreTargets(c: Call, t: nat)
    requires Typed(c) && !Lower(c).Refused? && t in Goals(c)
    ensures t in Targets(Lower(c))
  {
    hide Sort, Zip, Ascending, Firsts;
    if c.LookupSwitch? && t != c.def {
      var s := Sort(Zip(c.matches, c.targets));
      var k :| 0 <= k < |c.targets| && c.targets[k] == t;
      Sorted(c.matches, c.targets, k);
      var j :| 0 <= j < |s| && s[j] == (c.matches[k], c.targets[k]);
      assert ([c.def] + Seconds(s))[j + 1] == t;
    }
  }

  lemma Sorted(matches: seq<int>, targets: seq<nat>, k: nat)
    requires |matches| == |targets| && k < |matches|
    ensures (matches[k], targets[k]) in Sort(Zip(matches, targets))
  {
    hide Sort;
    var zipped := Zip(matches, targets);
    SortSorts(zipped);
    assert zipped[k] in multiset(Sort(zipped));
  }

  ghost predicate AllTyped(calls: seq<Call>) { forall k :: 0 <= k < |calls| ==> Typed(calls[k]) }

  /** From call i with stack s, control can be at call j with stack r; a handler starts with the object thrown. */
  ghost predicate Steps(calls: seq<Call>, argSlots: nat, i: nat, s: seq<Slot>, j: nat, r: seq<Slot>)
    requires AllTyped(calls)
  {
    var p := Prog(argSlots, LowerAll(calls));
    && i < |calls|
    && ((exists e :: Does(calls[i], e) && InRange(e) && Apply(e, s) == Some(r)
           && ((!Leaves(calls[i]) && j == i + 1) || exists t :: t in Goals(calls[i]) && j == MarkOf(p, |p.cmds|, t)))
        || (exists k :: 0 <= k < |calls| && p.cmds[k].TryCatch? && Covers(p, k, i)
              && j == MarkOf(p, |p.cmds|, p.cmds[k].handler) && r == [Single(Ref)]))
  }

  ghost predicate Reaches(calls: seq<Call>, argSlots: nat, n: nat, i: nat, s: seq<Slot>)
    requires AllTyped(calls)
  {
    if n == 0 then i == 0 && s == []
    else exists j, r :: Reaches(calls, argSlots, n - 1, j, r) && Steps(calls, argSlots, j, r, i, s)
  }

  lemma NotRefused(p: Prog, widen: set<nat>, i: nat)
    requires Accepted(p, widen) && i < |p.cmds|
    ensures !p.cmds[i].Refused?
  {
    hide Do, Start, OnePass, Records;
    AcceptedIsClean(p, widen);
    CleanBefore(p, widen, i + 1, |p.cmds|);
    StepFacts(Run(p, widen, i), p.cmds[i], widen);
  }

  lemma StepFlows(calls: seq<Call>, argSlots: nat, widen: set<nat>, i: nat, s: seq<Slot>, j: nat, r: seq<Slot>)
    requires AllTyped(calls) && Steps(calls, argSlots, i, s, j, r) && Accepted(Prog(argSlots, LowerAll(calls)), widen)
    ensures Flows(Prog(argSlots, LowerAll(calls)), i, |s|, j, |r|)
  {
    hide Apply, OnePass, Does, Covers, MarkOf, Counts;
    var p := Prog(argSlots, LowerAll(calls));
    if e :| Does(calls[i], e) && InRange(e) && Apply(e, s) == Some(r)
            && ((!Leaves(calls[i]) && j == i + 1) || exists t :: t in Goals(calls[i]) && j == MarkOf(p, |p.cmds|, t)) {
      NotRefused(p, widen, i);
      CallCounts(calls[i], e);
      CountsNet(calls[i], e);
      ApplyCounts(e, s);
      if t :| t in Goals(calls[i]) && j == MarkOf(p, |p.cmds|, t) { GoalsAreTargets(calls[i], t); }
    }
  }

  lemma CountsNet(c: Call, e: Effect)
    requires Typed(c) && !Lower(c).Refused? && Does(c, e) && Counts(c, e)
    ensures Ends(Lower(c)) <==> Leaves(c)
    ensures Taken(e) - Given(e) == Pops(Lower(c)) - Pushes(Lower(c))
    ensures Goals(c) != [] ==> Pushes(Lower(c)) == 0
  {
    hide Taken, Given;
  }

  lemma {:induction false} ReachesArrives(calls: seq<Call>, argSlots: nat, widen: set<nat>, n: nat, i: nat, s: seq<Slot>)
    requires AllTyped(calls) && Reaches(calls, argSlots, n, i, s) && Accepted(Prog(argSlots, LowerAll(calls)), widen)
    ensures Arrives(Prog(argSlots, LowerAll(calls)), n, i, |s|)
    decreases n
  {
    hide Steps, OnePass, Flows;
    if n > 0 {
      var j, r :| Reaches(calls, argSlots, n - 1, j, r) && Steps(calls, argSlots, j, r, i, s);
      ReachesArrives(calls, argSlots, widen, n - 1, j, r);
      StepFlows(calls, argSlots, widen, j, r, i, s);
    }
  }

  /**
   * However control gets to a call of an accepted body, the typed values then on the stack take exactly the slots the writer
   * counted there, and no more than max_stack.
   */
  lemma StackCounted(calls: seq<Call>, argSlots: nat, widen: set<nat>, n: nat, i: nat, s: seq<Slot>)
    requires argSlots <= 255 && AllTyped(calls) && Reaches(calls, argSlots, n, i, s) && Accepted(Prog(argSlots, LowerAll(calls)), widen)
    ensures i < |calls| && EntryDepth(Prog(argSlots, LowerAll(calls)), widen, i, |s|)
    ensures |s| <= OnePass(Prog(argSlots, LowerAll(calls)), widen).maxStack
  {
    hide Reaches, OnePass, Arrives, Do, EntryDepth;
    var p := Prog(argSlots, LowerAll(calls));
    ReachesArrives(calls, argSlots, widen, n, i, s);
    forall k | 0 <= k < |calls| ensures p.cmds[k].Plain? ==> p.cmds[k].locals <= 65535 { LowerFits(calls[k]); }
    StackDiscipline.StackDiscipline(p, widen, n, n, i, |s|, |s|);
    ArrivesAtEntryDepth(p, widen, n, i, |s|);
  }

  // ---- straight lines -----------------------------------------------------

  /** Without labels and branches: the stacks between the calls, none leaving before the last. */
  ghost predicate Line(calls: seq<Call>, ss: seq<seq<Slot>>)
    requires AllTyped(calls)
  {
    && |ss| == |calls| + 1 && ss[0] == []
    && (forall i :: 0 <= i < |calls| ==> !calls[i].Place? && !calls[i].Try? && Goals(calls[i]) == [] && !Lower(calls[i]).Refused?)
    && (forall i :: 0 <= i < |calls| - 1 ==> !Leaves(calls[i]))
    && (forall i :: 0 <= i < |calls| ==> exists e :: Does(calls[i], e) && InRange(e) && Apply(e, ss[i]) == Some(ss[i + 1]))
  }

  function Highest(ss: seq<seq<Slot>>): nat
    requires ss != []
  {
    var n := |ss| - 1;
    if n == 0 then |ss[0]| else Max(Highest(ss[..n]), |ss[n]|)
  }

  /**
   * Straight-line code that runs on a typed stack is accepted: at each call the writer's count is the height of the stack,
   * and max_stack is the greatest height, no less and no more.
   */
  lemma {:induction false} LineAccepted(calls: seq<Call>, argSlots: nat, ss: seq<seq<Slot>>, i: nat)
    requires AllTyped(calls) && Line(calls, ss) && i <= |calls| && |ss| == |calls| + 1
    requires forall k :: 0 <= k < |ss| ==> |ss[k]| <= MAX_STACK
    ensures WellFormedProg(Prog(argSlots, LowerAll(calls)))
    ensures var w := Run(Prog(argSlots, LowerAll(calls)), {}, i);
            && !w.failed && w.depth == |ss[i]| && w.maxStack == Highest(ss[..i + 1])
            && (w.reachable <==> i < |calls| || calls == [] || !Leaves(calls[i - 1]))
    decreases i
  {
    hide Does, Apply, Do, Goals, Highest, Leaves, Lower, Line, WellFormed;
    var p := Prog(argSlots, LowerAll(calls));
    if i == 0 {
      FirstHigh(calls, ss);
    } else {
      LineAccepted(calls, argSlots, ss, i - 1);
      var e := LineAt(calls, ss, i - 1);
      LineStep(Run(p, {}, i - 1), calls[i - 1], e, ss[i - 1], ss[i]);
      NextHigh(ss, i);
    }
  }

  lemma LineAt(calls: seq<Call>, ss: seq<seq<Slot>>, i: nat) returns (e: Effect)
    requires AllTyped(calls) && Line(calls, ss) && i < |calls|
    ensures |ss| == |calls| + 1 && !calls[i].Place? && !calls[i].Try? && Goals(calls[i]) == [] && !Lower(calls[i]).Refused?
    ensures i < |calls| - 1 ==> !Leaves(calls[i])
    ensures Does(calls[i], e) && InRange(e) && Apply(e, ss[i]) == Some(ss[i + 1])
  {
    hide Does, Apply, Goals, Leaves, Lower, InRange;
    e :| Does(calls[i], e) && InRange(e) && Apply(e, ss[i]) == Some(ss[i + 1]);
  }

  lemma FirstHigh(calls: seq<Call>, ss: seq<seq<Slot>>)
    requires AllTyped(calls) && Line(calls, ss)
    ensures |ss| == |calls| + 1 && ss[0] == [] && Highest(ss[..1]) == 0
  {
    OneHigh();
    assert ss[..1] == [[]];
  }

  lemma OneHigh()
    ensures Highest([[]]) == 0
  {
  }

  lemma NextHigh(ss: seq<seq<Slot>>, i: nat)
    requires 0 < i < |ss|
    ensures Highest(ss[..i + 1]) == Max(Highest(ss[..i]), |ss[i]|)
  {
    assert ss[..i + 1][..i] == ss[..i];
  }

  lemma LineStep(w: WState, c: Call, e: Effect, s: seq<Slot>, r: seq<Slot>)
    requires Typed(c) && !Lower(c).Refused? && !c.Place? && !c.Try? && Goals(c) == [] && Does(c, e) && InRange(e) && Apply(e, s) == Some(r)
    requires !w.failed && w.reachable && w.depth == |s| && |r| <= MAX_STACK
    ensures var x := Do(w, Lower(c), {});
            !x.failed && x.depth == |r| && x.maxStack == Max(w.maxStack, |r|) && (x.reachable <==> !Leaves(c))
  {
    hide Does, Apply, Counts;
    CallCounts(c, e);
    CountsNet(c, e);
    CountsEnough(c, e);
    ApplyCounts(e, s);
    PlainStep(w, c);
  }

  lemma CountsEnough(c: Call, e: Effect)
    requires Typed(c) && Counts(c, e)
    ensures Pops(Lower(c)) <= Taken(e)
  {
  }

  lemma PlainStep(w: WState, c: Call)
    requires Typed(c) && !Lower(c).Refused? && !c.Place? && !c.Try? && Goals(c) == []
    requires var k := Lower(c);
             !w.failed && w.reachable && w.depth >= Pops(k) && w.depth - Pops(k) + Pushes(k) <= MAX_STACK
    ensures var x, k := Do(w, Lower(c), {}), Lower(c);
            !x.failed && x.depth == w.depth - Pops(k) + Pushes(k) && x.maxStack == Max(w.maxStack, x.depth) && (x.reachable <==> !Ends(k))
  {
    hide LocalEnc, IncEnc, IconstEnc, LdcEnc, InvokeEnc, U2, SimpleDelta, Zip, Sort;
    assert Lower(c).Plain?;
    NotedNone(w.depths, w.depth - Pops(Lower(c)));
  }
}
