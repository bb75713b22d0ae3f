/** Running a body symbolically and running its bytes: the same computation, whichever branches were widened. */
module Machine {
  import opened Bytes
  import opened Opcode
  import opened Layout
  import opened Calls
  import opened Pass
  import opened Resolve
  import opened Replay
  import opened Decode
  import opened StackDiscipline
  import opened CodeImage

  /** How an instruction without a branch ends: it goes on, throws, or leaves the method. */
  datatype Effect<D> = Next(stack: seq<int>, d: D) | Throws(exn: int, d: D) | Returns(stack: seq<int>, d: D)

  /**
   * The rest of the machine, left open: what each instruction does to the operand stack and to everything else,
   * and which thrown objects a catch type takes. Operand slots are integers; references are integers with 0 for null.
   */
  datatype Semantics<!D> = Semantics(exec: (View, seq<int>, D) -> Effect<D>, catches: (nat, int, D) -> bool)

  /** `at` is a code offset when bytes run and a command index when the body runs. */
  datatype Config<D> =
    | Running(at: nat, stack: seq<int>, d: D)
    | Done(stack: seq<int>, d: D)
    | Uncaught(exn: int, d: D)
    | Stuck

  // ---- tests --------------------------------------------------------------

  /** The condition of a branch on its operands, `a` beneath `b`. */
  predicate Holds(op: byte, a: int, b: int)
    requires IsCond(op)
  {
    if op == IFEQ || op == IFNULL then b == 0
    else if op == IFNE || op == IFNONNULL then b != 0
    else if op == IFLT then b < 0
    else if op == IFGE then b >= 0
    else if op == IFGT then b > 0
    else if op == IFLE then b <= 0
    else if op == IF_ICMPEQ || op == IF_ACMPEQ then a == b
    else if op == IF_ICMPNE || op == IF_ACMPNE then a != b
    else if op == IF_ICMPLT then a < b
    else if op == IF_ICMPGE then a >= b
    else if op == IF_ICMPGT then a > b
    else a <= b
  }

  predicate Enough(op: byte, stack: seq<int>)
    requires IsBranch(op)
  {
    |stack| >= BranchPops(op)
  }

  predicate Taken(op: byte, stack: seq<int>)
    requires IsBranch(op) && Enough(op, stack)
  {
    op == GOTO || Holds(op, if BranchPops(op) == 2 then stack[|stack| - 2] else 0, stack[|stack| - 1])
  }

  function Popped(op: byte, stack: seq<int>): seq<int>
    requires IsBranch(op) && Enough(op, stack)
  {
    stack[..|stack| - BranchPops(op)]
  }

  /** The inverted test takes the same operands and fails exactly when the test succeeds. */
  lemma InvertNegates(op: byte, stack: seq<int>)
    requires IsCond(op)
    ensures Enough(Invert(op), stack) == Enough(op, stack)
    ensures Enough(op, stack) ==> Taken(Invert(op), stack) == !Taken(op, stack) && Popped(Invert(op), stack) == Popped(op, stack)
  {
  }

  // ---- running the bytes --------------------------------------------------

  function CaseTarget(cases: seq<Case>, def: int, key: int): int {
    if cases == [] then def else if cases[0].0 == key then cases[0].1 else CaseTarget(cases[1..], def, key)
  }

  /** The first row that covers `at` and takes the object; the handler starts with just that object. */
  function Dispatch<D>(sem: Semantics<D>, table: seq<Handler>, at: int, exn: int, d: D): Config<D> {
    if table == [] then Uncaught(exn, d)
    else
      var h := table[0];
      if h.start <= at < h.end && (h.catchType == 0 || sem.catches(h.catchType, exn, d)) && h.handler >= 0
      then Running(h.handler, [exn], d)
      else Dispatch(sem, table[1..], at, exn, d)
  }

  function Arrive<D>(at: int, stack: seq<int>, d: D): Config<D> {
    if at < 0 then Stuck else Running(at, stack, d)
  }

  function ByteStep<D>(sem: Semantics<D>, code: seq<byte>, table: seq<Handler>, c: Config<D>): Config<D> {
    if !c.Running? then c
    else if c.at >= |code| || At(code, c.at).None? then Stuck
    else
      var ins := At(code, c.at).value;
      ViewStep(sem, table, Meaning(ins), c.at, c.at + |ins.raw|, Terminates(ins.op), c.stack, c.d)
  }

  /** One instruction at `at`, followed by the one at `next`. */
  function ViewStep<D>(sem: Semantics<D>, table: seq<Handler>, v: View, at: nat, next: nat, ends: bool, stack: seq<int>, d: D): Config<D> {
    match v
    case BranchTo(op, target) =>
      if !IsBranch(op) || !Enough(op, stack) then Stuck
      else Arrive(if Taken(op, stack) then target else next, Popped(op, stack), d)
    case SwitchTo(def, cases) =>
      if stack == [] then Stuck else Arrive(CaseTarget(cases, def, stack[|stack| - 1]), stack[..|stack| - 1], d)
    case _ =>
      match sem.exec(v, stack, d)
      case Next(stack', d') => if ends then Done(stack', d') else Running(next, stack', d')
      case Throws(exn, d') => Dispatch(sem, table, at, exn, d')
      case Returns(stack', d') => Done(stack', d')
  }

  function RunBytes<D>(sem: Semantics<D>, code: seq<byte>, table: seq<Handler>, n: nat, c: Config<D>): Config<D> {
    if n == 0 then c else RunBytes(sem, code, table, n - 1, ByteStep(sem, code, table, c))
  }

  // ---- running the body ---------------------------------------------------

  /** Where a switch call sends a key, as its caller wrote it. */
  function Chosen(c: Call, key: int): nat
    requires c.TableSwitch? || c.LookupSwitch?
    requires c.TableSwitch? ==> c.high - c.low + 1 == |c.targets|
    requires c.LookupSwitch? ==> |c.matches| == |c.targets|
  {
    match c
    case TableSwitch(low, high, def, targets) => if low <= key <= high then targets[key - low] else def
    case LookupSwitch(def, matches, targets) => Paired(matches, targets, def, key)
  }

  function Paired(matches: seq<int>, targets: seq<nat>, def: nat, key: int): nat
    requires |matches| == |targets|
  {
    if matches == [] then def else if matches[0] == key then targets[0] else Paired(matches[1..], targets[1..], def, key)
  }

  /** Control arrives at a label: at the instruction that follows its mark. */
  function AtLabel<D>(p: Prog, l: nat, stack: seq<int>, d: D): Config<D> {
    if MarkOf(p, |p.cmds|, l) < 0 then Stuck else Running(Land(p, MarkOf(p, |p.cmds|, l)), stack, d)
  }

  /** The body's try ranges, as label positions in the body. */
  function DispatchLabels<D>(sem: Semantics<D>, p: Prog, hs: seq<HandlerRec>, i: nat, exn: int, d: D): Config<D> {
    if hs == [] then Uncaught(exn, d)
    else
      var h := hs[0];
      if Within(p, h.start, h.end, i) && (h.catchType == 0 || sem.catches(h.catchType, exn, d)) then AtLabel(p, h.handler, [exn], d)
      else DispatchLabels(sem, p, hs[1..], i, exn, d)
  }

  /** One instruction of the body itself, with no reference to bytes, offsets or widening. */
  function BodyStep<D>(sem: Semantics<D>, calls: seq<Call>, argSlots: nat, c: Config<D>): Config<D>
    requires forall k :: 0 <= k < |calls| ==> Typed(calls[k])
  {
    var p := Prog(argSlots, LowerAll(calls));
    if !c.Running? then c
    else if c.at >= |calls| then Stuck
    else match p.cmds[c.at]
      case Plain(_, _, _, _, ends) =>
        (match sem.exec(Intent(calls[c.at]), c.stack, c.d)
         case Next(stack, d) => if ends then Done(stack, d) else Running(Land(p, c.at + 1), stack, d)
         case Throws(exn, d) => DispatchLabels(sem, p, HandlersOf(p, |p.cmds|), c.at, exn, d)
         case Returns(stack, d) => Done(stack, d))
      case Branch(op, l) =>
        if !Enough(op, c.stack) then Stuck
        else if Taken(op, c.stack) then AtLabel(p, l, Popped(op, c.stack), c.d)
        else Running(Land(p, c.at + 1), Popped(op, c.stack), c.d)
      case Switch(_, _, _) =>
        if c.stack == [] then Stuck
        else AtLabel(p, Chosen(calls[c.at], c.stack[|c.stack| - 1]), c.stack[..|c.stack| - 1], c.d)
      case _ => Stuck
  }

  function RunBody<D>(sem: Semantics<D>, calls: seq<Call>, argSlots: nat, n: nat, c: Config<D>): Config<D>
    requires forall k :: 0 <= k < |calls| ==> Typed(calls[k])
  {
    if n == 0 then c else RunBody(sem, calls, argSlots, n - 1, BodyStep(sem, calls, argSlots, c))
  }

  // ---- the correspondence -------------------------------------------------

  /** The byte configuration of a body configuration. */
  function Image<D>(p: Prog, widen: set<nat>, c: Config<D>): Config<D> {
    match c
    case Running(i, stack, d) => if i <= |p.cmds| then Running(Pos(p, widen, i), stack, d) else Stuck
    case _ => c
  }

  /** Control is at an instruction of the body, or has left it. */
  predicate OnCode<D>(p: Prog, c: Config<D>) {
    c.Running? ==> c.at < |p.cmds| && !IsMarker(p.cmds[c.at])
  }

  lemma LabelImage<D>(p: Prog, widen: set<nat>, l: nat, stack: seq<int>, d: D)
    requires Accepted(p, widen) && MarkOf(p, |p.cmds|, l) >= 0
    ensures OnCode(p, AtLabel(p, l, stack, d))
    ensures Image(p, widen, AtLabel(p, l, stack, d)) == Arrive(LabelPos(p, widen, l), stack, d)
  {
    hide Accepted;
    LabelLands(p, widen, l);
  }

  // ---- exceptions ---------------------------------------------------------

  /** A label's offset as a row holds it: the end of the address space when it was never placed. */
  function RowPc(p: Prog, widen: set<nat>, l: nat): int { if MarkOf(p, |p.cmds|, l) < 0 then 0xffff else LabelPos(p, widen, l) }

  function RowOf(p: Prog, widen: set<nat>, h: HandlerRec): Handler {
    Handler(RowPc(p, widen, h.start), RowPc(p, widen, h.end), RowPc(p, widen, h.handler), h.catchType)
  }

  /** The rows written to the class file are the ranges' code offsets, those of placed labels never wrapped. */
  lemma TableRows(p: Prog, widen: set<nat>)
    requires Accepted(p, widen)
    ensures var hs, table := HandlersOf(p, |p.cmds|), OnePass(p, widen).table;
            |table| == |hs| && forall k :: 0 <= k < |hs| ==> table[k] == RowOf(p, widen, hs[k])
  {
    hide Do, Start, Records, BranchesPlaced, SwitchesPlaced, Overflow, InBuffer, Finished;
    AcceptedIsClean(p, widen);
    var n, w := |p.cmds|, Run(p, widen, |p.cmds|);
    HandlerRecords(p, widen, n);
    forall k | 0 <= k < |w.handlers| ensures OnePass(p, widen).table[k] == RowOf(p, widen, w.handlers[k]) {
      PcFits(p, widen, w.handlers[k].start);
      PcFits(p, widen, w.handlers[k].end);
      PcFits(p, widen, w.handlers[k].handler);
    }
  }

  lemma PcFits(p: Prog, widen: set<nat>, l: nat)
    requires Accepted(p, widen)
    ensures HandlerPc(Run(p, widen, |p.cmds|).pcs, l) == RowPc(p, widen, l)
  {
    hide Do, Start, Records, BranchesPlaced, SwitchesPlaced, Overflow, InBuffer, Finished, OnePass;
    AcceptedIsClean(p, widen);
    LabelPlaces(p, widen, |p.cmds|, l);
    BufferLength(p, widen, |p.cmds|);
    if MarkOf(p, |p.cmds|, l) >= 0 { PosGrows(p, widen, MarkOf(p, |p.cmds|, l), |p.cmds|); }
    FinishedLength(p, widen);
  }

  /** An offset in a row is inside the code array exactly when its label was placed, and 65535 exactly when it was not. */
  lemma RowPlaced(p: Prog, widen: set<nat>, l: nat)
    requires Accepted(p, widen)
    ensures RowPc(p, widen, l) == 0xffff <==> MarkOf(p, |p.cmds|, l) < 0
    ensures RowPc(p, widen, l) < |OnePass(p, widen).code| <==> MarkOf(p, |p.cmds|, l) >= 0
  {
    hide OnePass, Linked, Pos, MarkOf;
    AcceptedIsLinked(p, widen);
    LinkedBound(p, widen, OnePass(p, widen).code);
    if MarkOf(p, |p.cmds|, l) >= 0 {
      LabelLands(p, widen, l);
      var k := Land(p, MarkOf(p, |p.cmds|, l));
      NoneRefused(p, widen, k);
      PosStrict(p, widen, k, |p.cmds|);
      LabelNonNegative(p, widen, l);
    }
  }

  /** The try ranges recorded are the body's. */
  lemma {:induction false} RangesAre(p: Prog, i: nat)
    requires i <= |p.cmds|
    ensures (forall k :: 0 <= k < |HandlersOf(p, i)| ==> MarkOf(p, |p.cmds|, HandlersOf(p, i)[k].handler) >= 0)
            <==> forall k :: 0 <= k < i && p.cmds[k].TryCatch? ==> MarkOf(p, |p.cmds|, p.cmds[k].handler) >= 0
  {
    hide MarkOf;
    if i > 0 {
      RangesAre(p, i - 1);
      var before, all := HandlersOf(p, i - 1), HandlersOf(p, i);
      assert forall k :: 0 <= k < |before| ==> all[k] == before[k];
      if p.cmds[i - 1].TryCatch? {
        assert |all| == |before| + 1 && all[|before|].handler == p.cmds[i - 1].handler;
        if forall k :: 0 <= k < i && p.cmds[k].TryCatch? ==> MarkOf(p, |p.cmds|, p.cmds[k].handler) >= 0 {
          forall k | 0 <= k < |all| ensures MarkOf(p, |p.cmds|, all[k].handler) >= 0 { if k < |before| { assert all[k] == before[k]; } }
        }
        if forall k :: 0 <= k < |all| ==> MarkOf(p, |p.cmds|, all[k].handler) >= 0 {
          forall k | 0 <= k < |before| ensures MarkOf(p, |p.cmds|, before[k].handler) >= 0 { assert all[k] == before[k]; }
          assert MarkOf(p, |p.cmds|, all[|before|].handler) >= 0;
        }
      } else {
        assert all == before;
      }
    }
  }

  /**
   * A row of an accepted body points at 65535, past any code, exactly when its handler label was never placed; every row
   * points inside the code array exactly when all of them were.
   */
  lemma HandlerRowsExactly(p: Prog, widen: set<nat>)
    requires Accepted(p, widen)
    ensures var hs, o := HandlersOf(p, |p.cmds|), OnePass(p, widen);
            && |o.table| == |hs|
            && (forall k :: 0 <= k < |hs| ==> (o.table[k].handler == 0xffff <==> MarkOf(p, |p.cmds|, hs[k].handler) < 0))
            && ((forall k :: 0 <= k < |hs| ==> o.table[k].handler < |o.code|) <==> HandlersPlaced(p))
  {
    hide OnePass, MarkOf;
    TableRows(p, widen);
    RangesAre(p, |p.cmds|);
    var hs, o := HandlersOf(p, |p.cmds|), OnePass(p, widen);
    forall k | 0 <= k < |hs|
      ensures o.table[k].handler == 0xffff <==> MarkOf(p, |p.cmds|, hs[k].handler) < 0
      ensures o.table[k].handler < |o.code| <==> MarkOf(p, |p.cmds|, hs[k].handler) >= 0
    {
      assert o.table[k] == RowOf(p, widen, hs[k]);
      RowPlaced(p, widen, hs[k].handler);
    }
  }

  lemma FinishedLength(p: Prog, widen: set<nat>)
    requires Accepted(p, widen)
    ensures Pos(p, widen, |p.cmds|) <= MAX_CODE_LENGTH
  {
    hide OnePass, Linked;
    AcceptedIsLinked(p, widen);
    LinkedBound(p, widen, OnePass(p, widen).code);
  }

  lemma LinkedBound(p: Prog, widen: set<nat>, code: seq<byte>)
    requires Linked(p, widen, code)
    ensures Pos(p, widen, |p.cmds|) == |code| <= MAX_CODE_LENGTH
  {
    hide Stands, ShortFits, FinalEnc;
  }

  /** An instruction lies in a range of the body exactly when its offset lies in the range of code offsets. */
  lemma RangeAgrees(p: Prog, widen: set<nat>, h: HandlerRec, i: nat)
    requires Accepted(p, widen) && i < |p.cmds| && !IsMarker(p.cmds[i])
    ensures var r := RowOf(p, widen, h); Within(p, h.start, h.end, i) <==> r.start <= Pos(p, widen, i) < r.end
  {
    hide OnePass;
    NoneRefused(p, widen, i);
    var s, e := MarkOf(p, |p.cmds|, h.start), MarkOf(p, |p.cmds|, h.end);
    PosStrict(p, widen, i, |p.cmds|);
    FinishedLength(p, widen);
    if 0 <= s { if s <= i { PosGrows(p, widen, s, i); } else { PosStrict(p, widen, i, s); } }
    if 0 <= e { if e <= i { PosGrows(p, widen, e, i); } else { PosStrict(p, widen, i, e); } }
  }

  /** What the bytes do where the body has nowhere to go: they run off the code array at the next step. */
  ghost predicate Lands<D>(body: Config<D>, bytes: Config<D>) { bytes == body || (body.Stuck? && bytes.Running? && bytes.at == 0xffff) }

  lemma {:induction false} DispatchAgrees<D>(sem: Semantics<D>, p: Prog, widen: set<nat>, hs: seq<HandlerRec>, table: seq<Handler>,
                                             i: nat, exn: int, d: D)
    requires Accepted(p, widen) && i < |p.cmds| && !IsMarker(p.cmds[i])
    requires |table| == |hs| && forall k :: 0 <= k < |hs| ==> table[k] == RowOf(p, widen, hs[k])
    ensures OnCode(p, DispatchLabels(sem, p, hs, i, exn, d))
    ensures Lands(Image(p, widen, DispatchLabels(sem, p, hs, i, exn, d)), Dispatch(sem, table, Pos(p, widen, i), exn, d))
    decreases |hs|
  {
    hide Accepted, LabelPos, Pos, MarkOf, Within;
    if hs != [] {
      var h := hs[0];
      assert table[0] == RowOf(p, widen, h);
      RangeAgrees(p, widen, h, i);
      if MarkOf(p, |p.cmds|, h.handler) >= 0 {
        LabelImage(p, widen, h.handler, [exn], d);
        LabelNonNegative(p, widen, h.handler);
      }
      DispatchAgrees(sem, p, widen, hs[1..], table[1..], i, exn, d);
    }
  }

  lemma LabelNonNegative(p: Prog, widen: set<nat>, l: nat)
    requires MarkOf(p, |p.cmds|, l) >= 0
    ensures LabelPos(p, widen, l) >= 0
  {
  }

  // ---- switches -----------------------------------------------------------

  /** The first pair with the key decides. */
  lemma {:induction false} PairedFound(matches: seq<int>, targets: seq<nat>, def: nat, key: int) returns (k: nat)
    requires |matches| == |targets| && key in matches
    ensures k < |matches| && matches[k] == key && Paired(matches, targets, def, key) == targets[k]
  {
    if matches[0] == key {
      k := 0;
    } else {
      k := PairedFound(matches[1..], targets[1..], def, key);
      k := k + 1;
    }
  }

  lemma {:induction false} PairedMissing(matches: seq<int>, targets: seq<nat>, def: nat, key: int)
    requires |matches| == |targets| && key !in matches
    ensures Paired(matches, targets, def, key) == def
  {
    if matches != [] { PairedMissing(matches[1..], targets[1..], def, key); }
  }

  /** Distinct keys make the order of the cases immaterial. */
  lemma {:induction false} CaseFound(cases: seq<Case>, def: int, key: int, k: nat)
    requires k < |cases| && cases[k].0 == key && forall i, j :: 0 <= i < j < |cases| ==> cases[i].0 != cases[j].0
    ensures CaseTarget(cases, def, key) == cases[k].1
  {
    if k > 0 { CaseFound(cases[1..], def, key, k - 1); }
  }

  lemma {:induction false} CaseMissing(cases: seq<Case>, def: int, key: int)
    requires forall k :: 0 <= k < |cases| ==> cases[k].0 != key
    ensures CaseTarget(cases, def, key) == def
  {
    if cases != [] { CaseMissing(cases[1..], def, key); }
  }

  lemma {:induction false} AscendingDistinct(s: seq<Pair>, i: nat, j: nat)
    requires Ascending(s) && i < j < |s|
    ensures s[i].0 < s[j].0
    decreases j
  {
    if i < j - 1 { AscendingDistinct(s, i, j - 1); }
  }

  /** Sorting the pairs and searching them sends a key where searching the unsorted pairs does. */
  lemma SortedChoice(matches: seq<int>, targets: seq<nat>, def: nat, key: int, cases: seq<Case>, at: nat -> int)
    requires |matches| == |targets| && Ascending(Sort(Zip(matches, targets))) && |cases| == |Sort(Zip(matches, targets))|
    requires forall k :: 0 <= k < |cases| ==>
               cases[k] == (Sort(Zip(matches, targets))[k].0, at(Sort(Zip(matches, targets))[k].1))
    ensures CaseTarget(cases, at(def), key) == at(Paired(matches, targets, def, key))
  {
    hide Sort, Ascending, Paired, CaseTarget;
    var zipped := Zip(matches, targets);
    var s := Sort(zipped);
    SortSorts(zipped);
    if key in matches {
      var m := PairedFound(matches, targets, def, key);
      assert zipped[m] in multiset(s);
      var k :| 0 <= k < |s| && s[k] == zipped[m];
      forall i, j | 0 <= i < j < |cases| ensures cases[i].0 != cases[j].0 { AscendingDistinct(s, i, j); }
      CaseFound(cases, at(def), key, k);
    } else {
      FirstsIn(s, matches, targets);
      PairedMissing(matches, targets, def, key);
      CaseMissing(cases, at(def), key);
    }
  }

  lemma PairedTarget(matches: seq<int>, targets: seq<nat>, def: nat, key: int)
    requires |matches| == |targets|
    ensures Paired(matches, targets, def, key) in [def] + Seconds(Sort(Zip(matches, targets)))
  {
    hide Sort, Paired;
    var zipped := Zip(matches, targets);
    var s := Sort(zipped);
    SortSorts(zipped);
    if key in matches {
      var m := PairedFound(matches, targets, def, key);
      assert zipped[m] in multiset(s);
      var k :| 0 <= k < |s| && s[k] == zipped[m];
      assert ([def] + Seconds(s))[k + 1] == targets[m];
    } else {
      PairedMissing(matches, targets, def, key);
    }
  }

  lemma LookupChoice(p: Prog, widen: set<nat>, c: Call, key: int)
    requires Typed(c) && c.LookupSwitch? && Lower(c).Switch?
    ensures |c.matches| == |c.targets|
    ensures Chosen(c, key) in Lower(c).targets
    ensures var v := SwitchView(p, widen, Lower(c).keys, Lower(c).targets);
            CaseTarget(v.cases, v.def, key) == LabelPos(p, widen, Chosen(c, key))
  {
    hide LabelPos, Sort, Paired, CaseTarget;
    var s := Sort(Zip(c.matches, c.targets));
    var r := Lower(c);
    var at := (l: nat) => LabelPos(p, widen, l);
    var cases := SwitchView(p, widen, r.keys, r.targets).cases;
    assert r.targets == [c.def] + Seconds(s) && r.keys == Firsts(s);
    assert forall k :: 0 <= k < |s| ==> cases[k] == (s[k].0, at(s[k].1));
    SortedChoice(c.matches, c.targets, c.def, key, cases, at);
    PairedTarget(c.matches, c.targets, c.def, key);
  }

  lemma TableChoice(p: Prog, widen: set<nat>, c: Call, key: int)
    requires Typed(c) && c.TableSwitch? && Lower(c).Switch?
    ensures c.high - c.low + 1 == |c.targets|
    ensures Chosen(c, key) in Lower(c).targets
    ensures var v := SwitchView(p, widen, Lower(c).keys, Lower(c).targets);
            CaseTarget(v.cases, v.def, key) == LabelPos(p, widen, Chosen(c, key))
  {
    hide LabelPos;
    var r := Lower(c);
    var cases := SwitchView(p, widen, r.keys, r.targets).cases;
    if c.low <= key <= c.high {
      CaseFound(cases, LabelPos(p, widen, c.def), key, key - c.low);
      assert r.targets[key - c.low + 1] == Chosen(c, key);
    } else {
      CaseMissing(cases, LabelPos(p, widen, c.def), key);
      assert r.targets[0] == c.def;
    }
  }

  /** The encoded cases send every key where the caller's own table sends it, sorted or not. */
  lemma SwitchChoice(p: Prog, widen: set<nat>, c: Call, key: int)
    requires Typed(c) && Lower(c).Switch?
    ensures c.TableSwitch? || c.LookupSwitch?
    ensures c.TableSwitch? ==> c.high - c.low + 1 == |c.targets|
    ensures c.LookupSwitch? ==> |c.matches| == |c.targets|
    ensures Chosen(c, key) in Lower(c).targets
    ensures var v := SwitchView(p, widen, Lower(c).keys, Lower(c).targets);
            CaseTarget(v.cases, v.def, key) == LabelPos(p, widen, Chosen(c, key))
  {
    hide LabelPos, SwitchView, CaseTarget, Chosen, Sort, Ascending;
    if c.TableSwitch? { TableChoice(p, widen, c, key); } else { LookupChoice(p, widen, c, key); }
  }

  // ---- one step -----------------------------------------------------------

  /** The assembled result of a body of calls, and what a run needs of it. */
  ghost predicate Built(calls: seq<Call>, argSlots: nat, widen: set<nat>) {
    && (forall k :: 0 <= k < |calls| ==> Typed(calls[k]))
    && Accepted(Prog(argSlots, LowerAll(calls)), widen)
  }

  lemma PlainSimulates<D>(sem: Semantics<D>, calls: seq<Call>, argSlots: nat, widen: set<nat>, i: nat, stack: seq<int>, d: D) returns (n: nat)
    requires Built(calls, argSlots, widen) && i < |calls| && Lower(calls[i]).Plain?
    ensures 1 <= n <= 2
    ensures var p := Prog(argSlots, LowerAll(calls));
            var next := BodyStep(sem, calls, argSlots, Running(i, stack, d));
            && OnCode(p, next)
            && RunBytes(sem, OnePass(p, widen).code, OnePass(p, widen).table, n, Running(Pos(p, widen, i), stack, d)) == Image(p, widen, next)
  {
    hide Lower, Linked, At, Meaning, Intent, Accepted, Dispatch, DispatchLabels, Pos, Land, OnePass;
    BuiltTyped(calls, argSlots, widen);
    var p := Prog(argSlots, LowerAll(calls));
    var code, table := OnePass(p, widen).code, OnePass(p, widen).table;
    assert p.cmds[i] == Lower(calls[i]);
    AcceptedIsLinked(p, widen);
    PlainReads(calls, argSlots, widen, code, i);
    IntentIsPlain(calls[i]);
    var c := Running(Pos(p, widen, i), stack, d);
    n := 1;
    RunOne(sem, code, table, c);
    match sem.exec(Intent(calls[i]), stack, d)
    case Next(_, _) => if !Ends(p.cmds[i]) { NextLands(p, widen, i); }
    case Throws(exn, d') =>
      TableRows(p, widen);
      DispatchAgrees(sem, p, widen, HandlersOf(p, |p.cmds|), table, i, exn, d');
      var next := ByteStep(sem, code, table, c);
      if next != Image(p, widen, BodyStep(sem, calls, argSlots, Running(i, stack, d))) {
        n := 2;
        RunTwo(sem, code, table, c);
        LinkedBound(p, widen, code);
        OffTheEnd(sem, code, table, next);
      }
    case Returns(_, _) =>
  }

  lemma OffTheEnd<D>(sem: Semantics<D>, code: seq<byte>, table: seq<Handler>, c: Config<D>)
    requires c.Running? && c.at >= |code|
    ensures ByteStep(sem, code, table, c) == Stuck
  {
  }

  lemma IntentIsPlain(c: Call)
    requires Typed(c)
    ensures !Intent(c).BranchTo? && !Intent(c).SwitchTo?
  {
  }

  /** A branch in its final form does what the symbolic branch does, in one step or two. */
  lemma BranchSimulates<D>(sem: Semantics<D>, calls: seq<Call>, argSlots: nat, widen: set<nat>, i: nat, stack: seq<int>, d: D) returns (n: nat)
    requires Built(calls, argSlots, widen) && i < |calls| && Lower(calls[i]).Branch?
    ensures 1 <= n <= 2
    ensures var p := Prog(argSlots, LowerAll(calls));
            var next := BodyStep(sem, calls, argSlots, Running(i, stack, d));
            && OnCode(p, next)
            && RunBytes(sem, OnePass(p, widen).code, OnePass(p, widen).table, n, Running(Pos(p, widen, i), stack, d)) == Image(p, widen, next)
  {
    hide Lower, Linked, At, Meaning, Accepted, Pos, Land, OnePass, LabelPos, MarkOf, Holds, Taken, Popped, Enough;
    BuiltTyped(calls, argSlots, widen);
    var p := Prog(argSlots, LowerAll(calls));
    assert p.cmds[i] == Lower(calls[i]);
    var op, l := p.cmds[i].op, p.cmds[i].lab;
    var code, table, at := OnePass(p, widen).code, OnePass(p, widen).table, Pos(p, widen, i);
    AcceptedIsLinked(p, widen);
    BranchReads(p, widen, code, i);
    assert l in Targets(p.cmds[i]);
    TargetPlaced(p, widen, i, l);
    if Enough(op, stack) { LabelImage(p, widen, l, Popped(op, stack), d); }
    if !Ends(p.cmds[i]) { NextLands(p, widen, i); }
    GotoAlways(stack);
    var c0 := Running(at, stack, d);
    if IsWide(p, widen, i) && op != GOTO {
      InvertNegates(op, stack);
      InvertTwice(op);
      if Enough(op, stack) && Taken(op, stack) {
        var rest := Popped(op, stack);
        assert ByteStep(sem, code, table, c0) == Running(at + 3, rest, d);
        GotoAlways(rest);
        RunTwo(sem, code, table, c0);
        n := 2;
      } else {
        RunOne(sem, code, table, c0);
        n := 1;
      }
    } else {
      RunOne(sem, code, table, c0);
      n := 1;
    }
  }

  lemma GotoAlways(stack: seq<int>)
    ensures Enough(GOTO, stack) && Taken(GOTO, stack) && Popped(GOTO, stack) == stack
  {
  }

  lemma RunOne<D>(sem: Semantics<D>, code: seq<byte>, table: seq<Handler>, c: Config<D>)
    ensures RunBytes(sem, code, table, 1, c) == ByteStep(sem, code, table, c)
  {
    hide ByteStep;
    assert RunBytes(sem, code, table, 0, ByteStep(sem, code, table, c)) == ByteStep(sem, code, table, c);
  }

  lemma RunTwo<D>(sem: Semantics<D>, code: seq<byte>, table: seq<Handler>, c: Config<D>)
    ensures RunBytes(sem, code, table, 2, c) == ByteStep(sem, code, table, ByteStep(sem, code, table, c))
  {
    hide ByteStep;
    RunOne(sem, code, table, ByteStep(sem, code, table, c));
  }

  lemma SwitchSimulates<D>(sem: Semantics<D>, calls: seq<Call>, argSlots: nat, widen: set<nat>, i: nat, stack: seq<int>, d: D)
    requires Built(calls, argSlots, widen) && i < |calls| && Lower(calls[i]).Switch?
    ensures var p := Prog(argSlots, LowerAll(calls));
            var next := BodyStep(sem, calls, argSlots, Running(i, stack, d));
            && OnCode(p, next)
            && ByteStep(sem, OnePass(p, widen).code, OnePass(p, widen).table, Running(Pos(p, widen, i), stack, d)) == Image(p, widen, next)
  {
    hide Lower, Linked, At, Meaning, Accepted, Pos, Land, OnePass, LabelPos, MarkOf, Chosen, CaseTarget, SwitchView;
    BuiltTyped(calls, argSlots, widen);
    var p := Prog(argSlots, LowerAll(calls));
    var c := p.cmds[i];
    assert c == Lower(calls[i]);
    AcceptedIsLinked(p, widen);
    SwitchReads(p, widen, OnePass(p, widen).code, i);
    if stack != [] {
      var key := stack[|stack| - 1];
      SwitchChoice(p, widen, calls[i], key);
      TargetPlaced(p, widen, i, Chosen(calls[i], key));
      LabelImage(p, widen, Chosen(calls[i], key), stack[..|stack| - 1], d);
    }
    assert SwitchView(p, widen, c.keys, c.targets).SwitchTo? by { SwitchViewIs(p, widen, c.keys, c.targets); }
  }

  lemma SwitchViewIs(p: Prog, widen: set<nat>, keys: seq<int>, targets: seq<nat>)
    requires |targets| == |keys| + 1
    ensures SwitchView(p, widen, keys, targets).SwitchTo?
  {
  }

  /** Every step of the body is one or two steps of its bytes, between corresponding configurations. */
  lemma StepSimulates<D>(sem: Semantics<D>, calls: seq<Call>, argSlots: nat, widen: set<nat>, c: Config<D>) returns (n: nat)
    requires Built(calls, argSlots, widen) && OnCode(Prog(argSlots, LowerAll(calls)), c)
    ensures 1 <= n <= 2
    ensures var p := Prog(argSlots, LowerAll(calls));
            && OnCode(p, BodyStep(sem, calls, argSlots, c))
            && RunBytes(sem, OnePass(p, widen).code, OnePass(p, widen).table, n, Image(p, widen, c))
               == Image(p, widen, BodyStep(sem, calls, argSlots, c))
  {
    hide Lower, Accepted, Pos, OnePass, BodyStep, ByteStep;
    BuiltTyped(calls, argSlots, widen);
    var p := Prog(argSlots, LowerAll(calls));
    var code, table := OnePass(p, widen).code, OnePass(p, widen).table;
    n := 1;
    RunOne(sem, code, table, Image(p, widen, c));
    if !c.Running? {
      Halted(sem, calls, argSlots, code, table, c);
    } else {
      assert p.cmds[c.at] == Lower(calls[c.at]);
      NoneRefused(p, widen, c.at);
      match p.cmds[c.at]
      case Plain(_, _, _, _, _) => n := PlainSimulates(sem, calls, argSlots, widen, c.at, c.stack, c.d);
      case Branch(_, _) => n := BranchSimulates(sem, calls, argSlots, widen, c.at, c.stack, c.d);
      case Switch(_, _, _) => SwitchSimulates(sem, calls, argSlots, widen, c.at, c.stack, c.d);
    }
  }

  lemma Halted<D>(sem: Semantics<D>, calls: seq<Call>, argSlots: nat, code: seq<byte>, table: seq<Handler>, c: Config<D>)
    requires !c.Running? && forall k :: 0 <= k < |calls| ==> Typed(calls[k])
    ensures BodyStep(sem, calls, argSlots, c) == c && ByteStep(sem, code, table, c) == c
  {
  }

  // ---- whole runs ---------------------------------------------------------

  lemma {:induction false} RunThen<D>(sem: Semantics<D>, code: seq<byte>, table: seq<Handler>, m: nat, n: nat, c: Config<D>)
    ensures RunBytes(sem, code, table, m + n, c) == RunBytes(sem, code, table, n, RunBytes(sem, code, table, m, c))
  {
    hide ByteStep;
    if m > 0 { RunThen(sem, code, table, m - 1, n, ByteStep(sem, code, table, c)); }
  }

  /** After any number of steps of the body, the bytes reach the corresponding configuration. */
  lemma {:induction false} RunSimulates<D>(sem: Semantics<D>, calls: seq<Call>, argSlots: nat, widen: set<nat>, n: nat, c: Config<D>) returns (m: nat)
    requires Built(calls, argSlots, widen) && OnCode(Prog(argSlots, LowerAll(calls)), c)
    ensures n <= m <= 2 * n
    ensures var p := Prog(argSlots, LowerAll(calls));
            RunBytes(sem, OnePass(p, widen).code, OnePass(p, widen).table, m, Image(p, widen, c))
            == Image(p, widen, RunBody(sem, calls, argSlots, n, c))
    decreases n
  {
    hide Built, Image, OnCode, OnePass, BodyStep, ByteStep, LowerAll;
    BuiltTyped(calls, argSlots, widen);
    if n == 0 {
      m := 0;
    } else {
      var p := Prog(argSlots, LowerAll(calls));
      var k := StepSimulates(sem, calls, argSlots, widen, c);
      var rest := RunSimulates(sem, calls, argSlots, widen, n - 1, BodyStep(sem, calls, argSlots, c));
      RunThen(sem, OnePass(p, widen).code, OnePass(p, widen).table, k, rest, Image(p, widen, c));
      m := k + rest;
    }
  }

  lemma BuiltTyped(calls: seq<Call>, argSlots: nat, widen: set<nat>)
    requires Built(calls, argSlots, widen)
    ensures forall k :: 0 <= k < |calls| ==> Typed(calls[k])
    ensures WellFormedProg(Prog(argSlots, LowerAll(calls))) && OnePass(Prog(argSlots, LowerAll(calls)), widen).Assembled?
  {
    hide OnePass, Lower;
  }

  lemma {:induction false} RunHalted<D>(sem: Semantics<D>, code: seq<byte>, table: seq<Handler>, n: nat, c: Config<D>)
    requires !c.Running?
    ensures RunBytes(sem, code, table, n, c) == c
  {
    if n > 0 { RunHalted(sem, code, table, n - 1, c); }
  }

  /** Where execution starts: the first instruction, at offset zero. */
  lemma EntryCorresponds<D>(calls: seq<Call>, argSlots: nat, widen: set<nat>, stack: seq<int>, d: D)
    requires Built(calls, argSlots, widen)
    ensures var p := Prog(argSlots, LowerAll(calls));
            OnCode(p, Running(Land(p, 0), stack, d)) && Image(p, widen, Running(Land(p, 0), stack, d)) == Running(0, stack, d)
  {
    hide OnePass, Do;
    var p := Prog(argSlots, LowerAll(calls));
    LandInside(p, widen, 0);
    LandPos(p, widen, 0);
  }

  /**
   * The bytes of an accepted body and the body itself have the same outcome from the method's entry: each returns
   * exactly when the other does, with the same stack and state, each lets the same exception escape, and neither
   * stops while the other goes on. The widen set does not appear in the body's run.
   */
  lemma WideningPreservesMeaning<D>(sem: Semantics<D>, calls: seq<Call>, argSlots: nat, widen: set<nat>, stack: seq<int>, d: D, n: nat)
    requires Built(calls, argSlots, widen)
    ensures var p := Prog(argSlots, LowerAll(calls));
            var code, table := OnePass(p, widen).code, OnePass(p, widen).table;
            var body := RunBody(sem, calls, argSlots, n, Running(Land(p, 0), stack, d));
            var bytes := RunBytes(sem, code, table, n, Running(0, stack, d));
            && (!body.Running? ==> RunBytes(sem, code, table, 2 * n, Running(0, stack, d)) == body)
            && (!bytes.Running? ==> body == bytes)
  {
    hide Built, OnCode, OnePass, BodyStep, ByteStep, LowerAll, Land, Pos;
    BuiltTyped(calls, argSlots, widen);
    var p := Prog(argSlots, LowerAll(calls));
    var code, table := OnePass(p, widen).code, OnePass(p, widen).table;
    var c := Running(Land(p, 0), stack, d);
    EntryCorresponds(calls, argSlots, widen, stack, d);
    var m := RunSimulates(sem, calls, argSlots, widen, n, c);
    var body := RunBody(sem, calls, argSlots, n, c);
    RunThen(sem, code, table, m, 2 * n - m, Running(0, stack, d));
    if !body.Running? { RunHalted(sem, code, table, 2 * n - m, body); }
    RunThen(sem, code, table, n, m - n, Running(0, stack, d));
    var bytes := RunBytes(sem, code, table, n, Running(0, stack, d));
    if !bytes.Running? {
      RunHalted(sem, code, table, m - n, bytes);
      assert Image(p, widen, body) == bytes;
      StaysOnCode(sem, calls, argSlots, widen, n, c);
    }
  }

  lemma {:induction false} StaysOnCode<D>(sem: Semantics<D>, calls: seq<Call>, argSlots: nat, widen: set<nat>, n: nat, c: Config<D>)
    requires Built(calls, argSlots, widen) && OnCode(Prog(argSlots, LowerAll(calls)), c)
    ensures forall k :: 0 <= k < |calls| ==> Typed(calls[k])
    ensures var p := Prog(argSlots, LowerAll(calls));
            var body := RunBody(sem, calls, argSlots, n, c);
            body.Running? ==> body.at < |p.cmds|
    decreases n
  {
    hide Built, OnePass, BodyStep, LowerAll;
    BuiltTyped(calls, argSlots, widen);
    if n > 0 {
      var k := StepSimulates(sem, calls, argSlots, widen, c);
      StaysOnCode(sem, calls, argSlots, widen, n - 1, BodyStep(sem, calls, argSlots, c));
    }
  }
}
