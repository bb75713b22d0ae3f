/** One pass of the writer over a body: the state each command leaves, and what its records mean. */
module Pass {
  import opened Bytes
  import opened Opcode
  import opened Layout

  const MAX_STACK := 65535

  datatype BranchRec = BranchRec(op: byte, lab: nat, at: nat, wide: bool)

  datatype SwitchRec = SwitchRec(table: bool, at: nat, pad: nat, targets: seq<nat>)

  datatype HandlerRec = HandlerRec(start: nat, end: nat, handler: nat, catchType: nat)

  /** A label absent from `pcs` is unplaced; one absent from `depths` has no known stack depth. */
  datatype WState = WState(
    b: seq<byte>, failed: bool,
    pcs: map<nat, nat>, depths: map<nat, int>,
    branches: seq<BranchRec>, switches: seq<SwitchRec>, handlers: seq<HandlerRec>,
    depth: int, maxStack: int, maxLocals: int, reachable: bool)

  function Start(argSlots: nat): WState {
    WState([], false, map[], map[], [], [], [], 0, 0, argSlots, true)
  }

  function Fail(w: WState): WState { w.(failed := true) }

  function Max(a: int, b: int): int { if a < b then b else a }

  // ---- slot effects -------------------------------------------------------

  function Pops(c: Cmd): nat
    requires WellFormed(c)
  {
    match c
    case Plain(_, pops, _, _, _) => pops
    case Branch(op, _) => BranchPops(op)
    case Switch(_, _, _) => 1
    case _ => 0
  }

  function Pushes(c: Cmd): nat { if c.Plain? then c.pushes else 0 }

  /** Control never falls through to the next command. */
  predicate Ends(c: Cmd) {
    match c
    case Plain(_, _, _, _, ends) => ends
    case Branch(op, _) => op == GOTO
    case Switch(_, _, _) => true
    case _ => false
  }

  // ---- the state after each command ---------------------------------------

  /** No label in `ts` is already recorded at another depth. */
  predicate DepthsAgree(depths: map<nat, int>, d: int, ts: seq<nat>) {
    forall t :: t in ts && t in depths ==> depths[t] == d
  }

  /** Records depth d at the labels in `ts` that have none yet. */
  function Noted(depths: map<nat, int>, d: int, ts: seq<nat>): map<nat, int> {
    (map t | t in ts :: d) + depths
  }

  lemma NotedNone(depths: map<nat, int>, d: int)
    ensures DepthsAgree(depths, d, []) && Noted(depths, d, []) == depths
  {
  }

  /** Recording a list of targets is recording them one by one. */
  lemma NotedNext(depths: map<nat, int>, d: int, ts: seq<nat>, t: nat)
    ensures DepthsAgree(depths, d, ts + [t]) <==> DepthsAgree(depths, d, ts) && DepthsAgree(Noted(depths, d, ts), d, [t])
    ensures Noted(Noted(depths, d, ts), d, [t]) == Noted(depths, d, ts + [t])
  {
    hide DepthsAgree, Noted;
    AgreeNext(depths, d, ts, t);
    RecordNext(depths, d, ts, t);
  }

  lemma RecordNext(depths: map<nat, int>, d: int, ts: seq<nat>, t: nat)
    ensures Noted(Noted(depths, d, ts), d, [t]) == Noted(depths, d, ts + [t])
  {
  }

  lemma AgreeNext(depths: map<nat, int>, d: int, ts: seq<nat>, t: nat)
    ensures DepthsAgree(depths, d, ts + [t]) <==> DepthsAgree(depths, d, ts) && DepthsAgree(Noted(depths, d, ts), d, [t])
  {
    assert forall u :: u in ts + [t] <==> u in ts || u == t;
    assert t in Noted(depths, d, ts) <==> t in ts || t in depths;
    assert t in depths ==> Noted(depths, d, ts)[t] == depths[t];
    assert t in ts && t !in depths ==> Noted(depths, d, ts)[t] == d;
  }

  function DoMark(w: WState, l: nat): WState {
    if l in w.pcs then Fail(w)
    else if l in w.depths then
      if w.reachable && w.depth != w.depths[l] then Fail(w)
      else w.(pcs := w.pcs[l := |w.b|], depth := w.depths[l], reachable := true)
    else if w.reachable then w.(pcs := w.pcs[l := |w.b|], depths := w.depths[l := w.depth])
    else Fail(w)
  }

  function DoTryCatch(w: WState, h: HandlerRec): WState {
    if h.handler in w.depths && w.depths[h.handler] != 1 then Fail(w)
    else w.(handlers := w.handlers + [h], depths := w.depths[h.handler := 1], maxStack := Max(w.maxStack, 1))
  }

  /** Offset fields before patching. */
  function Blank(c: Cmd): (r: seq<int>)
    ensures |r| == |Targets(c)|
  {
    seq(|Targets(c)|, _ => 0)
  }

  /** Bytes appended, slots moved, the depth at each target recorded. */
  function DoEmit(w: WState, c: Cmd, widen: set<nat>): WState
    requires WellFormed(c)
  {
    var base := w.depth - Pops(c);
    var d := base + Pushes(c);
    if c.Refused? || !w.reachable || base < 0 || d > MAX_STACK || !DepthsAgree(w.depths, base, Targets(c)) then Fail(w)
    else
      var wide := c.Branch? && |w.branches| in widen;
      w.(b := w.b + Enc(c, |w.b|, wide, Blank(c)),
         depths := Noted(w.depths, base, Targets(c)),
         branches := if c.Branch? then w.branches + [BranchRec(c.op, c.lab, |w.b|, wide)] else w.branches,
         switches := if c.Switch? then w.switches + [SwitchRec(c.table, |w.b|, Pad(|w.b|), c.targets)] else w.switches,
         depth := d, maxStack := Max(w.maxStack, d),
         maxLocals := if c.Plain? then Max(w.maxLocals, c.locals) else w.maxLocals,
         reachable := !Ends(c))
  }

  function Do(w: WState, c: Cmd, widen: set<nat>): (r: WState)
    requires WellFormed(c)
    ensures w.failed ==> r.failed
  {
    if w.failed then w
    else match c
      case Mark(l) => DoMark(w, l)
      case TryCatch(s, e, h, t) => DoTryCatch(w, HandlerRec(s, e, h, t))
      case _ => DoEmit(w, c, widen)
  }

  function Run(p: Prog, widen: set<nat>, i: nat): (w: WState)
    requires i <= |p.cmds| && WellFormedProg(p)
  {
    if i == 0 then Start(p.argSlots) else Do(Run(p, widen, i - 1), p.cmds[i - 1], widen)
  }

  /** The first i commands of the body were accepted. */
  ghost predicate Clean(p: Prog, widen: set<nat>, i: nat) {
    WellFormedProg(p) && i <= |p.cmds| && !Run(p, widen, i).failed
  }

  /** Errors are sticky: a pass that ends clean was clean throughout. */
  lemma {:induction false} CleanBefore(p: Prog, widen: set<nat>, j: nat, i: nat)
    requires j <= i && Clean(p, widen, i)
    ensures Clean(p, widen, j)
    decreases i - j
  {
    hide Do;
    if j < i { CleanBefore(p, widen, j, i - 1); }
  }

  /** What one accepted command does to the buffer and the records. */
  lemma StepFacts(w: WState, c: Cmd, widen: set<nat>)
    requires WellFormed(c) && !Do(w, c, widen).failed
    ensures var r, wide := Do(w, c, widen), c.Branch? && |w.branches| in widen;
            && !w.failed && !c.Refused?
            && r.b == w.b + Enc(c, |w.b|, wide, Blank(c))
            && r.branches == (if c.Branch? then w.branches + [BranchRec(c.op, c.lab, |w.b|, wide)] else w.branches)
            && r.switches == (if c.Switch? then w.switches + [SwitchRec(c.table, |w.b|, Pad(|w.b|), c.targets)] else w.switches)
            && r.handlers == (if c.TryCatch? then w.handlers + [HandlerRec(c.start, c.end, c.handler, c.catchType)] else w.handlers)
            && r.pcs == (if c.Mark? then w.pcs[c.lab := |w.b|] else w.pcs)
            && (c.Mark? ==> c.lab !in w.pcs)
            && (!IsMarker(c) ==> w.reachable && w.depth >= Pops(c))
  {
  }

  /** Every depth a writer tracks lies between zero and its max_stack, which fits a u2. */
  ghost predicate Sane(w: WState) {
    && 0 <= w.depth <= w.maxStack <= MAX_STACK
    && 0 <= w.maxLocals <= 65535
    && forall l :: l in w.depths ==> 0 <= w.depths[l] <= w.maxStack
  }

  /** No accepted command underflows the stack or passes the limits. */
  lemma SaneStep(w: WState, c: Cmd, widen: set<nat>)
    requires WellFormed(c) && Sane(w) && !Do(w, c, widen).failed && (c.Plain? ==> c.locals <= 65535)
    ensures Sane(Do(w, c, widen))
    ensures Do(w, c, widen).maxStack >= w.maxStack
  {
    hide DoEmit;
    if !IsMarker(c) { SaneEmit(w, c, widen); }
  }

  lemma SaneEmit(w: WState, c: Cmd, widen: set<nat>)
    requires WellFormed(c) && Sane(w) && !DoEmit(w, c, widen).failed && (c.Plain? ==> c.locals <= 65535)
    requires !w.failed
    ensures Sane(DoEmit(w, c, widen))
    ensures DoEmit(w, c, widen).maxStack >= w.maxStack
  {
    hide Enc, Size, Pad, DepthsAgree, Blank;
  }

  // ---- what the buffer and the records hold -------------------------------

  /** Command i's bytes before its offsets are known. */
  function RawEnc(p: Prog, widen: set<nat>, i: nat): (r: seq<byte>)
    requires i < |p.cmds| && WellFormed(p.cmds[i])
    ensures |r| == Pos(p, widen, i + 1) - Pos(p, widen, i)
  {
    Enc(p.cmds[i], Pos(p, widen, i), IsWide(p, widen, i), Blank(p.cmds[i]))
  }

  lemma {:induction false} BranchCount(p: Prog, widen: set<nat>, i: nat)
    requires Clean(p, widen, i)
    ensures |Run(p, widen, i).branches| == Ord(p, i)
  {
    hide DoEmit, Enc;
    if i > 0 {
      BranchCount(p, widen, i - 1);
      StepFacts(Run(p, widen, i - 1), p.cmds[i - 1], widen);
    }
  }

  lemma {:induction false} BufferLength(p: Prog, widen: set<nat>, i: nat)
    requires Clean(p, widen, i)
    ensures |Run(p, widen, i).b| == Pos(p, widen, i)
  {
    hide DoEmit, Enc, Size;
    if i > 0 {
      BufferLength(p, widen, i - 1);
      BranchCount(p, widen, i - 1);
      StepFacts(Run(p, widen, i - 1), p.cmds[i - 1], widen);
    }
  }

  lemma Appended(s: seq<byte>, e: seq<byte>, lo: nat, hi: nat)
    requires lo <= hi <= |s|
    ensures (s + e)[lo..hi] == s[lo..hi]
    ensures (s + e)[|s|..|s| + |e|] == e
  {
  }

  /** The buffer is the commands' encodings end to end. */
  lemma {:induction false} BufferHolds(p: Prog, widen: set<nat>, i: nat, j: nat)
    requires j < i && Clean(p, widen, i)
    ensures Pos(p, widen, j) <= Pos(p, widen, j + 1) <= |Run(p, widen, i).b|
    ensures Run(p, widen, i).b[Pos(p, widen, j)..Pos(p, widen, j + 1)] == RawEnc(p, widen, j)
  {
    hide DoEmit, Enc, Size, Do, Targets;
    var w := Run(p, widen, i - 1);
    StepFacts(w, p.cmds[i - 1], widen);
    BufferLength(p, widen, i);
    BufferLength(p, widen, i - 1);
    BranchCount(p, widen, i - 1);
    if j == i - 1 {
      Appended(w.b, RawEnc(p, widen, j), 0, 0);
    } else {
      BufferHolds(p, widen, i - 1, j);
      Appended(w.b, RawEnc(p, widen, i - 1), Pos(p, widen, j), Pos(p, widen, j + 1));
    }
  }

  /** Where label l was marked among the first i commands, or -1. */
  function MarkOf(p: Prog, i: nat, l: nat): (r: int)
    requires i <= |p.cmds|
    ensures -1 <= r < i
    ensures r >= 0 ==> p.cmds[r] == Mark(l)
  {
    if i == 0 then -1 else if p.cmds[i - 1] == Mark(l) then i - 1 else MarkOf(p, i - 1, l)
  }

  /** A label is placed exactly when it was marked, at the position of its Mark. */
  lemma {:induction false} LabelPlaces(p: Prog, widen: set<nat>, i: nat, l: nat)
    requires Clean(p, widen, i)
    ensures l in Run(p, widen, i).pcs <==> MarkOf(p, i, l) >= 0
    ensures l in Run(p, widen, i).pcs ==> Run(p, widen, i).pcs[l] == Pos(p, widen, MarkOf(p, i, l))
  {
    hide DoEmit, Enc, Size, Targets;
    if i > 0 {
      StepFacts(Run(p, widen, i - 1), p.cmds[i - 1], widen);
      LabelPlaces(p, widen, i - 1, l);
      BufferLength(p, widen, i - 1);
    }
  }

  /** No label is marked twice. */
  lemma {:induction false} MarkedOnce(p: Prog, widen: set<nat>, i: nat, j: nat)
    requires j < i && Clean(p, widen, i) && p.cmds[j].Mark?
    ensures MarkOf(p, i, p.cmds[j].lab) == j
  {
    hide DoEmit, Enc, Size, Targets;
    StepFacts(Run(p, widen, i - 1), p.cmds[i - 1], widen);
    if j < i - 1 {
      MarkedOnce(p, widen, i - 1, j);
      LabelPlaces(p, widen, i - 1, p.cmds[j].lab);
    }
  }

  /** The command that emitted branch k. */
  function NthBranch(p: Prog, i: nat, k: nat): (j: nat)
    requires i <= |p.cmds| && k < Ord(p, i)
    ensures j < i && p.cmds[j].Branch? && Ord(p, j) == k
  {
    if p.cmds[i - 1].Branch? && Ord(p, i - 1) == k then i - 1 else NthBranch(p, i - 1, k)
  }

  /** Branch records are the branch commands, in order, at their positions. */
  lemma {:induction false} BranchRecords(p: Prog, widen: set<nat>, i: nat, k: nat)
    requires Clean(p, widen, i) && k < Ord(p, i)
    ensures |Run(p, widen, i).branches| == Ord(p, i)
    ensures var j := NthBranch(p, i, k);
            Run(p, widen, i).branches[k] == BranchRec(p.cmds[j].op, p.cmds[j].lab, Pos(p, widen, j), IsWide(p, widen, j))
  {
    hide DoEmit, Enc, Size, Targets;
    StepFacts(Run(p, widen, i - 1), p.cmds[i - 1], widen);
    BranchCount(p, widen, i);
    BranchCount(p, widen, i - 1);
    BufferLength(p, widen, i - 1);
    if k < Ord(p, i - 1) { BranchRecords(p, widen, i - 1, k); }
  }

  /** How many switches precede command i. */
  function SwitchOrd(p: Prog, i: nat): nat
    requires i <= |p.cmds|
  {
    if i == 0 then 0 else SwitchOrd(p, i - 1) + if p.cmds[i - 1].Switch? then 1 else 0
  }

  function NthSwitch(p: Prog, i: nat, k: nat): (j: nat)
    requires i <= |p.cmds| && k < SwitchOrd(p, i)
    ensures j < i && p.cmds[j].Switch? && SwitchOrd(p, j) == k
  {
    if p.cmds[i - 1].Switch? && SwitchOrd(p, i - 1) == k then i - 1 else NthSwitch(p, i - 1, k)
  }

  lemma {:induction false} SwitchCount(p: Prog, widen: set<nat>, i: nat)
    requires Clean(p, widen, i)
    ensures |Run(p, widen, i).switches| == SwitchOrd(p, i)
  {
    hide DoEmit, Enc;
    if i > 0 {
      SwitchCount(p, widen, i - 1);
      StepFacts(Run(p, widen, i - 1), p.cmds[i - 1], widen);
    }
  }

  /** Switch records are the switch commands, in order, at their positions and with their padding. */
  lemma {:induction false} SwitchRecords(p: Prog, widen: set<nat>, i: nat, k: nat)
    requires Clean(p, widen, i) && k < SwitchOrd(p, i)
    ensures |Run(p, widen, i).switches| == SwitchOrd(p, i)
    ensures var j := NthSwitch(p, i, k);
            Run(p, widen, i).switches[k] == SwitchRec(p.cmds[j].table, Pos(p, widen, j), Pad(Pos(p, widen, j)), p.cmds[j].targets)
  {
    hide DoEmit, Enc, Size, Targets;
    StepFacts(Run(p, widen, i - 1), p.cmds[i - 1], widen);
    SwitchCount(p, widen, i);
    SwitchCount(p, widen, i - 1);
    BufferLength(p, widen, i - 1);
    if k < SwitchOrd(p, i - 1) { SwitchRecords(p, widen, i - 1, k); }
  }

  function HandlersOf(p: Prog, i: nat): seq<HandlerRec>
    requires i <= |p.cmds|
  {
    if i == 0 then []
    else match p.cmds[i - 1]
      case TryCatch(s, e, h, t) => HandlersOf(p, i - 1) + [HandlerRec(s, e, h, t)]
      case _ => HandlersOf(p, i - 1)
  }

  lemma {:induction false} HandlerRecords(p: Prog, widen: set<nat>, i: nat)
    requires Clean(p, widen, i)
    ensures Run(p, widen, i).handlers == HandlersOf(p, i)
  {
    hide DoEmit, Enc, Size;
    if i > 0 {
      HandlerRecords(p, widen, i - 1);
      StepFacts(Run(p, widen, i - 1), p.cmds[i - 1], widen);
    }
  }

  // ---- the verdict does not depend on the widening ------------------------

  /** Two states that differ only in where their bytes fall. */
  ghost predicate SameShape(w: WState, w': WState) {
    && w.failed == w'.failed && w.pcs.Keys == w'.pcs.Keys && w.depths == w'.depths && w.handlers == w'.handlers
    && w.depth == w'.depth && w.maxStack == w'.maxStack && w.maxLocals == w'.maxLocals && w.reachable == w'.reachable
  }

  lemma SameShapeEmit(w: WState, w': WState, c: Cmd, widen: set<nat>, widen': set<nat>)
    requires WellFormed(c) && SameShape(w, w')
    ensures SameShape(DoEmit(w, c, widen), DoEmit(w', c, widen'))
  {
    hide Enc, Targets, Pops, Pushes, Ends, DepthsAgree, Noted, Pad, Blank;
  }

  lemma SameShapeStep(w: WState, w': WState, c: Cmd, widen: set<nat>, widen': set<nat>)
    requires WellFormed(c) && SameShape(w, w')
    ensures SameShape(Do(w, c, widen), Do(w', c, widen'))
  {
    hide DoEmit;
    if !IsMarker(c) { SameShapeEmit(w, w', c, widen, widen'); }
  }

  /** Two passes over one body accept or refuse it alike, and compute the same depths and limits. */
  lemma {:induction false} PassesAgree(p: Prog, widen: set<nat>, widen': set<nat>, i: nat)
    requires WellFormedProg(p) && i <= |p.cmds|
    ensures SameShape(Run(p, widen, i), Run(p, widen', i))
  {
    hide Do;
    if i > 0 {
      PassesAgree(p, widen, widen', i - 1);
      SameShapeStep(Run(p, widen, i - 1), Run(p, widen', i - 1), p.cmds[i - 1], widen, widen');
    }
  }
}
