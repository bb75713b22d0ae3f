/** The operand stack depth of an accepted body, along every path control can take through it. */
module StackDiscipline {
  import opened Bytes
  import opened Opcode
  import opened Layout
  import opened Calls
  import opened Pass
  import opened Resolve
  import opened Replay

  /** The pass that produced the code array. */
  ghost predicate Accepted(p: Prog, widen: set<nat>) {
    && WellFormedProg(p) && OnePass(p, widen).Assembled?
  }

  ghost predicate HandlersPlaced(p: Prog) {
    forall k :: 0 <= k < |p.cmds| && p.cmds[k].TryCatch? ==> MarkOf(p, |p.cmds|, p.cmds[k].handler) >= 0
  }

  // ---- control flow, independent of the writer ----------------------------

  /** Command i lies in a try range; without a start label nothing does, without an end label all that follows the start does. */
  predicate Within(p: Prog, start: nat, end: nat, i: nat) {
    0 <= MarkOf(p, |p.cmds|, start) <= i && (MarkOf(p, |p.cmds|, end) < 0 || i < MarkOf(p, |p.cmds|, end))
  }

  predicate Covers(p: Prog, k: nat, i: nat)
    requires k < |p.cmds| && p.cmds[k].TryCatch?
  {
    Within(p, p.cmds[k].start, p.cmds[k].end, i)
  }

  /** From command i with d slots on the stack, control can be at command j with e slots. */
  ghost predicate Flows(p: Prog, i: nat, d: int, j: nat, e: int) {
    i < |p.cmds| && WellFormed(p.cmds[i]) &&
    var c := p.cmds[i];
    || (!Ends(c) && j == i + 1 && e == d - Pops(c) + Pushes(c))
    || (exists t :: t in Targets(c) && j == MarkOf(p, |p.cmds|, t) && e == d - Pops(c))
    || (exists k :: 0 <= k < |p.cmds| && p.cmds[k].TryCatch? && Covers(p, k, i)
          && j == MarkOf(p, |p.cmds|, p.cmds[k].handler) && e == 1)
  }

  /** Control can be at command i with d slots after n steps from the method's entry. */
  ghost predicate Arrives(p: Prog, n: nat, i: nat, d: int) {
    if n == 0 then i == 0 && d == 0
    else exists i', d' :: Arrives(p, n - 1, i', d') && Flows(p, i', d', i, d)
  }

  // ---- depths never change once recorded ----------------------------------

  lemma DepthStep(w: WState, c: Cmd, widen: set<nat>, l: nat)
    requires WellFormed(c) && !Do(w, c, widen).failed
    ensures l in w.depths ==> l in Do(w, c, widen).depths && Do(w, c, widen).depths[l] == w.depths[l]
    ensures l in Targets(c) ==> l in Do(w, c, widen).depths && Do(w, c, widen).depths[l] == w.depth - Pops(c)
    ensures c.TryCatch? ==> c.handler in Do(w, c, widen).depths && Do(w, c, widen).depths[c.handler] == 1
    ensures c.Mark? ==> c.lab in Do(w, c, widen).depths && Do(w, c, widen).depths[c.lab] == Do(w, c, widen).depth
    ensures c.Mark? ==> Do(w, c, widen).reachable && (w.reachable ==> Do(w, c, widen).depth == w.depth)
    ensures c.Mark? && c.lab in w.depths ==> Do(w, c, widen).depth == w.depths[c.lab]
    ensures !c.Mark? ==> Do(w, c, widen).depth == w.depth - Pops(c) + Pushes(c)
    ensures !IsMarker(c) ==> w.reachable && Do(w, c, widen).reachable == !Ends(c)
    ensures c.TryCatch? ==> Do(w, c, widen).reachable == w.reachable
  {
    hide Enc, Size, Pad;
  }

  /** The depth finally recorded for label l. */
  function LabelDepth(p: Prog, widen: set<nat>, l: nat): int
    requires WellFormedProg(p)
  {
    var w := Run(p, widen, |p.cmds|);
    if l in w.depths then w.depths[l] else -1
  }

  lemma {:induction false} DepthsStick(p: Prog, widen: set<nat>, i: nat, l: nat)
    requires Clean(p, widen, |p.cmds|) && i <= |p.cmds| && l in Run(p, widen, i).depths
    ensures LabelDepth(p, widen, l) == Run(p, widen, i).depths[l]
    decreases |p.cmds| - i
  {
    hide Do;
    if i < |p.cmds| {
      CleanBefore(p, widen, i + 1, |p.cmds|);
      DepthStep(Run(p, widen, i), p.cmds[i], widen, l);
      DepthsStick(p, widen, i + 1, l);
    }
  }

  // ---- the invariant ------------------------------------------------------

  /** d is the depth the writer computed on entry to command i. */
  ghost predicate EntryDepth(p: Prog, widen: set<nat>, i: nat, d: int)
    requires WellFormedProg(p)
  {
    && i < |p.cmds|
    && ((Run(p, widen, i).reachable && d == Run(p, widen, i).depth)
        || (p.cmds[i].Mark? && d == LabelDepth(p, widen, p.cmds[i].lab)))
  }

  lemma AcceptedIsClean(p: Prog, widen: set<nat>)
    requires Accepted(p, widen)
    ensures Clean(p, widen, |p.cmds|) && !Run(p, widen, |p.cmds|).reachable
    ensures BranchesPlaced(Run(p, widen, |p.cmds|)) && SwitchesPlaced(Run(p, widen, |p.cmds|))
    ensures Overflow(Run(p, widen, |p.cmds|)) == {}
    ensures Records(p, widen, Run(p, widen, |p.cmds|))
    ensures InBuffer(Run(p, widen, |p.cmds|))
    ensures OnePass(p, widen).code == Finished(Run(p, widen, |p.cmds|))
    ensures OnePass(p, widen).maxStack == Run(p, widen, |p.cmds|).maxStack
    ensures |OnePass(p, widen).code| <= MAX_CODE_LENGTH
  {
    hide Run, Finished, Records, InBuffer, Table;
    RunRecords(p, widen);
    RecordsFit(p, widen, Run(p, widen, |p.cmds|));
  }

  /** Every offset a command encodes belongs to a placed label. */
  lemma TargetPlaced(p: Prog, widen: set<nat>, i: nat, t: nat)
    requires Accepted(p, widen) && i < |p.cmds| && t in Targets(p.cmds[i])
    ensures MarkOf(p, |p.cmds|, t) >= 0
  {
    hide Do, Start, OnePass, Enc, Records;
    AcceptedIsClean(p, widen);
    var n, w := |p.cmds|, Run(p, widen, |p.cmds|);
    LabelPlaces(p, widen, n, t);
    BranchCount(p, widen, n);
    SwitchCount(p, widen, n);
    if p.cmds[i].Branch? {
      NthBranchUnique(p, n, i);
      BranchRecords(p, widen, n, Ord(p, i));
      assert w.branches[Ord(p, i)].lab in w.pcs;
    } else {
      NthSwitchUnique(p, n, i);
      SwitchRecords(p, widen, n, SwitchOrd(p, i));
      assert SwitchPlaced(w.switches[SwitchOrd(p, i)], w.pcs);
    }
  }

  lemma NotPastEnd(p: Prog, widen: set<nat>, i: nat)
    requires Accepted(p, widen) && i < |p.cmds| && Run(p, widen, i + 1).reachable
    ensures i + 1 < |p.cmds|
  {
    hide Do, Start, OnePass, Records;
    AcceptedIsClean(p, widen);
  }

  lemma FallsThrough(p: Prog, widen: set<nat>, i: nat, d: int)
    requires Accepted(p, widen) && EntryDepth(p, widen, i, d) && !Ends(p.cmds[i])
    ensures WellFormed(p.cmds[i]) && EntryDepth(p, widen, i + 1, d - Pops(p.cmds[i]) + Pushes(p.cmds[i]))
  {
    hide Do, Start, OnePass, Records, LabelDepth, BranchesPlaced, SwitchesPlaced, Overflow;
    AcceptedIsClean(p, widen);
    CleanBefore(p, widen, i + 1, |p.cmds|);
    var c := p.cmds[i];
    DepthStep(Run(p, widen, i), c, widen, if c.Mark? then c.lab else 0);
    if c.Mark? { DepthsStick(p, widen, i + 1, c.lab); }
    NotPastEnd(p, widen, i);
  }

  lemma Jumps(p: Prog, widen: set<nat>, i: nat, d: int, t: nat)
    requires Accepted(p, widen) && EntryDepth(p, widen, i, d) && t in Targets(p.cmds[i])
    ensures WellFormed(p.cmds[i]) && MarkOf(p, |p.cmds|, t) >= 0
    ensures EntryDepth(p, widen, MarkOf(p, |p.cmds|, t), d - Pops(p.cmds[i]))
  {
    hide Do, Start, OnePass, Records, LabelDepth, BranchesPlaced, SwitchesPlaced, Overflow;
    AcceptedIsClean(p, widen);
    TargetPlaced(p, widen, i, t);
    CleanBefore(p, widen, i + 1, |p.cmds|);
    DepthStep(Run(p, widen, i), p.cmds[i], widen, t);
    DepthsStick(p, widen, i + 1, t);
  }

  lemma EntersHandler(p: Prog, widen: set<nat>, k: nat)
    requires Accepted(p, widen) && k < |p.cmds| && p.cmds[k].TryCatch? && MarkOf(p, |p.cmds|, p.cmds[k].handler) >= 0
    ensures EntryDepth(p, widen, MarkOf(p, |p.cmds|, p.cmds[k].handler), 1)
  {
    hide Do, Start, OnePass, Records, LabelDepth, BranchesPlaced, SwitchesPlaced, Overflow;
    AcceptedIsClean(p, widen);
    CleanBefore(p, widen, k + 1, |p.cmds|);
    DepthStep(Run(p, widen, k), p.cmds[k], widen, 0);
    DepthsStick(p, widen, k + 1, p.cmds[k].handler);
  }

  /** One step of control flow preserves the writer's entry depths. */
  lemma EntryDepthStep(p: Prog, widen: set<nat>, i: nat, d: int, j: nat, e: int)
    requires Accepted(p, widen) && EntryDepth(p, widen, i, d) && Flows(p, i, d, j, e)
    ensures EntryDepth(p, widen, j, e)
  {
    hide Do, Run, OnePass, EntryDepth, Pops, Pushes, MarkOf, Covers;
    var c := p.cmds[i];
    if !Ends(c) && j == i + 1 && e == d - Pops(c) + Pushes(c) {
      FallsThrough(p, widen, i, d);
    } else if t :| t in Targets(c) && j == MarkOf(p, |p.cmds|, t) && e == d - Pops(c) {
      Jumps(p, widen, i, d, t);
    } else {
      var k :| 0 <= k < |p.cmds| && p.cmds[k].TryCatch? && Covers(p, k, i)
               && j == MarkOf(p, |p.cmds|, p.cmds[k].handler) && e == 1;
      EntersHandler(p, widen, k);
    }
  }

  lemma {:induction false} ArrivesAtEntryDepth(p: Prog, widen: set<nat>, n: nat, i: nat, d: int)
    requires Accepted(p, widen) && Arrives(p, n, i, d)
    ensures EntryDepth(p, widen, i, d)
  {
    if n == 0 {
      hide Do, OnePass, Records;
      AcceptedIsClean(p, widen);
      assert Run(p, widen, 0).reachable;
    } else {
      hide Do, OnePass, Records, Flows, EntryDepth;
      var i', d' :| Arrives(p, n - 1, i', d') && Flows(p, i', d', i, d);
      ArrivesAtEntryDepth(p, widen, n - 1, i', d');
      EntryDepthStep(p, widen, i', d', i, d);
    }
  }

  // ---- the limits ---------------------------------------------------------

  ghost predicate LocalsFit(p: Prog) {
    p.argSlots <= 255 && forall i :: 0 <= i < |p.cmds| && p.cmds[i].Plain? ==> p.cmds[i].locals <= 65535
  }

  lemma {:induction false} RunSane(p: Prog, widen: set<nat>, i: nat)
    requires Clean(p, widen, i) && LocalsFit(p)
    ensures Sane(Run(p, widen, i))
  {
    hide Do, Sane;
    if i > 0 {
      RunSane(p, widen, i - 1);
      SaneStep(Run(p, widen, i - 1), p.cmds[i - 1], widen);
    } else {
      assert Sane(Start(p.argSlots)) by { StartSane(p.argSlots); }
    }
  }

  lemma StartSane(argSlots: nat)
    requires argSlots <= 255
    ensures Sane(Start(argSlots))
  {
  }

  lemma {:induction false} MaxStackGrows(p: Prog, widen: set<nat>, i: nat)
    requires Clean(p, widen, |p.cmds|) && LocalsFit(p) && i <= |p.cmds|
    ensures !Run(p, widen, i).failed && Run(p, widen, i).maxStack <= Run(p, widen, |p.cmds|).maxStack
    decreases |p.cmds| - i
  {
    hide Do, Start, Sane;
    CleanBefore(p, widen, i, |p.cmds|);
    if i < |p.cmds| {
      CleanBefore(p, widen, i + 1, |p.cmds|);
      RunSane(p, widen, i);
      SaneStep(Run(p, widen, i), p.cmds[i], widen);
      MaxStackGrows(p, widen, i + 1);
    }
  }

  lemma EntryDepthBounded(p: Prog, widen: set<nat>, i: nat, d: int)
    requires Accepted(p, widen) && LocalsFit(p) && EntryDepth(p, widen, i, d)
    ensures WellFormed(p.cmds[i]) && (!IsMarker(p.cmds[i]) ==> Pops(p.cmds[i]) <= d)
    ensures 0 <= d <= OnePass(p, widen).maxStack
    ensures d - Pops(p.cmds[i]) + Pushes(p.cmds[i]) <= OnePass(p, widen).maxStack
  {
    hide Do, Start, OnePass, Records, BranchesPlaced, SwitchesPlaced;
    AcceptedIsClean(p, widen);
    CleanBefore(p, widen, i, |p.cmds|);
    CleanBefore(p, widen, i + 1, |p.cmds|);
    RunSane(p, widen, i);
    RunSane(p, widen, i + 1);
    RunSane(p, widen, |p.cmds|);
    MaxStackGrows(p, widen, i);
    MaxStackGrows(p, widen, i + 1);
    DepthStep(Run(p, widen, i), p.cmds[i], widen, 0);
    StepFacts(Run(p, widen, i), p.cmds[i], widen);
    if p.cmds[i].Mark? { DepthsStick(p, widen, i + 1, p.cmds[i].lab); }
  }

  /**
   * In an accepted body control never runs off the end, all paths reach a command with one and the same depth, and no
   * command underflows the stack or passes the computed max_stack. A handler that was never placed is no command: there
   * is nothing of the body to arrive at.
   */
  lemma StackDiscipline(p: Prog, widen: set<nat>, n: nat, m: nat, i: nat, d: int, e: int)
    requires Accepted(p, widen) && LocalsFit(p)
    requires Arrives(p, n, i, d) && Arrives(p, m, i, e)
    ensures i < |p.cmds| && d == e
    ensures WellFormed(p.cmds[i]) && (!IsMarker(p.cmds[i]) ==> Pops(p.cmds[i]) <= d)
    ensures 0 <= d <= OnePass(p, widen).maxStack
    ensures d - Pops(p.cmds[i]) + Pushes(p.cmds[i]) <= OnePass(p, widen).maxStack
  {
    hide Do, Start, OnePass, Records, Arrives;
    ArrivesAtEntryDepth(p, widen, n, i, d);
    ArrivesAtEntryDepth(p, widen, m, i, e);
    EntryDepthBounded(p, widen, i, d);
    if p.cmds[i].Mark? {
      AcceptedIsClean(p, widen);
      CleanBefore(p, widen, i + 1, |p.cmds|);
      DepthStep(Run(p, widen, i), p.cmds[i], widen, 0);
      DepthsStick(p, widen, i + 1, p.cmds[i].lab);
    }
  }

  // ---- where the writer's count differs from the machine's ----------------

  /** Slots the machine takes: a cast or a type test consumes the reference it inspects. */
  function Demands(c: Call): nat
    requires Typed(c)
  {
    var k := Lower(c);
    if c.TypeRef? && (c.op == CHECKCAST || c.op == INSTANCEOF) then 1
    else if k.Plain? then k.pops else if k.Branch? then BranchPops(k.op) else if k.Switch? then 1 else 0
  }

  /**
   * An accepted call finds the operands the machine needs, except a cast or type test: that one underflows
   * exactly where the writer itself counted an empty stack.
   */
  lemma UnderflowExactly(calls: seq<Call>, argSlots: nat, widen: set<nat>, n: nat, i: nat, d: int)
    requires argSlots <= 255 && forall k :: 0 <= k < |calls| ==> Typed(calls[k])
    requires var p := Prog(argSlots, LowerAll(calls));
             Accepted(p, widen) && Arrives(p, n, i, d)
    ensures i < |calls|
    ensures d < Demands(calls[i]) <==>
              calls[i].TypeRef? && (calls[i].op == CHECKCAST || calls[i].op == INSTANCEOF)
              && Run(Prog(argSlots, LowerAll(calls)), widen, i).depth == 0
  {
    hide Do, Start, OnePass, Records, Arrives;
    var p := Prog(argSlots, LowerAll(calls));
    forall k | 0 <= k < |calls| ensures p.cmds[k].Plain? ==> p.cmds[k].locals <= 65535 { LowerFits(calls[k]); }
    StackDiscipline(p, widen, n, n, i, d, d);
    ArrivesAtEntryDepth(p, widen, n, i, d);
    assert p.cmds[i] == Lower(calls[i]);
  }

  /** A cast as the first instruction is accepted although the machine's stack is empty there. */
  lemma CastOnEmptyStackAccepted()
    ensures var calls := [TypeRef(CHECKCAST, 1), Op(RETURN)];
            var p := Prog(0, LowerAll(calls));
            && (forall k :: 0 <= k < |calls| ==> Typed(calls[k]))
            && Accepted(p, {}) && HandlersPlaced(p) && Arrives(p, 0, 0, 0) && 0 < Demands(calls[0])
  {
    var calls := [TypeRef(CHECKCAST, 1), Op(RETURN)];
    var p := Prog(0, LowerAll(calls));
    CastLowered();
    assert WellFormedProg(p) && Run(p, {}, 0) == Start(0);
    var w1 := Run(p, {}, 1);
    assert w1 == Do(Start(0), p.cmds[0], {}) && !w1.failed && w1.depth == 0 && w1.reachable && w1.branches == [] && w1.switches == [];
    var w2 := Run(p, {}, 2);
    assert w2 == Do(w1, p.cmds[1], {}) && !w2.failed && !w2.reachable && w2.branches == [] && w2.switches == [];
    assert |w2.b| == 4;
  }

  lemma CastLowered()
    ensures var calls := [TypeRef(CHECKCAST, 1), Op(RETURN)];
            && (forall k :: 0 <= k < |calls| ==> Typed(calls[k]))
            && LowerAll(calls) == [Plain([CHECKCAST] + U2(1), 0, 0, 0, false), Plain([RETURN], 0, 0, 0, true)]
  {
  }

  /** A body with a handler that is never placed; it is accepted. */
  lemma UnplacedHandlerAccepted()
    ensures var p := Prog(0, [Plain([RETURN], 0, 0, 0, true), TryCatch(0, 0, 0, 0)]);
            Accepted(p, {}) && !HandlersPlaced(p) && OnePass(p, {}).table[0].handler == 0xffff
  {
    var p := Prog(0, [Plain([RETURN], 0, 0, 0, true), TryCatch(0, 0, 0, 0)]);
    assert WellFormedProg(p) && Run(p, {}, 0) == Start(0);
    var w1 := Run(p, {}, 1);
    assert w1 == Do(Start(0), p.cmds[0], {}) && !w1.failed && !w1.reachable && w1.b == [RETURN] && w1.pcs == map[];
    var w2 := Run(p, {}, 2);
    assert w2 == Do(w1, p.cmds[1], {}) && !w2.failed && !w2.reachable && w2.b == [RETURN] && w2.handlers == [HandlerRec(0, 0, 0, 0)];
    assert MarkOf(p, 2, 0) < 0;
  }
}
