/** Replaying a body under a growing widen set until every short branch reaches its label. */
module Replay {
  import opened Bytes
  import opened Opcode
  import opened Layout
  import opened Calls
  import opened Pass
  import opened Resolve
  import opened CodeWriter

  const MAX_REPLAYS := 10
  const MAX_CODE_LENGTH := 65535

  /** One row of the exception table, in code offsets. */
  datatype Handler = Handler(start: int, end: int, handler: int, catchType: nat)

  datatype Outcome =
    | Again(widen: set<nat>)
    | Rejected
    | Diverged
    | Assembled(code: seq<byte>, maxStack: int, maxLocals: int, table: seq<Handler>)

  /** uint16(label.pc): an unplaced label's -1 wraps to 65535. */
  function HandlerPc(pcs: map<nat, nat>, l: nat): int { if l in pcs then pcs[l] % 0x1_0000 else 0xffff }

  function Table(hs: seq<HandlerRec>, pcs: map<nat, nat>): (r: seq<Handler>)
    ensures |r| == |hs|
  {
    seq(|hs|, i requires 0 <= i < |hs| =>
      Handler(HandlerPc(pcs, hs[i].start), HandlerPc(pcs, hs[i].end), HandlerPc(pcs, hs[i].handler), hs[i].catchType))
  }

  /** What one pass over the body concludes. */
  function OnePass(p: Prog, widen: set<nat>): (r: Outcome)
    requires WellFormedProg(p)
    ensures !r.Diverged?
  {
    var w := Run(p, widen, |p.cmds|);
    if w.failed || w.reachable || !BranchesPlaced(w) then Rejected
    else if Overflow(w) != {} then Again(widen + Overflow(w))
    else if !SwitchesPlaced(w) || w.b == [] || |w.b| > MAX_CODE_LENGTH || w.maxStack > MAX_STACK || w.maxLocals > 65535 then Rejected
    else
      RunRecords(p, widen);
      RecordsFit(p, widen, w);
      Assembled(Finished(w), w.maxStack, w.maxLocals, Table(w.handlers, w.pcs))
  }

  /** At most `passes` passes, starting from a widen set. */
  function Replay(p: Prog, widen: set<nat>, passes: nat): (r: Outcome)
    requires WellFormedProg(p)
    ensures !r.Again?
    decreases passes
  {
    if passes == 0 then Diverged
    else
      var o := OnePass(p, widen);
      if o.Again? then Replay(p, o.widen, passes - 1) else o
  }

  /** The widen set of the last pass. */
  function FinalWiden(p: Prog, widen: set<nat>, passes: nat): set<nat>
    requires WellFormedProg(p)
    decreases passes
  {
    if passes == 0 then widen
    else
      var o := OnePass(p, widen);
      if o.Again? then FinalWiden(p, o.widen, passes - 1) else widen
  }

  lemma {:induction false} LastPass(p: Prog, widen: set<nat>, passes: nat)
    requires WellFormedProg(p) && !Replay(p, widen, passes).Diverged?
    ensures OnePass(p, FinalWiden(p, widen, passes)) == Replay(p, widen, passes)
    ensures widen <= FinalWiden(p, widen, passes)
    decreases passes
  {
    hide OnePass;
    if passes > 0 && OnePass(p, widen).Again? {
      LastPass(p, OnePass(p, widen).widen, passes - 1);
      WidenGrows(p, widen);
    }
  }

  // ---- convergence --------------------------------------------------------

  /** The ordinals below n. */
  function Below(n: nat): (r: set<nat>)
    ensures forall k: nat :: k in r <==> k < n
  {
    if n == 0 then {} else Below(n - 1) + {n - 1}
  }

  function AllBranches(p: Prog): set<nat> { Below(Ord(p, |p.cmds|)) }

  lemma {:induction false} CardinalityBelow(s: set<nat>, n: nat)
    requires forall k :: k in s ==> k < n
    ensures |s| <= n
  {
    if n > 0 {
      CardinalityBelow(s - {n - 1}, n - 1);
      if n - 1 in s { assert s == (s - {n - 1}) + {n - 1}; } else { assert s == s - {n - 1}; }
    } else {
      assert s == {};
    }
  }

  /** A repeated pass widens at least one branch that was short, and only branches of the body. */
  lemma WidenGrows(p: Prog, widen: set<nat>)
    requires WellFormedProg(p) && OnePass(p, widen).Again?
    ensures widen < OnePass(p, widen).widen
    ensures widen <= AllBranches(p) ==> OnePass(p, widen).widen <= AllBranches(p)
  {
    hide Do, Start, Enc;
    var w := Run(p, widen, |p.cmds|);
    BranchCount(p, widen, |p.cmds|);
    var k :| k in Overflow(w);
    OverflowHas(w, |w.branches|, k);
    BranchRecords(p, widen, |p.cmds|, k);
    forall i | i in Overflow(w) ensures i in AllBranches(p) { OverflowHas(w, |w.branches|, i); }
  }

  /** With one pass more than there are short branches left, replay settles. */
  lemma {:induction false} Converges(p: Prog, widen: set<nat>, passes: nat)
    requires WellFormedProg(p) && widen <= AllBranches(p)
    requires passes > Ord(p, |p.cmds|) - |widen|
    ensures !Replay(p, widen, passes).Diverged?
    decreases passes
  {
    hide OnePass;
    CardinalityBelow(widen, Ord(p, |p.cmds|));
    if OnePass(p, widen).Again? {
      WidenGrows(p, widen);
      var more := OnePass(p, widen).widen;
      assert more == widen + (more - widen) && more - widen != {};
      assert |more| == |widen| + |more - widen|;
      Converges(p, more, passes - 1);
    }
  }

  /** The pass cap can only turn a settled result into a refusal to continue, never into another result. */
  lemma {:induction false} CapOnlyStops(p: Prog, widen: set<nat>, passes: nat, more: nat)
    requires WellFormedProg(p) && passes <= more && !Replay(p, widen, passes).Diverged?
    ensures Replay(p, widen, more) == Replay(p, widen, passes)
    ensures FinalWiden(p, widen, more) == FinalWiden(p, widen, passes)
    decreases passes
  {
    hide OnePass;
    if passes > 0 && OnePass(p, widen).Again? {
      CapOnlyStops(p, OnePass(p, widen).widen, passes - 1, more - 1);
    }
  }

  /** Replay from the empty set settles within one pass more than the body has branches. */
  lemma SettlesWithin(p: Prog, passes: nat)
    requires WellFormedProg(p) && passes > Ord(p, |p.cmds|)
    ensures !Replay(p, {}, passes).Diverged?
    ensures Replay(p, {}, passes) == Replay(p, {}, Ord(p, |p.cmds|) + 1)
  {
    Converges(p, {}, Ord(p, |p.cmds|) + 1);
    CapOnlyStops(p, {}, Ord(p, |p.cmds|) + 1, passes);
  }

  // ---- which branches end up long -----------------------------------------

  lemma AlignUp(at: nat, at': nat)
    requires at <= at'
    ensures at + Pad(at) <= at' + Pad(at')
  {
  }

  /** Widening more branches never moves a command back, switch padding included. */
  lemma {:induction false} PositionsMonotone(p: Prog, widen: set<nat>, widen': set<nat>, i: nat)
    requires i <= |p.cmds| && widen <= widen'
    ensures Pos(p, widen, i) <= Pos(p, widen', i)
  {
    if i > 0 {
      PositionsMonotone(p, widen, widen', i - 1);
      AlignUp(Pos(p, widen, i - 1), Pos(p, widen', i - 1));
    }
  }

  ghost predicate SwitchFree(p: Prog) {
    forall i :: 0 <= i < |p.cmds| ==> !p.cmds[i].Switch?
  }

  /** Without switches, widening never brings two commands closer. */
  lemma {:induction false} GapsMonotone(p: Prog, widen: set<nat>, widen': set<nat>, i: nat, j: nat)
    requires i <= j <= |p.cmds| && widen <= widen' && SwitchFree(p)
    ensures 0 <= Pos(p, widen, j) - Pos(p, widen, i) <= Pos(p, widen', j) - Pos(p, widen', i)
    decreases j
  {
    if i < j { GapsMonotone(p, widen, widen', i, j - 1); }
  }

  /** Branch k can keep its short form in the layout of `widen`. */
  predicate ShortFits(p: Prog, widen: set<nat>, k: nat)
    requires k < Ord(p, |p.cmds|)
  {
    var j := NthBranch(p, |p.cmds|, k);
    IsInt16(LabelPos(p, widen, p.cmds[j].lab) - Pos(p, widen, j))
  }

  /** Every branch outside `widen` fits the short form. */
  ghost predicate Suffices(p: Prog, widen: set<nat>) {
    forall k: nat :: k < Ord(p, |p.cmds|) && k !in widen ==> ShortFits(p, widen, k)
  }

  /** Overflow is exactly the short branches whose offset does not fit. */
  lemma OverflowMeans(p: Prog, widen: set<nat>, k: nat)
    requires Clean(p, widen, |p.cmds|) && BranchesPlaced(Run(p, widen, |p.cmds|))
    ensures k in Overflow(Run(p, widen, |p.cmds|)) <==>
              k < Ord(p, |p.cmds|) && k !in widen && !ShortFits(p, widen, k)
    ensures k < Ord(p, |p.cmds|) ==> MarkOf(p, |p.cmds|, p.cmds[NthBranch(p, |p.cmds|, k)].lab) >= 0
  {
    hide Do, Start, Enc;
    var w := Run(p, widen, |p.cmds|);
    BranchCount(p, widen, |p.cmds|);
    OverflowHas(w, |w.branches|, k);
    if k < Ord(p, |p.cmds|) {
      BranchRecords(p, widen, |p.cmds|, k);
      LabelPlaces(p, widen, |p.cmds|, w.branches[k].lab);
    }
  }

  lemma FitsInSmaller(p: Prog, widen: set<nat>, big: set<nat>, k: nat)
    requires SwitchFree(p) && widen <= big && k < Ord(p, |p.cmds|) && ShortFits(p, big, k)
    requires MarkOf(p, |p.cmds|, p.cmds[NthBranch(p, |p.cmds|, k)].lab) >= 0
    ensures ShortFits(p, widen, k)
  {
    var j := NthBranch(p, |p.cmds|, k);
    var t := MarkOf(p, |p.cmds|, p.cmds[j].lab);
    if j <= t { GapsMonotone(p, widen, big, j, t); } else { GapsMonotone(p, widen, big, t, j); }
  }

  /** In a switch-free body no pass widens a branch that a sufficient set leaves short. */
  lemma {:induction false} StaysBelow(p: Prog, widen: set<nat>, big: set<nat>, passes: nat)
    requires WellFormedProg(p) && SwitchFree(p) && widen <= big && Suffices(p, big)
    ensures FinalWiden(p, widen, passes) <= big
    decreases passes
  {
    hide Do, Start, Enc, ShortFits;
    if passes > 0 && OnePass(p, widen).Again? {
      var w := Run(p, widen, |p.cmds|);
      forall k | k in Overflow(w) ensures k in big {
        OverflowMeans(p, widen, k);
        if k !in big { FitsInSmaller(p, widen, big, k); }
      }
      StaysBelow(p, OnePass(p, widen).widen, big, passes - 1);
    }
  }

  /** For a switch-free body the long branches chosen are the least set under which every other branch fits. */
  lemma LeastWidening(p: Prog, passes: nat, big: set<nat>)
    requires WellFormedProg(p) && SwitchFree(p) && Replay(p, {}, passes).Assembled?
    ensures Suffices(p, FinalWiden(p, {}, passes))
    ensures Suffices(p, big) ==> FinalWiden(p, {}, passes) <= big
  {
    hide Do, Start, Enc, ShortFits;
    var widen := FinalWiden(p, {}, passes);
    LastPass(p, {}, passes);
    forall k: nat | k < Ord(p, |p.cmds|) && k !in widen ensures ShortFits(p, widen, k) {
      OverflowMeans(p, widen, k);
    }
    if Suffices(p, big) { StaysBelow(p, {}, big, passes); }
  }

  // ---- the builder --------------------------------------------------------

  class MethodBuilder {
    var code: seq<byte>
    var maxStack: int
    var maxLocals: int
    var handlers: seq<Handler>
    var hasCode: bool
    var failed: bool

    constructor ()
      ensures !failed && !hasCode && code == [] && handlers == []
    {
      code, maxStack, maxLocals, handlers, hasCode, failed := [], 0, 0, [], false, false;
    }

    /** One replay of the body on a fresh writer. */
    method RunBody(calls: seq<Call>, argSlots: nat, widen: set<nat>) returns (c: Writer)
      requires argSlots <= 255 && forall i :: 0 <= i < |calls| ==> Typed(calls[i])
      ensures fresh(c) && c.widen == widen
      ensures WellFormedProg(Prog(argSlots, LowerAll(calls)))
      ensures c.Reached(Run(Prog(argSlots, LowerAll(calls)), widen, |calls|))
      ensures c.Fit()
    {
      hide Do, Lower, Sane;
      var p := Prog(argSlots, LowerAll(calls));
      c := new Writer(argSlots, widen);
      for i := 0 to |calls|
        invariant fresh(c) && c.widen == widen && c.Reached(Run(p, widen, i)) && c.Fit()
      {
        ghost var before := c.State();
        LowerFits(calls[i]);
        c.Perform(calls[i]);
        if !c.failed { SaneStep(before, p.cmds[i], widen); }
      }
    }

    /** Builds the body; the result is the replay's, under the source's cap of ten passes. */
    method Code(calls: seq<Call>, argSlots: nat)
      requires forall i :: 0 <= i < |calls| ==> Typed(calls[i])
      modifies this
      ensures WellFormedProg(Prog(argSlots, LowerAll(calls)))
      ensures var r := Replay(Prog(argSlots, LowerAll(calls)), {}, MAX_REPLAYS);
              if !old(failed) && argSlots <= 255 && r.Assembled?
              then !failed && hasCode && code == r.code && maxStack == r.maxStack && maxLocals == r.maxLocals
                   && handlers == old(handlers) + r.table
              else failed && code == old(code) && hasCode == old(hasCode) && handlers == old(handlers)
    {
      hide Do, Lower, Finished, Sane;
      if failed { return; }
      if argSlots > 255 {
        failed := true;
        return;
      }
      var widen: set<nat> := {};
      var pass := 0;
      ghost var p := Prog(argSlots, LowerAll(calls));
      while true
        invariant 0 <= pass <= MAX_REPLAYS && !failed
        invariant Replay(p, widen, MAX_REPLAYS - pass) == Replay(p, {}, MAX_REPLAYS)
        invariant code == old(code) && hasCode == old(hasCode) && handlers == old(handlers)
        decreases MAX_REPLAYS - pass
      {
        if pass >= MAX_REPLAYS {
          failed := true;
          return;
        }
        var c := RunBody(calls, argSlots, widen);
        if c.failed || c.reachable {
          failed := true;
          return;
        }
        RunRecords(p, widen);
        RecordsFit(p, widen, c.State());
        var again := c.ResolveLabels();
        if again {
          widen := c.widen;
          pass := pass + 1;
          continue;
        }
        if c.failed || c.b == [] || |c.b| > MAX_CODE_LENGTH || c.maxStack > MAX_STACK || c.maxLocals > 65535 {
          failed := true;
          return;
        }
        Install(c);
        return;
      }
    }

    /** Copies a finished writer's results; handler rows are appended to those already there. */
    method Install(c: Writer)
      modifies this
      ensures code == c.b && maxStack == c.maxStack && maxLocals == c.maxLocals && hasCode && failed == old(failed)
      ensures handlers == old(handlers) + Table(c.handlers, c.pcs)
    {
      code, maxStack, maxLocals, hasCode := c.b, c.maxStack, c.maxLocals, true;
      for i := 0 to |c.handlers|
        invariant code == c.b && maxStack == c.maxStack && maxLocals == c.maxLocals && hasCode && failed == old(failed)
        invariant handlers == old(handlers) + Table(c.handlers, c.pcs)[..i]
      {
        var h := c.handlers[i];
        handlers := handlers + [Handler(HandlerPc(c.pcs, h.start), HandlerPc(c.pcs, h.end), HandlerPc(c.pcs, h.handler), h.catchType)];
      }
    }
  }

  lemma LowerFits(c: Call)
    requires Typed(c)
    ensures Lower(c).Plain? ==> Lower(c).locals <= 65535
  {
  }
}
