/** The code array of an accepted body, and what decoding it reports. */
module CodeImage {
  import opened Bytes
  import opened Opcode
  import opened Layout
  import opened Calls
  import opened Pass
  import opened Resolve
  import opened Replay
  import opened Decode
  import opened StackDiscipline

  // ---- the assembled image ------------------------------------------------

  /** Nothing a body says about the code array is left open: its labels are placed and its offsets fit. */
  ghost predicate Linked(p: Prog, widen: set<nat>, code: seq<byte>) {
    && WellFormedProg(p) && |code| == Pos(p, widen, |p.cmds|) && |code| <= MAX_CODE_LENGTH
    && (forall j :: 0 <= j < |p.cmds| ==> Stands(code, Pos(p, widen, j), FinalEnc(p, widen, j)))
    && (forall j, t :: 0 <= j < |p.cmds| && t in Targets(p.cmds[j]) ==> MarkOf(p, |p.cmds|, t) >= 0)
    && (forall k: nat :: k < Ord(p, |p.cmds|) && k !in widen ==> ShortFits(p, widen, k))
  }

  lemma AcceptedIsLinked(p: Prog, widen: set<nat>)
    requires Accepted(p, widen)
    ensures Linked(p, widen, OnePass(p, widen).code)
  {
    hide Run, Finished, Records, InBuffer, Table, OnePass, Overflow, BranchesPlaced, SwitchesPlaced, ShortFits, Enc, FinalEnc;
    AcceptedIsClean(p, widen);
    var code, w := OnePass(p, widen).code, Run(p, widen, |p.cmds|);
    assert WellFormedProg(p);
    if |p.cmds| == 0 { EmptyRefused(p, widen); }
    forall j | 0 <= j < |p.cmds|
      ensures |code| == Pos(p, widen, |p.cmds|) && Stands(code, Pos(p, widen, j), FinalEnc(p, widen, j))
    {
      FinishedHolds(p, widen, w, j);
      PosGrows(p, widen, j + 1, |p.cmds|);
    }
    forall j, t | 0 <= j < |p.cmds| && t in Targets(p.cmds[j]) ensures MarkOf(p, |p.cmds|, t) >= 0 { TargetPlaced(p, widen, j, t); }
    forall k: nat | k < Ord(p, |p.cmds|) && k !in widen ensures ShortFits(p, widen, k) { OverflowMeans(p, widen, k); }
  }

  lemma EmptyRefused(p: Prog, widen: set<nat>)
    requires WellFormedProg(p) && p.cmds == []
    ensures Run(p, widen, 0).reachable
  {
  }

  // ---- positions of instructions ------------------------------------------

  /** The first command at or after i that emits bytes. */
  function Land(p: Prog, i: nat): (j: nat)
    requires i <= |p.cmds|
    ensures i <= j <= |p.cmds|
    ensures j < |p.cmds| ==> !IsMarker(p.cmds[j])
    decreases |p.cmds| - i
  {
    if i == |p.cmds| || !IsMarker(p.cmds[i]) then i else Land(p, i + 1)
  }

  lemma {:induction false} LandPos(p: Prog, widen: set<nat>, i: nat)
    requires i <= |p.cmds|
    ensures Pos(p, widen, Land(p, i)) == Pos(p, widen, i)
    decreases |p.cmds| - i
  {
    if i < |p.cmds| && IsMarker(p.cmds[i]) { LandPos(p, widen, i + 1); }
  }

  /** Where control can be, an instruction follows. */
  lemma {:induction false} LandInside(p: Prog, widen: set<nat>, i: nat)
    requires Accepted(p, widen) && i <= |p.cmds| && Run(p, widen, i).reachable
    ensures Land(p, i) < |p.cmds|
    decreases |p.cmds| - i
  {
    hide Do, Start, OnePass, Records, BranchesPlaced, SwitchesPlaced, Overflow, InBuffer;
    AcceptedIsClean(p, widen);
    if i < |p.cmds| && IsMarker(p.cmds[i]) {
      CleanBefore(p, widen, i + 1, |p.cmds|);
      DepthStep(Run(p, widen, i), p.cmds[i], widen, 0);
      LandInside(p, widen, i + 1);
    }
  }

  lemma LabelLands(p: Prog, widen: set<nat>, l: nat)
    requires Accepted(p, widen) && MarkOf(p, |p.cmds|, l) >= 0
    ensures Land(p, MarkOf(p, |p.cmds|, l)) < |p.cmds|
    ensures LabelPos(p, widen, l) == Pos(p, widen, Land(p, MarkOf(p, |p.cmds|, l)))
  {
    hide Do, Start, OnePass, Records, BranchesPlaced, SwitchesPlaced, Overflow, InBuffer;
    var j := MarkOf(p, |p.cmds|, l);
    AcceptedIsClean(p, widen);
    CleanBefore(p, widen, j + 1, |p.cmds|);
    DepthStep(Run(p, widen, j), p.cmds[j], widen, 0);
    LandInside(p, widen, j + 1);
    LandPos(p, widen, j);
  }

  lemma NextLands(p: Prog, widen: set<nat>, i: nat)
    requires Accepted(p, widen) && i < |p.cmds| && !IsMarker(p.cmds[i]) && !Ends(p.cmds[i])
    ensures Land(p, i + 1) < |p.cmds| && Pos(p, widen, Land(p, i + 1)) == Pos(p, widen, i + 1)
  {
    hide Do, Start, OnePass, Records, BranchesPlaced, SwitchesPlaced, Overflow, InBuffer;
    AcceptedIsClean(p, widen);
    CleanBefore(p, widen, i + 1, |p.cmds|);
    DepthStep(Run(p, widen, i), p.cmds[i], widen, 0);
    LandInside(p, widen, i + 1);
    LandPos(p, widen, i + 1);
  }

  lemma PosStrict(p: Prog, widen: set<nat>, i: nat, j: nat)
    requires WellFormedProg(p) && i < j <= |p.cmds| && !IsMarker(p.cmds[i]) && !p.cmds[i].Refused?
    ensures Pos(p, widen, i) < Pos(p, widen, j)
  {
    PosGrows(p, widen, i + 1, j);
  }

  // ---- reading the listing back -------------------------------------------

  /** What decoding must report for command i; `intent` is what it asks for when it branches nowhere. */
  function Expect(p: Prog, widen: set<nat>, i: nat, intent: View): seq<(int, View)>
    requires i < |p.cmds| && WellFormed(p.cmds[i])
  {
    var at := Pos(p, widen, i);
    match p.cmds[i]
    case Plain(_, _, _, _, _) => [(at, intent)]
    case Branch(op, l) =>
      if IsWide(p, widen, i) && op != GOTO then [(at, BranchTo(Invert(op), at + 8)), (at + 3, BranchTo(GOTO, LabelPos(p, widen, l)))]
      else [(at, BranchTo(op, LabelPos(p, widen, l)))]
    case Switch(_, keys, targets) => [(at, SwitchView(p, widen, keys, targets))]
    case _ => []
  }

  function SwitchView(p: Prog, widen: set<nat>, keys: seq<int>, targets: seq<nat>): View
    requires |targets| == |keys| + 1
  {
    SwitchTo(LabelPos(p, widen, targets[0]),
             seq(|keys|, k requires 0 <= k < |keys| => (keys[k], LabelPos(p, widen, targets[k + 1]))))
  }

  function Listing(calls: seq<Call>, argSlots: nat, widen: set<nat>, i: nat): seq<(int, View)>
    requires i <= |calls| && forall k :: 0 <= k < |calls| ==> Typed(calls[k])
    decreases |calls| - i
  {
    if i == |calls| then []
    else Expect(Prog(argSlots, LowerAll(calls)), widen, i, Intent(calls[i])) + Listing(calls, argSlots, widen, i + 1)
  }

  function Shown(all: seq<Instr>): seq<(int, View)>
    requires forall k :: 0 <= k < |all| ==> Complete(all[k])
  {
    seq(|all|, k requires 0 <= k < |all| => (all[k].pc, Meaning(all[k])))
  }

  /** The decoder at `pc` reports exactly `views` and then stands at `end`. */
  ghost predicate Reads(code: seq<byte>, pc: nat, views: seq<(int, View)>, end: nat)
    decreases |views|
  {
    if views == [] then pc == end
    else
      && pc < |code| && At(code, pc).Some?
      && views[0] == (pc, Meaning(At(code, pc).value))
      && Reads(code, pc + |At(code, pc).value.raw|, views[1..], end)
  }

  lemma OneRead(code: seq<byte>, pc: nat, v: View, n: nat)
    requires ReadsOne(code, pc, v, n)
    ensures Reads(code, pc, [(pc, v)], pc + n)
  {
    hide At, Meaning;
    var views := [(pc, v)];
    assert views[1..] == [];
    assert Reads(code, pc + |At(code, pc).value.raw|, [], pc + |At(code, pc).value.raw|);
  }

  /** What linking promises of one command. */
  lemma LinkedAt(p: Prog, widen: set<nat>, code: seq<byte>, j: nat)
    requires Linked(p, widen, code) && j < |p.cmds|
    ensures WellFormed(p.cmds[j]) && |code| == Pos(p, widen, |p.cmds|) && Stands(code, Pos(p, widen, j), FinalEnc(p, widen, j))
    ensures Pos(p, widen, j) <= Pos(p, widen, j + 1) <= |code| <= MAX_CODE_LENGTH
    ensures forall t :: t in Targets(p.cmds[j]) ==> MarkOf(p, |p.cmds|, t) >= 0
    ensures p.cmds[j].Branch? && Ord(p, j) !in widen ==> IsInt16(LabelPos(p, widen, p.cmds[j].lab) - Pos(p, widen, j))
  {
    hide Stands, FinalEnc;
    PosGrows(p, widen, j + 1, |p.cmds|);
    if p.cmds[j].Branch? && Ord(p, j) !in widen {
      NthBranchUnique(p, |p.cmds|, j);
      assert ShortFits(p, widen, Ord(p, j));
    }
  }

  /** Label positions are code offsets, so every distance between them is an int. */
  lemma OffsetsSmall(p: Prog, widen: set<nat>, code: seq<byte>, j: nat)
    requires Linked(p, widen, code) && j < |p.cmds|
    ensures 0 <= Pos(p, widen, j) <= MAX_CODE_LENGTH
    ensures forall t :: t in Targets(p.cmds[j]) ==> 0 <= LabelPos(p, widen, t) <= MAX_CODE_LENGTH
    ensures forall k :: 0 <= k < |Offsets(p, widen, j)| ==> IsInt32(Offsets(p, widen, j)[k])
  {
    hide FinalEnc, ShortFits, Stands, Linked;
    LinkedAt(p, widen, code, j);
    forall t | t in Targets(p.cmds[j]) ensures 0 <= LabelPos(p, widen, t) <= MAX_CODE_LENGTH {
      PosGrows(p, widen, MarkOf(p, |p.cmds|, t), |p.cmds|);
    }
    forall k | 0 <= k < |Offsets(p, widen, j)| ensures IsInt32(Offsets(p, widen, j)[k]) {
      assert Targets(p.cmds[j])[k] in Targets(p.cmds[j]);
    }
  }

  /** The one instruction at `at`: it means v and is n bytes long. */
  ghost predicate ReadsOne(code: seq<byte>, at: nat, v: View, n: nat) {
    at < |code| && At(code, at).Some? && Meaning(At(code, at).value) == v && |At(code, at).value.raw| == n
  }

  /** Where branch command i leads, decoded from its own bytes. */
  lemma BranchEncReads(code: seq<byte>, at: nat, op: byte, wide: bool, to: int)
    requires IsBranch(op) && (!wide ==> IsInt16(to - at)) && 0 <= to <= MAX_CODE_LENGTH && at <= MAX_CODE_LENGTH
    requires Stands(code, at, BranchEnc(op, wide, to - at - if wide && op != GOTO then 3 else 0))
    ensures !wide ==> ReadsOne(code, at, BranchTo(op, to), 3)
    ensures wide && op == GOTO ==> ReadsOne(code, at, BranchTo(GOTO, to), 5)
    ensures wide && op != GOTO ==>
              IsCond(op) && ReadsOne(code, at, BranchTo(Invert(op), at + 8), 3) && ReadsOne(code, at + 3, BranchTo(GOTO, to), 5)
  {
    hide At, Meaning, U2, U4, Stands;
    if !wide {
      ShortRoundTrip(code, at, op, to - at);
    } else if op == GOTO {
      LongRoundTrip(code, at, to - at);
    } else {
      WideTestReads(code, at, op, to);
    }
  }

  lemma WideTestReads(code: seq<byte>, at: nat, op: byte, to: int)
    requires IsCond(op) && 0 <= to <= MAX_CODE_LENGTH && at <= MAX_CODE_LENGTH
    requires Stands(code, at, [Invert(op)] + U2(8) + [GOTO_W] + U4(to - at - 3))
    ensures ReadsOne(code, at, BranchTo(Invert(op), at + 8), 3) && ReadsOne(code, at + 3, BranchTo(GOTO, to), 5)
  {
    hide At, Meaning, U2, U4, Stands;
    var head, tail := [Invert(op)] + U2(8), [GOTO_W] + U4(to - at - 3);
    assert head + [GOTO_W] + U4(to - at - 3) == head + tail;
    SplitStands(code, at, head, tail);
    InvertTwice(op);
    ShortRoundTrip(code, at, Invert(op), 8);
    LongRoundTrip(code, at + 3, to - at - 3);
  }

  lemma BranchReads(p: Prog, widen: set<nat>, code: seq<byte>, i: nat)
    requires Linked(p, widen, code) && i < |p.cmds| && p.cmds[i].Branch?
    ensures var op, at, to := p.cmds[i].op, Pos(p, widen, i), LabelPos(p, widen, p.cmds[i].lab);
            if IsWide(p, widen, i) && op != GOTO then
              && IsCond(op) && ReadsOne(code, at, BranchTo(Invert(op), at + 8), 3)
              && ReadsOne(code, at + 3, BranchTo(GOTO, to), 5) && at + 8 == Pos(p, widen, i + 1)
            else ReadsOne(code, at, BranchTo(op, to), Pos(p, widen, i + 1) - at)
  {
    hide ReadsOne, BranchEnc, LabelPos, Linked, Stands;
    var c, at, wide := p.cmds[i], Pos(p, widen, i), IsWide(p, widen, i);
    OffsetsSmall(p, widen, code, i);
    LinkedAt(p, widen, code, i);
    assert c.lab in Targets(c);
    BranchEncReads(code, at, c.op, wide, LabelPos(p, widen, c.lab));
  }

  lemma SplitStands(code: seq<byte>, at: nat, a: seq<byte>, b: seq<byte>)
    requires Stands(code, at, a + b)
    ensures Stands(code, at, a) && Stands(code, at + |a|, b)
  {
    assert code[at..at + |a|] == code[at..at + |a + b|][..|a|];
    assert code[at + |a|..at + |a| + |b|] == code[at..at + |a + b|][|a|..];
  }

  lemma SwitchReads(p: Prog, widen: set<nat>, code: seq<byte>, i: nat)
    requires Linked(p, widen, code) && i < |p.cmds| && p.cmds[i].Switch? && KeysFit(p.cmds[i])
    ensures var at := Pos(p, widen, i);
            ReadsOne(code, at, SwitchView(p, widen, p.cmds[i].keys, p.cmds[i].targets), Pos(p, widen, i + 1) - at)
  {
    hide At, Meaning, Enc, Size, Linked, Stands;
    var c, at, offs := p.cmds[i], Pos(p, widen, i), Offsets(p, widen, i);
    OffsetsSmall(p, widen, code, i);
    LinkedAt(p, widen, code, i);
    SwitchRoundTrip(code, at, c, offs);
    assert CasesOf(at, c.keys, offs) == SwitchView(p, widen, c.keys, c.targets).cases;
    StandsInside(code, at, FinalEnc(p, widen, i));
  }

  lemma StandsInside(code: seq<byte>, at: nat, e: seq<byte>)
    requires Stands(code, at, e)
    ensures at + |e| <= |code|
  {
  }

  lemma PlainReads(calls: seq<Call>, argSlots: nat, widen: set<nat>, code: seq<byte>, i: nat)
    requires i < |calls| && forall k :: 0 <= k < |calls| ==> Typed(calls[k])
    requires Linked(Prog(argSlots, LowerAll(calls)), widen, code) && Lower(calls[i]).Plain?
    ensures var p := Prog(argSlots, LowerAll(calls));
            var at := Pos(p, widen, i);
            && ReadsOne(code, at, Intent(calls[i]), Pos(p, widen, i + 1) - at)
            && Terminates(At(code, at).value.op) == Ends(p.cmds[i])
  {
    hide At, Meaning, Lower, Intent, Linked, Stands;
    var p := Prog(argSlots, LowerAll(calls));
    assert p.cmds[i] == Lower(calls[i]);
    LinkedAt(p, widen, code, i);
    StandsInside(code, Pos(p, widen, i), FinalEnc(p, widen, i));
    PlainRoundTrip(code, Pos(p, widen, i), calls[i]);
  }

  /** The bytes of one command decode to exactly what it expects, and end where the next one starts. */
  lemma CommandReads(calls: seq<Call>, argSlots: nat, widen: set<nat>, code: seq<byte>, i: nat)
    requires i < |calls| && forall k :: 0 <= k < |calls| ==> Typed(calls[k])
    requires Linked(Prog(argSlots, LowerAll(calls)), widen, code) && !Lower(calls[i]).Refused?
    ensures var p := Prog(argSlots, LowerAll(calls));
            Reads(code, Pos(p, widen, i), Expect(p, widen, i, Intent(calls[i])), Pos(p, widen, i + 1))
  {
    hide Lower, Intent, Linked, ReadsOne, Reads;
    var p := Prog(argSlots, LowerAll(calls));
    assert p.cmds[i] == Lower(calls[i]);
    var at := Pos(p, widen, i);
    match p.cmds[i]
    case Plain(_, _, _, _, _) =>
      PlainReads(calls, argSlots, widen, code, i);
      OneRead(code, at, Intent(calls[i]), Pos(p, widen, i + 1) - at);
    case Branch(_, _) => BranchCommandReads(p, widen, code, i, Intent(calls[i]));
    case Switch(_, keys, targets) =>
      SwitchReads(p, widen, code, i);
      OneRead(code, at, SwitchView(p, widen, keys, targets), Pos(p, widen, i + 1) - at);
    case Mark(_) => NoReads(code, at);
    case TryCatch(_, _, _, _) => NoReads(code, at);
  }

  lemma BranchCommandReads(p: Prog, widen: set<nat>, code: seq<byte>, i: nat, intent: View)
    requires Linked(p, widen, code) && i < |p.cmds| && p.cmds[i].Branch? && WellFormed(p.cmds[i])
    ensures Reads(code, Pos(p, widen, i), Expect(p, widen, i, intent), Pos(p, widen, i + 1))
  {
    hide Linked, ReadsOne, Reads, LabelPos, Pos;
    var op, at, to := p.cmds[i].op, Pos(p, widen, i), LabelPos(p, widen, p.cmds[i].lab);
    BranchReads(p, widen, code, i);
    PosGrows(p, widen, i, i + 1);
    if IsWide(p, widen, i) && op != GOTO {
      OneRead(code, at, BranchTo(Invert(op), at + 8), 3);
      OneRead(code, at + 3, BranchTo(GOTO, to), 5);
      var a, b := [(at as int, BranchTo(Invert(op), at + 8))], [(at + 3, BranchTo(GOTO, to))];
      ReadsThen(code, at, a, at + 3, b, at + 8);
      assert a + b == Expect(p, widen, i, intent);
    } else {
      OneRead(code, at, BranchTo(op, to), Pos(p, widen, i + 1) - at);
    }
  }

  lemma NoReads(code: seq<byte>, at: nat)
    ensures Reads(code, at, [], at)
  {
  }

  lemma {:induction false} ReadsThen(code: seq<byte>, pc: nat, a: seq<(int, View)>, mid: nat, b: seq<(int, View)>, end: nat)
    requires Reads(code, pc, a, mid) && Reads(code, mid, b, end)
    ensures Reads(code, pc, a + b, end)
    decreases |a|
  {
    hide At, Meaning;
    if a == [] {
      assert a + b == b;
    } else {
      ReadsThen(code, pc + |At(code, pc).value.raw|, a[1..], mid, b, end);
      assert (a + b)[1..] == a[1..] + b;
    }
  }

  lemma {:induction false} ListingReads(calls: seq<Call>, argSlots: nat, widen: set<nat>, code: seq<byte>, i: nat)
    requires i <= |calls| && forall k :: 0 <= k < |calls| ==> Typed(calls[k])
    requires Linked(Prog(argSlots, LowerAll(calls)), widen, code)
    requires forall k :: 0 <= k < |calls| ==> !Lower(calls[k]).Refused?
    ensures Reads(code, Pos(Prog(argSlots, LowerAll(calls)), widen, i), Listing(calls, argSlots, widen, i), |code|)
    decreases |calls| - i
  {
    hide At, Meaning, Lower, Expect, Linked;
    var p := Prog(argSlots, LowerAll(calls));
    if i == |calls| {
      assert |code| == Pos(p, widen, i) by { LinkedLength(p, widen, code); }
    } else {
      CommandReads(calls, argSlots, widen, code, i);
      ListingReads(calls, argSlots, widen, code, i + 1);
      ReadsThen(code, Pos(p, widen, i), Expect(p, widen, i, Intent(calls[i])), Pos(p, widen, i + 1),
                Listing(calls, argSlots, widen, i + 1), |code|);
    }
  }

  lemma LinkedLength(p: Prog, widen: set<nat>, code: seq<byte>)
    requires Linked(p, widen, code)
    ensures |code| == Pos(p, widen, |p.cmds|)
  {
    hide Stands, ShortFits, FinalEnc;
  }

  lemma {:induction false} ReadsIsWalk(code: seq<byte>, pc: nat, views: seq<(int, View)>)
    requires Reads(code, pc, views, |code|)
    ensures pc <= |code| && Walk(code, pc).Some?
    ensures forall k :: 0 <= k < |Walk(code, pc).value| ==> Complete(Walk(code, pc).value[k])
    ensures Shown(Walk(code, pc).value) == views
    decreases |views|
  {
    hide Meaning, Complete, InstrLen;
    if views != [] {
      var ins := At(code, pc).value;
      ReadsIsWalk(code, pc + |ins.raw|, views[1..]);
      var rest := Walk(code, pc + |ins.raw|).value;
      assert Walk(code, pc).value == [ins] + rest;
      assert Shown([ins] + rest) == [(ins.pc, Meaning(ins))] + Shown(rest);
    }
  }

  /** No call of an accepted body was refused. */
  lemma NoneRefused(p: Prog, widen: set<nat>, i: nat)
    requires Accepted(p, widen) && i < |p.cmds|
    ensures !p.cmds[i].Refused?
  {
    hide Do, Start, OnePass, Records, BranchesPlaced, SwitchesPlaced, Overflow, InBuffer;
    AcceptedIsClean(p, widen);
    CleanBefore(p, widen, i + 1, |p.cmds|);
    StepFacts(Run(p, widen, i), p.cmds[i], widen);
  }

  /** Iterating the code array of an accepted body yields exactly its instructions, with their operands and targets. */
  lemma IterationReadsBody(calls: seq<Call>, argSlots: nat, widen: set<nat>)
    requires forall k :: 0 <= k < |calls| ==> Typed(calls[k])
    requires Accepted(Prog(argSlots, LowerAll(calls)), widen)
    ensures var code := OnePass(Prog(argSlots, LowerAll(calls)), widen).code;
            && Walk(code, 0).Some?
            && (forall k :: 0 <= k < |Walk(code, 0).value| ==> Complete(Walk(code, 0).value[k]))
            && Shown(Walk(code, 0).value) == Listing(calls, argSlots, widen, 0)
  {
    hide Lower, OnePass, Linked, Listing, Walk, Meaning, Complete;
    var p := Prog(argSlots, LowerAll(calls));
    AcceptedIsLinked(p, widen);
    forall k | 0 <= k < |calls| ensures !Lower(calls[k]).Refused? {
      NoneRefused(p, widen, k);
      assert p.cmds[k] == Lower(calls[k]);
    }
    ListingReads(calls, argSlots, widen, OnePass(p, widen).code, 0);
    ReadsIsWalk(OnePass(p, widen).code, 0, Listing(calls, argSlots, widen, 0));
  }

  /** Every label a body targets lies on an instruction boundary strictly inside the code array. */
  lemma TargetsAreBoundaries(p: Prog, widen: set<nat>, j: nat, t: nat)
    requires Accepted(p, widen) && j < |p.cmds| && t in Targets(p.cmds[j])
    ensures MarkOf(p, |p.cmds|, t) >= 0
    ensures var k := Land(p, MarkOf(p, |p.cmds|, t));
            && k < |p.cmds| && !IsMarker(p.cmds[k])
            && LabelPos(p, widen, t) == Pos(p, widen, k) < |OnePass(p, widen).code|
  {
    hide OnePass, Linked;
    TargetPlaced(p, widen, j, t);
    LabelLands(p, widen, t);
    var k := Land(p, MarkOf(p, |p.cmds|, t));
    NoneRefused(p, widen, k);
    PosStrict(p, widen, k, |p.cmds|);
    AcceptedIsLinked(p, widen);
    LinkedLength(p, widen, OnePass(p, widen).code);
  }
}
