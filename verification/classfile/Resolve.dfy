/** Patching label offsets into the buffer once every label is placed. */
module Resolve {
  import opened Bytes
  import opened Opcode
  import opened Layout
  import opened Pass

  // ---- the fields a record owns -------------------------------------------

  function BranchLen(br: BranchRec): nat { if !br.wide then 3 else if br.op == GOTO then 5 else 8 }

  /** Where the branch offset is written. */
  function BranchField(br: BranchRec): nat { if br.wide && br.op != GOTO then br.at + 4 else br.at + 1 }

  /** The offset is measured from the instruction that holds it. */
  function BranchOffset(br: BranchRec, pc: int): int {
    pc - br.at - if br.wide && br.op != GOTO then 3 else 0
  }

  function BranchBytes(br: BranchRec, pc: int): seq<byte> {
    if br.wide then U4(BranchOffset(br, pc)) else U2(BranchOffset(br, pc))
  }

  /** A short branch can reach its label. */
  predicate Reaches(br: BranchRec, pc: int) { br.wide || IsInt16(pc - br.at) }

  function SwitchLen(s: SwitchRec): nat
    requires s.targets != []
  {
    1 + s.pad + if s.table then 12 + 4 * (|s.targets| - 1) else 8 + 8 * (|s.targets| - 1)
  }

  /** Where the offset of target i is written; target 0 is the default. */
  function SwitchField(s: SwitchRec, i: nat): nat {
    var body := s.at + 1 + s.pad;
    if i == 0 then body else if s.table then body + 12 + 4 * (i - 1) else body + 8 + 8 * (i - 1) + 4
  }

  /** Every record lies inside the buffer. */
  ghost predicate InBuffer(w: WState) {
    && (forall k :: 0 <= k < |w.branches| ==> w.branches[k].at + BranchLen(w.branches[k]) <= |w.b|)
    && (forall k :: 0 <= k < |w.switches| ==> w.switches[k].targets != [] && w.switches[k].at + SwitchLen(w.switches[k]) <= |w.b|)
  }

  /** The first k branches have their labels placed. */
  predicate PlacedTo(w: WState, k: nat)
    requires k <= |w.branches|
  {
    forall i :: 0 <= i < k ==> w.branches[i].lab in w.pcs
  }

  predicate BranchesPlaced(w: WState) { PlacedTo(w, |w.branches|) }

  predicate SwitchPlacedTo(s: SwitchRec, pcs: map<nat, nat>, t: nat)
    requires t <= |s.targets|
  {
    forall i :: 0 <= i < t ==> s.targets[i] in pcs
  }

  predicate SwitchPlaced(s: SwitchRec, pcs: map<nat, nat>) { SwitchPlacedTo(s, pcs, |s.targets|) }

  predicate SwitchesPlacedTo(w: WState, k: nat)
    requires k <= |w.switches|
  {
    forall i :: 0 <= i < k ==> SwitchPlaced(w.switches[i], w.pcs)
  }

  predicate SwitchesPlaced(w: WState) { SwitchesPlacedTo(w, |w.switches|) }

  /** Those of the first k branches that the next pass must widen. */
  function OverflowTo(w: WState, k: nat): (r: set<nat>)
    requires k <= |w.branches| && PlacedTo(w, k)
  {
    if k == 0 then {}
    else
      var br := w.branches[k - 1];
      OverflowTo(w, k - 1) + if Reaches(br, w.pcs[br.lab]) then {} else {k - 1}
  }

  function Overflow(w: WState): set<nat>
    requires BranchesPlaced(w)
  {
    OverflowTo(w, |w.branches|)
  }

  lemma {:induction false} OverflowHas(w: WState, k: nat, i: nat)
    requires k <= |w.branches| && PlacedTo(w, k)
    ensures i in OverflowTo(w, k) <==> i < k && !Reaches(w.branches[i], w.pcs[w.branches[i].lab])
  {
    if k > 0 { OverflowHas(w, k - 1, i); }
  }

  /** The buffer after the first k branch offsets are written; an offset that does not fit is skipped. */
  function PatchedBranches(w: WState, k: nat): (b: seq<byte>)
    requires k <= |w.branches| && InBuffer(w) && PlacedTo(w, k)
    ensures |b| == |w.b|
  {
    if k == 0 then w.b
    else
      var br := w.branches[k - 1];
      var pc := w.pcs[br.lab];
      if Reaches(br, pc) then Patch(PatchedBranches(w, k - 1), BranchField(br), BranchBytes(br, pc))
      else PatchedBranches(w, k - 1)
  }

  /** The buffer after the first t offsets of one switch are written. */
  function PatchedSwitch(b: seq<byte>, s: SwitchRec, pcs: map<nat, nat>, t: nat): (r: seq<byte>)
    requires t <= |s.targets| && SwitchPlacedTo(s, pcs, t) && s.targets != [] && s.at + SwitchLen(s) <= |b|
    ensures |r| == |b|
  {
    if t == 0 then b
    else Patch(PatchedSwitch(b, s, pcs, t - 1), SwitchField(s, t - 1), U4(pcs[s.targets[t - 1]] - s.at))
  }

  function PatchedSwitches(w: WState, b: seq<byte>, k: nat): (r: seq<byte>)
    requires k <= |w.switches| && InBuffer(w) && SwitchesPlacedTo(w, k) && |b| == |w.b|
    ensures |r| == |b|
  {
    if k == 0 then b
    else PatchedSwitch(PatchedSwitches(w, b, k - 1), w.switches[k - 1], w.pcs, |w.switches[k - 1].targets|)
  }

  /** The finished code array. */
  function Finished(w: WState): (r: seq<byte>)
    requires InBuffer(w) && BranchesPlaced(w) && SwitchesPlaced(w)
    ensures |r| == |w.b|
  {
    PatchedSwitches(w, PatchedBranches(w, |w.branches|), |w.switches|)
  }

  // ---- what the patched buffer holds --------------------------------------

  /** The byte position of label l. */
  function LabelPos(p: Prog, widen: set<nat>, l: nat): int {
    if MarkOf(p, |p.cmds|, l) < 0 then -1 else Pos(p, widen, MarkOf(p, |p.cmds|, l))
  }

  /** Signed distance each offset field of command j must hold. */
  function Offsets(p: Prog, widen: set<nat>, j: nat): (r: seq<int>)
    requires j < |p.cmds|
    ensures |r| == |Targets(p.cmds[j])|
  {
    var c := p.cmds[j];
    var from := Pos(p, widen, j) + if IsWide(p, widen, j) && c.op != GOTO then 3 else 0;
    seq(|Targets(c)|, i requires 0 <= i < |Targets(c)| => LabelPos(p, widen, Targets(c)[i]) - from)
  }

  function FinalEnc(p: Prog, widen: set<nat>, j: nat): (r: seq<byte>)
    requires j < |p.cmds| && WellFormed(p.cmds[j])
    ensures |r| == Pos(p, widen, j + 1) - Pos(p, widen, j)
  {
    Enc(p.cmds[j], Pos(p, widen, j), IsWide(p, widen, j), Offsets(p, widen, j))
  }

  /** The buffer and records of a finished pass, read off the body. */
  ghost predicate Records(p: Prog, widen: set<nat>, w: WState) {
    && WellFormedProg(p)
    && |w.b| == Pos(p, widen, |p.cmds|)
    && |w.branches| == Ord(p, |p.cmds|)
    && |w.switches| == SwitchOrd(p, |p.cmds|)
    && (forall k :: 0 <= k < |w.branches| ==> w.branches[k] == BranchOf(p, widen, NthBranch(p, |p.cmds|, k)))
    && (forall k :: 0 <= k < |w.switches| ==> w.switches[k] == SwitchOf(p, widen, NthSwitch(p, |p.cmds|, k)))
    && (forall l :: l in w.pcs ==> w.pcs[l] == LabelPos(p, widen, l))
    && (forall j :: 0 <= j < |p.cmds| ==> Window(p, widen, w.b, j) == RawEnc(p, widen, j))
  }

  function BranchOf(p: Prog, widen: set<nat>, i: nat): BranchRec
    requires i < |p.cmds| && p.cmds[i].Branch?
  {
    BranchRec(p.cmds[i].op, p.cmds[i].lab, Pos(p, widen, i), IsWide(p, widen, i))
  }

  /** The record of switch command i. */
  function SwitchOf(p: Prog, widen: set<nat>, i: nat): SwitchRec
    requires i < |p.cmds| && p.cmds[i].Switch?
  {
    SwitchRec(p.cmds[i].table, Pos(p, widen, i), Pad(Pos(p, widen, i)), p.cmds[i].targets)
  }

  lemma RunRecords(p: Prog, widen: set<nat>)
    requires Clean(p, widen, |p.cmds|)
    ensures Records(p, widen, Run(p, widen, |p.cmds|))
  {
    hide Do, Enc, Size, Start;
    var n, w := |p.cmds|, Run(p, widen, |p.cmds|);
    BufferLength(p, widen, n);
    BranchCount(p, widen, n);
    SwitchCount(p, widen, n);
    forall k | 0 <= k < |w.branches| ensures w.branches[k] == BranchOf(p, widen, NthBranch(p, n, k)) {
      BranchRecords(p, widen, n, k);
    }
    forall k | 0 <= k < |w.switches| ensures w.switches[k] == SwitchOf(p, widen, NthSwitch(p, n, k)) {
      SwitchRecords(p, widen, n, k);
    }
    forall l | l in w.pcs ensures w.pcs[l] == LabelPos(p, widen, l) { LabelPlaces(p, widen, n, l); }
    forall j | 0 <= j < n ensures Window(p, widen, w.b, j) == RawEnc(p, widen, j) { BufferHolds(p, widen, n, j); }
  }

  lemma RecordsFit(p: Prog, widen: set<nat>, w: WState)
    requires Records(p, widen, w)
    ensures InBuffer(w)
  {
    hide Enc, RawEnc;
    forall k | 0 <= k < |w.branches| ensures w.branches[k].at + BranchLen(w.branches[k]) <= |w.b| {
      PosGrows(p, widen, NthBranch(p, |p.cmds|, k) + 1, |p.cmds|);
    }
    forall k | 0 <= k < |w.switches|
      ensures w.switches[k].targets != [] && w.switches[k].at + SwitchLen(w.switches[k]) <= |w.b|
    {
      PosGrows(p, widen, NthSwitch(p, |p.cmds|, k) + 1, |p.cmds|);
    }
  }

  lemma {:induction false} NthBranchUnique(p: Prog, i: nat, j: nat)
    requires j < i <= |p.cmds| && p.cmds[j].Branch?
    ensures Ord(p, j) < Ord(p, i) && NthBranch(p, i, Ord(p, j)) == j
  {
    if j < i - 1 {
      NthBranchUnique(p, i - 1, j);
    }
  }

  lemma {:induction false} NthSwitchUnique(p: Prog, i: nat, j: nat)
    requires j < i <= |p.cmds| && p.cmds[j].Switch?
    ensures SwitchOrd(p, j) < SwitchOrd(p, i) && NthSwitch(p, i, SwitchOrd(p, j)) == j
  {
    if j < i - 1 {
      NthSwitchUnique(p, i - 1, j);
    }
  }

  /** Writing the offset into a blank branch gives the encoding with that offset. */
  lemma PatchBranchEnc(op: byte, wide: bool, off: int)
    requires IsBranch(op)
    ensures var rel := if wide && op != GOTO then 4 else 1;
            Patch(BranchEnc(op, wide, 0), rel, if wide then U4(off) else U2(off)) == BranchEnc(op, wide, off)
  {
  }

  /** Bytes of command j in a buffer. */
  function Window(p: Prog, widen: set<nat>, b: seq<byte>, j: nat): seq<byte>
    requires j < |p.cmds| && Pos(p, widen, |p.cmds|) == |b|
  {
    PosGrows(p, widen, j, j + 1);
    PosGrows(p, widen, j + 1, |p.cmds|);
    b[Pos(p, widen, j)..Pos(p, widen, j + 1)]
  }

  /** A patch inside command i's bytes leaves command j's bytes alone. */
  lemma OtherWindow(p: Prog, widen: set<nat>, b: seq<byte>, at: nat, field: seq<byte>, i: nat, j: nat)
    requires i < |p.cmds| && j < |p.cmds| && i != j && Pos(p, widen, |p.cmds|) == |b|
    requires Pos(p, widen, i) <= at && at + |field| <= Pos(p, widen, i + 1) <= |b|
    ensures Window(p, widen, Patch(b, at, field), j) == Window(p, widen, b, j)
  {
    if i < j { PosGrows(p, widen, i + 1, j); } else { PosGrows(p, widen, j + 1, i); }
    PosGrows(p, widen, j, j + 1);
    PosGrows(p, widen, j + 1, |p.cmds|);
    PatchOutside(b, at, field, Pos(p, widen, j), Pos(p, widen, j + 1));
  }

  lemma BranchFact(p: Prog, widen: set<nat>, w: WState, k: nat)
    requires Records(p, widen, w) && BranchesPlaced(w) && Overflow(w) == {} && k < |w.branches|
    ensures WellFormedProg(p) && |w.b| == Pos(p, widen, |p.cmds|) && k < Ord(p, |p.cmds|)
    ensures w.branches[k] == BranchOf(p, widen, NthBranch(p, |p.cmds|, k)) && w.branches[k].lab in w.pcs
    ensures w.pcs[w.branches[k].lab] == LabelPos(p, widen, w.branches[k].lab)
    ensures Reaches(w.branches[k], w.pcs[w.branches[k].lab])
  {
    hide Enc, RawEnc;
    OverflowHas(w, |w.branches|, k);
  }

  lemma WindowFact(p: Prog, widen: set<nat>, w: WState, j: nat)
    requires Records(p, widen, w) && j < |p.cmds|
    ensures |w.b| == Pos(p, widen, |p.cmds|) && |w.branches| == Ord(p, |p.cmds|) && |w.switches| == SwitchOrd(p, |p.cmds|)
    ensures WellFormed(p.cmds[j]) && Window(p, widen, w.b, j) == RawEnc(p, widen, j)
  {
    hide Enc, RawEnc;
  }

  lemma SwitchFact(p: Prog, widen: set<nat>, w: WState, k: nat)
    requires Records(p, widen, w) && SwitchesPlaced(w) && k < |w.switches|
    ensures |w.b| == Pos(p, widen, |p.cmds|) && k < SwitchOrd(p, |p.cmds|)
    ensures var i := NthSwitch(p, |p.cmds|, k);
            && WellFormed(p.cmds[i]) && w.switches[k] == SwitchOf(p, widen, i) && SwitchPlaced(w.switches[k], w.pcs)
            && forall l :: l in p.cmds[i].targets ==> l in w.pcs && w.pcs[l] == LabelPos(p, widen, l)
  {
    hide Enc, RawEnc;
    assert SwitchPlaced(w.switches[k], w.pcs);
  }

  /** After k branches: those k hold their offsets, every other command is as emitted. */
  lemma {:induction false} BranchWindows(p: Prog, widen: set<nat>, w: WState, k: nat, j: nat)
    requires Records(p, widen, w) && BranchesPlaced(w) && Overflow(w) == {}
    requires k <= |w.branches| && j < |p.cmds|
    ensures InBuffer(w) && |w.b| == Pos(p, widen, |p.cmds|) && WellFormed(p.cmds[j])
    ensures Window(p, widen, PatchedBranches(w, k), j)
            == if p.cmds[j].Branch? && Ord(p, j) < k then FinalEnc(p, widen, j) else RawEnc(p, widen, j)
  {
    hide Enc, Size, Patch, Records, InBuffer, Window, RawEnc, FinalEnc, Pos, Overflow;
    RecordsFit(p, widen, w);
    WindowFact(p, widen, w, j);
    if k > 0 {
      var br := w.branches[k - 1];
      BranchFact(p, widen, w, k - 1);
      var i := NthBranch(p, |p.cmds|, k - 1);
      BranchWindows(p, widen, w, k - 1, j);
      BranchWindows(p, widen, w, k - 1, i);
      BranchStep(p, widen, PatchedBranches(w, k - 1), i, w.pcs[br.lab], j);
      if p.cmds[j].Branch? { NthBranchUnique(p, |p.cmds|, j); }
    }
  }

  lemma BranchStep(p: Prog, widen: set<nat>, b: seq<byte>, i: nat, pc: int, j: nat)
    requires i < |p.cmds| && p.cmds[i].Branch? && WellFormed(p.cmds[i]) && j < |p.cmds| && |b| == Pos(p, widen, |p.cmds|)
    requires pc == LabelPos(p, widen, p.cmds[i].lab) && Window(p, widen, b, i) == RawEnc(p, widen, i)
    requires WellFormed(p.cmds[j])
    ensures BranchField(BranchOf(p, widen, i)) + |BranchBytes(BranchOf(p, widen, i), pc)| <= |b|
    ensures Window(p, widen, Patch(b, BranchField(BranchOf(p, widen, i)), BranchBytes(BranchOf(p, widen, i), pc)), j)
            == if j == i then FinalEnc(p, widen, j) else Window(p, widen, b, j)
  {
    hide Enc, U4, U2, Patch;
    var br := BranchOf(p, widen, i);
    PosGrows(p, widen, i + 1, |p.cmds|);
    if i == j {
      PatchInside(b, BranchField(br), BranchBytes(br, pc), Pos(p, widen, j), Pos(p, widen, j + 1));
      BranchFinal(p, widen, j);
    } else {
      OtherWindow(p, widen, b, BranchField(br), BranchBytes(br, pc), i, j);
    }
  }

  lemma BranchFinal(p: Prog, widen: set<nat>, j: nat)
    requires j < |p.cmds| && p.cmds[j].Branch? && WellFormed(p.cmds[j])
    ensures var c, wide := p.cmds[j], IsWide(p, widen, j);
            var br := BranchRec(c.op, c.lab, Pos(p, widen, j), wide);
            FinalEnc(p, widen, j)
            == Patch(RawEnc(p, widen, j), BranchField(br) - br.at, BranchBytes(br, LabelPos(p, widen, c.lab)))
  {
    var c, wide := p.cmds[j], IsWide(p, widen, j);
    var br := BranchRec(c.op, c.lab, Pos(p, widen, j), wide);
    PatchBranchEnc(c.op, wide, BranchOffset(br, LabelPos(p, widen, c.lab)));
  }

  // ---- switches -----------------------------------------------------------

  lemma PatchMiddle(a: seq<byte>, f: seq<byte>, c: seq<byte>, f': seq<byte>)
    requires |f| == |f'|
    ensures Patch(a + f + c, |a|, f') == a + f' + c
  {
  }

  lemma PatchTail(a: seq<byte>, c: seq<byte>, rel: nat, field: seq<byte>)
    requires rel + |field| <= |c|
    ensures Patch(a + c, |a| + rel, field) == a + Patch(c, rel, field)
  {
  }

  lemma PatchTableEnc(keys: seq<int>, at: nat, offs: seq<int>, t: nat, v: int)
    requires |offs| == |keys| + 1 && keys != [] && t < |offs|
    ensures Patch(TableEnc(at, keys, offs), 1 + Pad(at) + if t == 0 then 0 else 12 + 4 * (t - 1), U4(v))
            == TableEnc(at, keys, offs[t := v])
  {
    hide U4, Words, Patch, Pad, Zeros;
    var a := [TABLESWITCH] + Zeros(Pad(at));
    var lohi := U4(keys[0]) + U4(keys[|keys| - 1]);
    var ws := offs[1..];
    assert TableEnc(at, keys, offs) == a + U4(offs[0]) + (lohi + Words(ws));
    if t == 0 {
      PatchMiddle(a, U4(offs[0]), lohi + Words(ws), U4(v));
      assert offs[t := v][1..] == ws;
      assert TableEnc(at, keys, offs[t := v]) == a + U4(v) + (lohi + Words(ws));
    } else {
      var head := a + U4(offs[0]) + lohi;
      assert TableEnc(at, keys, offs) == head + Words(ws);
      PatchTail(head, Words(ws), 4 * (t - 1), U4(v));
      PatchWord(ws, t - 1, v);
      assert offs[t := v][1..] == ws[t - 1 := v];
      assert TableEnc(at, keys, offs[t := v]) == head + Words(ws[t - 1 := v]);
    }
  }

  lemma PatchLookupEnc(keys: seq<int>, at: nat, offs: seq<int>, t: nat, v: int)
    requires |offs| == |keys| + 1 && t < |offs|
    ensures Patch(LookupEnc(at, keys, offs), 1 + Pad(at) + if t == 0 then 0 else 8 + 8 * (t - 1) + 4, U4(v))
            == LookupEnc(at, keys, offs[t := v])
  {
    hide U4, Rows, Patch, Pad, Zeros;
    var a := [LOOKUPSWITCH] + Zeros(Pad(at));
    var ws := offs[1..];
    assert LookupEnc(at, keys, offs) == a + U4(offs[0]) + (U4(|keys|) + Rows(keys, ws));
    if t == 0 {
      PatchMiddle(a, U4(offs[0]), U4(|keys|) + Rows(keys, ws), U4(v));
      assert offs[t := v][1..] == ws;
      assert LookupEnc(at, keys, offs[t := v]) == a + U4(v) + (U4(|keys|) + Rows(keys, ws));
    } else {
      var head := a + U4(offs[0]) + U4(|keys|);
      assert LookupEnc(at, keys, offs) == head + Rows(keys, ws);
      PatchTail(head, Rows(keys, ws), 8 * (t - 1) + 4, U4(v));
      PatchRow(keys, ws, t - 1, v);
      assert offs[t := v][1..] == ws[t - 1 := v];
      assert LookupEnc(at, keys, offs[t := v]) == head + Rows(keys, ws[t - 1 := v]);
    }
  }

  /** Writing one offset field of a switch changes exactly that entry. */
  lemma PatchSwitchEnc(c: Cmd, at: nat, offs: seq<int>, t: nat, v: int)
    requires c.Switch? && WellFormed(c) && |offs| == |c.targets| && t < |offs|
    ensures var s := SwitchRec(c.table, at, Pad(at), c.targets);
            Patch(Enc(c, at, false, offs), SwitchField(s, t) - at, U4(v)) == Enc(c, at, false, offs[t := v])
  {
    hide TableEnc, LookupEnc, U4, Patch, Pad;
    if c.table { PatchTableEnc(c.keys, at, offs, t, v); } else { PatchLookupEnc(c.keys, at, offs, t, v); }
  }

  /** The first t entries are the offsets to write, the rest still blank. */
  function Filled(offs: seq<int>, t: nat): (r: seq<int>)
    requires t <= |offs|
    ensures |r| == |offs|
  {
    offs[..t] + seq(|offs| - t, _ => 0)
  }

  lemma SwitchFieldInside(p: Prog, widen: set<nat>, i: nat, t: nat)
    requires i < |p.cmds| && p.cmds[i].Switch? && WellFormed(p.cmds[i]) && t < |p.cmds[i].targets|
    ensures Pos(p, widen, i) <= SwitchField(SwitchOf(p, widen, i), t)
    ensures SwitchField(SwitchOf(p, widen, i), t) + 4 <= Pos(p, widen, i + 1)
    ensures Pos(p, widen, i) + SwitchLen(SwitchOf(p, widen, i)) == Pos(p, widen, i + 1)
  {
  }

  lemma {:induction false} OtherSwitch(p: Prog, widen: set<nat>, b: seq<byte>, i: nat, pcs: map<nat, nat>, t: nat, j: nat)
    requires i < |p.cmds| && p.cmds[i].Switch? && WellFormed(p.cmds[i]) && Pos(p, widen, |p.cmds|) == |b|
    requires t <= |p.cmds[i].targets| && Pos(p, widen, i + 1) <= |b| && j < |p.cmds| && j != i
    requires SwitchPlaced(SwitchOf(p, widen, i), pcs)
    ensures Pos(p, widen, i) + SwitchLen(SwitchOf(p, widen, i)) <= |b|
    ensures Window(p, widen, PatchedSwitch(b, SwitchOf(p, widen, i), pcs, t), j) == Window(p, widen, b, j)
  {
    hide U4, Patch, SwitchField, Size;
    if t > 0 {
      var s := SwitchOf(p, widen, i);
      SwitchFieldInside(p, widen, i, t - 1);
      OtherSwitch(p, widen, b, i, pcs, t - 1, j);
      OtherWindow(p, widen, PatchedSwitch(b, s, pcs, t - 1), SwitchField(s, t - 1), U4(pcs[s.targets[t - 1]] - s.at), i, j);
    } else {
      SwitchFieldInside(p, widen, i, 0);
    }
  }

  /** Patching the fields of a blank switch one by one fills its encoding in. */
  lemma {:induction false} OneSwitch(p: Prog, widen: set<nat>, b: seq<byte>, i: nat, pcs: map<nat, nat>, t: nat)
    requires i < |p.cmds| && p.cmds[i].Switch? && WellFormed(p.cmds[i]) && Pos(p, widen, |p.cmds|) == |b|
    requires t <= |p.cmds[i].targets| && Pos(p, widen, i + 1) <= |b|
    requires Window(p, widen, b, i) == RawEnc(p, widen, i)
    requires forall l :: l in p.cmds[i].targets ==> l in pcs && pcs[l] == LabelPos(p, widen, l)
    ensures Pos(p, widen, i) + SwitchLen(SwitchOf(p, widen, i)) <= |b|
    ensures Window(p, widen, PatchedSwitch(b, SwitchOf(p, widen, i), pcs, t), i)
            == Enc(p.cmds[i], Pos(p, widen, i), false, Filled(Offsets(p, widen, i), t))
  {
    hide Enc, U4, Patch, SwitchField, Size, Filled, Offsets, LabelPos;
    var c, at, s, offs := p.cmds[i], Pos(p, widen, i), SwitchOf(p, widen, i), Offsets(p, widen, i);
    if t == 0 {
      SwitchFieldInside(p, widen, i, 0);
      FilledNone(c, offs);
    } else {
      SwitchFieldInside(p, widen, i, t - 1);
      OneSwitch(p, widen, b, i, pcs, t - 1);
      assert c.targets[t - 1] in c.targets;
      OffsetIs(p, widen, i, t - 1);
      PatchInside(PatchedSwitch(b, s, pcs, t - 1), SwitchField(s, t - 1), U4(offs[t - 1]), at, Pos(p, widen, i + 1));
      PatchSwitchEnc(c, at, Filled(offs, t - 1), t - 1, offs[t - 1]);
      FilledNext(offs, t);
    }
  }

  lemma OffsetIs(p: Prog, widen: set<nat>, i: nat, t: nat)
    requires i < |p.cmds| && p.cmds[i].Switch? && t < |p.cmds[i].targets|
    ensures Offsets(p, widen, i)[t] == LabelPos(p, widen, p.cmds[i].targets[t]) - Pos(p, widen, i)
  {
    hide LabelPos;
  }

  lemma FilledNone(c: Cmd, offs: seq<int>)
    requires |offs| == |Targets(c)|
    ensures Filled(offs, 0) == Blank(c)
  {
  }

  lemma FilledNext(offs: seq<int>, t: nat)
    requires 1 <= t <= |offs|
    ensures Filled(offs, t - 1)[t - 1 := offs[t - 1]] == Filled(offs, t)
  {
  }

  /** One more switch patched: that command becomes final, the others keep their bytes. */
  lemma SwitchStep(p: Prog, widen: set<nat>, b: seq<byte>, i: nat, pcs: map<nat, nat>, j: nat)
    requires i < |p.cmds| && p.cmds[i].Switch? && WellFormed(p.cmds[i]) && Pos(p, widen, |p.cmds|) == |b| && j < |p.cmds|
    requires Window(p, widen, b, i) == RawEnc(p, widen, i)
    requires forall l :: l in p.cmds[i].targets ==> l in pcs && pcs[l] == LabelPos(p, widen, l)
    ensures Pos(p, widen, i) + SwitchLen(SwitchOf(p, widen, i)) <= |b|
    ensures WellFormed(p.cmds[j]) ==>
              Window(p, widen, PatchedSwitch(b, SwitchOf(p, widen, i), pcs, |p.cmds[i].targets|), j)
              == if j == i then FinalEnc(p, widen, j) else Window(p, widen, b, j)
  {
    hide Enc, Size, Patch, U4;
    PosGrows(p, widen, i + 1, |p.cmds|);
    var n := |p.cmds[i].targets|;
    OneSwitch(p, widen, b, i, pcs, n);
    assert Filled(Offsets(p, widen, i), n) == Offsets(p, widen, i);
    if j != i { OtherSwitch(p, widen, b, i, pcs, n, j); }
  }

  /** After k switches: all branches and those k switches hold their offsets. */
  lemma {:induction false} SwitchWindows(p: Prog, widen: set<nat>, w: WState, k: nat, j: nat)
    requires Records(p, widen, w) && BranchesPlaced(w) && SwitchesPlaced(w) && Overflow(w) == {}
    requires k <= |w.switches| && j < |p.cmds|
    ensures InBuffer(w) && |w.b| == Pos(p, widen, |p.cmds|) && WellFormed(p.cmds[j])
    ensures Window(p, widen, PatchedSwitches(w, PatchedBranches(w, |w.branches|), k), j)
            == if p.cmds[j].Branch? || (p.cmds[j].Switch? && SwitchOrd(p, j) < k) then FinalEnc(p, widen, j)
               else RawEnc(p, widen, j)
  {
    hide Enc, Size, Patch, PatchedSwitch, Overflow, Records, InBuffer, Window, RawEnc, FinalEnc, Pos, PatchedBranches;
    RecordsFit(p, widen, w);
    WindowFact(p, widen, w, j);
    if k == 0 {
      BranchWindows(p, widen, w, |w.branches|, j);
      if p.cmds[j].Branch? { NthBranchUnique(p, |p.cmds|, j); }
    } else {
      SwitchFact(p, widen, w, k - 1);
      var i := NthSwitch(p, |p.cmds|, k - 1);
      SwitchWindows(p, widen, w, k - 1, j);
      SwitchWindows(p, widen, w, k - 1, i);
      SwitchStep(p, widen, PatchedSwitches(w, PatchedBranches(w, |w.branches|), k - 1), i, w.pcs, j);
      if p.cmds[j].Switch? { NthSwitchUnique(p, |p.cmds|, j); }
    }
  }

  /** Commands without offset fields are final as emitted. */
  lemma RawIsFinal(p: Prog, widen: set<nat>, j: nat)
    requires j < |p.cmds| && WellFormed(p.cmds[j]) && !p.cmds[j].Branch? && !p.cmds[j].Switch?
    ensures RawEnc(p, widen, j) == FinalEnc(p, widen, j)
  {
  }

  /** Resolving leaves each command's bytes exactly its encoding with the offsets of its labels. */
  lemma FinishedHolds(p: Prog, widen: set<nat>, w: WState, j: nat)
    requires Records(p, widen, w) && BranchesPlaced(w) && SwitchesPlaced(w) && Overflow(w) == {} && j < |p.cmds|
    ensures InBuffer(w) && |Finished(w)| == Pos(p, widen, |p.cmds|) && WellFormed(p.cmds[j])
    ensures Window(p, widen, Finished(w), j) == FinalEnc(p, widen, j)
  {
    hide Enc, Size, Overflow, Records, InBuffer, Window, RawEnc, FinalEnc, Pos;
    WindowFact(p, widen, w, j);
    SwitchWindows(p, widen, w, |w.switches|, j);
    if p.cmds[j].Switch? { NthSwitchUnique(p, |p.cmds|, j); }
    if !p.cmds[j].Branch? && !p.cmds[j].Switch? { RawIsFinal(p, widen, j); }
  }
}
