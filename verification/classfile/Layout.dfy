/** A body as the writer sees it, and where and how each command is encoded. */
module Layout {
  import opened Bytes
  import opened Opcode

  datatype Cmd =
    | Mark(lab: nat)
    | TryCatch(start: nat, end: nat, handler: nat, catchType: nat)
    /** Bytes that do not depend on their position, with their slot effect. */
    | Plain(bytes: seq<byte>, pops: nat, pushes: nat, locals: nat, ends: bool)
    | Branch(op: byte, lab: nat)
    /** targets[0] is the default; keys are in encoding order. */
    | Switch(table: bool, keys: seq<int>, targets: seq<nat>)
    | Refused

  datatype Prog = Prog(argSlots: nat, cmds: seq<Cmd>)

  predicate WellFormed(c: Cmd) {
    match c
    case Plain(bytes, _, _, _, _) => bytes != []
    case Branch(op, _) => IsBranch(op)
    case Switch(table, keys, targets) => |targets| == |keys| + 1 && (table ==> keys != [])
    case _ => true
  }

  ghost predicate WellFormedProg(p: Prog) {
    forall i :: 0 <= i < |p.cmds| ==> WellFormed(p.cmds[i])
  }

  /** Emits no bytes. */
  predicate IsMarker(c: Cmd) { c.Mark? || c.TryCatch? }

  /** Switch operands start at the next multiple of four after the opcode. */
  function Pad(at: nat): nat {
    (4 - (at + 1) % 4) % 4
  }

  function Zeros(n: nat): (r: seq<byte>)
    ensures |r| == n
  { seq(n, _ => 0) }

  /** A run of 32-bit words. */
  function Words(ws: seq<int>): (r: seq<byte>)
    ensures |r| == 4 * |ws|
  {
    seq(4 * |ws|, k requires 0 <= k < 4 * |ws| => U4(ws[k / 4])[k % 4])
  }

  /** Two words a row: match, then offset. */
  function Rows(ms: seq<int>, ws: seq<int>): (r: seq<byte>)
    requires |ms| == |ws|
    ensures |r| == 8 * |ms|
  {
    seq(8 * |ms|, k requires 0 <= k < 8 * |ms| => if k % 8 < 4 then U4(ms[k / 8])[k % 8] else U4(ws[k / 8])[k % 8 - 4])
  }

  lemma WordAt(ws: seq<int>, i: nat)
    requires i < |ws|
    ensures Words(ws)[4 * i..4 * i + 4] == U4(ws[i])
  {
  }

  lemma RowAt(ms: seq<int>, ws: seq<int>, i: nat)
    requires |ms| == |ws| && i < |ms|
    ensures Rows(ms, ws)[8 * i..8 * i + 4] == U4(ms[i])
    ensures Rows(ms, ws)[8 * i + 4..8 * i + 8] == U4(ws[i])
  {
    hide U4;
    var r := Rows(ms, ws);
    forall k | 0 <= k < 4 ensures r[8 * i + k] == U4(ms[i])[k] && r[8 * i + 4 + k] == U4(ws[i])[k] {
      assert (8 * i + k) / 8 == i && (8 * i + k) % 8 == k && (8 * i + 4 + k) / 8 == i && (8 * i + 4 + k) % 8 == 4 + k;
    }
  }

  lemma PatchWord(ws: seq<int>, i: nat, v: int)
    requires i < |ws|
    ensures Patch(Words(ws), 4 * i, U4(v)) == Words(ws[i := v])
  {
  }

  lemma PatchRow(ms: seq<int>, ws: seq<int>, i: nat, v: int)
    requires |ms| == |ws| && i < |ms|
    ensures Patch(Rows(ms, ws), 8 * i + 4, U4(v)) == Rows(ms, ws[i := v])
  {
  }

  /** Short, goto_w, or an inverted test jumping over a goto_w. */
  function BranchEnc(op: byte, wide: bool, off: int): seq<byte>
    requires IsBranch(op)
  {
    if !wide then [op] + U2(off)
    else if op == GOTO then [GOTO_W] + U4(off)
    else [Invert(op)] + U2(8) + [GOTO_W] + U4(off)
  }

  function TableEnc(at: nat, keys: seq<int>, offs: seq<int>): seq<byte>
    requires |offs| == |keys| + 1 && keys != []
  {
    [TABLESWITCH] + Zeros(Pad(at)) + U4(offs[0]) + U4(keys[0]) + U4(keys[|keys| - 1]) + Words(offs[1..])
  }

  function LookupEnc(at: nat, keys: seq<int>, offs: seq<int>): seq<byte>
    requires |offs| == |keys| + 1
  {
    [LOOKUPSWITCH] + Zeros(Pad(at)) + U4(offs[0]) + U4(|keys|) + Rows(keys, offs[1..])
  }

  /** The labels whose offsets the encoding holds, in field order. */
  function Targets(c: Cmd): seq<nat> {
    match c
    case Branch(_, l) => [l]
    case Switch(_, _, targets) => targets
    case _ => []
  }

  function Size(c: Cmd, at: nat, wide: bool): nat {
    match c
    case Plain(bytes, _, _, _, _) => |bytes|
    case Branch(op, _) => if !wide then 3 else if op == GOTO then 5 else 8
    case Switch(table, keys, _) => 1 + Pad(at) + if table then 12 + 4 * |keys| else 8 + 8 * |keys|
    case _ => 0
  }

  /** The encoding at `at` with the given offset fields. */
  function Enc(c: Cmd, at: nat, wide: bool, offs: seq<int>): (r: seq<byte>)
    requires WellFormed(c) && |offs| == |Targets(c)|
    ensures |r| == Size(c, at, wide)
  {
    match c
    case Plain(bytes, _, _, _, _) => bytes
    case Branch(op, _) => BranchEnc(op, wide, offs[0])
    case Switch(table, keys, _) => if table then TableEnc(at, keys, offs) else LookupEnc(at, keys, offs)
    case _ => []
  }

  // ---- positions ----------------------------------------------------------

  /** Emission ordinal: how many branches precede command i. */
  function Ord(p: Prog, i: nat): nat
    requires i <= |p.cmds|
  {
    if i == 0 then 0 else Ord(p, i - 1) + if p.cmds[i - 1].Branch? then 1 else 0
  }

  predicate IsWide(p: Prog, widen: set<nat>, i: nat)
    requires i < |p.cmds|
  {
    p.cmds[i].Branch? && Ord(p, i) in widen
  }

  /** Byte offset of command i when the branches in `widen` take their long form. */
  function Pos(p: Prog, widen: set<nat>, i: nat): nat
    requires i <= |p.cmds|
  {
    if i == 0 then 0
    else
      var at := Pos(p, widen, i - 1);
      at + Size(p.cmds[i - 1], at, IsWide(p, widen, i - 1))
  }

  lemma PosGrows(p: Prog, widen: set<nat>, i: nat, j: nat)
    requires i <= j <= |p.cmds|
    ensures Pos(p, widen, i) <= Pos(p, widen, j)
    decreases j - i
  {
    if i < j { PosGrows(p, widen, i, j - 1); }
  }

  lemma OrdGrows(p: Prog, i: nat, j: nat)
    requires i <= j <= |p.cmds|
    ensures Ord(p, i) <= Ord(p, j)
    decreases j - i
  {
    if i < j { OrdGrows(p, i, j - 1); }
  }
}
