/** The calls a body makes on the code writer, and the emission each one stands for. */
module Calls {
  import opened Bytes
  import opened Opcode
  import opened Layout

  /** One call. Pool indices are the ones interning returned for the operands. */
  datatype Call =
    | Place(lab: nat)
    | Local(op: byte, slot: int)
    | Inc(slot: int, delta: int)
    | Iconst(v: int, idx: nat)
    | Ldc(idx: nat, wide: bool)
    | Op(op: byte)
    | Field(op: byte, idx: nat, width: nat)
    | Invoke(op: byte, idx: nat, args: nat, ret: nat)
    | TypeRef(op: byte, idx: nat)
    | NewArray(code: byte)
    | MultiNewArray(idx: nat, dims: int, have: int)
    | Jump(op: byte, lab: nat)
    | TableSwitch(low: int, high: int, def: nat, targets: seq<nat>)
    | LookupSwitch(def: nat, matches: seq<int>, targets: seq<nat>)
    | Try(start: nat, end: nat, handler: nat, catchType: nat)

  /** What Go's types and the writer's method names already guarantee. */
  predicate Typed(c: Call) {
    match c
    case Local(op, _) => IsLocalGeneral(op)
    case Iconst(v, idx) => IsInt32(v) && idx < 0x1_0000
    case Ldc(idx, _) => idx < 0x1_0000
    case Field(op, idx, width) => GETSTATIC <= op <= PUTFIELD && idx < 0x1_0000 && 1 <= width <= 2
    case Invoke(op, idx, _, ret) => INVOKEVIRTUAL <= op <= INVOKEINTERFACE && idx < 0x1_0000 && ret <= 2
    case TypeRef(op, idx) => (op == NEW || op == ANEWARRAY || op == CHECKCAST || op == INSTANCEOF) && idx < 0x1_0000
    case MultiNewArray(idx, _, _) => idx < 0x1_0000
    case Jump(op, _) => IsBranch(op)
    case TableSwitch(low, high, _, targets) => IsInt32(low) && IsInt32(high) && |targets| < 0x8000_0000
    case LookupSwitch(_, matches, _) => |matches| < 0x8000_0000 && forall m :: m in matches ==> IsInt32(m)
    case _ => true
  }

  // ---- lookupswitch pairs -------------------------------------------------

  type Pair = (int, nat)

  function Insert(x: Pair, s: seq<Pair>): seq<Pair> {
    if s == [] then [x]
    else if x.0 <= s[0].0 then [x] + s
    else [s[0]] + Insert(x, s[1..])
  }

  /** The pairs ordered by match value. */
  function Sort(s: seq<Pair>): seq<Pair> {
    if s == [] then [] else Insert(s[0], Sort(s[1..]))
  }

  function Zip(matches: seq<int>, targets: seq<nat>): seq<Pair>
    requires |matches| == |targets|
  {
    seq(|matches|, i requires 0 <= i < |matches| => (matches[i], targets[i]))
  }

  function Firsts(s: seq<Pair>): seq<int> { seq(|s|, i requires 0 <= i < |s| => s[i].0) }

  function Seconds(s: seq<Pair>): seq<nat> { seq(|s|, i requires 0 <= i < |s| => s[i].1) }

  /** The adjacent comparison made while copying the sorted pairs out. */
  predicate Ascending(s: seq<Pair>) {
    forall i :: 0 <= i < |s| - 1 ==> s[i].0 < s[i + 1].0
  }

  predicate SortedPairs(s: seq<Pair>) {
    forall i, j :: 0 <= i < j < |s| ==> s[i].0 <= s[j].0
  }

  lemma {:induction false} InsertAdds(x: Pair, s: seq<Pair>)
    ensures multiset(Insert(x, s)) == multiset(s) + multiset{x}
  {
    if s != [] && x.0 > s[0].0 {
      InsertAdds(x, s[1..]);
      assert s == [s[0]] + s[1..];
    }
  }

  lemma {:induction false} InsertKeeps(x: Pair, s: seq<Pair>)
    requires SortedPairs(s)
    ensures SortedPairs(Insert(x, s))
  {
    if s != [] && x.0 > s[0].0 {
      InsertKeeps(x, s[1..]);
      var r := Insert(x, s[1..]);
      forall j | 0 <= j < |r| ensures s[0].0 <= r[j].0 {
        InsertAdds(x, s[1..]);
        assert r[j] in multiset(r);
        assert r[j] == x || r[j] in multiset(s[1..]);
      }
    }
  }

  lemma {:induction false} SortPermutes(s: seq<Pair>)
    ensures SortedPairs(Sort(s)) && multiset(Sort(s)) == multiset(s) && |Sort(s)| == |s|
  {
    if s != [] {
      SortPermutes(s[1..]);
      InsertKeeps(s[0], Sort(s[1..]));
      InsertAdds(s[0], Sort(s[1..]));
      assert s == [s[0]] + s[1..];
    }
    assert |multiset(Sort(s))| == |multiset(s)|;
  }

  /** In sorted pairs a repeated match stands beside its repetition. */
  lemma AscendingExactly(r: seq<Pair>)
    requires SortedPairs(r)
    ensures Ascending(r) <==> forall i, j :: 0 <= i < j < |r| ==> r[i].0 != r[j].0
  {
    if Ascending(r) {
      forall i, j | 0 <= i < j < |r| ensures r[i].0 != r[j].0 { assert r[i].0 < r[i + 1].0 <= r[j].0; }
    } else {
      var i :| 0 <= i < |r| - 1 && r[i].0 >= r[i + 1].0;
      assert r[i].0 == r[i + 1].0;
    }
  }

  lemma Without(a: seq<Pair>, i: nat)
    requires i < |a|
    ensures multiset(a) == multiset(a[..i] + a[i + 1..]) + multiset{a[i]}
  {
    assert a == a[..i] + [a[i]] + a[i + 1..];
  }

  /** What stands twice in one permutation of the pairs, apart from order, stands twice in another. */
  lemma RepeatMoves(a: seq<Pair>, b: seq<Pair>, i: nat, j: nat)
    requires multiset(a) == multiset(b) && i < j < |a| && a[i].0 == a[j].0
    ensures exists k, l :: 0 <= k < l < |b| && b[k].0 == b[l].0
  {
    assert a[i] in multiset(b);
    var k :| 0 <= k < |b| && b[k] == a[i];
    Without(a, i);
    Without(b, k);
    var a', b' := a[..i] + a[i + 1..], b[..k] + b[k + 1..];
    assert a'[j - 1] == a[j];
    Cancel(multiset(a'), multiset(b'), multiset{a[i]});
    var l := Elsewhere(a', b', j - 1);
    var l' := if l < k then l else l + 1;
    assert b[l'] == b'[l] == a[j] && l' != k;
  }

  lemma Cancel(a: multiset<Pair>, b: multiset<Pair>, c: multiset<Pair>)
    requires a + c == b + c
    ensures a == b
  {
    assert a == a + c - c && b == b + c - c;
  }

  lemma Elsewhere(a: seq<Pair>, b: seq<Pair>, i: nat) returns (l: nat)
    requires i < |a| && multiset(a) == multiset(b)
    ensures l < |b| && b[l] == a[i]
  {
    assert a[i] in multiset(b);
    l :| 0 <= l < |b| && b[l] == a[i];
  }

  /** Sorting permutes the pairs, and what the check for duplicates then sees ascends exactly when no match repeats. */
  lemma SortSorts(s: seq<Pair>)
    ensures SortedPairs(Sort(s)) && multiset(Sort(s)) == multiset(s) && |Sort(s)| == |s|
    ensures Ascending(Sort(s)) <==> forall i, j :: 0 <= i < j < |s| ==> s[i].0 != s[j].0
  {
    SortPermutes(s);
    var r := Sort(s);
    if i, j :| 0 <= i < j < |s| && s[i].0 == s[j].0 { RepeatMoves(s, r, i, j); }
    if i, j :| 0 <= i < j < |r| && r[i].0 == r[j].0 { RepeatMoves(r, s, i, j); }
    AscendingExactly(r);
  }

  // ---- operand encodings --------------------------------------------------

  /** Local accesses: compact at slots 0..3, one index byte below 256, wide above. */
  function LocalEnc(op: byte, slot: int): seq<byte>
    requires IsLocalGeneral(op)
  {
    if slot < 4 then U1(CompactBase(op) as int + slot)
    else if slot < 0x100 then [op, slot]
    else [WIDE, op] + U2(slot)
  }

  function IncEnc(slot: int, delta: int): seq<byte> {
    if 0 <= slot < 0x100 && IsInt8(delta) then [IINC, slot] + U1(delta)
    else [WIDE, IINC] + U2(slot) + U2(delta)
  }

  function LdcEnc(idx: nat, wide: bool): seq<byte> {
    if wide then [LDC2_W] + U2(idx) else if idx < 0x100 then [LDC, idx] else [LDC_W] + U2(idx)
  }

  function IconstEnc(v: int, idx: nat): seq<byte> {
    if -1 <= v <= 5 then [ICONST_0 + v]
    else if IsInt8(v) then [BIPUSH] + U1(v)
    else if IsInt16(v) then [SIPUSH] + U2(v)
    else LdcEnc(idx, false)
  }

  function FieldEffect(op: byte, width: nat): (nat, nat) {
    if op == GETSTATIC then (0, width)
    else if op == PUTSTATIC then (width, 0)
    else if op == GETFIELD then (1, width)
    else (width + 1, 0)
  }

  function InvokeEnc(op: byte, idx: nat, args: nat): seq<byte> {
    if op == INVOKEINTERFACE then [op] + U2(idx) + U1(args) + [0] else [op] + U2(idx)
  }

  /** The local slot may be named at all, and with its width still fits max_locals. */
  predicate SlotFits(slot: int, width: int) { 0 <= slot && slot + width <= 65535 }

  /** Switch keys are ints, their count too, and a table's keys are consecutive. */
  predicate KeysFit(c: Cmd) {
    c.Switch? ==>
      && |c.keys| < 0x8000_0000
      && (forall k :: 0 <= k < |c.keys| ==> IsInt32(c.keys[k]))
      && (c.table ==> forall k :: 0 <= k < |c.keys| ==> c.keys[k] == c.keys[0] + k)
  }

  /** What a call asks the writer to emit, or Refused when the writer rejects the operands outright. */
  function Lower(c: Call): (r: Cmd)
    requires Typed(c)
    ensures WellFormed(r) && KeysFit(r)
  {
    match c
    case Place(l) => Mark(l)
    case Try(s, e, h, t) => TryCatch(s, e, h, t)
    case Local(op, slot) =>
      var w := LocalWidth(op);
      if !SlotFits(slot, w) then Refused
      else Plain(LocalEnc(op, slot), if IsLoad(op) then 0 else w, if IsLoad(op) then w else 0, slot + w, false)
    case Inc(slot, delta) =>
      if !SlotFits(slot, 1) || !IsInt16(delta) then Refused else Plain(IncEnc(slot, delta), 0, 0, slot + 1, false)
    case Iconst(v, idx) => Plain(IconstEnc(v, idx), 0, 1, 0, false)
    case Ldc(idx, wide) => Plain(LdcEnc(idx, wide), 0, if wide then 2 else 1, 0, false)
    case Op(op) =>
      if !KindOf(op).NoOperand? || SimpleDelta(op).NotEmitted? then Refused
      else Plain([op], SimpleDelta(op).pop, SimpleDelta(op).push, 0, Terminates(op))
    case Field(op, idx, width) => Plain([op] + U2(idx), FieldEffect(op, width).0, FieldEffect(op, width).1, 0, false)
    case Invoke(op, idx, args, ret) => if args > 255 then Refused else Plain(InvokeEnc(op, idx, args), args, ret, 0, false)
    case TypeRef(op, idx) =>
      Plain([op] + U2(idx), if op == ANEWARRAY then 1 else 0, if op == ANEWARRAY || op == NEW then 1 else 0, 0, false)
    case NewArray(code) => if 4 <= code <= 11 then Plain([NEWARRAY, code], 1, 1, 0, false) else Refused
    case MultiNewArray(idx, dims, have) =>
      if dims < 1 || dims > 255 || have < dims then Refused
      else Plain([MULTIANEWARRAY] + U2(idx) + U1(dims), dims, 1, 0, false)
    case Jump(op, l) => Branch(op, l)
    case TableSwitch(low, high, def, targets) =>
      if high < low || high - low + 1 != |targets| then Refused
      else Switch(true, seq(|targets|, i => low + i), [def] + targets)
    case LookupSwitch(def, matches, targets) =>
      if |matches| != |targets| then Refused
      else
        var s := Sort(Zip(matches, targets));
        SortSorts(Zip(matches, targets));
        FirstsIn(s, matches, targets);
        if Ascending(s) then Switch(false, Firsts(s), [def] + Seconds(s)) else Refused
  }

  lemma FirstsIn(s: seq<Pair>, matches: seq<int>, targets: seq<nat>)
    requires |matches| == |targets| && multiset(s) == multiset(Zip(matches, targets))
    ensures forall k :: 0 <= k < |s| ==> s[k].0 in matches
  {
    forall k | 0 <= k < |s| ensures s[k].0 in matches {
      assert s[k] in multiset(s);
      assert s[k] in Zip(matches, targets);
    }
  }

  function LowerAll(calls: seq<Call>): (r: seq<Cmd>)
    requires forall i :: 0 <= i < |calls| ==> Typed(calls[i])
    ensures |r| == |calls|
  {
    seq(|calls|, i requires 0 <= i < |calls| => Lower(calls[i]))
  }
}
