/** The code writer itself: an object whose methods append to, and finally patch, one byte buffer. */
module CodeWriter {
  import opened Bytes
  import opened Opcode
  import opened Layout
  import opened Calls
  import opened Pass
  import opened Resolve

  class Writer {
    var b: seq<byte>
    var failed: bool
    var pcs: map<nat, nat>
    var depths: map<nat, int>
    var branches: seq<BranchRec>
    var switches: seq<SwitchRec>
    var handlers: seq<HandlerRec>
    var depth: int
    var maxStack: int
    var maxLocals: int
    var reachable: bool
    var widen: set<nat>

    ghost function State(): WState
      reads this
    {
      WState(b, failed, pcs, depths, branches, switches, handlers, depth, maxStack, maxLocals, reachable)
    }

    /** The writer is in state w, or both have failed; nothing is promised of a failed writer's fields. */
    ghost predicate Reached(w: WState)
      reads this
    {
      if w.failed then failed else State() == w
    }

    /** A writer that has not failed tracks depths within its limits. */
    ghost predicate Fit()
      reads this
    {
      failed || Sane(State())
    }

    constructor (argSlots: nat, widen: set<nat>)
      requires argSlots <= 255
      ensures Fit()
      ensures State() == Start(argSlots) && this.widen == widen
    {
      b, failed, pcs, depths, branches, switches, handlers := [], false, map[], map[], [], [], [];
      depth, maxStack, maxLocals, reachable := 0, 0, argSlots, true;
      this.widen := widen;
    }

    // ---- the shared steps -------------------------------------------------

    method Push(n: nat)
      modifies this
      ensures widen == old(widen) && (old(failed) ==> failed)
      ensures !old(failed) && old(depth) + n <= Max(MAX_STACK, old(maxStack)) ==>
                State() == old(State()).(depth := old(depth) + n, maxStack := Max(old(maxStack), old(depth) + n))
      ensures old(depth) + n > Max(MAX_STACK, old(maxStack)) ==> failed
    {
      depth := depth + n;
      if depth > maxStack {
        if depth > MAX_STACK {
          failed := true;
          return;
        }
        maxStack := depth;
      }
    }

    method Pop(n: nat)
      modifies this
      ensures widen == old(widen) && (old(failed) ==> failed)
      ensures old(depth) >= n ==> State() == old(State()).(depth := old(depth) - n)
      ensures old(depth) < n ==> failed
    {
      depth := depth - n;
      if depth < 0 {
        failed := true;
        depth := 0;
      }
    }

    method UseLocal(slot: int, width: nat)
      modifies this
      ensures widen == old(widen) && (old(failed) ==> failed)
      ensures if SlotFits(slot, width) then State() == old(State()).(maxLocals := Max(old(maxLocals), slot + width)) else failed
    {
      if slot < 0 || slot > 65535 {
        failed := true;
        return;
      }
      var n := slot + width;
      if n > 65535 {
        failed := true;
        return;
      }
      if n > maxLocals { maxLocals := n; }
    }

    method Append(bytes: seq<byte>)
      modifies this
      ensures widen == old(widen) && State() == old(State()).(b := old(b) + bytes)
    {
      b := b + bytes;
    }

    method EmitOp(o: byte)
      modifies this
      ensures widen == old(widen) && (old(failed) ==> failed)
      ensures if old(reachable) then State() == old(State()).(b := old(b) + [o]) else failed
    {
      if !reachable {
        failed := true;
        return;
      }
      Append([o]);
    }

    method NoteDepth(l: nat)
      modifies this
      ensures widen == old(widen) && (old(failed) ==> failed)
      ensures if DepthsAgree(old(depths), old(depth), [l])
              then State() == old(State()).(depths := Noted(old(depths), old(depth), [l]))
              else failed
    {
      if l !in depths {
        depths := depths[l := depth];
        assert depths == Noted(old(depths), depth, [l]);
        return;
      }
      assert depths == Noted(depths, depths[l], [l]);
      assert l in [l];
      if depths[l] != depth { failed := true; }
    }

    method NoteDepths(ts: seq<nat>)
      modifies this
      ensures widen == old(widen) && (old(failed) ==> failed)
      ensures if DepthsAgree(old(depths), old(depth), ts)
              then State() == old(State()).(depths := Noted(old(depths), old(depth), ts))
              else failed
    {
      hide DepthsAgree, Noted;
      ghost var d0 := depths;
      NotedNone(d0, depth);
      for i := 0 to |ts|
        invariant widen == old(widen) && (old(failed) ==> failed)
        invariant if DepthsAgree(d0, old(depth), ts[..i])
                  then State() == old(State()).(depths := Noted(d0, old(depth), ts[..i]))
                  else failed
      {
        assert ts[..i + 1] == ts[..i] + [ts[i]];
        NotedNext(d0, old(depth), ts[..i], ts[i]);
        NoteDepth(ts[i]);
      }
      assert ts[..|ts|] == ts;
    }

    // ---- the writer's calls -----------------------------------------------

    method Mark(l: nat)
      requires Fit()
      modifies this
      ensures widen == old(widen) && Reached(Do(old(State()), Layout.Mark(l), widen))
    {
      if l in pcs {
        failed := true;
        return;
      }
      pcs := pcs[l := |b|];
      if l in depths {
        if reachable && depth != depths[l] {
          failed := true;
          return;
        }
        depth := depths[l];
      } else if reachable {
        depths := depths[l := depth];
      } else {
        failed := true;
        return;
      }
      reachable := true;
    }

    method LocalOp(op: byte, slot: int, width: nat)
      requires IsLocalGeneral(op) && width == LocalWidth(op)
      modifies this
      ensures widen == old(widen) && (old(failed) ==> failed)
      ensures if SlotFits(slot, width) && old(reachable) && !old(failed)
              then State() == old(State()).(b := old(b) + LocalEnc(op, slot), maxLocals := Max(old(maxLocals), slot + width))
              else failed
    {
      UseLocal(slot, width);
      if failed { return; }
      if slot < 4 {
        EmitOp(CompactBase(op) + slot);
      } else if slot < 0x100 {
        EmitOp(op);
        Append([slot]);
        assert old(b) + [op] + [slot] == old(b) + LocalEnc(op, slot);
      } else {
        EmitOp(WIDE);
        Append([op]);
        Append(U2(slot));
        assert old(b) + [WIDE] + [op] + U2(slot) == old(b) + LocalEnc(op, slot);
      }
    }

    method Load(op: byte, slot: int)
      requires IsLocalGeneral(op) && IsLoad(op)
      requires Fit()
      modifies this
      ensures widen == old(widen) && Reached(Do(old(State()), Lower(Local(op, slot)), widen))
    {
      LocalOp(op, slot, LocalWidth(op));
      Push(LocalWidth(op));
      hide Do;
      PlainStep(old(State()), Lower(Local(op, slot)), widen);
    }

    method Store(op: byte, slot: int)
      requires IsLocalGeneral(op) && !IsLoad(op)
      requires Fit()
      modifies this
      ensures widen == old(widen) && Reached(Do(old(State()), Lower(Local(op, slot)), widen))
    {
      LocalOp(op, slot, LocalWidth(op));
      Pop(LocalWidth(op));
      hide Do;
      PlainStep(old(State()), Lower(Local(op, slot)), widen);
    }

    method Iinc(slot: int, delta: int)
      requires Fit()
      modifies this
      ensures widen == old(widen) && Reached(Do(old(State()), Lower(Inc(slot, delta)), widen))
    {
      hide Do;
      PlainStep(old(State()), Lower(Inc(slot, delta)), widen);
      UseLocal(slot, 1);
      if failed { return; }
      if delta < -0x8000 || delta > 0x7fff {
        failed := true;
        return;
      }
      if slot < 0x100 && -0x80 <= delta <= 0x7f {
        EmitOp(IINC);
        Append([slot]);
        Append(U1(delta));
        assert old(b) + [IINC] + [slot] + U1(delta) == old(b) + IncEnc(slot, delta);
      } else {
        EmitOp(WIDE);
        Append([IINC]);
        Append(U2(slot));
        Append(U2(delta));
        assert old(b) + [WIDE] + [IINC] + U2(slot) + U2(delta) == old(b) + IncEnc(slot, delta);
      }
    }

    method LoadConst(idx: nat, wide: bool)
      requires idx < 0x1_0000
      requires Fit()
      modifies this
      ensures widen == old(widen) && Reached(Do(old(State()), Lower(Ldc(idx, wide)), widen))
    {
      hide Do;
      PlainStep(old(State()), Lower(Ldc(idx, wide)), widen);
      if wide {
        EmitOp(LDC2_W);
        Append(U2(idx));
        assert old(b) + [LDC2_W] + U2(idx) == old(b) + LdcEnc(idx, wide);
        Push(2);
      } else if idx < 0x100 {
        EmitOp(LDC);
        Append([idx]);
        assert old(b) + [LDC] + [idx] == old(b) + LdcEnc(idx, wide);
        Push(1);
      } else {
        EmitOp(LDC_W);
        Append(U2(idx));
        assert old(b) + [LDC_W] + U2(idx) == old(b) + LdcEnc(idx, wide);
        Push(1);
      }
    }

    /** `idx` is where the pool keeps v; it is used only when no immediate form fits. */
    method IntConst(v: int, idx: nat)
      requires IsInt32(v) && idx < 0x1_0000
      requires Fit()
      modifies this
      ensures widen == old(widen) && Reached(Do(old(State()), Lower(Iconst(v, idx)), widen))
    {
      hide Do;
      PlainStep(old(State()), Lower(Iconst(v, idx)), widen);
      if -1 <= v <= 5 {
        EmitOp(ICONST_0 + v);
      } else if -0x80 <= v <= 0x7f {
        EmitOp(BIPUSH);
        Append(U1(v));
        assert old(b) + [BIPUSH] + U1(v) == old(b) + IconstEnc(v, idx);
      } else if -0x8000 <= v <= 0x7fff {
        EmitOp(SIPUSH);
        Append(U2(v));
        assert old(b) + [SIPUSH] + U2(v) == old(b) + IconstEnc(v, idx);
      } else {
        LoadConst(idx, false);
        PlainStep(old(State()), Lower(Ldc(idx, false)), widen);
        return;
      }
      Push(1);
    }

    method FieldAccess(op: byte, idx: nat, width: nat)
      requires Typed(Field(op, idx, width))
      requires Fit()
      modifies this
      ensures widen == old(widen) && Reached(Do(old(State()), Lower(Field(op, idx, width)), widen))
    {
      hide Do;
      PlainStep(old(State()), Lower(Field(op, idx, width)), widen);
      EmitOp(op);
      Append(U2(idx));
      assert old(b) + [op] + U2(idx) == old(b) + ([op] + U2(idx));
      if op == GETSTATIC {
        Push(width);
      } else if op == PUTSTATIC {
        Pop(width);
      } else if op == GETFIELD {
        Pop(1);
        Push(width);
      } else {
        Pop(width + 1);
      }
    }

    method Call(op: byte, idx: nat, args: nat, ret: nat)
      requires Typed(Invoke(op, idx, args, ret))
      requires Fit()
      modifies this
      ensures widen == old(widen) && Reached(Do(old(State()), Lower(Invoke(op, idx, args, ret)), widen))
    {
      hide Do;
      PlainStep(old(State()), Lower(Invoke(op, idx, args, ret)), widen);
      if args > 255 {
        failed := true;
        return;
      }
      EmitOp(op);
      Append(U2(idx));
      if op == INVOKEINTERFACE {
        Append(U1(args));
        Append([0]);
        assert old(b) + [op] + U2(idx) + U1(args) + [0] == old(b) + InvokeEnc(op, idx, args);
      } else {
        assert old(b) + [op] + U2(idx) == old(b) + InvokeEnc(op, idx, args);
      }
      Pop(args);
      Push(ret);
    }

    /** new, anewarray, checkcast and instanceof; the last two leave the tracked depth alone. */
    method TypeOp(op: byte, idx: nat)
      requires Typed(TypeRef(op, idx))
      requires Fit()
      modifies this
      ensures widen == old(widen) && Reached(Do(old(State()), Lower(TypeRef(op, idx)), widen))
    {
      hide Do;
      PlainStep(old(State()), Lower(TypeRef(op, idx)), widen);
      EmitOp(op);
      Append(U2(idx));
      assert old(b) + [op] + U2(idx) == old(b) + ([op] + U2(idx));
      if op == NEW {
        Push(1);
      } else if op == ANEWARRAY {
        Pop(1);
        Push(1);
      }
    }

    method PrimitiveArray(code: byte)
      requires Fit()
      modifies this
      ensures widen == old(widen) && Reached(Do(old(State()), Lower(NewArray(code)), widen))
    {
      hide Do;
      PlainStep(old(State()), Lower(NewArray(code)), widen);
      if code < 4 || code > 11 {
        failed := true;
        return;
      }
      EmitOp(NEWARRAY);
      Append([code]);
      assert old(b) + [NEWARRAY] + [code] == old(b) + [NEWARRAY, code];
      Pop(1);
      Push(1);
    }

    method MultiArray(idx: nat, dims: int, have: int)
      requires idx < 0x1_0000
      requires Fit()
      modifies this
      ensures widen == old(widen) && Reached(Do(old(State()), Lower(MultiNewArray(idx, dims, have)), widen))
    {
      hide Do;
      PlainStep(old(State()), Lower(MultiNewArray(idx, dims, have)), widen);
      if dims < 1 || dims > 255 || have < dims {
        failed := true;
        return;
      }
      EmitOp(MULTIANEWARRAY);
      Append(U2(idx));
      Append(U1(dims));
      assert old(b) + [MULTIANEWARRAY] + U2(idx) + U1(dims) == old(b) + ([MULTIANEWARRAY] + U2(idx) + U1(dims));
      Pop(dims);
      Push(1);
    }

    method SimpleOp(op: byte)
      requires Fit()
      modifies this
      ensures widen == old(widen) && Reached(Do(old(State()), Lower(Op(op)), widen))
    {
      hide Do;
      PlainStep(old(State()), Lower(Op(op)), widen);
      if KindOf(op) != NoOperand {
        failed := true;
        return;
      }
      var d := SimpleDelta(op);
      if d.NotEmitted? {
        failed := true;
        return;
      }
      EmitOp(op);
      Pop(d.pop);
      Push(d.push);
      if Terminates(op) { reachable := false; }
    }

    method Branch(op: byte, l: nat)
      requires IsBranch(op)
      requires Fit()
      modifies this
      ensures widen == old(widen) && Reached(Do(old(State()), Lower(Jump(op, l)), widen))
    {
      hide Do, DepthsAgree, Noted, BranchEnc, U2, U4;
      EmitStep(old(State()), Lower(Jump(op, l)), widen);
      BranchPieces(b, op, |branches| in widen);
      var ord := |branches|;
      var at := |b|;
      var wide := ord in widen;
      Pop(BranchPops(op));
      NoteDepth(l);
      if !wide {
        EmitOp(op);
        Append(U2(0));
      } else if op == GOTO {
        EmitOp(GOTO_W);
        Append(U4(0));
      } else {
        EmitOp(Invert(op));
        Append(U2(8));
        Append([GOTO_W]);
        Append(U4(0));
      }
      branches := branches + [BranchRec(op, l, at, wide)];
      if op == GOTO { reachable := false; }
    }

    method EmitSwitch(table: bool, keys: seq<int>, targets: seq<nat>)
      requires WellFormed(Switch(table, keys, targets))
      requires Fit()
      modifies this
      ensures widen == old(widen) && Reached(Do(old(State()), Switch(table, keys, targets), widen))
    {
      hide Do, DepthsAgree, Noted, Enc, U4, Words, Rows, Zeros;
      EmitStep(old(State()), Switch(table, keys, targets), widen);
      var at := |b|;
      Pop(1);
      NoteDepths(targets);
      EmitOp(if table then TABLESWITCH else LOOKUPSWITCH);
      var pad := (4 - (at + 1) % 4) % 4;
      Append(SwitchBlank(table, keys, pad));
      SwitchBytes(old(b), table, keys, targets);
      switches := switches + [SwitchRec(table, at, pad, targets)];
      reachable := false;
    }

    method TableSwitchOver(low: int, high: int, def: nat, targets: seq<nat>)
      requires Typed(TableSwitch(low, high, def, targets))
      requires Fit()
      modifies this
      ensures widen == old(widen) && Reached(Do(old(State()), Lower(TableSwitch(low, high, def, targets)), widen))
    {
      if high < low || high - low + 1 != |targets| {
        failed := true;
        return;
      }
      var keys := seq(|targets|, i => low + i);
      EmitSwitch(true, keys, [def] + targets);
    }

    method LookupSwitchOver(def: nat, matches: seq<int>, targets: seq<nat>)
      requires Typed(LookupSwitch(def, matches, targets))
      requires Fit()
      modifies this
      ensures widen == old(widen) && Reached(Do(old(State()), Lower(LookupSwitch(def, matches, targets)), widen))
    {
      if |matches| != |targets| {
        failed := true;
        return;
      }
      var pairs := Sort(Zip(matches, targets));
      if !Ascending(pairs) {
        failed := true;
        return;
      }
      EmitSwitch(false, Firsts(pairs), [def] + Seconds(pairs));
    }

    method Catch(start: nat, end: nat, handler: nat, catchType: nat)
      requires Fit()
      modifies this
      ensures widen == old(widen) && Reached(Do(old(State()), TryCatch(start, end, handler, catchType), widen))
    {
      handlers := handlers + [HandlerRec(start, end, handler, catchType)];
      if handler !in depths {
        depths := depths[handler := 1];
      } else if depths[handler] != 1 {
        failed := true;
      }
      assert !failed ==> depths == old(depths)[handler := 1];
      if 1 > maxStack { maxStack := 1; }
    }

    /** One call of the body. */
    method Perform(c: Call)
      requires Typed(c)
      requires Fit()
      modifies this
      ensures widen == old(widen) && Reached(Do(old(State()), Lower(c), widen))
    {
      match c
      case Place(l) => Mark(l);
      case Local(op, slot) => if IsLoad(op) { Load(op, slot); } else { Store(op, slot); }
      case Inc(slot, delta) => Iinc(slot, delta);
      case Iconst(v, idx) => IntConst(v, idx);
      case Ldc(idx, wide) => LoadConst(idx, wide);
      case Op(op) => SimpleOp(op);
      case Field(op, idx, width) => FieldAccess(op, idx, width);
      case Invoke(op, idx, args, ret) => Call(op, idx, args, ret);
      case TypeRef(op, idx) => TypeOp(op, idx);
      case NewArray(code) => PrimitiveArray(code);
      case MultiNewArray(idx, dims, have) => MultiArray(idx, dims, have);
      case Jump(op, l) => Branch(op, l);
      case TableSwitch(low, high, def, targets) => TableSwitchOver(low, high, def, targets);
      case LookupSwitch(def, matches, targets) => LookupSwitchOver(def, matches, targets);
      case Try(s, e, h, t) => Catch(s, e, h, t);
    }

    // ---- resolve ----------------------------------------------------------

    /** Patches every offset in place, or grows the widen set, or fails on an unplaced label. */
    method ResolveLabels() returns (again: bool)
      requires !failed && InBuffer(State())
      modifies this
      ensures pcs == old(pcs) && handlers == old(handlers) && maxStack == old(maxStack) && maxLocals == old(maxLocals)
      ensures !BranchesPlaced(old(State())) ==> failed && !again
      ensures BranchesPlaced(old(State())) && Overflow(old(State())) != {} ==>
                again && !failed && widen == old(widen) + Overflow(old(State()))
      ensures BranchesPlaced(old(State())) && Overflow(old(State())) == {} ==>
                !again && widen == old(widen) && failed == !SwitchesPlaced(old(State()))
      ensures !failed && !again ==> b == Finished(old(State()))
    {
      hide InBuffer, Overflow, PatchedBranches, PatchedSwitches, SwitchesPlaced;
      again := ResolveBranches();
      if failed || again { return; }
      ResolveSwitches(old(State()));
    }

    /** Writes one branch's offset, or reports that it does not fit the short form. */
    method PatchBranch(br: BranchRec, pc: int) returns (fits: bool)
      requires br.at + BranchLen(br) <= |b|
      modifies this
      ensures State() == old(State()).(b := b) && widen == old(widen) && fits == Reaches(br, pc)
      ensures b == if fits then Patch(old(b), BranchField(br), BranchBytes(br, pc)) else old(b)
    {
      hide Patch, U2, U4;
      var off := pc - br.at;
      if br.wide && br.op == GOTO {
        b := Patch(b, br.at + 1, U4(off));
      } else if br.wide {
        b := Patch(b, br.at + 4, U4(off - 3));
      } else if off < -0x8000 || off > 0x7fff {
        return false;
      } else {
        b := Patch(b, br.at + 1, U2(off));
      }
      return true;
    }

    method ResolveBranches() returns (again: bool)
      requires !failed && InBuffer(State())
      modifies this
      ensures |b| == |old(b)| && State() == old(State()).(b := b, failed := failed)
      ensures failed == !BranchesPlaced(old(State()))
      ensures failed ==> !again
      ensures !failed ==> widen == old(widen) + Overflow(old(State())) && again == (Overflow(old(State())) != {})
      ensures !failed ==> b == PatchedBranches(old(State()), |branches|)
    {
      hide Patch, U2, U4, BranchField, BranchBytes, Reaches;
      again := false;
      ghost var w := State();
      var k := 0;
      while k < |branches|
        invariant 0 <= k <= |branches| && !failed
        invariant State() == w.(b := b) && PlacedTo(w, k)
        invariant widen == old(widen) + OverflowTo(w, k) && again == (OverflowTo(w, k) != {})
        invariant b == PatchedBranches(w, k)
      {
        var br := branches[k];
        assert br == w.branches[k] && br.at + BranchLen(br) <= |w.b|;
        if br.lab !in pcs {
          failed := true;
          assert w.branches[k].lab !in w.pcs;
          return false;
        }
        var fits := PatchBranch(br, pcs[br.lab]);
        if !fits {
          widen := widen + {k};
          again := true;
        }
        k := k + 1;
      }
    }

    /** Only reached once the branches have settled. */
    method ResolveSwitches(ghost w: WState)
      requires !failed && InBuffer(w) && State() == w.(b := b) && |b| == |w.b|
      modifies this
      ensures State() == w.(b := b, failed := failed) && widen == old(widen)
      ensures failed == !SwitchesPlaced(w)
      ensures !failed ==> b == PatchedSwitches(w, old(b), |w.switches|)
    {
      hide PatchedSwitch, SwitchPlaced;
      var k := 0;
      while k < |switches|
        invariant 0 <= k <= |switches| && !failed
        invariant State() == w.(b := b) && widen == old(widen) && |b| == |w.b|
        invariant SwitchesPlacedTo(w, k) && b == PatchedSwitches(w, old(b), k)
      {
        assert switches[k] == w.switches[k] && switches[k].targets != [] && switches[k].at + SwitchLen(switches[k]) <= |b|;
        ResolveSwitch(switches[k], w);
        if failed { return; }
        k := k + 1;
      }
    }

    /** Writes the offset of target t; target 0 is the default. */
    method PatchSwitchField(s: SwitchRec, t: nat)
      requires t < |s.targets| && s.targets[t] in pcs && s.at + SwitchLen(s) <= |b|
      modifies this
      ensures State() == old(State()).(b := b) && widen == old(widen)
      ensures SwitchField(s, t) + 4 <= |old(b)| && b == Patch(old(b), SwitchField(s, t), U4(pcs[s.targets[t]] - s.at))
    {
      hide Patch, U4;
      var body := s.at + 1 + s.pad;
      var field := if t == 0 then body else if s.table then body + 12 + 4 * (t - 1) else body + 8 + 8 * (t - 1) + 4;
      b := Patch(b, field, U4(pcs[s.targets[t]] - s.at));
    }

    method ResolveSwitch(s: SwitchRec, ghost w: WState)
      requires !failed && s.targets != [] && s.at + SwitchLen(s) <= |b|
      requires State() == w.(b := b)
      modifies this
      ensures State() == w.(b := b, failed := failed) && widen == old(widen) && |b| == |old(b)|
      ensures failed == !SwitchPlaced(s, pcs)
      ensures !failed ==> b == PatchedSwitch(old(b), s, pcs, |s.targets|)
    {
      hide Patch, U4, SwitchField, SwitchLen;
      var t := 0;
      while t < |s.targets|
        invariant 0 <= t <= |s.targets| && !failed
        invariant State() == w.(b := b) && widen == old(widen) && |b| == |old(b)|
        invariant SwitchPlacedTo(s, pcs, t) && b == PatchedSwitch(old(b), s, pcs, t)
      {
        if s.targets[t] !in pcs {
          failed := true;
          return;
        }
        PatchSwitchField(s, t);
        t := t + 1;
      }
    }
  }

  /** Operand bytes of a switch before its offsets are known. */
  function SwitchBlank(table: bool, keys: seq<int>, pad: nat): seq<byte>
    requires table ==> keys != []
  {
    var zeros := seq(|keys|, _ => 0);
    if table then Zeros(pad) + U4(0) + U4(keys[0]) + U4(keys[|keys| - 1]) + Words(zeros)
    else Zeros(pad) + U4(0) + U4(|keys|) + Rows(keys, zeros)
  }

  lemma SwitchBytes(b: seq<byte>, table: bool, keys: seq<int>, targets: seq<nat>)
    requires WellFormed(Switch(table, keys, targets))
    ensures b + [if table then TABLESWITCH else LOOKUPSWITCH] + SwitchBlank(table, keys, Pad(|b|))
            == b + Enc(Switch(table, keys, targets), |b|, false, Blank(Switch(table, keys, targets)))
  {
    hide U4, Words, Rows, Zeros, Pad;
    var c := Switch(table, keys, targets);
    assert Blank(c)[1..] == seq(|keys|, _ => 0);
    assert [if table then TABLESWITCH else LOOKUPSWITCH] + SwitchBlank(table, keys, Pad(|b|)) == Enc(c, |b|, false, Blank(c));
  }

  /** The three forms of a branch, as the pieces appended. */
  lemma BranchPieces(b: seq<byte>, op: byte, wide: bool)
    requires IsBranch(op)
    ensures !wide ==> b + [op] + U2(0) == b + BranchEnc(op, wide, 0)
    ensures wide && op == GOTO ==> b + [GOTO_W] + U4(0) == b + BranchEnc(op, wide, 0)
    ensures wide && op != GOTO ==> b + [Invert(op)] + U2(8) + [GOTO_W] + U4(0) == b + BranchEnc(op, wide, 0)
  {
    hide U2, U4, Invert;
  }

  /** How a branch or a switch changes the state. */
  lemma EmitStep(w: WState, c: Cmd, widen: set<nat>)
    requires WellFormed(c) && (c.Branch? || c.Switch?) && (w.failed || Sane(w))
    ensures var wide := c.Branch? && |w.branches| in widen;
            Do(w, c, widen) ==
              if w.failed || !w.reachable || w.depth < Pops(c) || !DepthsAgree(w.depths, w.depth - Pops(c), Targets(c))
              then Fail(w)
              else w.(b := w.b + Enc(c, |w.b|, wide, Blank(c)), depth := w.depth - Pops(c),
                      depths := Noted(w.depths, w.depth - Pops(c), Targets(c)), reachable := !Ends(c),
                      branches := if c.Branch? then w.branches + [BranchRec(c.op, c.lab, |w.b|, wide)] else w.branches,
                      switches := if c.Switch? then w.switches + [SwitchRec(c.table, |w.b|, Pad(|w.b|), c.targets)] else w.switches)
  {
    hide Enc, DepthsAgree, Noted, Pad;
  }

  /** How an instruction with no offsets changes the state. */
  lemma PlainStep(w: WState, c: Cmd, widen: set<nat>)
    requires WellFormed(c) && (c.Plain? || c.Refused?) && (w.failed || Sane(w))
    ensures Do(w, c, widen).failed <==>
              w.failed || c.Refused? || !w.reachable || w.depth < c.pops || w.depth - c.pops + c.pushes > MAX_STACK
    ensures !Do(w, c, widen).failed ==>
              Do(w, c, widen) == w.(b := w.b + c.bytes, depth := w.depth - c.pops + c.pushes,
                                    maxStack := Max(w.maxStack, w.depth - c.pops + c.pushes),
                                    maxLocals := Max(w.maxLocals, c.locals), reachable := !c.ends)
  {
    if c.Plain? { NotedNone(w.depths, w.depth - c.pops); }
  }
}
