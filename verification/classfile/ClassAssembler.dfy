/** Assembling a class file: constants interned as they are met, tables built aside, the pool written once it is complete. */
module ClassAssembler {
  import opened Bytes
  import opened Pool
  import opened PoolBuilder
  import opened PoolReader
  import opened PoolRoundTrip
  import opened ClassFile
  import opened ClassReader
  import opened ClassRoundTrip

  function After(c: Codec, t: Pool.Table, its: seq<Item>): Pool.Table { Calls(c, t, its).0 }

  predicate Bit(flags: nat, bit: nat)
    requires bit > 0
  {
    (flags / bit) % 2 == 1
  }

  const ACC_NATIVE := 0x100
  const ACC_ABSTRACT := 0x400

  /** A method has a body unless it is abstract or native. */
  predicate BodyMatches(m: MethodDef) { m.code.Some? <==> !(Bit(m.flags, ACC_ABSTRACT) || Bit(m.flags, ACC_NATIVE)) }

  /** What the builder refuses is refused exactly. */
  predicate Declarable(d: ClassDef) {
    (d.super == "" ==> d.name == OBJECT) && forall k :: 0 <= k < |d.methods| ==> BodyMatches(d.methods[k])
  }

  class Assembler {
    const pool: Builder
    var failed: bool

    constructor (pool: Builder)
      ensures this.pool == pool && !failed
    {
      this.pool, this.failed := pool, false;
    }

    /** Interns one more constant; `its` are those interned since `t0`. */
    method Index(it: Item, ghost t0: Pool.Table, ghost its: seq<Item>) returns (i: nat)
      requires pool.Valid() && (it.Utf8? || it.Class?) && pool.table == After(pool.codec, t0, its)
      modifies pool
      ensures pool.Valid() && pool.table == After(pool.codec, t0, its + [it]) && i == IndexOf(pool.table, it)
      ensures Extends(old(pool.table), pool.table) && (!pool.table.failed ==> Placed(pool.table, it))
    {
      hide Intern, Extends, Placed;
      CallsSnoc(pool.codec, t0, its, it);
      InternKeeps(pool.codec, pool.table, it) by { assert Pool.Valid(pool.table); }
      match it
      case Utf8(s) => i := pool.Utf8Index(s);
      case Class(_) => i := pool.NameIndex(it);
    }

    /** An attribute of one u2. */
    method ShortAttr(w: Sink, index: nat, v: nat)
      modifies w
      ensures w.b == old(w.b) + (Twos([index]) + (U4(2) + Twos([v])))
    {
      ghost var before := w.b;
      var at := w.OpenAttr(index);
      w.Put(Twos([v]));
      w.CloseAttr(at, before, index, Twos([v]));
    }

    method SignatureTail(w: Sink, s: string, ghost t0: Pool.Table, ghost its: seq<Item>)
      requires pool.Valid() && pool.table == After(pool.codec, t0, its)
      modifies pool, w
      ensures pool.Valid() && pool.table == After(pool.codec, t0, its + SignatureItems(s))
      ensures Extends(old(pool.table), pool.table)
      ensures !pool.table.failed ==> w.b == old(w.b) + Join(SignatureAttr(pool.table, s))
    {
      hide Extends, After;
      if s == "" {
        assert its + SignatureItems(s) == its;
        SelfExtends(pool.table);
        return;
      }
      ghost var before, was := w.b, pool.table;
      var v := Index(Utf8(s), t0, its);
      ghost var mid := pool.table;
      var a := Index(Utf8("Signature"), t0, its + [Utf8(s)]);
      assert its + [Utf8(s)] + [Utf8("Signature")] == its + SignatureItems(s);
      ExtendsTrans(was, mid, pool.table);
      Stands(mid, pool.table, Utf8(s));
      ShortAttr(w, a, v);
      JoinOne(AttrBytes(pool.table, "Signature", Twos([v])));
    }

    /** The three fields a field and a method both start with. */
    method Head(w: Sink, flags: nat, name: string, desc: string)
      requires pool.Valid()
      modifies pool, w
      ensures pool.Valid() && pool.table == After(pool.codec, old(pool.table), [Utf8(name), Utf8(desc)])
      ensures Extends(old(pool.table), pool.table) && old(w.b) <= w.b
      ensures !pool.table.failed ==> Placed(pool.table, Utf8(name)) && Placed(pool.table, Utf8(desc))
      ensures !pool.table.failed ==> w.b == old(w.b) + HeadBytes(pool.table, flags, name, desc)
    {
      hide Extends, After, Placed, Builder.Valid;
      ghost var t0 := pool.table;
      NoCalls(pool.codec, t0);
      assert [] + [Utf8(name)] == [Utf8(name)];
      assert [Utf8(name)] + [Utf8(desc)] == [Utf8(name), Utf8(desc)];
      var n := Index(Utf8(name), t0, []);
      ghost var t1 := pool.table;
      var d := Index(Utf8(desc), t0, [Utf8(name)]);
      Stands(t1, pool.table, Utf8(name));
      ExtendsTrans(t0, t1, pool.table);
      w.Put(Twos([flags, n, d]));
    }

    method ConstantTail(w: Sink, it: Option<Item>, ghost t0: Pool.Table, ghost its: seq<Item>)
      requires pool.Valid() && pool.table == After(pool.codec, t0, its)
      requires it.Some? && !pool.table.failed ==> Placed(pool.table, it.value)
      modifies pool, w
      ensures pool.Valid() && pool.table == After(pool.codec, t0, its + ConstantItems(it))
      ensures Extends(old(pool.table), pool.table)
      ensures !pool.table.failed ==> ConstantPlaced(pool.table, it)
      ensures !pool.table.failed ==> w.b == old(w.b) + Join(ConstantAttr(pool.table, it))
    {
      hide Extends, After, Placed, Builder.Valid;
      if it.None? {
        assert its + ConstantItems(it) == its;
        SelfExtends(pool.table);
        return;
      }
      ghost var was := pool.table;
      var a := Index(Utf8("ConstantValue"), t0, its);
      Stands(was, pool.table, it.value);
      ShortAttr(w, a, pool.Given(it.value));
      JoinOne(AttrBytes(pool.table, "ConstantValue", Twos([IndexOf(pool.table, it.value)])));
    }

    /** A counted table of the given rows. */
    method PutTable(w: Sink, rows: seq<seq<byte>>)
      modifies w
      ensures w.b == old(w.b) + Listed(rows)
    {
      hide Twos;
      ghost var before := w.b;
      w.Put(Twos([|rows|]));
      for k := 0 to |rows|
        invariant w.b == before + (Twos([|rows|]) + Join(rows[..k]))
      {
        w.Put(rows[k]);
        JoinSnoc(rows, k);
      }
      assert rows[..|rows|] == rows;
    }

    /** The rows of the local table, their names interned before the attribute is opened. */
    method LocalRows(ls: seq<LocalDef>, ghost t0: Pool.Table, ghost its: seq<Item>) returns (rows: seq<seq<byte>>)
      requires pool.Valid() && pool.table == After(pool.codec, t0, its)
      modifies pool
      ensures pool.Valid() && pool.table == After(pool.codec, t0, its + LocalItems(ls)) && |rows| == |ls|
      ensures Extends(old(pool.table), pool.table)
      ensures !pool.table.failed ==> RowsOf(pool.table, ls, rows)
    {
      hide Extends, After, Placed, Builder.Valid, Twos, Intern, IndexOf;
      rows := [];
      SelfExtends(pool.table);
      assert its + LocalItems(ls[..0]) == its;
      for k := 0 to |ls|
        invariant pool.Valid() && pool.table == After(pool.codec, t0, its + LocalItems(ls[..k])) && |rows| == k
        invariant Extends(old(pool.table), pool.table)
        invariant !pool.table.failed ==> RowsOf(pool.table, ls[..k], rows)
      {
        var l := ls[k];
        ghost var was := pool.table;
        LocalItemsSnoc(ls, k);
        var n := Index(Utf8(l.name), t0, its + LocalItems(ls[..k]));
        ghost var mid := pool.table;
        var d := Index(Utf8(l.desc), t0, its + LocalItems(ls[..k]) + [Utf8(l.name)]);
        assert its + LocalItems(ls[..k]) + [Utf8(l.name)] + [Utf8(l.desc)] == its + LocalItems(ls[..k + 1]);
        Stands(mid, pool.table, Utf8(l.name));
        ExtendsTrans(was, mid, pool.table);
        ExtendsTrans(old(pool.table), was, pool.table);
        ghost var had := rows;
        rows := rows + [Twos([l.start, l.length, n, d, l.slot])];
        if !pool.table.failed {
          NoFailure(was, pool.table);
          assert rows[..k] == had;
          RowsStand(was, pool.table, ls[..k], had);
          RowsSnoc(pool.table, ls, k, rows);
        }
      }
      assert ls[..|ls|] == ls;
    }

    /** The tables of a Code attribute; the rows of locals were made before it was opened. */
    method CodeTables(w: Sink, c: CodeDef, rows: seq<seq<byte>>, ghost t0: Pool.Table, ghost its: seq<Item>)
      requires pool.Valid() && pool.table == After(pool.codec, t0, its) && |rows| == |c.locals|
      requires !pool.table.failed ==> RowsOf(pool.table, c.locals, rows)
      modifies pool, w
      ensures pool.Valid() && pool.table == After(pool.codec, t0, its + LinesItems(c) + VarsItems(c))
      ensures Extends(old(pool.table), pool.table)
      ensures old(w.b) <= w.b
      ensures !pool.table.failed ==> TablesPlaced(pool.table, c)
      ensures !pool.table.failed ==> w.b == old(w.b) + Listed(CodeAttrs(pool.table, c))
    {
      hide Extends, After, Placed, Builder.Valid, RowsOf, LocalsTable, LinesTable, Listed, AttrBytes, Twos, U4, CodeAttrs;
      ghost var was, before := pool.table, w.b;
      w.Put(Twos([(if c.lines != [] then 1 else 0) + (if rows != [] then 1 else 0)]));
      if c.lines != [] {
        var i := Index(Utf8("LineNumberTable"), t0, its);
        ghost var head := w.b;
        var at := w.OpenAttr(i);
        var lines := seq(|c.lines|, k requires 0 <= k < |c.lines| => LineBytes(c.lines[k]));
        LinesTableIs(c.lines, lines);
        PutTable(w, lines);
        w.CloseAttr(at, head, i, LinesTable(c.lines));
        AttrIs(pool.table, "LineNumberTable", LinesTable(c.lines));
      } else {
        SelfExtends(pool.table);
      }
      ghost var mid, linesEnd := pool.table, w.b;
      assert !mid.failed ==> linesEnd == before + Twos([(if c.lines != [] then 1 else 0) + (if rows != [] then 1 else 0)]) + LinesAttr(mid, c);
      assert mid == After(pool.codec, t0, its + LinesItems(c)) by { assert its + [] == its; }
      if rows != [] {
        var i := Index(Utf8("LocalVariableTable"), t0, its + LinesItems(c));
        ghost var head := w.b;
        var at := w.OpenAttr(i);
        PutTable(w, rows);
        w.CloseAttr(at, head, i, Listed(rows));
        AttrIs(pool.table, "LocalVariableTable", Listed(rows));
      } else {
        SelfExtends(pool.table);
      }
      assert pool.table == After(pool.codec, t0, its + LinesItems(c) + VarsItems(c)) by { assert its + LinesItems(c) + [] == its + LinesItems(c); }
      ExtendsTrans(was, mid, pool.table);
      if !pool.table.failed {
        NoFailure(mid, pool.table);
        NoFailure(was, pool.table);
        RowsStand(was, pool.table, c.locals, rows);
        RowsAre(pool.table, c.locals, rows);
        LinesStand(mid, pool.table, c);
        if c.lines != [] { Stands(mid, pool.table, Utf8("LineNumberTable")); }
        CodeAttrsPieces(pool.table, c);
      }
    }

    method PutHandlers(w: Sink, hs: seq<HandlerDef>)
      requires pool.Valid()
      modifies w
      ensures w.b == old(w.b) + HandlersTable(pool.table, hs)
    {
      hide Builder.Valid, Twos, Listed, HandlersTable;
      var rows: seq<seq<byte>> := [];
      for k := 0 to |hs|
        invariant |rows| == k && forall j :: 0 <= j < k ==> rows[j] == HandlerBytes(pool.table, hs[j])
      {
        var h := hs[k];
        rows := rows + [Twos([h.start, h.end, h.handler, if h.catchType == "" then 0 else pool.Given(Class(h.catchType))])];
      }
      PutTable(w, rows);
      HandlersTableIs(pool.table, hs, rows);
    }

    /** The Code attribute, its length left open while its tables are written inside it. */
    method EmitCode(w: Sink, c: CodeDef, ghost t0: Pool.Table, ghost its: seq<Item>)
      requires pool.Valid() && pool.table == After(pool.codec, t0, its)
      requires !pool.table.failed ==> CatchesPlaced(pool.table, c.handlers)
      modifies pool, w
      ensures pool.Valid() && pool.table == After(pool.codec, t0, its + CodeItems(c))
      ensures Extends(old(pool.table), pool.table) && old(w.b) <= w.b
      ensures !pool.table.failed ==> CodePlaced(pool.table, c)
      ensures !pool.table.failed ==> w.b == old(w.b) + AttrBytes(pool.table, "Code", CodeBody(pool.table, c))
    {
      hide Extends, After, Placed, Builder.Valid, RowsOf, LocalsTable, LinesTable, HandlersTable, Listed, AttrBytes, Twos, U4, CodeAttrs, CodeItems, LocalItems, LinesItems, VarsItems, CatchesPlaced, CodeBody, CodePlaced;
      ghost var was, before := pool.table, w.b;
      var rows := LocalRows(c.locals, t0, its);
      ghost var t1 := pool.table;
      ghost var its1 := its + LocalItems(c.locals);
      var i := Index(Utf8("Code"), t0, its1);
      ghost var t2 := pool.table;
      ghost var its2 := its1 + [Utf8("Code")];
      var at := w.OpenAttr(i);
      w.Put(Twos([c.maxStack, c.maxLocals]));
      w.Put(U4(|c.bytes|));
      w.Put(c.bytes);
      ExtendsTrans(was, t1, t2);
      PutHandlers(w, c.handlers);
      if !t2.failed {
        NoFailure(t1, t2);
        RowsStand(t1, t2, c.locals, rows);
      }
      assert |rows| == |c.locals|;
      CodeTables(w, c, rows, t0, its2);
      ghost var t3 := pool.table;
      ExtendsTrans(was, t2, t3);
      ExtendsTrans(t1, t2, t3);
      CodeItemsAre(c, its);
      if !t3.failed {
        NoFailure(was, t3);
        NoFailure(t2, t3);
        HandlersStand(was, t2, c.handlers);
        HandlersStand(was, t3, c.handlers);
        Stands(t2, t3, Utf8("Code"));
        CodeBodyIs(t3, c);
        AllCodePlaced(t1, t3, c, rows);
        AttrIs(t3, "Code", CodeBody(t3, c));
      }
      ghost var opening := before + Twos([i]) + U4(0);
      assert opening <= w.b && w.b == opening + w.b[|opening|..];
      w.CloseAttr(at, before, i, w.b[|opening|..]);
    }

    /** The Exceptions attribute, its classes interned before its name. */
    method ExceptionsTail(w: Sink, ss: seq<string>, ghost t0: Pool.Table, ghost its: seq<Item>)
      requires pool.Valid() && pool.table == After(pool.codec, t0, its)
      modifies pool, w
      ensures pool.Valid() && pool.table == After(pool.codec, t0, its + ExceptionItems(ss))
      ensures Extends(old(pool.table), pool.table) && old(w.b) <= w.b
      ensures !pool.table.failed ==> ExceptionsPlaced(pool.table, ss)
      ensures !pool.table.failed ==> w.b == old(w.b) + Join(ExceptionsAttr(pool.table, ss))
    {
      hide Extends, After, Placed, Builder.Valid, Twos, U4, Listed, AttrBytes, NamesTable, ExceptionItems, ExceptionsAttr, ExceptionsPlaced, NamesOf, Names;
      ghost var before := w.b;
      ghost var was := pool.table;
      SelfExtends(was);
      if ss == [] {
        NoExceptions(pool.table, its);
        return;
      }
      var rows := ClassRows(ss, t0, its);
      ghost var mid := pool.table;
      var i := Index(Utf8("Exceptions"), t0, its + Names(ss));
      var at := w.OpenAttr(i);
      PutTable(w, rows);
      w.CloseAttr(at, before, i, Listed(rows));
      ExtendsTrans(was, mid, pool.table);
      SomeExceptions(pool.table, ss, its);
      if !pool.table.failed {
        NoFailure(mid, pool.table);
        NamesStand(mid, pool.table, ss, rows);
        NamesTableIs(pool.table, ss, rows);
        AttrIs(pool.table, "Exceptions", NamesTable(pool.table, ss));
      }
    }

    /** The indices of some classes, as rows of one u2. */
    method ClassRows(ss: seq<string>, ghost t0: Pool.Table, ghost its: seq<Item>) returns (rows: seq<seq<byte>>)
      requires pool.Valid() && pool.table == After(pool.codec, t0, its)
      modifies pool
      ensures pool.Valid() && pool.table == After(pool.codec, t0, its + Names(ss))
      ensures Extends(old(pool.table), pool.table)
      ensures !pool.table.failed ==> NamesOf(pool.table, ss, rows)
    {
      hide Extends, After, Placed, Builder.Valid, Twos, Intern, IndexOf;
      rows := [];
      SelfExtends(pool.table);
      assert its + Names(ss[..0]) == its;
      for k := 0 to |ss|
        invariant pool.Valid() && pool.table == After(pool.codec, t0, its + Names(ss[..k])) && |rows| == k
        invariant Extends(old(pool.table), pool.table)
        invariant !pool.table.failed ==> NamesOf(pool.table, ss[..k], rows)
      {
        ghost var was, had := pool.table, rows;
        var i := Index(Class(ss[k]), t0, its + Names(ss[..k]));
        assert its + Names(ss[..k]) + [Class(ss[k])] == its + Names(ss[..k + 1]);
        ExtendsTrans(old(pool.table), was, pool.table);
        rows := rows + [Twos([i])];
        if !pool.table.failed {
          NoFailure(was, pool.table);
          NamesStand(was, pool.table, ss[..k], had);
        }
      }
      assert ss[..|ss|] == ss;
    }

    /** A method that has a body where it must not, or none where it must, is refused. */
    method EmitMethod(w: Sink, m: MethodDef)
      requires pool.Valid()
      requires m.code.Some? && !pool.table.failed ==> CatchesPlaced(pool.table, m.code.value.handlers)
      modifies this`failed, pool, w
      ensures pool.Valid() && Extends(old(pool.table), pool.table) && old(w.b) <= w.b
      ensures failed <==> old(failed) || !BodyMatches(m)
      ensures if BodyMatches(m) then pool.table == After(pool.codec, old(pool.table), MethodItems(m)) else pool.table == old(pool.table)
      ensures BodyMatches(m) && !pool.table.failed ==> w.b == old(w.b) + MethodBytes(pool.table, m)
    {
      hide Extends, After, Placed, Builder.Valid, Twos, U4, Join, AttrBytes, HeadBytes, MethodBytes, CodeBody, CodeItems, CatchesPlaced,
           SignatureAttr, SignatureItems, ExceptionsAttr, ExceptionItems, ExceptionsPlaced, CodePlaced;
      SelfExtends(pool.table);
      if m.code.Some? && (Bit(m.flags, ACC_ABSTRACT) || Bit(m.flags, ACC_NATIVE)) {
        failed := true;
        return;
      }
      if m.code.None? && !Bit(m.flags, ACC_ABSTRACT) && !Bit(m.flags, ACC_NATIVE) {
        failed := true;
        return;
      }
      ghost var t0 := pool.table;
      Head(w, m.flags, m.name, m.desc);
      ghost var t1 := pool.table;
      var attrs := new Sink();
      attrs.Put(Twos([(if m.code.Some? then 1 else 0) + (if m.exceptions != [] then 1 else 0) + (if m.signature != "" then 1 else 0)]));
      ghost var its := [Utf8(m.name), Utf8(m.desc)];
      if m.code.Some? {
        if !t1.failed { NoFailure(t0, t1); HandlersStand(t0, t1, m.code.value.handlers); }
        EmitCode(attrs, m.code.value, t0, its);
      } else {
        SelfExtends(t1);
        assert its + BodyItems(m.code) == its;
      }
      ghost var t2 := pool.table;
      assert !t2.failed ==> attrs.b == Twos([(if m.code.Some? then 1 else 0) + (if m.exceptions != [] then 1 else 0) + (if m.signature != "" then 1 else 0)]) + BodyAttr(t2, m.code);
      ExceptionsTail(attrs, m.exceptions, t0, its + BodyItems(m.code));
      ghost var t3 := pool.table;
      SignatureTail(attrs, m.signature, t0, its + BodyItems(m.code) + ExceptionItems(m.exceptions));
      ghost var t4 := pool.table;
      w.Put(attrs.b);
      ExtendsTrans(t0, t1, t2);
      ExtendsTrans(t0, t2, t3);
      ExtendsTrans(t0, t3, t4);
      MethodPieces(t4, m);
      if !t4.failed {
        ExtendsTrans(t2, t3, t4);
        ExtendsTrans(t1, t2, t4);
        NoFailure(t1, t4);
        NoFailure(t2, t4);
        NoFailure(t3, t4);
        HeadStands(t1, t4, m.flags, m.name, m.desc);
        BodyStands(t2, t4, m.code);
        ExceptionsStand(t3, t4, m.exceptions);
      }
    }

    method EmitField(w: Sink, f: FieldDef)
      requires pool.Valid() && (f.constant.Some? && !pool.table.failed ==> Placed(pool.table, f.constant.value))
      modifies pool, w
      ensures pool.Valid() && pool.table == After(pool.codec, old(pool.table), FieldItems(f))
      ensures Extends(old(pool.table), pool.table)
      ensures !pool.table.failed ==> w.b == old(w.b) + FieldBytes(pool.table, f)
    {
      hide Extends, After, Placed, Builder.Valid, ConstantPlaced, Join, Twos, HeadBytes, ConstantAttr, SignatureAttr, SignatureItems, FieldBytes;
      ghost var t0 := pool.table;
      Head(w, f.flags, f.name, f.desc);
      ghost var t1 := pool.table;
      var attrs := new Sink();
      attrs.Put(Twos([(if f.constant.Some? then 1 else 0) + (if f.signature != "" then 1 else 0)]));
      ghost var its := [Utf8(f.name), Utf8(f.desc)];
      if f.constant.Some? { Stands(t0, t1, f.constant.value); }
      ConstantTail(attrs, f.constant, t0, its);
      ghost var t2 := pool.table;
      SignatureTail(attrs, f.signature, t0, its + ConstantItems(f.constant));
      ghost var t3 := pool.table;
      w.Put(attrs.b);
      ExtendsTrans(t0, t1, t2);
      ExtendsTrans(t0, t2, t3);
      ExtendsTrans(t1, t2, t3);
      if !t3.failed {
        NoFailure(t1, t3);
        NoFailure(t2, t3);
        HeadStands(t1, t3, f.flags, f.name, f.desc);
        ConstantStands(t2, t3, f.constant);
        FieldPieces(t3, f);
      }
    }

    method EmitFields(w: Sink, fs: seq<FieldDef>, ghost t0: Pool.Table, ghost its: seq<Item>)
      requires pool.Valid() && pool.table == After(pool.codec, t0, its)
      requires !pool.table.failed ==> ConstantsPlaced(pool.table, fs)
      modifies pool, w
      ensures pool.Valid() && pool.table == After(pool.codec, t0, its + FieldsItems(fs)) && Extends(old(pool.table), pool.table)
      ensures !pool.table.failed ==> FieldsPut(pool.table, fs) && w.b == old(w.b) + FieldsTable(pool.table, fs)
    {
      hide Extends, After, Placed, Builder.Valid, Twos, Join, FieldBytes, FieldItems, FieldPlaced, AllPlaced;
      ghost var t1, before := pool.table, w.b;
      ghost var rows: seq<seq<byte>> := [];
      w.Put(Twos([|fs|]));
      SelfExtends(t1);
      assert its + FieldsItems(fs[..0]) == its;
      assert w.b == before + (Twos([|fs|]) + Join(rows)) by { JoinNone(); }
      for k := 0 to |fs|
        invariant pool.Valid() && pool.table == After(pool.codec, t0, its + FieldsItems(fs[..k])) && Extends(t1, pool.table)
        invariant !pool.table.failed ==> |rows| == k && FieldRows(pool.table, fs, rows) && w.b == before + (Twos([|fs|]) + Join(rows))
      {
        ghost var was := pool.table;
        pool.TableValid();
        if fs[k].constant.Some? && !was.failed {
          NoFailure(t1, was);
          Stands(t1, was, fs[k].constant.value);
        }
        EmitField(w, fs[k]);
        CallsAppend(pool.codec, t0, its + FieldsItems(fs[..k]), FieldItems(fs[k]));
        FieldsItemsSnoc(fs, k, its);
        ExtendsTrans(t1, was, pool.table);
        if !pool.table.failed {
          NoFailure(was, pool.table);
          NoFailure(t1, pool.table);
          Interned(pool.codec, was, FieldItems(fs[k]));
          if fs[k].constant.Some? { Stands(t1, pool.table, fs[k].constant.value); }
          FieldItemsPlaced(pool.table, fs[k]);
          FieldRowsStand(was, pool.table, fs, rows);
          ghost var had := rows;
          rows := rows + [FieldBytes(pool.table, fs[k])];
          JoinAppend(had, [FieldBytes(pool.table, fs[k])]);
          JoinOne(FieldBytes(pool.table, fs[k]));
        }
      }
      assert fs[..|fs|] == fs;
      if !pool.table.failed { FieldsTableIs(pool.table, fs, rows); }
    }

    method EmitMethods(w: Sink, ms: seq<MethodDef>, ghost t0: Pool.Table, ghost its: seq<Item>)
      requires pool.Valid() && !failed && pool.table == After(pool.codec, t0, its)
      requires !pool.table.failed ==> AllCatchesPlaced(pool.table, ms)
      modifies this`failed, pool, w
      ensures pool.Valid() && Extends(old(pool.table), pool.table)
      ensures failed <==> !forall k :: 0 <= k < |ms| ==> BodyMatches(ms[k])
      ensures !failed ==> pool.table == After(pool.codec, t0, its + MethodsItems(ms))
      ensures !failed && !pool.table.failed ==> MethodsPut(pool.table, ms) && w.b == old(w.b) + MethodsTable(pool.table, ms)
    {
      hide Extends, After, Placed, Builder.Valid, Twos, Join, MethodBytes, MethodItems, MethodPlaced, AllPlaced, CatchesPlaced, BodyMatches;
      ghost var t1, before := pool.table, w.b;
      ghost var rows: seq<seq<byte>> := [];
      w.Put(Twos([|ms|]));
      SelfExtends(t1);
      assert its + MethodsItems(ms[..0]) == its;
      assert w.b == before + (Twos([|ms|]) + Join(rows)) by { JoinNone(); }
      for k := 0 to |ms|
        invariant pool.Valid() && Extends(t1, pool.table)
        invariant failed <==> !forall j :: 0 <= j < k ==> BodyMatches(ms[j])
        invariant !failed ==> pool.table == After(pool.codec, t0, its + MethodsItems(ms[..k]))
        invariant !failed && !pool.table.failed ==> |rows| == k && MethodRows(pool.table, ms, rows) && w.b == before + (Twos([|ms|]) + Join(rows))
      {
        ghost var was := pool.table;
        pool.TableValid();
        if ms[k].code.Some? && !was.failed {
          NoFailure(t1, was);
          HandlersStand(t1, was, ms[k].code.value.handlers);
        }
        EmitMethod(w, ms[k]);
        CallsAppend(pool.codec, t0, its + MethodsItems(ms[..k]), MethodItems(ms[k]));
        MethodsItemsSnoc(ms, k, its);
        ExtendsTrans(t1, was, pool.table);
        if !failed && !pool.table.failed {
          NoFailure(was, pool.table);
          NoFailure(t1, pool.table);
          Interned(pool.codec, was, MethodItems(ms[k]));
          if ms[k].code.Some? { HandlersStand(t1, pool.table, ms[k].code.value.handlers); }
          MethodItemsPlaced(pool.table, ms[k]);
          MethodRowsStand(was, pool.table, ms, rows);
          ghost var had := rows;
          rows := rows + [MethodBytes(pool.table, ms[k])];
          JoinAppend(had, [MethodBytes(pool.table, ms[k])]);
          JoinOne(MethodBytes(pool.table, ms[k]));
        }
      }
      assert ms[..|ms|] == ms;
      if !failed && !pool.table.failed { MethodsTableIs(pool.table, ms, rows); }
    }

    /** The SourceFile attribute or none. */
    method SourceTail(w: Sink, file: string, ghost t0: Pool.Table, ghost its: seq<Item>)
      requires pool.Valid() && pool.table == After(pool.codec, t0, its)
      modifies pool, w
      ensures pool.Valid() && pool.table == After(pool.codec, t0, its + SourceItems(file)) && Extends(old(pool.table), pool.table)
      ensures !pool.table.failed ==> w.b == old(w.b) + Listed(SourceAttr(pool.table, file))
    {
      hide Extends, After, Placed, Builder.Valid, Twos, AttrBytes;
      SelfExtends(pool.table);
      w.Put(Twos([if file != "" then 1 else 0]));
      if file == "" {
        assert its + SourceItems(file) == its;
        return;
      }
      ghost var was := pool.table;
      var n := Index(Utf8("SourceFile"), t0, its);
      ghost var mid := pool.table;
      var v := Index(Utf8(file), t0, its + [Utf8("SourceFile")]);
      assert its + [Utf8("SourceFile")] + [Utf8(file)] == its + SourceItems(file);
      ExtendsTrans(was, mid, pool.table);
      Stands(mid, pool.table, Utf8("SourceFile"));
      ShortAttr(w, n, v);
      AttrIs(pool.table, "SourceFile", Twos([v]));
      JoinOne(AttrBytes(pool.table, "SourceFile", Twos([v])));
    }

    /** this_class and super_class. */
    method OwnIndices(d: ClassDef, ghost t0: Pool.Table) returns (own: nat, sup: nat)
      requires pool.Valid() && pool.table == t0 && (d.super == "" ==> d.name == OBJECT)
      modifies pool
      ensures pool.Valid() && pool.table == After(pool.codec, t0, [Class(d.name)] + SuperItems(d.super)) && Extends(t0, pool.table)
      ensures !pool.table.failed ==> OwnPlaced(pool.table, d) && own == IndexOf(pool.table, Class(d.name)) && sup == CatchIndex(pool.table, d.super)
    {
      hide Extends, After, Builder.Valid;
      NoCalls(pool.codec, t0);
      assert [] + [Class(d.name)] == [Class(d.name)];
      own := Index(Class(d.name), t0, []);
      ghost var t1 := pool.table;
      sup := 0;
      if d.super != "" {
        sup := Index(Class(d.super), t0, [Class(d.name)]);
        ExtendsTrans(t0, t1, pool.table);
        Stands(t1, pool.table, Class(d.name));
      } else {
        assert [Class(d.name)] + [] == [Class(d.name)];
      }
    }

    /** Everything after the pool, made before it: the interning they do is all the interning there is. */
    method Tables(d: ClassDef, ghost t0: Pool.Table) returns (rest: seq<byte>)
      requires pool.Valid() && pool.table == t0 && (!t0.failed ==> EarlierPlaced(t0, d)) && !failed && (d.super == "" ==> d.name == OBJECT)
      modifies this`failed, pool
      ensures pool.Valid() && (failed <==> !Declarable(d))
      ensures !failed ==> pool.table == After(pool.codec, t0, ClassItems(d))
      ensures !failed && !pool.table.failed ==> rest == Rest(pool.table, d)
    {
      hide Extends, After, Placed, Builder.Valid, Twos, Listed, BodyMatches, EarlierPlaced, CatchesPlaced, FieldsItems, MethodsItems, Names, CatchIndex, OwnPlaced,
           NamesTable, FieldsTable, MethodsTable, NamesOf, Rest, ClassItems, SourceItems, SuperItems, SourceAttr, ConstantsPlaced, AllCatchesPlaced, FieldsPut, MethodsPut;
      var own, sup := OwnIndices(d, t0);
      ghost var t2 := pool.table;
      ghost var its := [Class(d.name)] + SuperItems(d.super);
      var ifaces := ClassRows(d.interfaces, t0, its);
      ghost var t3 := pool.table;
      ExtendsTrans(t0, t2, t3);
      if !t3.failed { NoFailure(t0, t3); EarlierStands(t0, t3, d); }
      var fields := new Sink();
      EmitFields(fields, d.fields, t0, its + Names(d.interfaces));
      ghost var t4 := pool.table;
      ExtendsTrans(t0, t3, t4);
      if !t4.failed { NoFailure(t0, t4); EarlierStands(t0, t4, d); }
      var methods := new Sink();
      EmitMethods(methods, d.methods, t0, its + Names(d.interfaces) + FieldsItems(d.fields));
      ghost var t5 := pool.table;
      if failed { return []; }
      var attrs := new Sink();
      SourceTail(attrs, d.sourceFile, t0, its + Names(d.interfaces) + FieldsItems(d.fields) + MethodsItems(d.methods));
      ghost var t6 := pool.table;
      ClassItemsAre(d);
      var out := new Sink();
      out.Put(Twos([d.flags, own, sup]));
      PutTable(out, ifaces);
      rest := out.b + fields.b + methods.b + attrs.b;
      if !t6.failed {
        ExtendsTrans(t4, t5, t6);
        ExtendsTrans(t3, t4, t6);
        ExtendsTrans(t2, t3, t6);
        NoFailure(t5, t6);
        NoFailure(t4, t6);
        NoFailure(t3, t6);
        NoFailure(t2, t6);
        OwnStands(t2, t6, d);
        NamesStand(t3, t6, d.interfaces, ifaces);
        NamesTableIs(t6, d.interfaces, ifaces);
        FieldsStand(t4, t6, d.fields);
        MethodsStand(t5, t6, d.methods);
        RestIs(t6, d);
      }
    }

    /**
     * The whole file, refused exactly when an error is pending, the class cannot be declared or the pool ran over.
     * The tables are made before the pool is written, so the pool in the file holds everything they refer to.
     */
    method Bytes(d: ClassDef) returns (r: Option<seq<byte>>)
      requires pool.Valid() && (!pool.table.failed ==> EarlierPlaced(pool.table, d))
      modifies this`failed, pool
      ensures pool.Valid()
      ensures r.Some? <==> !old(failed) && Declarable(d) && !After(pool.codec, old(pool.table), ClassItems(d)).failed
      ensures r.Some? ==>
                && pool.table == After(pool.codec, old(pool.table), ClassItems(d)) && |pool.table.slots| >= 1
                && r.value == ClassBytes(pool.codec, pool.table, d)
      ensures r.Some? && Faithful(pool.codec) && Sized(pool.codec, old(pool.table)) && ClassFits(d) ==>
                (ReadClass(pool.codec, r.value) == Some(Expected(d)) <==> Supported(pool.table, MAJOR))
    {
      hide After, Builder.Valid, Twos, EarlierPlaced, U4, Emit, Rest, ClassItems, BodyMatches, Faithful, Sized, Supported, ClassFits, Expected, ReadClass;
      pool.TableValid();
      ghost var t0 := pool.table;
      if failed { return None; }
      if d.super == "" && d.name != OBJECT {
        NoCalls(pool.codec, t0);
        var own := Index(Class(d.name), t0, []);
        return None;
      }
      var rest := Tables(d, pool.table);
      PoolFailed();
      if pool.failed || failed { return None; }
      pool.TableValid();
      NotEmpty(pool.table);
      var out := new Sink();
      out.Put(U4(MAGIC));
      out.Put(Twos([d.minor, MAJOR]));
      var table := pool.EmitTable();
      out.Put(table);
      out.Put(rest);
      assert U4(MAGIC) + Twos([d.minor, MAJOR]) + table + rest == U4(MAGIC) + (Twos([d.minor, MAJOR]) + (table + rest));
      r := Some(out.b);
      if Faithful(pool.codec) && Sized(pool.codec, t0) && ClassFits(d) {
        NoFailureSince(pool.codec, t0, ClassItems(d));
        FileReadsBack(pool.codec, t0, d);
      }
    }

    lemma PoolFailed()
      requires pool.Valid()
      ensures pool.failed == pool.table.failed
    {
    }
  }

  function HeadBytes(t: Pool.Table, flags: nat, name: string, desc: string): seq<byte> {
    Twos([flags, IndexOf(t, Utf8(name)), IndexOf(t, Utf8(desc))])
  }

  lemma HeadStands(t: Pool.Table, u: Pool.Table, flags: nat, name: string, desc: string)
    requires Extends(t, u) && Placed(t, Utf8(name)) && Placed(t, Utf8(desc))
    ensures HeadBytes(t, flags, name, desc) == HeadBytes(u, flags, name, desc)
  {
    hide Twos;
  }

  function ConstantItems(it: Option<Item>): seq<Item> { if it.Some? then [Utf8("ConstantValue")] else [] }

  function ConstantAttr(t: Pool.Table, it: Option<Item>): seq<seq<byte>> {
    if it.Some? then [AttrBytes(t, "ConstantValue", Twos([IndexOf(t, it.value)]))] else []
  }

  ghost predicate ConstantPlaced(t: Pool.Table, it: Option<Item>) { it.Some? ==> Placed(t, it.value) && Placed(t, Utf8("ConstantValue")) }

  lemma ConstantStands(t: Pool.Table, u: Pool.Table, it: Option<Item>)
    requires Extends(t, u) && ConstantPlaced(t, it)
    ensures ConstantAttr(t, it) == ConstantAttr(u, it)
  {
    hide Twos;
  }

  /** An index handed out is the index in every later table. */
  lemma Stands(t: Pool.Table, u: Pool.Table, it: Item)
    requires Extends(t, u) && (!t.failed ==> Placed(t, it))
    ensures !u.failed ==> Placed(u, it) && IndexOf(u, it) == IndexOf(t, it)
  {
  }

  lemma FieldPieces(t: Pool.Table, f: FieldDef)
    ensures FieldBytes(t, f) ==
            HeadBytes(t, f.flags, f.name, f.desc)
            + (Twos([(if f.constant.Some? then 1 else 0) + (if f.signature != "" then 1 else 0)])
               + Join(ConstantAttr(t, f.constant)) + Join(SignatureAttr(t, f.signature)))
    ensures FieldItems(f) == [Utf8(f.name), Utf8(f.desc)] + ConstantItems(f.constant) + SignatureItems(f.signature)
  {
    hide AttrBytes, Twos, IndexOf;
    JoinAppend(ConstantAttr(t, f.constant), SignatureAttr(t, f.signature));
  }

  lemma {:induction false} JoinAppend(a: seq<seq<byte>>, b: seq<seq<byte>>)
    ensures Join(a + b) == Join(a) + Join(b)
    decreases |a|
  {
    if a == [] {
      assert a + b == b;
    } else {
      assert (a + b)[1..] == a[1..] + b;
      JoinAppend(a[1..], b);
    }
  }

  ghost predicate RowsOf(t: Pool.Table, ls: seq<LocalDef>, rows: seq<seq<byte>>) {
    |rows| == |ls| && forall k :: 0 <= k < |ls| ==> LocalPlaced(t, ls[k]) && rows[k] == LocalBytes(t, ls[k])
  }

  ghost predicate LocalPlaced(t: Pool.Table, l: LocalDef) { Placed(t, Utf8(l.name)) && Placed(t, Utf8(l.desc)) }

  lemma RowsStand(t: Pool.Table, u: Pool.Table, ls: seq<LocalDef>, rows: seq<seq<byte>>)
    requires Extends(t, u) && !u.failed && RowsOf(t, ls, rows)
    ensures RowsOf(u, ls, rows)
  {
    hide Extends, Twos, Placed, IndexOf;
    forall k | 0 <= k < |ls|
      ensures LocalPlaced(u, ls[k]) && rows[k] == LocalBytes(u, ls[k])
    {
      assert LocalPlaced(t, ls[k]);
      Stands(t, u, Utf8(ls[k].name));
      Stands(t, u, Utf8(ls[k].desc));
    }
  }

  lemma RowsSnoc(t: Pool.Table, ls: seq<LocalDef>, k: nat, rows: seq<seq<byte>>)
    requires k < |ls| && |rows| == k + 1 && RowsOf(t, ls[..k], rows[..k]) && LocalPlaced(t, ls[k]) && rows[k] == LocalBytes(t, ls[k])
    ensures RowsOf(t, ls[..k + 1], rows)
  {
    hide LocalPlaced, LocalBytes;
    forall j | 0 <= j < k + 1
      ensures LocalPlaced(t, ls[..k + 1][j]) && rows[j] == LocalBytes(t, ls[..k + 1][j])
    {
      if j < k { assert ls[..k][j] == ls[j] && rows[..k][j] == rows[j]; }
    }
  }

  lemma {:induction false} LocalItemsSnoc(ls: seq<LocalDef>, k: nat)
    requires k < |ls|
    ensures LocalItems(ls[..k + 1]) == LocalItems(ls[..k]) + [Utf8(ls[k].name), Utf8(ls[k].desc)]
    decreases k
  {
    if k == 0 {
      assert ls[..1][1..] == [];
    } else {
      LocalItemsSnoc(ls[1..], k - 1);
      assert ls[..k + 1][1..] == ls[1..][..k] && ls[..k][1..] == ls[1..][..k - 1];
    }
  }

  lemma {:induction false} JoinSnoc(rows: seq<seq<byte>>, k: nat)
    requires k < |rows|
    ensures Join(rows[..k + 1]) == Join(rows[..k]) + rows[k]
  {
    JoinAppend(rows[..k], [rows[k]]);
    JoinOne(rows[k]);
    assert rows[..k + 1] == rows[..k] + [rows[k]];
  }

  function LinesItems(c: CodeDef): seq<Item> { if c.lines != [] then [Utf8("LineNumberTable")] else [] }

  function VarsItems(c: CodeDef): seq<Item> { if c.locals != [] then [Utf8("LocalVariableTable")] else [] }

  function LinesAttr(t: Pool.Table, c: CodeDef): seq<byte> {
    if c.lines != [] then AttrBytes(t, "LineNumberTable", LinesTable(c.lines)) else []
  }

  function VarsAttr(t: Pool.Table, c: CodeDef): seq<byte> {
    if c.locals != [] then AttrBytes(t, "LocalVariableTable", LocalsTable(t, c.locals)) else []
  }

  lemma LinesTableIs(ls: seq<LineDef>, rows: seq<seq<byte>>)
    requires |rows| == |ls| && forall k :: 0 <= k < |ls| ==> rows[k] == LineBytes(ls[k])
    ensures LinesTable(ls) == Listed(rows)
  {
    hide Listed, LineBytes;
    assert rows == seq(|ls|, k requires 0 <= k < |ls| => LineBytes(ls[k]));
  }

  lemma AttrIs(t: Pool.Table, name: string, body: seq<byte>)
    ensures AttrBytes(t, name, body) == Twos([IndexOf(t, Utf8(name))]) + (U4(|body|) + body)
  {
  }

  lemma RowsAre(t: Pool.Table, ls: seq<LocalDef>, rows: seq<seq<byte>>)
    requires RowsOf(t, ls, rows)
    ensures LocalsTable(t, ls) == Listed(rows) && |rows| == |ls|
  {
    hide Listed, LocalBytes;
    assert rows == seq(|ls|, k requires 0 <= k < |ls| => LocalBytes(t, ls[k]));
  }

  lemma LinesStand(t: Pool.Table, u: Pool.Table, c: CodeDef)
    requires Extends(t, u) && (c.lines != [] ==> Placed(t, Utf8("LineNumberTable")))
    ensures LinesAttr(t, c) == LinesAttr(u, c)
  {
    hide Twos, LinesTable;
  }

  lemma CodeAttrsPieces(t: Pool.Table, c: CodeDef)
    ensures Listed(CodeAttrs(t, c)) ==
            Twos([(if c.lines != [] then 1 else 0) + (if c.locals != [] then 1 else 0)]) + LinesAttr(t, c) + VarsAttr(t, c)
  {
    hide AttrBytes, Twos;
    var ls := if c.lines != [] then [LinesAttr(t, c)] else [];
    var vs := if c.locals != [] then [VarsAttr(t, c)] else [];
    JoinAppend(ls, vs);
    JoinOne(LinesAttr(t, c));
    JoinOne(VarsAttr(t, c));
  }

  lemma HandlersTableIs(t: Pool.Table, hs: seq<HandlerDef>, rows: seq<seq<byte>>)
    requires |rows| == |hs| && forall k :: 0 <= k < |hs| ==> rows[k] == HandlerBytes(t, hs[k])
    ensures HandlersTable(t, hs) == Listed(rows)
  {
    hide Listed, HandlerBytes;
    assert rows == seq(|hs|, k requires 0 <= k < |hs| => HandlerBytes(t, hs[k]));
  }

  lemma HandlersStand(t: Pool.Table, u: Pool.Table, hs: seq<HandlerDef>)
    requires Extends(t, u) && !u.failed && CatchesPlaced(t, hs)
    ensures CatchesPlaced(u, hs) && HandlersTable(t, hs) == HandlersTable(u, hs)
  {
    hide Extends, Placed, IndexOf, Twos, Listed;
    forall k | 0 <= k < |hs|
      ensures (hs[k].catchType != "" ==> Placed(u, Class(hs[k].catchType))) && HandlerBytes(t, hs[k]) == HandlerBytes(u, hs[k])
    {
      if hs[k].catchType != "" { Stands(t, u, Class(hs[k].catchType)); }
    }
    var rows := seq(|hs|, k requires 0 <= k < |hs| => HandlerBytes(t, hs[k]));
    HandlersTableIs(t, hs, rows);
    HandlersTableIs(u, hs, rows);
  }

  lemma CodeItemsAre(c: CodeDef, its: seq<Item>)
    ensures its + CodeItems(c) == its + LocalItems(c.locals) + [Utf8("Code")] + LinesItems(c) + VarsItems(c)
  {
    hide LocalItems;
  }

  lemma CodeBodyIs(t: Pool.Table, c: CodeDef)
    ensures CodeBody(t, c) == Twos([c.maxStack, c.maxLocals]) + U4(|c.bytes|) + c.bytes + HandlersTable(t, c.handlers) + Listed(CodeAttrs(t, c))
  {
    hide HandlersTable, CodeAttrs, Listed, Twos, U4;
  }

  ghost predicate TablesPlaced(t: Pool.Table, c: CodeDef) {
    && (c.lines != [] ==> Placed(t, Utf8("LineNumberTable"))) && (c.locals != [] ==> Placed(t, Utf8("LocalVariableTable")))
  }

  lemma AllCodePlaced(t: Pool.Table, u: Pool.Table, c: CodeDef, rows: seq<seq<byte>>)
    requires Extends(t, u) && !u.failed && RowsOf(t, c.locals, rows)
    requires Placed(u, Utf8("Code")) && TablesPlaced(u, c) && CatchesPlaced(u, c.handlers)
    ensures CodePlaced(u, c)
  {
    hide Extends, Placed, LocalBytes;
    RowsStand(t, u, c.locals, rows);
    forall k | 0 <= k < |c.locals|
      ensures Placed(u, Utf8(c.locals[k].name)) && Placed(u, Utf8(c.locals[k].desc))
    {
      assert LocalPlaced(u, c.locals[k]);
    }
  }

  function BodyItems(c: Option<CodeDef>): seq<Item> { if c.Some? then CodeItems(c.value) else [] }

  function BodyAttr(t: Pool.Table, c: Option<CodeDef>): seq<byte> { if c.Some? then AttrBytes(t, "Code", CodeBody(t, c.value)) else [] }

  function ExceptionItems(ss: seq<string>): seq<Item> { if ss != [] then Names(ss) + [Utf8("Exceptions")] else [] }

  function ExceptionsAttr(t: Pool.Table, ss: seq<string>): seq<seq<byte>> {
    if ss != [] then [AttrBytes(t, "Exceptions", NamesTable(t, ss))] else []
  }

  ghost predicate ExceptionsPlaced(t: Pool.Table, ss: seq<string>) {
    ss != [] ==> Placed(t, Utf8("Exceptions")) && forall k :: 0 <= k < |ss| ==> Placed(t, Class(ss[k]))
  }

  ghost predicate NamesOf(t: Pool.Table, ss: seq<string>, rows: seq<seq<byte>>) {
    |rows| == |ss| && forall k :: 0 <= k < |ss| ==> Placed(t, Class(ss[k])) && rows[k] == NameBytes(t, ss[k])
  }

  lemma NamesStand(t: Pool.Table, u: Pool.Table, ss: seq<string>, rows: seq<seq<byte>>)
    requires Extends(t, u) && !u.failed && NamesOf(t, ss, rows)
    ensures NamesOf(u, ss, rows)
  {
    hide Extends, Twos, Placed, IndexOf;
    forall k | 0 <= k < |ss|
      ensures Placed(u, Class(ss[k])) && rows[k] == NameBytes(u, ss[k])
    {
      Stands(t, u, Class(ss[k]));
    }
  }

  lemma NamesTableIs(t: Pool.Table, ss: seq<string>, rows: seq<seq<byte>>)
    requires NamesOf(t, ss, rows)
    ensures NamesTable(t, ss) == Listed(rows)
  {
    hide Listed, NameBytes, Placed;
    assert rows == seq(|ss|, k requires 0 <= k < |ss| => NameBytes(t, ss[k]));
  }

  lemma NoExceptions(t: Pool.Table, its: seq<Item>)
    ensures its + ExceptionItems([]) == its && Join(ExceptionsAttr(t, [])) == [] && ExceptionsPlaced(t, [])
  {
  }

  lemma SomeExceptions(t: Pool.Table, ss: seq<string>, its: seq<Item>)
    requires ss != []
    ensures its + Names(ss) + [Utf8("Exceptions")] == its + ExceptionItems(ss)
    ensures Join(ExceptionsAttr(t, ss)) == AttrBytes(t, "Exceptions", NamesTable(t, ss))
    ensures Placed(t, Utf8("Exceptions")) && (exists rows :: NamesOf(t, ss, rows)) ==> ExceptionsPlaced(t, ss)
  {
    hide AttrBytes, NamesTable, Placed, Names;
    JoinOne(AttrBytes(t, "Exceptions", NamesTable(t, ss)));
  }

  lemma ExceptionsStand(t: Pool.Table, u: Pool.Table, ss: seq<string>)
    requires Extends(t, u) && !u.failed && ExceptionsPlaced(t, ss)
    ensures ExceptionsAttr(t, ss) == ExceptionsAttr(u, ss)
  {
    hide Extends, Placed, IndexOf, Twos, Listed, NamesTable, U4;
    if ss != [] {
      var rows := seq(|ss|, k requires 0 <= k < |ss| => NameBytes(t, ss[k]));
      NamesStand(t, u, ss, rows);
      NamesTableIs(t, ss, rows);
      NamesTableIs(u, ss, rows);
      Stands(t, u, Utf8("Exceptions"));
    }
  }

  lemma LocalsStand(t: Pool.Table, u: Pool.Table, ls: seq<LocalDef>)
    requires Extends(t, u) && !u.failed && LocalsPlaced(t, ls)
    ensures LocalsTable(t, ls) == LocalsTable(u, ls)
  {
    hide Extends, Placed, IndexOf, Twos, Listed, LocalsTable;
    var rows := seq(|ls|, k requires 0 <= k < |ls| => LocalBytes(t, ls[k]));
    RowsStand(t, u, ls, rows);
    RowsAre(t, ls, rows);
    RowsAre(u, ls, rows);
  }

  lemma BodyStands(t: Pool.Table, u: Pool.Table, c: Option<CodeDef>)
    requires Extends(t, u) && !u.failed && (c.Some? ==> CodePlaced(t, c.value))
    ensures BodyAttr(t, c) == BodyAttr(u, c)
  {
    hide Extends, Placed, IndexOf, Twos, Listed, LocalsTable, HandlersTable, LinesTable, LocalsPlaced, U4, CodeBody, CodeAttrs, CatchesPlaced, LinesAttr;
    if c.Some? {
      var d := c.value;
      HandlersStand(t, u, d.handlers) by { CodeCatches(t, d); }
      LinesStand(t, u, d);
      LocalsStand(t, u, d.locals);
      VarsStand(t, u, d);
      CodeAttrsPieces(t, d);
      CodeAttrsPieces(u, d);
      CodeBodyIs(t, d);
      CodeBodyIs(u, d);
      Stands(t, u, Utf8("Code"));
    }
  }

  lemma CodeCatches(t: Pool.Table, c: CodeDef)
    requires CodePlaced(t, c)
    ensures CatchesPlaced(t, c.handlers)
  {
  }

  lemma VarsStand(t: Pool.Table, u: Pool.Table, c: CodeDef)
    requires Extends(t, u) && (c.locals != [] ==> Placed(t, Utf8("LocalVariableTable"))) && LocalsTable(t, c.locals) == LocalsTable(u, c.locals)
    ensures VarsAttr(t, c) == VarsAttr(u, c)
  {
    hide Twos, LocalsTable;
  }

  lemma MethodPieces(t: Pool.Table, m: MethodDef)
    ensures MethodBytes(t, m) ==
            HeadBytes(t, m.flags, m.name, m.desc)
            + (Twos([(if m.code.Some? then 1 else 0) + (if m.exceptions != [] then 1 else 0) + (if m.signature != "" then 1 else 0)])
               + BodyAttr(t, m.code) + Join(ExceptionsAttr(t, m.exceptions)) + Join(SignatureAttr(t, m.signature)))
    ensures MethodItems(m) == [Utf8(m.name), Utf8(m.desc)] + BodyItems(m.code) + ExceptionItems(m.exceptions) + SignatureItems(m.signature)
  {
    hide AttrBytes, Twos, IndexOf, CodeBody, CodeItems, Names, NamesTable;
    var bs := if m.code.Some? then [BodyAttr(t, m.code)] else [];
    JoinAppend(bs, ExceptionsAttr(t, m.exceptions) + SignatureAttr(t, m.signature));
    JoinAppend(ExceptionsAttr(t, m.exceptions), SignatureAttr(t, m.signature));
    JoinOne(BodyAttr(t, m.code));
  }

  lemma Interned(c: Codec, t: Pool.Table, its: seq<Item>)
    requires Pool.Valid(t) && !After(c, t, its).failed
    ensures AllPlaced(After(c, t, its), its)
  {
    hide Pool.Valid, Placed, Calls;
    AnswersStand(c, t, its);
    forall it | it in its
      ensures Placed(After(c, t, its), it)
    {
      var k :| 0 <= k < |its| && its[k] == it;
    }
  }

  ghost predicate ConstantsPlaced(t: Pool.Table, fs: seq<FieldDef>) {
    forall k :: 0 <= k < |fs| && fs[k].constant.Some? ==> Placed(t, fs[k].constant.value)
  }

  ghost predicate AllCatchesPlaced(t: Pool.Table, ms: seq<MethodDef>) {
    forall k :: 0 <= k < |ms| && ms[k].code.Some? ==> CatchesPlaced(t, ms[k].code.value.handlers)
  }

  /** The rows emitted so far are those of the table so far. */
  ghost predicate FieldRows(t: Pool.Table, fs: seq<FieldDef>, rows: seq<seq<byte>>) {
    |rows| <= |fs| && forall k :: 0 <= k < |rows| ==> FieldPlaced(t, fs[k]) && rows[k] == FieldBytes(t, fs[k])
  }

  ghost predicate MethodRows(t: Pool.Table, ms: seq<MethodDef>, rows: seq<seq<byte>>) {
    |rows| <= |ms| && forall k :: 0 <= k < |rows| ==> MethodPlaced(t, ms[k]) && rows[k] == MethodBytes(t, ms[k])
  }

  lemma FieldStands(t: Pool.Table, u: Pool.Table, f: FieldDef)
    requires Extends(t, u) && !u.failed && FieldPlaced(t, f)
    ensures FieldPlaced(u, f) && FieldBytes(t, f) == FieldBytes(u, f)
  {
    hide Twos, FieldBytes, HeadBytes;
    HeadStands(t, u, f.flags, f.name, f.desc);
    FieldPieces(t, f);
    FieldPieces(u, f);
  }

  lemma FieldRowsStand(t: Pool.Table, u: Pool.Table, fs: seq<FieldDef>, rows: seq<seq<byte>>)
    requires Extends(t, u) && !u.failed && FieldRows(t, fs, rows)
    ensures FieldRows(u, fs, rows)
  {
    hide Extends, FieldPlaced, FieldBytes;
    forall k | 0 <= k < |rows|
      ensures FieldPlaced(u, fs[k]) && rows[k] == FieldBytes(u, fs[k])
    {
      FieldStands(t, u, fs[k]);
    }
  }

  lemma CodeStands(t: Pool.Table, u: Pool.Table, c: CodeDef)
    requires Extends(t, u) && !u.failed && CodePlaced(t, c)
    ensures CodePlaced(u, c)
  {
    hide IndexOf;
    forall it | Placed(t, it)
      ensures Placed(u, it)
    {
    }
  }

  lemma MethodStands(t: Pool.Table, u: Pool.Table, m: MethodDef)
    requires Extends(t, u) && !u.failed && MethodPlaced(t, m)
    ensures MethodPlaced(u, m) && MethodBytes(t, m) == MethodBytes(u, m)
  {
    hide Twos, MethodBytes, HeadBytes, CodePlaced, BodyAttr, ExceptionsAttr;
    HeadStands(t, u, m.flags, m.name, m.desc);
    if m.code.Some? { CodeStands(t, u, m.code.value); }
    BodyStands(t, u, m.code);
    ExceptionsStand(t, u, m.exceptions);
    MethodPieces(t, m);
    MethodPieces(u, m);
  }

  lemma MethodRowsStand(t: Pool.Table, u: Pool.Table, ms: seq<MethodDef>, rows: seq<seq<byte>>)
    requires Extends(t, u) && !u.failed && MethodRows(t, ms, rows)
    ensures MethodRows(u, ms, rows)
  {
    hide Extends, MethodPlaced, MethodBytes;
    forall k | 0 <= k < |rows|
      ensures MethodPlaced(u, ms[k]) && rows[k] == MethodBytes(u, ms[k])
    {
      MethodStands(t, u, ms[k]);
    }
  }

  lemma FieldsTableIs(t: Pool.Table, fs: seq<FieldDef>, rows: seq<seq<byte>>)
    requires FieldRows(t, fs, rows) && |rows| == |fs|
    ensures FieldsPut(t, fs) && FieldsTable(t, fs) == Twos([|fs|]) + Join(rows)
  {
    hide FieldBytes, FieldPlaced, Twos, Join;
    assert rows == seq(|fs|, k requires 0 <= k < |fs| => FieldBytes(t, fs[k]));
  }

  lemma MethodsTableIs(t: Pool.Table, ms: seq<MethodDef>, rows: seq<seq<byte>>)
    requires MethodRows(t, ms, rows) && |rows| == |ms|
    ensures MethodsPut(t, ms) && MethodsTable(t, ms) == Twos([|ms|]) + Join(rows)
  {
    hide MethodBytes, MethodPlaced, Twos, Join;
    assert rows == seq(|ms|, k requires 0 <= k < |ms| => MethodBytes(t, ms[k]));
  }

  lemma {:induction false} FieldsItemsSnoc(fs: seq<FieldDef>, k: nat, its: seq<Item>)
    requires k < |fs|
    ensures its + FieldsItems(fs[..k + 1]) == its + FieldsItems(fs[..k]) + FieldItems(fs[k])
    decreases k
  {
    hide FieldItems;
    if k == 0 {
      assert fs[..1][1..] == [] && FieldsItems([]) == [] && fs[..0] == [];
      assert FieldsItems(fs[..1]) == FieldItems(fs[0]) + [];
    } else {
      FieldsItemsSnoc(fs[1..], k - 1, its + FieldItems(fs[0]));
      assert fs[..k + 1][1..] == fs[1..][..k] && fs[..k][1..] == fs[1..][..k - 1];
      var a := FieldItems(fs[0]);
      assert its + (a + FieldsItems(fs[1..][..k])) == its + a + FieldsItems(fs[1..][..k]);
      assert its + (a + FieldsItems(fs[1..][..k - 1])) == its + a + FieldsItems(fs[1..][..k - 1]);
    }
  }

  lemma {:induction false} MethodsItemsSnoc(ms: seq<MethodDef>, k: nat, its: seq<Item>)
    requires k < |ms|
    ensures its + MethodsItems(ms[..k + 1]) == its + MethodsItems(ms[..k]) + MethodItems(ms[k])
    decreases k
  {
    hide MethodItems;
    if k == 0 {
      assert ms[..1][1..] == [] && MethodsItems([]) == [] && ms[..0] == [];
      assert MethodsItems(ms[..1]) == MethodItems(ms[0]) + [];
    } else {
      MethodsItemsSnoc(ms[1..], k - 1, its + MethodItems(ms[0]));
      assert ms[..k + 1][1..] == ms[1..][..k] && ms[..k][1..] == ms[1..][..k - 1];
      var a := MethodItems(ms[0]);
      assert its + (a + MethodsItems(ms[1..][..k])) == its + a + MethodsItems(ms[1..][..k]);
      assert its + (a + MethodsItems(ms[1..][..k - 1])) == its + a + MethodsItems(ms[1..][..k - 1]);
    }
  }

  function SuperItems(s: string): seq<Item> { if s != "" then [Class(s)] else [] }

  function SourceItems(file: string): seq<Item> { if file != "" then [Utf8("SourceFile"), Utf8(file)] else [] }

  function SourceAttr(t: Pool.Table, file: string): seq<seq<byte>> {
    if file == "" then [] else [AttrBytes(t, "SourceFile", Twos([IndexOf(t, Utf8(file))]))]
  }

  lemma ClassItemsAre(d: ClassDef)
    ensures ClassItems(d) ==
            [Class(d.name)] + SuperItems(d.super) + Names(d.interfaces) + FieldsItems(d.fields) + MethodsItems(d.methods) + SourceItems(d.sourceFile)
  {
  }

  lemma EarlierStands(t: Pool.Table, u: Pool.Table, d: ClassDef)
    requires Extends(t, u) && !u.failed && EarlierPlaced(t, d)
    ensures ConstantsPlaced(u, d.fields) && AllCatchesPlaced(u, d.methods)
  {
    hide IndexOf;
    forall it | Placed(t, it)
      ensures Placed(u, it)
    {
    }
  }

  ghost predicate FieldsPut(t: Pool.Table, fs: seq<FieldDef>) { forall k :: 0 <= k < |fs| ==> FieldPlaced(t, fs[k]) }

  ghost predicate MethodsPut(t: Pool.Table, ms: seq<MethodDef>) { forall k :: 0 <= k < |ms| ==> MethodPlaced(t, ms[k]) }

  ghost predicate OwnPlaced(t: Pool.Table, d: ClassDef) { Placed(t, Class(d.name)) && (d.super != "" ==> Placed(t, Class(d.super))) }

  lemma OwnStands(t: Pool.Table, u: Pool.Table, d: ClassDef)
    requires Extends(t, u) && !u.failed && OwnPlaced(t, d)
    ensures IndexOf(t, Class(d.name)) == IndexOf(u, Class(d.name)) && CatchIndex(t, d.super) == CatchIndex(u, d.super)
  {
  }

  lemma FieldsStand(t: Pool.Table, u: Pool.Table, fs: seq<FieldDef>)
    requires Extends(t, u) && !u.failed && FieldsPut(t, fs)
    ensures FieldsTable(t, fs) == FieldsTable(u, fs)
  {
    hide Extends, FieldPlaced, FieldBytes, Twos, Join, FieldsTable;
    var rows := seq(|fs|, k requires 0 <= k < |fs| => FieldBytes(t, fs[k]));
    FieldRowsStand(t, u, fs, rows);
    FieldsTableIs(t, fs, rows);
    FieldsTableIs(u, fs, rows);
  }

  lemma MethodsStand(t: Pool.Table, u: Pool.Table, ms: seq<MethodDef>)
    requires Extends(t, u) && !u.failed && MethodsPut(t, ms)
    ensures MethodsTable(t, ms) == MethodsTable(u, ms)
  {
    hide Extends, MethodPlaced, MethodBytes, Twos, Join, MethodsTable;
    var rows := seq(|ms|, k requires 0 <= k < |ms| => MethodBytes(t, ms[k]));
    MethodRowsStand(t, u, ms, rows);
    MethodsTableIs(t, ms, rows);
    MethodsTableIs(u, ms, rows);
  }

  lemma RestIs(t: Pool.Table, d: ClassDef)
    ensures Rest(t, d) ==
            Twos([d.flags, IndexOf(t, Class(d.name)), CatchIndex(t, d.super)])
            + NamesTable(t, d.interfaces) + FieldsTable(t, d.fields) + MethodsTable(t, d.methods) + Listed(SourceAttr(t, d.sourceFile))
  {
    hide Twos, NamesTable, FieldsTable, MethodsTable, Listed, AttrBytes;
  }

  lemma NoFailureSince(c: Codec, t: Pool.Table, its: seq<Item>)
    requires Pool.Valid(t) && !After(c, t, its).failed
    ensures !t.failed && Extends(t, After(c, t, its))
  {
    hide Pool.Valid, Calls;
    AnswersStand(c, t, its);
  }

  /** Whatever the pool held before, the file made from it reads back to the class exactly when no entry is newer than it. */
  lemma FileReadsBack(c: Codec, t0: Pool.Table, d: ClassDef)
    requires Pool.Valid(t0) && !t0.failed && EarlierPlaced(t0, d) && !After(c, t0, ClassItems(d)).failed
    requires Faithful(c) && Sized(c, t0) && ClassFits(d)
    ensures var t := After(c, t0, ClassItems(d));
            |t.slots| >= 1 && (ReadClass(c, ClassBytes(c, t, d)) == Some(Expected(d)) <==> Supported(t, MAJOR))
  {
    hide Pool.Valid, Faithful, ClassFits, Calls, ClassItems, Supported, ClassBytes, ReadClass, Expected, Sized, ClassPlaced, EarlierPlaced, AllPlaced;
    var t := After(c, t0, ClassItems(d));
    AnswersStand(c, t0, ClassItems(d));
    CallsSized(c, t0, ClassItems(d));
    Interned(c, t0, ClassItems(d));
    EarlierStays(t0, t, d);
    ClassItemsPlaced(t, d);
    PlacedReadsBack(c, t, d);
    NotEmpty(t);
  }

  lemma EarlierStays(t: Pool.Table, u: Pool.Table, d: ClassDef)
    requires Extends(t, u) && !u.failed && EarlierPlaced(t, d)
    ensures EarlierPlaced(u, d)
  {
    hide IndexOf;
    forall it | Placed(t, it)
      ensures Placed(u, it)
    {
    }
  }

  lemma NoFailure(t: Pool.Table, u: Pool.Table)
    requires Extends(t, u) && !u.failed
    ensures !t.failed
  {
  }

  lemma JoinNone()
    ensures Join([]) == []
  {
  }

  lemma JoinOne(w: seq<byte>)
    ensures Join([w]) == w
  {
    assert [w][1..] == [];
  }

  lemma NoCalls(c: Codec, t: Pool.Table)
    ensures After(c, t, []) == t
  {
  }

  lemma {:induction false} CallsSnoc(c: Codec, t: Pool.Table, its: seq<Item>, it: Item)
    ensures After(c, t, its + [it]) == Intern(c, After(c, t, its), it)
    decreases |its|
  {
    hide Intern;
    if its == [] {
      assert [] + [it] == [it] && [it][1..] == [];
      assert Calls(c, Intern(c, t, it), []).0 == Intern(c, t, it);
    } else {
      assert (its + [it])[1..] == its[1..] + [it];
      CallsSnoc(c, Intern(c, t, its[0]), its[1..], it);
    }
  }

  lemma {:induction false} CallsAppend(c: Codec, t: Pool.Table, a: seq<Item>, b: seq<Item>)
    ensures After(c, t, a + b) == After(c, After(c, t, a), b)
    decreases |a|
  {
    hide Intern;
    if a == [] {
      assert [] + b == b;
    } else {
      assert (a + b)[1..] == a[1..] + b;
      CallsAppend(c, Intern(c, t, a[0]), a[1..], b);
    }
  }
}
