/** The class file format by its numbers: what the bytes are, told without the constants and fields the code shares. */
module Format {
  import opened Bytes
  import opened Opcode
  import L = Layout
  import opened Pool
  import opened PoolBuilder
  import F = ClassFile
  import M = Machine

  /** The n low bytes of v, most significant first: section 4 of the JVM Specification. */
  function Big(v: int, n: nat): (r: seq<byte>)
    ensures |r| == n
    decreases n
  {
    if n == 0 then [] else Big(v / 0x100, n - 1) + [v % 0x100]
  }

  lemma FieldsBig(v: int)
    ensures U1(v) == Big(v, 1) && U2(v) == Big(v, 2) && U4(v) == Big(v, 4)
  {
    assert Big(v, 1) == Big(v / 0x100, 0) + [v % 0x100];
    assert Big(v / 0x100, 1) == Big(v / 0x100 / 0x100, 0) + [v / 0x100 % 0x100];
    assert v / 0x100 / 0x100 == v / 0x1_0000 && v / 0x100 / 0x100 / 0x100 == v / 0x100_0000;
    assert Big(v / 0x1_0000, 1) == Big(v / 0x100_0000, 0) + [v / 0x1_0000 % 0x100];
    assert Big(v / 0x100_0000, 1) == Big(v / 0x100_0000 / 0x100, 0) + [v / 0x100_0000 % 0x100];
    assert Big(v / 0x1_0000, 2) == Big(v / 0x100_0000, 1) + [v / 0x1_0000 % 0x100];
    assert Big(v, 2) == Big(v / 0x100, 1) + [v % 0x100];
    assert Big(v / 0x100, 3) == Big(v / 0x1_0000, 2) + [v / 0x100 % 0x100];
    assert Big(v, 4) == Big(v / 0x100, 3) + [v % 0x100];
  }

  /** The operands of a switch begin at the next multiple of four after the opcode, and no further. */
  lemma PadAligned(at: nat, p: nat)
    ensures p == L.Pad(at) <==> p < 4 && (at + 1 + p) % 4 == 0
  {
  }

  /** Section 4.4: the tag and what follows it, for every constant the builder writes. */
  lemma EntryFormat(c: Codec, t: Table, it: Item)
    ensures Entry(c, t, it) ==
              match it
              case Utf8(s) => [1] + Big(|c.enc(s)|, 2) + c.enc(s)
              case Integer(w) => [3] + Big(w, 4)
              case Float(w) => [4] + Big(w, 4)
              case Long(d) => [5] + Big(d, 8)
              case Double(d) => [6] + Big(d, 8)
              case Class(n) => [7] + Big(IndexOf(t, Utf8(n)), 2)
              case Text(s) => [8] + Big(IndexOf(t, Utf8(s)), 2)
              case Field(o, n, d) => [9] + Big(IndexOf(t, Class(o)), 2) + Big(IndexOf(t, NameAndType(n, d)), 2)
              case Method(o, n, d) => [10] + Big(IndexOf(t, Class(o)), 2) + Big(IndexOf(t, NameAndType(n, d)), 2)
              case InterfaceMethod(o, n, d) => [11] + Big(IndexOf(t, Class(o)), 2) + Big(IndexOf(t, NameAndType(n, d)), 2)
              case NameAndType(n, d) => [12] + Big(IndexOf(t, Utf8(n)), 2) + Big(IndexOf(t, Utf8(d)), 2)
              case MethodType(d) => [16] + Big(IndexOf(t, Utf8(d)), 2)
  {
    hide U2, U4, Big;
    match it
    case Utf8(s) => FieldsBig(|c.enc(s)|);
    case Integer(w) => FieldsBig(w);
    case Float(w) => FieldsBig(w);
    case Long(d) => EightBig(d);
    case Double(d) => EightBig(d);
    case _ => RefsBig(t, it);
  }

  lemma EightBig(d: Word64)
    ensures U4(d / 0x1_0000_0000) + U4(d % 0x1_0000_0000) == Big(d, 8)
  {
    FieldsBig(d / 0x1_0000_0000);
    FieldsBig(d % 0x1_0000_0000);
    Split(d);
  }

  lemma Split(v: int)
    ensures Big(v, 8) == Big(v / 0x1_0000_0000, 4) + Big(v % 0x1_0000_0000, 4)
  {
    hide Big;
    var b := v % 0x1_0000_0000;
    FourBig(v);
    FourBig(b);
    LowDigits(v);
    LastBig(v, 7);
    LastBig(v / 0x100, 6);
    LastBig(v / 0x1_0000, 5);
    LastBig(v / 0x100_0000, 4);
  }

  lemma LastBig(v: int, n: nat)
    ensures Big(v, n + 1) == Big(v / 0x100, n) + [v % 0x100]
  {
  }

  lemma LowDigits(v: int)
    ensures var b := v % 0x1_0000_0000;
            && b % 0x100 == v % 0x100 && b / 0x100 % 0x100 == v / 0x100 % 0x100
            && b / 0x1_0000 % 0x100 == v / 0x1_0000 % 0x100 && b / 0x100_0000 % 0x100 == v / 0x100_0000 % 0x100
  {
    FourDigits(v % 0x100, v / 0x100 % 0x100, v / 0x1_0000 % 0x100, v / 0x100_0000 % 0x100);
    var q, r, t := v / 0x100, v / 0x1_0000, v / 0x100_0000;
    assert q / 0x100 == r && r / 0x100 == t && t / 0x100 == v / 0x1_0000_0000;
    assert v == 0x100 * q + v % 0x100 && q == 0x100 * r + q % 0x100 && r == 0x100 * t + r % 0x100;
    assert t == 0x100 * (v / 0x1_0000_0000) + t % 0x100;
  }

  lemma FourDigits(a: nat, b: nat, c: nat, d: nat)
    requires a < 0x100 && b < 0x100 && c < 0x100 && d < 0x100
    ensures var x := a + 0x100 * b + 0x1_0000 * c + 0x100_0000 * d;
            x % 0x100 == a && x / 0x100 % 0x100 == b && x / 0x1_0000 % 0x100 == c && x / 0x100_0000 % 0x100 == d
  {
    var z := c + 0x100 * d;
    var y := b + 0x100 * z;
    var x := a + 0x100 * y;
    Chop(c, d);
    Chop(b, z);
    Chop(a, y);
    assert x / 0x1_0000 == x / 0x100 / 0x100 && x / 0x100_0000 == x / 0x1_0000 / 0x100;
  }

  lemma Chop(a: nat, y: nat)
    requires a < 0x100
    ensures (a + 0x100 * y) % 0x100 == a && (a + 0x100 * y) / 0x100 == y
  {
  }

  lemma FourBig(v: int)
    ensures Big(v, 4) == [v / 0x100_0000 % 0x100, v / 0x1_0000 % 0x100, v / 0x100 % 0x100, v % 0x100]
    ensures v / 0x100 / 0x100 == v / 0x1_0000 && v / 0x1_0000 / 0x100 == v / 0x100_0000 && v / 0x100_0000 / 0x100 == v / 0x1_0000_0000
  {
    FieldsBig(v);
  }

  lemma RefsBig(t: Table, it: Item)
    requires Parts(it) != []
    ensures Refs(t, Parts(it)) == if |Parts(it)| == 1 then Big(IndexOf(t, Parts(it)[0]), 2)
                                  else Big(IndexOf(t, Parts(it)[0]), 2) + Big(IndexOf(t, Parts(it)[1]), 2)
  {
    hide U2, Big;
    var ps := Parts(it);
    FieldsBig(IndexOf(t, ps[0]));
    assert Refs(t, ps) == U2(IndexOf(t, ps[0])) + Refs(t, ps[1..]);
    if |ps| == 2 {
      FieldsBig(IndexOf(t, ps[1]));
      assert ps[1..][1..] == [];
      assert Refs(t, ps[1..]) == U2(IndexOf(t, ps[1])) + Refs(t, []);
    }
  }

  /** Section 4.1: a class file begins with its magic number, and version 49 after the minor version, then the pool's slot count. */
  lemma HeaderFormat(c: Codec, t: Table, d: F.ClassDef)
    requires |t.slots| >= 1
    ensures F.ClassBytes(c, t, d)[..10] == [0xCA, 0xFE, 0xBA, 0xBE] + Big(d.minor, 2) + [0, 49] + Big(|t.slots|, 2)
  {
    hide F.Rest, EmitFrom, Big;
    FieldsBig(0xCAFEBABE);
    FieldsBig(d.minor);
    FieldsBig(49);
    FieldsBig(|t.slots|);
    assert U4(0xCAFEBABE) == [0xCA, 0xFE, 0xBA, 0xBE] && U2(49) == [0, 49];
    assert F.Twos([d.minor, 49]) == U2(d.minor) + U2(49) by { TwosTwo(d.minor, 49); }
  }

  lemma TwosTwo(a: nat, b: nat)
    ensures F.Twos([a, b]) == U2(a) + U2(b)
  {
    assert [a, b][1..] == [b] && [b][1..] == [];
  }

  /** Section 6.5: what each conditional branch tests, by its number. */
  lemma TestsByNumber(a: int, b: int)
    ensures (M.Holds(0x99, a, b) <==> b == 0) && (M.Holds(0x9a, a, b) <==> b != 0) && (M.Holds(0x9b, a, b) <==> b < 0)
    ensures (M.Holds(0x9c, a, b) <==> b >= 0) && (M.Holds(0x9d, a, b) <==> b > 0) && (M.Holds(0x9e, a, b) <==> b <= 0)
    ensures (M.Holds(0x9f, a, b) <==> a == b) && (M.Holds(0xa0, a, b) <==> a != b) && (M.Holds(0xa1, a, b) <==> a < b)
    ensures (M.Holds(0xa2, a, b) <==> a >= b) && (M.Holds(0xa3, a, b) <==> a > b) && (M.Holds(0xa4, a, b) <==> a <= b)
    ensures (M.Holds(0xa5, a, b) <==> a == b) && (M.Holds(0xa6, a, b) <==> a != b)
    ensures (M.Holds(0xc6, a, b) <==> b == 0) && (M.Holds(0xc7, a, b) <==> b != 0)
  {
  }
}
