/** Big-endian fields: what the writer appends and patches, and what the decoder reads back. */
module Bytes {

  type byte = x: int | 0 <= x < 0x100

  /** uint8(v): the low eight bits in two's complement. */
  function U1(v: int): (r: seq<byte>)
    ensures |r| == 1
  {
    [v % 0x100]
  }

  /** uint16(v), high byte first. */
  function U2(v: int): (r: seq<byte>)
    ensures |r| == 2
  {
    [(v / 0x100) % 0x100, v % 0x100]
  }

  /** uint32(v), high byte first. */
  function U4(v: int): (r: seq<byte>)
    ensures |r| == 4
  {
    [(v / 0x100_0000) % 0x100, (v / 0x1_0000) % 0x100, (v / 0x100) % 0x100, v % 0x100]
  }

  function Be16(b: seq<byte>, at: nat): nat
    requires at + 2 <= |b|
  {
    0x100 * (b[at] as int) + b[at + 1]
  }

  /** int32 read: the top bit is the sign. */
  function Be32(b: seq<byte>, at: nat): int
    requires at + 4 <= |b|
  {
    S32(0x100_0000 * (b[at] as int) + 0x1_0000 * (b[at + 1] as int) + 0x100 * (b[at + 2] as int) + b[at + 3])
  }

  function S8(v: int): int { if v < 0x80 then v else v - 0x100 }

  function S16(v: int): int { if v < 0x8000 then v else v - 0x1_0000 }

  function S32(v: int): int { if v < 0x8000_0000 then v else v - 0x1_0000_0000 }

  predicate IsInt8(v: int) { -0x80 <= v < 0x80 }

  predicate IsInt16(v: int) { -0x8000 <= v < 0x8000 }

  predicate IsInt32(v: int) { -0x8000_0000 <= v < 0x8000_0000 }

  /** A signed 8-bit operand survives the trip through one byte. */
  lemma ReadU1(v: int)
    ensures 0 <= v < 0x100 ==> U1(v)[0] == v
    ensures IsInt8(v) ==> S8(U1(v)[0]) == v
  {
  }

  /** A 16-bit operand, unsigned or signed, survives the trip through two bytes. */
  lemma ReadU2(b: seq<byte>, at: nat, v: int)
    requires at + 2 <= |b| && b[at..at + 2] == U2(v)
    ensures Be16(b, at) == v % 0x1_0000
    ensures 0 <= v < 0x1_0000 ==> Be16(b, at) == v
    ensures IsInt16(v) ==> S16(Be16(b, at)) == v
  {
    assert b[at] == b[at..at + 2][0] && b[at + 1] == b[at..at + 2][1];
  }

  /** A signed 32-bit operand survives the trip through four bytes. */
  lemma ReadU4(b: seq<byte>, at: nat, v: int)
    requires at + 4 <= |b| && b[at..at + 4] == U4(v)
    requires IsInt32(v)
    ensures Be32(b, at) == v
  {
    var w := b[at..at + 4];
    assert b[at] == w[0] && b[at + 1] == w[1] && b[at + 2] == w[2] && b[at + 3] == w[3];
    Digits(v);
  }

  /** The four base-256 digits of a 32-bit value and the sign they carry. */
  lemma Digits(v: int)
    requires IsInt32(v)
    ensures 0x100_0000 * ((v / 0x100_0000) % 0x100) + 0x1_0000 * ((v / 0x1_0000) % 0x100)
            + 0x100 * ((v / 0x100) % 0x100) + v % 0x100 == if v < 0 then v + 0x1_0000_0000 else v
  {
    var q1 := v / 0x100;
    var q2 := q1 / 0x100;
    var q3 := q2 / 0x100;
    assert q2 == v / 0x1_0000;
    assert q3 == v / 0x100_0000;
    assert v == 0x100 * q1 + v % 0x100 && q1 == 0x100 * q2 + q1 % 0x100 && q2 == 0x100 * q3 + q2 % 0x100;
    assert -0x80 <= q3 < 0x80;
  }

  /** Overwrites the bytes at `at` in place. */
  function Patch(b: seq<byte>, at: nat, field: seq<byte>): (r: seq<byte>)
    requires at + |field| <= |b|
    ensures |r| == |b|
    ensures r[at..at + |field|] == field
    ensures forall k :: 0 <= k < |b| && !(at <= k < at + |field|) ==> r[k] == b[k]
  {
    b[..at] + field + b[at + |field|..]
  }

  /** A patch outside a window leaves the window as it was. */
  lemma PatchOutside(b: seq<byte>, at: nat, field: seq<byte>, lo: nat, hi: nat)
    requires at + |field| <= |b| && lo <= hi <= |b|
    requires at + |field| <= lo || hi <= at
    ensures Patch(b, at, field)[lo..hi] == b[lo..hi]
  {
  }

  /** A patch inside a window is a patch of the window. */
  lemma PatchInside(b: seq<byte>, at: nat, field: seq<byte>, lo: nat, hi: nat)
    requires lo <= at && at + |field| <= hi <= |b|
    ensures Patch(b, at, field)[lo..hi] == Patch(b[lo..hi], at - lo, field)
  {
  }
}
