/** The instruction set: opcode numbers, operand shapes, and slot effects. */
module Opcode {
  import opened Bytes

  const ACONST_NULL: byte := 0x01
  const ICONST_0: byte := 0x03
  const BIPUSH: byte := 0x10
  const SIPUSH: byte := 0x11
  const LDC: byte := 0x12
  const LDC_W: byte := 0x13
  const LDC2_W: byte := 0x14
  const ILOAD: byte := 0x15
  const ALOAD: byte := 0x19
  const ILOAD_0: byte := 0x1a
  const ALOAD_3: byte := 0x2d
  const ISTORE: byte := 0x36
  const ASTORE: byte := 0x3a
  const ISTORE_0: byte := 0x3b
  const ASTORE_3: byte := 0x4e
  const IINC: byte := 0x84
  const IFEQ: byte := 0x99
  const IFNE: byte := 0x9a
  const IFLT: byte := 0x9b
  const IFGE: byte := 0x9c
  const IFGT: byte := 0x9d
  const IFLE: byte := 0x9e
  const IF_ICMPEQ: byte := 0x9f
  const IF_ICMPNE: byte := 0xa0
  const IF_ICMPLT: byte := 0xa1
  const IF_ICMPGE: byte := 0xa2
  const IF_ICMPGT: byte := 0xa3
  const IF_ICMPLE: byte := 0xa4
  const IF_ACMPEQ: byte := 0xa5
  const IF_ACMPNE: byte := 0xa6
  const GOTO: byte := 0xa7
  const RET: byte := 0xa9
  const TABLESWITCH: byte := 0xaa
  const LOOKUPSWITCH: byte := 0xab
  const IRETURN: byte := 0xac
  const RETURN: byte := 0xb1
  const GETSTATIC: byte := 0xb2
  const PUTSTATIC: byte := 0xb3
  const GETFIELD: byte := 0xb4
  const PUTFIELD: byte := 0xb5
  const INVOKEVIRTUAL: byte := 0xb6
  const INVOKEINTERFACE: byte := 0xb9
  const NEW: byte := 0xbb
  const NEWARRAY: byte := 0xbc
  const ANEWARRAY: byte := 0xbd
  const ATHROW: byte := 0xbf
  const CHECKCAST: byte := 0xc0
  const INSTANCEOF: byte := 0xc1
  const WIDE: byte := 0xc4
  const MULTIANEWARRAY: byte := 0xc5
  const IFNULL: byte := 0xc6
  const IFNONNULL: byte := 0xc7
  const GOTO_W: byte := 0xc8

  datatype Kind =
    | Unused | NoOperand | LocalIndex | ConstU1 | ConstU2 | Byte1 | Short2 | Branch2 | Branch4
    | IincK | NewarrayK | MultiK | InterfaceK | DynamicK | TableswitchK | LookupswitchK | WideK

  function KindOf(o: byte): Kind {
    if o < BIPUSH then NoOperand
    else if o == BIPUSH then Byte1
    else if o == SIPUSH then Short2
    else if o == LDC then ConstU1
    else if o <= LDC2_W then ConstU2
    else if o <= ALOAD then LocalIndex
    else if o < ISTORE then NoOperand
    else if o <= ASTORE then LocalIndex
    else if o < IINC then NoOperand
    else if o == IINC then IincK
    else if o < IFEQ then NoOperand
    else if o < RET then Branch2
    else if o == RET then LocalIndex
    else if o == TABLESWITCH then TableswitchK
    else if o == LOOKUPSWITCH then LookupswitchK
    else if o <= RETURN then NoOperand
    else if o < INVOKEINTERFACE then ConstU2
    else if o == INVOKEINTERFACE then InterfaceK
    else if o == 0xba then DynamicK
    else if o == NEW then ConstU2
    else if o == NEWARRAY then NewarrayK
    else if o == ANEWARRAY then ConstU2
    else if o <= ATHROW then NoOperand
    else if o <= INSTANCEOF then ConstU2
    else if o < WIDE then NoOperand
    else if o == WIDE then WideK
    else if o == MULTIANEWARRAY then MultiK
    else if o <= IFNONNULL then Branch2
    else if o <= 0xc9 then Branch4
    else Unused
  }

  /** Encoded length by operand shape, or -1 where it depends on the operands. */
  function LenOf(o: byte): int {
    match KindOf(o)
    case Unused => 1
    case NoOperand => 1
    case LocalIndex | ConstU1 | Byte1 | NewarrayK => 2
    case ConstU2 | Short2 | Branch2 | IincK => 3
    case MultiK => 4
    case Branch4 | InterfaceK | DynamicK => 5
    case TableswitchK | LookupswitchK | WideK => -1
  }

  predicate IsLocalGeneral(o: byte) {
    ILOAD <= o <= ALOAD || ISTORE <= o <= ASTORE
  }

  predicate IsLoad(o: byte) { o <= ALOAD }

  /** The one-byte form of a local access at slots 0..3 starts here. */
  function CompactBase(o: byte): (r: byte)
    requires IsLocalGeneral(o)
  {
    if IsLoad(o) then ILOAD_0 + 4 * (o - ILOAD) else ISTORE_0 + 4 * (o - ISTORE)
  }

  /** Slot width of a local access: long and double take two. */
  function LocalWidth(o: byte): nat
    requires IsLocalGeneral(o)
  {
    var k := if IsLoad(o) then o - ILOAD else o - ISTORE;
    if k == 1 || k == 3 then 2 else 1
  }

  predicate IsCond(o: byte) {
    IFEQ <= o <= IF_ACMPNE || o == IFNULL || o == IFNONNULL
  }

  predicate IsBranch(o: byte) { IsCond(o) || o == GOTO }

  /** The test that succeeds exactly when `o` fails. */
  function Invert(o: byte): byte
    requires IsCond(o)
  {
    if o == IFEQ then IFNE else if o == IFNE then IFEQ
    else if o == IFLT then IFGE else if o == IFGE then IFLT
    else if o == IFGT then IFLE else if o == IFLE then IFGT
    else if o == IF_ICMPEQ then IF_ICMPNE else if o == IF_ICMPNE then IF_ICMPEQ
    else if o == IF_ICMPLT then IF_ICMPGE else if o == IF_ICMPGE then IF_ICMPLT
    else if o == IF_ICMPGT then IF_ICMPLE else if o == IF_ICMPLE then IF_ICMPGT
    else if o == IF_ACMPEQ then IF_ACMPNE else if o == IF_ACMPNE then IF_ACMPEQ
    else if o == IFNULL then IFNONNULL else IFNULL
  }

  /** Operands a branch takes off the stack. */
  function BranchPops(o: byte): nat
    requires IsBranch(o)
  {
    if o == GOTO then 0 else if IF_ICMPEQ <= o <= IF_ACMPNE then 2 else 1
  }

  predicate IsReturn(o: byte) { IRETURN <= o <= RETURN }

  /** Control cannot fall through. */
  predicate Terminates(o: byte) {
    IsReturn(o) || o == ATHROW || o == GOTO || o == GOTO_W || o == TABLESWITCH || o == LOOKUPSWITCH || o == RET
  }

  datatype Delta = NotEmitted | Delta(pop: nat, push: nat)

  /** Slot effect of every operand-free instruction the writer will emit. */
  function SimpleDelta(o: byte): Delta {
    if o == 0x00 then Delta(0, 0)
    else if o == 0xc2 || o == 0xc3 then Delta(1, 0)
    else if o <= 0x08 || 0x0b <= o <= 0x0d then Delta(0, 1)
    else if o <= 0x0f then Delta(0, 2)
    else if 0x2e <= o <= 0x35 then (if o == 0x2f || o == 0x31 then Delta(2, 2) else Delta(2, 1))
    else if 0x4f <= o <= 0x56 then (if o == 0x50 || o == 0x52 then Delta(4, 0) else Delta(3, 0))
    else if o == 0x57 then Delta(1, 0)
    else if o == 0x58 then Delta(2, 0)
    else if o == 0x59 then Delta(1, 2)
    else if o == 0x5a then Delta(2, 3)
    else if o == 0x5b then Delta(3, 4)
    else if o == 0x5c then Delta(2, 4)
    else if o == 0x5d then Delta(3, 5)
    else if o == 0x5e then Delta(4, 6)
    else if o == 0x5f then Delta(2, 2)
    else if 0x60 <= o <= 0x73 then (if o % 2 == 0 then Delta(2, 1) else Delta(4, 2))
    else if 0x74 <= o <= 0x77 then (if o % 2 == 0 then Delta(1, 1) else Delta(2, 2))
    else if 0x78 <= o <= 0x7d then (if o % 2 == 0 then Delta(2, 1) else Delta(3, 2))
    else if 0x7e <= o <= 0x83 then (if o % 2 == 0 then Delta(2, 1) else Delta(4, 2))
    else if o == 0x85 || o == 0x87 || o == 0x8c || o == 0x8d then Delta(1, 2)
    else if o == 0x86 || o == 0x8b || 0x91 <= o <= 0x93 then Delta(1, 1)
    else if o == 0x8a || o == 0x8f then Delta(2, 2)
    else if o == 0x88 || o == 0x89 || o == 0x8e || o == 0x90 then Delta(2, 1)
    else if o == 0x94 || o == 0x97 || o == 0x98 then Delta(4, 1)
    else if o == 0x95 || o == 0x96 then Delta(2, 1)
    else if o == 0xac || o == 0xae || o == 0xb0 then Delta(1, 0)
    else if o == 0xad || o == 0xaf then Delta(2, 0)
    else if o == 0xb1 then Delta(0, 0)
    else if o == 0xbe then Delta(1, 1)
    else if o == ATHROW then Delta(1, 0)
    else NotEmitted
  }

  /** Inverting is an involution that keeps the operand count and never yields goto. */
  lemma InvertTwice(o: byte)
    requires IsCond(o)
    ensures IsCond(Invert(o)) && Invert(o) != o && Invert(Invert(o)) == o
    ensures BranchPops(Invert(o)) == BranchPops(o)
  {
  }
}
