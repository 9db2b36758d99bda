/**
 * The encoder (`generate`, src/bingen.rs): one 16-bit word per typed
 * instruction, opcode in bits 8-11, first field in bits 4-7, second field in
 * bits 0-3, every field cut to its low four bits.
 */
module BinGen {
  import opened PostProc

  /** Rust `u16`. */
  type Word = bv16

  /** The opcode and the two fields `generate` packs for an instruction. */
  function Parts(i: Instruction): (p: (nat, Byte, Byte))
    ensures p.0 < 16
  {
    match i
    case Ldw(a, b) => (0x0, a, b)
    case Stw(a, b) => (0x1, a, b)
    case Ldwr(a, b) => (0x2, a, b)
    case Stwr(a, b) => (0x3, a, b)
    case Breakpt => (0x4, 0, 0)
    case Jmpa(b) => (0x5, 0, b)
    case Bnsr(a, b) => (0x6, a, b)
    case Jmpr(b) => (0x7, 0, b)
    case Add(a, b) => (0x8, a, b)
    case Nor(a, b) => (0x9, a, b)
    case Addi(a, b) => (0xA, a, b)
    case Nori(a, b) => (0xB, a, b)
    case Addr(a, b) => (0xC, a, b)
    case Norr(a, b) => (0xD, a, b)
    case Addir(a, b) => (0xE, a, b)
    case Norira(a, b) => (0xF, a, b)
  }

  /** The instruction with opcode `op` and fields `a`, `b`; variants without a first field ignore `a`. */
  function FromParts(op: nat, a: Byte, b: Byte): Instruction
    requires op < 16
  {
    match op
    case 0x0 => Ldw(a, b)
    case 0x1 => Stw(a, b)
    case 0x2 => Ldwr(a, b)
    case 0x3 => Stwr(a, b)
    case 0x4 => Breakpt
    case 0x5 => Jmpa(b)
    case 0x6 => Bnsr(a, b)
    case 0x7 => Jmpr(b)
    case 0x8 => Add(a, b)
    case 0x9 => Nor(a, b)
    case 0xA => Addi(a, b)
    case 0xB => Nori(a, b)
    case 0xC => Addr(a, b)
    case 0xD => Norr(a, b)
    case 0xE => Addir(a, b)
    case 0xF => Norira(a, b)
  }

  /**
   * `((op & 15) as u16) << 8 | ((a & 15) as u16) << 4 | ((b & 15) as u16)`:
   * the mask is taken on the 8-bit field, where `& 15` is `% 16`, and only the
   * resulting nibble is widened to 16 bits.
   */
  function Pack(op: nat, a: Byte, b: Byte): Word
  {
    (((op % 16) as bv16) << 8) | (((a % 16) as bv16) << 4) | ((b % 16) as bv16)
  }

  function Encode(i: Instruction): Word
  {
    var p := Parts(i);
    Pack(p.0, p.1, p.2)
  }

  /** The three nibbles of a word: `w >> 8`, `(w >> 4) & 15`, `w & 15`. */
  function Unpack(w: Word): (nat, Byte, Byte)
    requires w < 0x1000
  {
    ((w >> 8) as int, ((w >> 4) & 15) as int, (w & 15) as int)
  }

  /** The instruction a word below 0x1000 stands for. */
  function Decode(w: Word): Instruction
    requires w < 0x1000
  {
    var p := Unpack(w);
    FromParts(p.0, p.1, p.2)
  }

  /** An instruction with its fields cut to their low four bits, as the encoder sees it. */
  function Truncate(i: Instruction): Instruction
  {
    var p := Parts(i);
    FromParts(p.0, p.1 % 16, p.2 % 16)
  }

  // ---------------------------------------------------------------------
  // Bit-level facts, split so that each stays small.

  /** A nibble keeps its value when widened to 16 bits. */
  lemma Nibble(n: int)
    requires 0 <= n < 16
    ensures n as bv16 < 16 && (n as bv16) as int == n
  {
    if n == 0 {} else if n == 1 {} else if n == 2 {} else if n == 3 {}
    else if n == 4 {} else if n == 5 {} else if n == 6 {} else if n == 7 {}
    else if n == 8 {} else if n == 9 {} else if n == 10 {} else if n == 11 {}
    else if n == 12 {} else if n == 13 {} else if n == 14 {} else {}
  }

  lemma DisjointOr(x: bv16, y: bv16, z: bv16)
    requires x < 16 && y < 16 && z < 16
    ensures (x << 8) | (y << 4) | z == (x << 8) + (y << 4) + z
    ensures ((x << 8) + (y << 4) + z) as int == x as int * 256 + y as int * 16 + z as int
  {
  }

  lemma NibblesOfPack(x: bv16, y: bv16, z: bv16)
    requires x < 16 && y < 16 && z < 16
    ensures ((x << 8) | (y << 4) | z) >> 8 == x
    ensures (((x << 8) | (y << 4) | z) >> 4) & 15 == y
    ensures ((x << 8) | (y << 4) | z) & 15 == z
  {
  }

  /** The packed word, read as a number. */
  lemma PackValue(op: nat, a: Byte, b: Byte)
    ensures Pack(op, a, b) as int == (op % 16) * 256 + (a % 16) * 16 + b % 16
  {
    Nibble(op % 16);
    Nibble(a % 16);
    Nibble(b % 16);
    DisjointOr((op % 16) as bv16, (a % 16) as bv16, (b % 16) as bv16);
  }

  /** Every word is below 0x1000, and its nibbles give back the opcode and both fields cut to four bits. */
  lemma UnpackPack(op: nat, a: Byte, b: Byte)
    ensures Pack(op, a, b) < 0x1000
    ensures Unpack(Pack(op, a, b)) == (op % 16, a % 16, b % 16)
  {
    Nibble(op % 16);
    Nibble(a % 16);
    Nibble(b % 16);
    NibblesOfPack((op % 16) as bv16, (a % 16) as bv16, (b % 16) as bv16);
    PackValue(op, a, b);
  }

  // ---------------------------------------------------------------------
  // What the encoder promises.

  /** The opcode table is one-to-one: opcode and fields determine the instruction. */
  lemma PartsDetermineInstruction(i: Instruction)
    ensures FromParts(Parts(i).0, Parts(i).1, Parts(i).2) == i
  {
  }

  /** Every opcode 0x0..0xF belongs to some variant. */
  lemma EveryOpcodeUsed(op: nat, a: Byte, b: Byte)
    requires op < 16
    ensures Parts(FromParts(op, a, b)).0 == op
  {
  }

  /** The word is `op * 256 + (a mod 16) * 16 + (b mod 16)`, hence below 0x1000. */
  lemma EncodeValue(i: Instruction)
    ensures Encode(i) < 0x1000
    ensures Encode(i) as int == Parts(i).0 * 256 + (Parts(i).1 % 16) * 16 + Parts(i).2 % 16
  {
    var p := Parts(i);
    assert Encode(i) == Pack(p.0, p.1, p.2);
    assert Encode(i) < 0x1000 by {
      UnpackPack(p.0, p.1, p.2);
    }
    assert Encode(i) as int == p.0 * 256 + (p.1 % 16) * 16 + p.2 % 16 by {
      assert p.0 % 16 == p.0;
      PackValue(p.0, p.1, p.2);
    }
  }

  /** Decoding a word gives back the instruction with its fields cut to four bits. */
  lemma DecodeEncode(i: Instruction)
    ensures Encode(i) < 0x1000 && Decode(Encode(i)) == Truncate(i)
  {
    var p := Parts(i);
    UnpackPack(p.0, p.1, p.2);
  }

  /** Fields above 15 are cut, not rejected: the word only depends on the low four bits of each field. */
  lemma EncodeTruncates(i: Instruction)
    ensures Encode(Truncate(i)) == Encode(i)
  {
    var p := Parts(i);
    assert Parts(Truncate(i)) == (p.0, p.1 % 16, p.2 % 16);
    PackLowNibbles(p.0, p.1, p.2);
  }

  lemma PackLowNibbles(op: nat, a: Byte, b: Byte)
    ensures Pack(op, a % 16, b % 16) == Pack(op, a, b)
  {
    assert (a % 16) % 16 == a % 16;
    assert (b % 16) % 16 == b % 16;
  }

  /** A breakpoint is always the word 0x400. */
  lemma BreakptWord()
    ensures Encode(Breakpt) == 0x400
  {
  }

  /** The two jumps put their single field in bits 0-3 and zero in bits 4-7. */
  lemma JumpFields(b: Byte)
    ensures Encode(Jmpa(b)) as int == 0x500 + b % 16
    ensures Encode(Jmpr(b)) as int == 0x700 + b % 16
  {
    assert Encode(Jmpa(b)) == Pack(5, 0, b);
    assert Encode(Jmpr(b)) == Pack(7, 0, b);
    PackValue(5, 0, b);
    PackValue(7, 0, b);
  }

  /** `generate`: one word per instruction, in order. */
  method Generate(p: Program) returns (r: seq<Word>)
    ensures |r| == |p.insts|
    ensures forall k :: 0 <= k < |r| ==> r[k] == Encode(p.insts[k])
  {
    r := [];
    for k := 0 to |p.insts|
      invariant |r| == k
      invariant forall j :: 0 <= j < k ==> r[j] == Encode(p.insts[j])
    {
      var parts := Parts(p.insts[k]);
      r := r + [Pack(parts.0, parts.1, parts.2)];
    }
  }
}
