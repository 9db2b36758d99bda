/**
 * The instruction set as a table: for each mnemonic its opcode and the kind
 * of each operand. The resolver's per-mnemonic dispatch (src/postproc.rs)
 * and the encoder's opcode match (src/bingen.rs) are proved to agree with it.
 */
module Isa {
  import opened Wrappers
  import opened Lexer
  import opened Parser
  import opened PostProc
  import opened BinGen

  type Opcode = x: nat | x < 16

  /** What an operand position accepts. */
  datatype Slot = RegisterSlot | IntegerSlot | RelativeSlot

  /** Opcode, operand kinds in order, and whether any operand list is accepted and ignored. */
  datatype Signature = Signature(opcode: Opcode, slots: seq<Slot>, anyOperands: bool)

  const Table: map<string, Signature> := map[
    "ldw" := Signature(0x0, [RegisterSlot, RegisterSlot], false),
    "stw" := Signature(0x1, [RegisterSlot, RegisterSlot], false),
    "ldwr" := Signature(0x2, [RegisterSlot, IntegerSlot], false),
    "stwr" := Signature(0x3, [RegisterSlot, IntegerSlot], false),
    "bp" := Signature(0x4, [], true),
    "jmpa" := Signature(0x5, [RegisterSlot], false),
    "bnsr" := Signature(0x6, [RegisterSlot, RelativeSlot], false),
    "jmpr" := Signature(0x7, [RelativeSlot], false),
    "add" := Signature(0x8, [RegisterSlot, RegisterSlot], false),
    "nor" := Signature(0x9, [RegisterSlot, RegisterSlot], false),
    "addi" := Signature(0xA, [RegisterSlot, IntegerSlot], false),
    "nori" := Signature(0xB, [RegisterSlot, IntegerSlot], false),
    "addr" := Signature(0xC, [RegisterSlot, RegisterSlot], false),
    "norr" := Signature(0xD, [RegisterSlot, RegisterSlot], false),
    "addir" := Signature(0xE, [RegisterSlot, IntegerSlot], false),
    "norira" := Signature(0xF, [RegisterSlot, IntegerSlot], false)
  ]

  function ResolveSlot(labels: seq<Label>, pc: nat, i: RawInstruction, n: nat, slot: Slot): Result<Byte, Span>
    requires n < |i.oprs|
  {
    match slot
    case RegisterSlot => ExpectRegister(i, n)
    case IntegerSlot => ExpectInteger(labels, i, n)
    case RelativeSlot => Offset(labels, pc, i, n)
  }

  /** Operands `n..` against `slots[n..]`, left to right; the first failure wins. */
  function ResolveSlots(labels: seq<Label>, pc: nat, i: RawInstruction, slots: seq<Slot>, n: nat)
    : Result<seq<Byte>, Span>
    requires |slots| <= |i.oprs| && n <= |slots|
    decreases |slots| - n
  {
    if n == |slots| then Ok([])
    else
      var f :- ResolveSlot(labels, pc, i, n, slots[n]);
      var rest :- ResolveSlots(labels, pc, i, slots, n + 1);
      Ok([f] + rest)
  }

  /** The typed instruction for an opcode and its resolved fields; a single field is the second one. */
  function Build(op: Opcode, fields: seq<Byte>): Instruction
  {
    FromParts(op, if |fields| == 2 then fields[0] else 0, if |fields| >= 1 then fields[|fields| - 1] else 0)
  }

  /** Table-driven resolution of one raw instruction. */
  function ResolveByTable(labels: seq<Label>, pc: nat, i: RawInstruction): Result<Instruction, Span>
  {
    var m := ToLower(i.inst);
    if m !in Table then Err(i.span)
    else
      var sig := Table[m];
      if sig.anyOperands then Ok(Build(sig.opcode, []))
      else if |i.oprs| != |sig.slots| then Err(i.span)
      else
        var fields :- ResolveSlots(labels, pc, i, sig.slots, 0);
        Ok(Build(sig.opcode, fields))
  }

  lemma TableCoversMnemonics()
    ensures Table.Keys == Mnemonics
  {
  }

  /** A mnemonic with two register operands. */
  lemma RegRegByTable(labels: seq<Label>, pc: nat, i: RawInstruction, op: Opcode)
    requires ToLower(i.inst) in Table && Table[ToLower(i.inst)] == Signature(op, [RegisterSlot, RegisterSlot], false)
    ensures ResolveByTable(labels, pc, i) ==
            match RegReg(i) case Ok(f) => Ok(FromParts(op, f.0, f.1)) case Err(e) => Err(e)
  {
  }

  /** A mnemonic with a register operand and an integer operand. */
  lemma RegIntByTable(labels: seq<Label>, pc: nat, i: RawInstruction, op: Opcode)
    requires ToLower(i.inst) in Table && Table[ToLower(i.inst)] == Signature(op, [RegisterSlot, IntegerSlot], false)
    ensures ResolveByTable(labels, pc, i) ==
            match RegInt(labels, i) case Ok(f) => Ok(FromParts(op, f.0, f.1)) case Err(e) => Err(e)
  {
  }

  lemma LdwStwMnemonics(labels: seq<Label>, pc: nat, i: RawInstruction)
    requires ToLower(i.inst) in {"ldw", "stw"}
    ensures ResolveInst(labels, pc, i) == ResolveByTable(labels, pc, i)
  {
    RegRegByTable(labels, pc, i, Table[ToLower(i.inst)].opcode);
  }

  lemma LdwrStwrMnemonics(labels: seq<Label>, pc: nat, i: RawInstruction)
    requires ToLower(i.inst) in {"ldwr", "stwr"}
    ensures ResolveInst(labels, pc, i) == ResolveByTable(labels, pc, i)
  {
    RegIntByTable(labels, pc, i, Table[ToLower(i.inst)].opcode);
  }

  lemma AddNorMnemonics(labels: seq<Label>, pc: nat, i: RawInstruction)
    requires ToLower(i.inst) in {"add", "nor"}
    ensures ResolveInst(labels, pc, i) == ResolveByTable(labels, pc, i)
  {
    RegRegByTable(labels, pc, i, Table[ToLower(i.inst)].opcode);
  }

  lemma AddiNoriMnemonics(labels: seq<Label>, pc: nat, i: RawInstruction)
    requires ToLower(i.inst) in {"addi", "nori"}
    ensures ResolveInst(labels, pc, i) == ResolveByTable(labels, pc, i)
  {
    RegIntByTable(labels, pc, i, Table[ToLower(i.inst)].opcode);
  }

  lemma AddrNorrMnemonics(labels: seq<Label>, pc: nat, i: RawInstruction)
    requires ToLower(i.inst) in {"addr", "norr"}
    ensures ResolveInst(labels, pc, i) == ResolveByTable(labels, pc, i)
  {
    RegRegByTable(labels, pc, i, Table[ToLower(i.inst)].opcode);
  }

  lemma AddirNoriraMnemonics(labels: seq<Label>, pc: nat, i: RawInstruction)
    requires ToLower(i.inst) in {"addir", "norira"}
    ensures ResolveInst(labels, pc, i) == ResolveByTable(labels, pc, i)
  {
    RegIntByTable(labels, pc, i, Table[ToLower(i.inst)].opcode);
  }

  lemma BranchMnemonics(labels: seq<Label>, pc: nat, i: RawInstruction)
    requires ToLower(i.inst) in {"bp", "jmpa", "bnsr", "jmpr"}
    ensures ResolveInst(labels, pc, i) == ResolveByTable(labels, pc, i)
  {
  }

  /** The resolver's dispatch is exactly the table's: same mnemonics, counts, operand kinds, order and opcodes. */
  lemma ResolveInstByTable(labels: seq<Label>, pc: nat, i: RawInstruction)
    ensures ResolveInst(labels, pc, i) == ResolveByTable(labels, pc, i)
  {
    var m := ToLower(i.inst);
    if m in {"ldw", "stw"} {
      LdwStwMnemonics(labels, pc, i);
    } else if m in {"ldwr", "stwr"} {
      LdwrStwrMnemonics(labels, pc, i);
    } else if m in {"bp", "jmpa", "bnsr", "jmpr"} {
      BranchMnemonics(labels, pc, i);
    } else if m in {"add", "nor"} {
      AddNorMnemonics(labels, pc, i);
    } else if m in {"addi", "nori"} {
      AddiNoriMnemonics(labels, pc, i);
    } else if m in {"addr", "norr"} {
      AddrNorrMnemonics(labels, pc, i);
    } else if m in {"addir", "norira"} {
      AddirNoriraMnemonics(labels, pc, i);
    } else {
      TableCoversMnemonics();
    }
  }

  lemma ToLowerIdempotent(s: string)
    ensures ToLower(ToLower(s)) == ToLower(s)
  {
  }

  /** The operand walk reads only the operands. */
  lemma {:induction false} ResolveSlotsReadsOperands(labels: seq<Label>, pc: nat, i: RawInstruction, j: RawInstruction,
                                                     slots: seq<Slot>, n: nat)
    requires i.oprs == j.oprs && |slots| <= |i.oprs| && n <= |slots|
    ensures ResolveSlots(labels, pc, i, slots, n) == ResolveSlots(labels, pc, j, slots, n)
    decreases |slots| - n
  {
    if n < |slots| {
      ResolveSlotsReadsOperands(labels, pc, i, j, slots, n + 1);
    }
  }

  /** Mnemonics are matched regardless of case: only the lower-cased mnemonic matters. */
  lemma MnemonicCaseInsensitive(labels: seq<Label>, pc: nat, i: RawInstruction)
    ensures ResolveInst(labels, pc, i) == ResolveInst(labels, pc, i.(inst := ToLower(i.inst)))
  {
    var j := i.(inst := ToLower(i.inst));
    ToLowerIdempotent(i.inst);
    ResolveInstByTable(labels, pc, i);
    ResolveInstByTable(labels, pc, j);
    var m := ToLower(i.inst);
    if m in Table && !Table[m].anyOperands && |i.oprs| == |Table[m].slots| {
      ResolveSlotsReadsOperands(labels, pc, i, j, Table[m].slots, 0);
    }
  }

  /**
   * The word for a table entry: its opcode in bits 8-11, the first of two
   * fields in bits 4-7, the last field in bits 0-3, each field cut to four bits.
   */
  lemma TableEncoding(m: string, fields: seq<Byte>)
    requires m in Table && |fields| == |Table[m].slots|
    ensures Encode(Build(Table[m].opcode, fields)) as int ==
            Table[m].opcode * 256 + (if |fields| == 2 then (fields[0] % 16) * 16 else 0) +
            (if |fields| >= 1 then fields[|fields| - 1] % 16 else 0)
  {
    var op := Table[m].opcode;
    assert Parts(Build(op, fields)) ==
           (op, if |fields| == 2 then fields[0] else 0, if |fields| >= 1 then fields[|fields| - 1] else 0);
    EncodeValue(Build(op, fields));
  }

  /**
   * `bp` accepts any operand list and ignores it; every other mnemonic with
   * the wrong number of operands fails with the instruction's span, whatever
   * the operands are.
   */
  lemma CountCheckedFirst(labels: seq<Label>, pc: nat, i: RawInstruction)
    requires ToLower(i.inst) in Table
    ensures Table[ToLower(i.inst)].anyOperands ==> ResolveInst(labels, pc, i) == Ok(Breakpt)
    ensures !Table[ToLower(i.inst)].anyOperands && |i.oprs| != |Table[ToLower(i.inst)].slots| ==>
              ResolveInst(labels, pc, i) == Err(i.span)
  {
    ResolveInstByTable(labels, pc, i);
  }

  /** Operands are checked left to right: a failing first operand is the instruction's error. */
  lemma FirstOperandFirst(labels: seq<Label>, pc: nat, i: RawInstruction)
    requires ToLower(i.inst) in Table && !Table[ToLower(i.inst)].anyOperands
    requires |i.oprs| == |Table[ToLower(i.inst)].slots| >= 1
    requires ResolveSlot(labels, pc, i, 0, Table[ToLower(i.inst)].slots[0]).Err?
    ensures ResolveInst(labels, pc, i) == Err(ResolveSlot(labels, pc, i, 0, Table[ToLower(i.inst)].slots[0]).error)
  {
    ResolveInstByTable(labels, pc, i);
  }
}
