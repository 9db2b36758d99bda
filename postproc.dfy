/**
 * The resolver (`post_proc`, src/postproc.rs): checks each raw instruction
 * against its mnemonic, resolves label names, computes branch displacements
 * and yields typed instructions, stopping at the first error.
 */
module PostProc {
  import opened Wrappers
  import opened Lexer
  import opened Parser

  /** Rust `u8`, the type of every field of a typed instruction. */
  type Byte = x: int | 0 <= x < 256

  /** The sixteen typed instructions; `a` is the first field and `b` the second. */
  datatype Instruction =
    | Ldw(a: Byte, b: Byte)
    | Stw(a: Byte, b: Byte)
    | Ldwr(a: Byte, b: Byte)
    | Stwr(a: Byte, b: Byte)
    | Breakpt
    | Jmpa(b: Byte)
    | Bnsr(a: Byte, b: Byte)
    | Jmpr(b: Byte)
    | Add(a: Byte, b: Byte)
    | Nor(a: Byte, b: Byte)
    | Addi(a: Byte, b: Byte)
    | Nori(a: Byte, b: Byte)
    | Addr(a: Byte, b: Byte)
    | Norr(a: Byte, b: Byte)
    | Addir(a: Byte, b: Byte)
    | Norira(a: Byte, b: Byte)

  datatype Program = Program(insts: seq<Instruction>)

  /** `x as u8`: the low eight bits (two's complement for negative `x`). */
  function AsU8(x: int): (r: Byte)
    ensures (x - r) % 256 == 0
  {
    x % 256
  }

  /** `x as i8`: the low eight bits read as a two's-complement number. */
  function AsI8(x: int): (r: int)
    ensures -128 <= r < 128 && (x - r) % 256 == 0
  {
    (x + 128) % 256 - 128
  }

  function LowerChar(c: char): char
  {
    if 'A' <= c <= 'Z' then (c as int + 32) as char else c
  }

  /** `to_lowercase` on a mnemonic (identifiers are ASCII). */
  function ToLower(s: string): (r: string)
    ensures |r| == |s|
    ensures forall k :: 0 <= k < |r| ==> !('A' <= r[k] <= 'Z')
    ensures forall k :: 0 <= k < |s| && !('A' <= s[k] <= 'Z') ==> r[k] == s[k]
  {
    seq(|s|, k requires 0 <= k < |s| => LowerChar(s[k]))
  }

  // ---------------------------------------------------------------------
  // The operand macros.

  /** `expect_op!(n Register)`: only a register operand, truncated to eight bits. */
  function ExpectRegister(i: RawInstruction, n: nat): (r: Result<Byte, Span>)
    requires n < |i.oprs|
    ensures r.Ok? <==> i.oprs[n].0.Register?
    ensures r.Ok? ==> (r.value - i.oprs[n].0.index) % 256 == 0
    ensures r.Err? ==> r.error == i.oprs[n].1
  {
    match i.oprs[n].0
    case Register(x) => Ok(AsU8(x))
    case _ => Err(i.oprs[n].1)
  }

  /**
   * `expect_op!(n Integer)`: an integer literal, or the name of a defined
   * label standing for the index of the instruction it denotes; truncated to
   * eight bits.
   */
  function ExpectInteger(labels: seq<Label>, i: RawInstruction, n: nat): (r: Result<Byte, Span>)
    requires n < |i.oprs|
    ensures var op := i.oprs[n].0;
            r.Ok? <==> op.Integer? || (op.Name? && exists k :: 0 <= k < |labels| && labels[k].0 == op.name)
    ensures i.oprs[n].0.Integer? ==> r.Ok? && (r.value - i.oprs[n].0.value) % 256 == 0
    ensures i.oprs[n].0.Name? && r.Ok? ==>
              exists k :: 0 <= k < |labels| && labels[k].0 == i.oprs[n].0.name && r.value == labels[k].1 % 256 &&
                          forall j :: 0 <= j < k ==> labels[j].0 != i.oprs[n].0.name
    ensures r.Err? ==> r.error == i.oprs[n].1
  {
    match i.oprs[n].0
    case Integer(x) => Ok(AsU8(x))
    case Name(name) =>
      (match FindLabel(labels, name)
       case None => Err(i.oprs[n].1)
       case Some(lbl) => Ok(AsU8(lbl.1)))
    case _ => Err(i.oprs[n].1)
  }

  /**
   * `offset!(n)`: resolve the target as an integer operand, then the
   * displacement from `pc + 2`, wrapped to `i8`; only -8..7 is accepted,
   * stored as `u8`.
   */
  function Offset(labels: seq<Label>, pc: nat, i: RawInstruction, n: nat): (r: Result<Byte, Span>)
    requires n < |i.oprs|
    ensures r.Ok? ==> r.value < 8 || 248 <= r.value
    ensures r.Ok? ==> ExpectInteger(labels, i, n).Ok?
    ensures r.Err? ==> r.error == i.oprs[n].1
  {
    var addr :- ExpectInteger(labels, i, n);
    var off := AsI8(addr - pc - 2);
    if off < -8 || off > 7 then Err(i.oprs[n].1) else Ok(AsU8(off))
  }

  // ---------------------------------------------------------------------
  // One instruction.

  const Mnemonics: set<string> :=
    {"ldw", "stw", "ldwr", "stwr", "bp", "jmpa", "bnsr", "jmpr",
     "add", "nor", "addi", "nori", "addr", "norr", "addir", "norira"}

  /** Two register operands. */
  function RegReg(i: RawInstruction): Result<(Byte, Byte), Span>
  {
    if |i.oprs| != 2 then Err(i.span)
    else
      var a :- ExpectRegister(i, 0);
      var b :- ExpectRegister(i, 1);
      Ok((a, b))
  }

  /** A register operand and an integer operand. */
  function RegInt(labels: seq<Label>, i: RawInstruction): Result<(Byte, Byte), Span>
  {
    if |i.oprs| != 2 then Err(i.span)
    else
      var a :- ExpectRegister(i, 0);
      var b :- ExpectInteger(labels, i, 1);
      Ok((a, b))
  }

  /**
   * The body of `post_proc`'s loop for the instruction at `pc`: dispatch on
   * the lower-cased mnemonic, check the operand count, then each operand in
   * order.
   */
  function ResolveInst(labels: seq<Label>, pc: nat, i: RawInstruction): (r: Result<Instruction, Span>)
    ensures ToLower(i.inst) !in Mnemonics ==> r == Err(i.span)
    ensures ToLower(i.inst) == "bp" ==> r == Ok(Breakpt)
  {
    var m := ToLower(i.inst);
    if m == "ldw" then var f :- RegReg(i); Ok(Ldw(f.0, f.1))
    else if m == "stw" then var f :- RegReg(i); Ok(Stw(f.0, f.1))
    else if m == "ldwr" then var f :- RegInt(labels, i); Ok(Ldwr(f.0, f.1))
    else if m == "stwr" then var f :- RegInt(labels, i); Ok(Stwr(f.0, f.1))
    else if m == "bp" then Ok(Breakpt)
    else if m == "jmpa" then
      if |i.oprs| != 1 then Err(i.span)
      else var a :- ExpectRegister(i, 0); Ok(Jmpa(a))
    else if m == "bnsr" then
      if |i.oprs| != 2 then Err(i.span)
      else
        var a :- ExpectRegister(i, 0);
        var b :- Offset(labels, pc, i, 1);
        Ok(Bnsr(a, b))
    else if m == "jmpr" then
      if |i.oprs| != 1 then Err(i.span)
      else var a :- Offset(labels, pc, i, 0); Ok(Jmpr(a))
    else if m == "add" then var f :- RegReg(i); Ok(Add(f.0, f.1))
    else if m == "nor" then var f :- RegReg(i); Ok(Nor(f.0, f.1))
    else if m == "addi" then var f :- RegInt(labels, i); Ok(Addi(f.0, f.1))
    else if m == "nori" then var f :- RegInt(labels, i); Ok(Nori(f.0, f.1))
    else if m == "addr" then var f :- RegReg(i); Ok(Addr(f.0, f.1))
    else if m == "norr" then var f :- RegReg(i); Ok(Norr(f.0, f.1))
    else if m == "addir" then var f :- RegInt(labels, i); Ok(Addir(f.0, f.1))
    else if m == "norira" then var f :- RegInt(labels, i); Ok(Norira(f.0, f.1))
    else Err(i.span)
  }

  // ---------------------------------------------------------------------
  // The whole program.

  /** The outcome of resolving each instruction at its own index. */
  function Results(p: RawProgram): seq<Result<Instruction, Span>>
  {
    seq(|p.insts|, pc requires 0 <= pc < |p.insts| => ResolveInst(p.labels, pc, p.insts[pc]))
  }

  /** All the values if every outcome is a success, otherwise the first error. */
  function Collect(rs: seq<Result<Instruction, Span>>): Result<seq<Instruction>, Span>
  {
    if |rs| == 0 then Ok([])
    else
      var first :- rs[0];
      var rest :- Collect(rs[1..]);
      Ok([first] + rest)
  }

  /** `Collect` succeeds exactly when every outcome does, keeps their order, and otherwise reports the first error. */
  lemma {:induction false} CollectSpec(rs: seq<Result<Instruction, Span>>)
    ensures Collect(rs).Ok? <==> forall j :: 0 <= j < |rs| ==> rs[j].Ok?
    ensures Collect(rs).Ok? ==> |Collect(rs).value| == |rs| &&
                                forall j :: 0 <= j < |rs| ==> rs[j] == Ok(Collect(rs).value[j])
    ensures Collect(rs).Err? ==> exists k :: 0 <= k < |rs| && rs[k] == Err(Collect(rs).error) &&
                                             forall j :: 0 <= j < k ==> rs[j].Ok?
    decreases |rs|
  {
    if |rs| > 0 {
      CollectSpec(rs[1..]);
      if rs[0].Ok? && Collect(rs[1..]).Err? {
        var k :| 0 <= k < |rs[1..]| && rs[1..][k] == Err(Collect(rs[1..]).error) &&
                 forall j :: 0 <= j < k ==> rs[1..][j].Ok?;
        assert rs[k + 1] == Err(Collect(rs).error);
      }
    }
  }

  function ResolveProgram(p: RawProgram): Result<Program, Span>
  {
    match Collect(Results(p))
    case Ok(insts) => Ok(Program(insts))
    case Err(span) => Err(span)
  }

  /** The first failing outcome is the collected error. */
  lemma {:induction false} CollectFirstError(rs: seq<Result<Instruction, Span>>, k: nat)
    requires k < |rs| && rs[k].Err? && forall j :: 0 <= j < k ==> rs[j].Ok?
    ensures Collect(rs) == Err(rs[k].error)
  {
    if k > 0 {
      CollectFirstError(rs[1..], k - 1);
    }
  }

  /** Outcomes that all succeed are collected in order. */
  lemma {:induction false} CollectAllOk(rs: seq<Result<Instruction, Span>>, insts: seq<Instruction>)
    requires |rs| == |insts| && forall j :: 0 <= j < |rs| ==> rs[j] == Ok(insts[j])
    ensures Collect(rs) == Ok(insts)
  {
    if |rs| > 0 {
      CollectAllOk(rs[1..], insts[1..]);
      assert insts == [insts[0]] + insts[1..];
    }
  }

  /** Every instruction before `k` resolves, each at its own index. */
  predicate ResolvesUpTo(p: RawProgram, k: nat)
    requires k <= |p.insts|
  {
    forall j :: 0 <= j < k ==> ResolveInst(p.labels, j, p.insts[j]).Ok?
  }

  /** `post_proc`: resolve every instruction with its index as program counter; return at the first error. */
  method PostProcess(p: RawProgram) returns (r: Result<Program, Span>)
    ensures r == ResolveProgram(p)
    ensures r.Ok? <==> ResolvesUpTo(p, |p.insts|)
    ensures r.Ok? ==> |r.value.insts| == |p.insts| &&
                      forall pc :: 0 <= pc < |p.insts| ==> ResolveInst(p.labels, pc, p.insts[pc]) == Ok(r.value.insts[pc])
    ensures r.Err? ==> exists pc :: 0 <= pc < |p.insts| && ResolvesUpTo(p, pc) &&
                                    ResolveInst(p.labels, pc, p.insts[pc]) == Err(r.error)
  {
    var rs := Results(p);
    var insts: seq<Instruction> := [];
    for pc := 0 to |p.insts|
      invariant |insts| == pc
      invariant forall j :: 0 <= j < pc ==> ResolveInst(p.labels, j, p.insts[j]) == Ok(insts[j])
    {
      var res := ResolveInst(p.labels, pc, p.insts[pc]);
      if res.Err? {
        assert rs[pc] == res;
        CollectFirstError(rs, pc);
        return Err(res.error);
      }
      insts := insts + [res.value];
    }
    CollectAllOk(rs, insts);
    return Ok(Program(insts));
  }
}
