/**
 * What the resolver promises about single operands and mnemonics: integer
 * operands stand for a literal or a label's index, relative operands reach
 * their target modulo the 8-bit address space, and matching ignores case.
 */
module PostProcFacts {
  import opened Wrappers
  import opened Lexer
  import opened Parser
  import opened PostProc

  /** The address an integer operand stands for before truncation: the literal, or the first matching label's index. */
  function Target(labels: seq<Label>, op: RawOperand): Option<int>
  {
    match op
    case Integer(v) => Some(v)
    case Name(name) => (match FindLabel(labels, name) case Some(lbl) => Some(lbl.1) case None => None)
    case Register(_) => None
  }

  /** Moving `d` words from `pc + 2` lands on `target` in a 256-word address space. */
  predicate Reaches(pc: nat, d: int, target: int)
  {
    (pc + 2 + d - target) % 256 == 0
  }

  /** The value of the low four bits of `x` read as a two's-complement number. */
  function SignedNibble(x: int): int
  {
    if x % 16 < 8 then x % 16 else x % 16 - 16
  }

  /** An integer operand is its target cut to eight bits, or fails with the operand's span. */
  lemma ExpectIntegerIsTarget(labels: seq<Label>, i: RawInstruction, n: nat)
    requires n < |i.oprs|
    ensures ExpectInteger(labels, i, n) ==
            match Target(labels, i.oprs[n].0) case Some(t) => Ok(AsU8(t)) case None => Err(i.oprs[n].1)
  {
  }

  /** Values congruent modulo 256 agree in their low four bits. */
  lemma SameLowBits(a: int, b: int)
    requires (a - b) % 256 == 0
    ensures a % 16 == b % 16
  {
    var q := (a - b) / 256;
    assert a == b + 16 * (16 * q);
  }

  /**
   * Cutting a register to eight bits keeps its low four bits, the only ones
   * the encoder uses.
   */
  lemma RegisterLowBits(i: RawInstruction, n: nat)
    requires n < |i.oprs| && i.oprs[n].0.Register?
    ensures ExpectRegister(i, n).Ok? && ExpectRegister(i, n).value % 16 == i.oprs[n].0.index % 16
  {
    SameLowBits(ExpectRegister(i, n).value, i.oprs[n].0.index);
  }

  /** The same for an integer literal. */
  lemma IntegerLowBits(labels: seq<Label>, i: RawInstruction, n: nat)
    requires n < |i.oprs| && i.oprs[n].0.Integer?
    ensures ExpectInteger(labels, i, n).Ok? && ExpectInteger(labels, i, n).value % 16 == i.oprs[n].0.value % 16
  {
    SameLowBits(ExpectInteger(labels, i, n).value, i.oprs[n].0.value);
  }

  /** `as i8` is the only value in -128..127 congruent to its argument. */
  lemma AsI8Unique(x: int, d: int)
    requires -128 <= d < 128 && (x - d) % 256 == 0
    ensures AsI8(x) == d
  {
    var r := AsI8(x);
    assert (r - d) % 256 == 0 by {
      assert r - d == (x - d) - (x - r);
    }
    assert -256 < r - d < 256;
  }

  /** A displacement in -8..7 stored as `u8` reads back from its low four bits. */
  lemma SignedNibbleOfU8(d: int)
    requires -8 <= d <= 7
    ensures SignedNibble(AsU8(d)) == d
  {
    if d < 0 {
      assert AsU8(d) == d + 256;
    }
  }

  /** A displacement that reaches the target is the one `as i8` computes from the truncated target. */
  lemma ReachesFixesOffset(pc: nat, d: int, target: int)
    requires -128 <= d < 128
    ensures Reaches(pc, d, target) ==> AsI8(AsU8(target) - pc - 2) == d
  {
    if Reaches(pc, d, target) {
      var addr := AsU8(target);
      assert (addr - pc - 2 - d) % 256 == 0 by {
        assert addr - pc - 2 - d == (addr - target) - (pc + 2 + d - target);
      }
      AsI8Unique(addr - pc - 2, d);
    }
  }

  /**
   * A relative operand succeeds exactly when some displacement in -8..7 from
   * `pc + 2` reaches its target modulo 256; the four bits the encoder keeps
   * are that displacement; a failure carries the operand's span.
   */
  lemma OffsetSpec(labels: seq<Label>, pc: nat, i: RawInstruction, n: nat)
    requires n < |i.oprs|
    ensures var r, t := Offset(labels, pc, i, n), Target(labels, i.oprs[n].0);
            r.Ok? <==> t.Some? && exists d :: -8 <= d <= 7 && Reaches(pc, d, t.value)
    ensures var r, t := Offset(labels, pc, i, n), Target(labels, i.oprs[n].0);
            r.Ok? ==> -8 <= SignedNibble(r.value) <= 7 && Reaches(pc, SignedNibble(r.value), t.value)
    ensures Offset(labels, pc, i, n).Err? ==> Offset(labels, pc, i, n).error == i.oprs[n].1
  {
    ExpectIntegerIsTarget(labels, i, n);
    var t := Target(labels, i.oprs[n].0);
    if t.Some? {
      var addr := AsU8(t.value);
      var off := AsI8(addr - pc - 2);
      assert (t.value - pc - 2 - off) % 256 == 0 by {
        assert t.value - pc - 2 - off == (t.value - addr) + (addr - pc - 2 - off);
      }
      assert Offset(labels, pc, i, n) == if -8 <= off <= 7 then Ok(AsU8(off)) else Err(i.oprs[n].1);
      if -8 <= off <= 7 {
        SignedNibbleOfU8(off);
        assert Reaches(pc, off, t.value);
      } else {
        forall d | -8 <= d <= 7
          ensures Reaches(pc, d, t.value) ==> off == d
        {
          ReachesFixesOffset(pc, d, t.value);
        }
      }
    }
  }

  /** A displacement already in -8..7 is accepted and encoded as itself. */
  lemma OffsetInRange(labels: seq<Label>, pc: nat, i: RawInstruction, n: nat)
    requires n < |i.oprs| && Target(labels, i.oprs[n].0).Some?
    requires -8 <= Target(labels, i.oprs[n].0).value - pc - 2 <= 7
    ensures Offset(labels, pc, i, n).Ok?
    ensures SignedNibble(Offset(labels, pc, i, n).value) == Target(labels, i.oprs[n].0).value - pc - 2
  {
    var t := Target(labels, i.oprs[n].0).value;
    var d := t - pc - 2;
    assert Reaches(pc, d, t);
    OffsetSpec(labels, pc, i, n);
    var s := SignedNibble(Offset(labels, pc, i, n).value);
    assert (s - d) % 256 == 0 by {
      assert s - d == (pc + 2 + s - t);
    }
  }

  /**
   * For targets less than 248 words away, the wrap-around plays no part:
   * the operand is accepted exactly when `target - pc - 2` lies in -8..7.
   */
  lemma OffsetNearby(labels: seq<Label>, pc: nat, i: RawInstruction, n: nat)
    requires n < |i.oprs| && Target(labels, i.oprs[n].0).Some?
    requires -248 <= Target(labels, i.oprs[n].0).value - pc - 2 <= 247
    ensures Offset(labels, pc, i, n).Ok? <==> -8 <= Target(labels, i.oprs[n].0).value - pc - 2 <= 7
  {
    var t := Target(labels, i.oprs[n].0).value;
    OffsetSpec(labels, pc, i, n);
    if -8 <= t - pc - 2 <= 7 {
      assert Reaches(pc, t - pc - 2, t);
    } else {
      forall d | -8 <= d <= 7
        ensures !Reaches(pc, d, t)
      {
        ReachesNearby(pc, d, t);
      }
    }
  }

  lemma ReachesNearby(pc: nat, d: int, target: int)
    requires -8 <= d <= 7 && -248 <= target - pc - 2 <= 247
    ensures Reaches(pc, d, target) <==> d == target - pc - 2
  {
    assert -256 < pc + 2 + d - target < 256;
  }

  /** The wrap-around: at pc 0 a branch to address 250 is accepted as a displacement of -8. */
  lemma OffsetWrapsAround()
    ensures ResolveInst([], 0, RawInstruction("jmpr", [(RawOperand.Integer(250), Span(5, 8))], Span(0, 8)))
            == Ok(Jmpr(248))
  {
    var i := RawInstruction("jmpr", [(RawOperand.Integer(250), Span(5, 8))], Span(0, 8));
    assert ToLower(i.inst) == "jmpr";
    assert AsI8(250 - 0 - 2) == -8;
  }
}
