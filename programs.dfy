/**
 * Whole programs run through the model, from the lexer's items to the
 * words.
 */
module Programs {
  import opened Wrappers
  import opened Lexer
  import opened Parser
  import opened PostProc
  import opened BinGen
  import opened Assembler

  lemma CollectTwo(x: Instruction, y: Instruction)
    ensures Collect([Ok(x), Ok(y)]) == Ok([x, y])
  {
    var rs: seq<Result<Instruction, Span>> := [Ok(x), Ok(y)];
    assert rs[1..] == [Ok(y)];
    assert rs[1..][1..] == [];
    assert Collect(rs[1..]) == Ok([y] + []);
    assert [y] + [] == [y] && [x] + [y] == [x, y];
  }

  /** The words of a program that parses and resolves. */
  lemma CompileOk(toks: seq<Lexeme>, raw: RawProgram, insts: seq<Instruction>, words: seq<Word>)
    requires LexerShaped(toks) && ParseTokens(toks) == Ok(raw) && ResolveProgram(raw) == Ok(Program(insts))
    requires |words| == |insts| && forall k :: 0 <= k < |insts| ==> words[k] == Encode(insts[k])
    ensures Compile(toks) == Ok(words)
  {
    assert Compile(toks).value == seq(|insts|, k requires 0 <= k < |insts| => Encode(insts[k]));
    assert Compile(toks).value == words;
  }

  lemma PackA15()
    ensures Pack(10, 1, 5) == 0xA15
  {
    assert (10 % 16) as bv16 == 0xA && (1 % 16) as bv16 == 1 && (5 % 16) as bv16 == 5;
  }

  lemma PackA01()
    ensures Pack(10, 0, 1) == 0xA01
  {
    assert (10 % 16) as bv16 == 0xA && (0 % 16) as bv16 == 0 && (1 % 16) as bv16 == 1;
  }

  lemma AddiWords()
    ensures Encode(Addi(1, 5)) == 0xA15 && Encode(Addi(0, 1)) == 0xA01
  {
    PackA15();
    PackA01();
  }

  lemma JmprWord()
    ensures Encode(Jmpr(253)) == 0x70D
  {
    assert Encode(Jmpr(253)) == Pack(7, 0, 253);
    assert (7 % 16) as bv16 == 7 && (0 % 16) as bv16 == 0 && (253 % 16) as bv16 == 0xD;
  }

  // ---------------------------------------------------------------------
  // addi r1 5
  // bp

  function AddThenStop(): seq<Lexeme>
  {
    [Lexeme(Ident, "addi", Span(0, 4)), Lexeme(Token.Register(1), "r1", Span(5, 7)),
     Lexeme(Token.Integer(5), "5", Span(8, 9)), Lexeme(Newline, "\n", Span(9, 10)),
     Lexeme(Ident, "bp", Span(10, 12)), Lexeme(Newline, "\n", Span(12, 13))]
  }

  function AddThenStopRaw(): RawProgram
  {
    RawProgram([RawInstruction("addi", [(RawOperand.Register(1), Span(5, 7)), (RawOperand.Integer(5), Span(8, 9))], Span(0, 9)),
                RawInstruction("bp", [], Span(10, 12))], [])
  }

  lemma AddThenStopInsts()
    ensures InstAt(AddThenStop(), 0) == Ok((AddThenStopRaw().insts[0], 4))
    ensures InstAt(AddThenStop(), 4) == Ok((AddThenStopRaw().insts[1], 6))
  {
    var toks, addi := AddThenStop(), AddThenStopRaw().insts[0];
    var r1 := (RawOperand.Register(1), Span(5, 7));
    assert OperandsFrom(toks, 3, "addi", addi.oprs, addi.span) == Ok((addi, 4));
    assert [r1] + [addi.oprs[1]] == addi.oprs;
    assert OperandsFrom(toks, 2, "addi", [r1], Span(0, 7)) == Ok((addi, 4));
    assert [] + [r1] == [r1];
  }

  /** The statements become two raw instructions and no labels. */
  lemma AddThenStopParses()
    ensures LexerShaped(AddThenStop()) && ParseTokens(AddThenStop()) == Ok(AddThenStopRaw())
  {
    var toks, p := AddThenStop(), AddThenStopRaw();
    AddThenStopInsts();
    assert [p.insts[0]] + [p.insts[1]] == p.insts;
    assert [] + [p.insts[0]] == [p.insts[0]];
    assert ParseFrom(toks, 6, p.insts, []) == Ok(p);
    assert ParseFrom(toks, 4, [p.insts[0]], []) == Ok(p);
  }

  lemma AddThenStopResolves()
    ensures ResolveProgram(AddThenStopRaw()) == Ok(Program([Addi(1, 5), Breakpt]))
  {
    var p := AddThenStopRaw();
    assert ToLower("addi") == "addi";
    assert ToLower("bp") == "bp";
    assert Results(p) == [Ok(Addi(1, 5)), Ok(Breakpt)];
    CollectTwo(Addi(1, 5), Breakpt);
  }

  /** `addi r1 5` is 0xA15 and `bp` is 0x400. */
  lemma AddThenStopWords()
    ensures LexerShaped(AddThenStop()) && Compile(AddThenStop()) == Ok([0xA15, 0x400])
  {
    var insts := [Addi(1, 5), Breakpt];
    AddThenStopParses();
    AddThenStopResolves();
    AddiWords();
    BreakptWord();
    CompileOk(AddThenStop(), AddThenStopRaw(), insts, [0xA15, 0x400]);
  }

  // ---------------------------------------------------------------------
  // loop: addi r0 1
  // jmpr loop

  function CountForever(): seq<Lexeme>
  {
    [Lexeme(LabelDef, "loop:", Span(0, 5)), Lexeme(Ident, "addi", Span(6, 10)),
     Lexeme(Token.Register(0), "r0", Span(11, 13)), Lexeme(Token.Integer(1), "1", Span(14, 15)),
     Lexeme(Newline, "\n", Span(15, 16)), Lexeme(Ident, "jmpr", Span(16, 20)),
     Lexeme(Ident, "loop", Span(21, 25)), Lexeme(Newline, "\n", Span(25, 26))]
  }

  function CountForeverRaw(): RawProgram
  {
    RawProgram([RawInstruction("addi", [(RawOperand.Register(0), Span(11, 13)), (RawOperand.Integer(1), Span(14, 15))], Span(6, 15)),
                RawInstruction("jmpr", [(RawOperand.Name("loop"), Span(21, 25))], Span(16, 25))],
               [("loop", 0)])
  }

  lemma CountForeverInsts()
    ensures InstAt(CountForever(), 1) == Ok((CountForeverRaw().insts[0], 5))
    ensures InstAt(CountForever(), 5) == Ok((CountForeverRaw().insts[1], 8))
  {
    var toks, addi, jmpr := CountForever(), CountForeverRaw().insts[0], CountForeverRaw().insts[1];
    var r0 := (RawOperand.Register(0), Span(11, 13));
    assert OperandsFrom(toks, 4, "addi", addi.oprs, addi.span) == Ok((addi, 5));
    assert [r0] + [addi.oprs[1]] == addi.oprs;
    assert OperandsFrom(toks, 3, "addi", [r0], Span(6, 13)) == Ok((addi, 5));
    assert [] + [r0] == [r0];
    assert [] + [jmpr.oprs[0]] == jmpr.oprs;
    assert OperandsFrom(toks, 7, "jmpr", jmpr.oprs, jmpr.span) == Ok((jmpr, 8));
  }

  /** The label binds `loop` to instruction 0. */
  lemma CountForeverParses()
    ensures LexerShaped(CountForever()) && ParseTokens(CountForever()) == Ok(CountForeverRaw())
  {
    var toks, p := CountForever(), CountForeverRaw();
    CountForeverInsts();
    assert "loop:"[..4] == "loop";
    assert [p.insts[0]] + [p.insts[1]] == p.insts;
    assert [] + [p.insts[0]] == [p.insts[0]];
    assert [] + [("loop", 0)] == p.labels;
    assert LabelAt(toks[0], [], []) == Ok(("loop", 0));
    assert ParseFrom(toks, 8, p.insts, p.labels) == Ok(p);
    assert ParseFrom(toks, 5, [p.insts[0]], p.labels) == Ok(p);
    assert ParseFrom(toks, 1, [], p.labels) == Ok(p);
  }

  lemma CountForeverResolves()
    ensures Results(CountForeverRaw()) == [Ok(Addi(0, 1)), Ok(Jmpr(253))]
  {
    var p := CountForeverRaw();
    assert ToLower("addi") == "addi";
    assert ToLower("jmpr") == "jmpr";
    assert ResolveInst(p.labels, 0, p.insts[0]) == Ok(Addi(0, 1));
    assert FindLabel(p.labels, "loop") == Some(("loop", 0));
    assert AsI8(0 - 1 - 2) == -3;
    assert ResolveInst(p.labels, 1, p.insts[1]) == Ok(Jmpr(253));
  }

  /** A branch from pc 1 back to the label at 0 is a displacement of -3, kept as the nibble 0xD. */
  lemma CountForeverWords()
    ensures LexerShaped(CountForever()) && Compile(CountForever()) == Ok([0xA01, 0x70D])
  {
    var insts := [Addi(0, 1), Jmpr(253)];
    CountForeverParses();
    CountForeverResolves();
    CollectTwo(Addi(0, 1), Jmpr(253));
    AddiWords();
    JmprWord();
    CompileOk(CountForever(), CountForeverRaw(), insts, [0xA01, 0x70D]);
  }
}
