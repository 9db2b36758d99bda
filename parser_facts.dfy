/**
 * What the parser promises, stated without its cursor: the label table it
 * builds is well formed, and on an item sequence made of statements it yields
 * one raw instruction per instruction statement and binds each label to the
 * number of instruction statements before it; the error lemmas name the item
 * whose span it reports.
 */
module ParserFacts {
  import opened Wrappers
  import opened Lexer
  import opened Parser

  // ---------------------------------------------------------------------
  // The label table.

  predicate DistinctNames(labels: seq<Label>)
  {
    forall j, k :: 0 <= j < k < |labels| ==> labels[j].0 != labels[k].0
  }

  /** Every label denotes an instruction index up to `n` (`n` itself: a label after the last instruction). */
  predicate LabelsWithin(labels: seq<Label>, n: nat)
  {
    forall k :: 0 <= k < |labels| ==> labels[k].1 <= n
  }

  /** Labels defined later never denote an earlier instruction. */
  predicate Ascending(labels: seq<Label>)
  {
    forall j, k :: 0 <= j < k < |labels| ==> labels[j].1 <= labels[k].1
  }

  predicate GoodTable(insts: seq<RawInstruction>, labels: seq<Label>)
  {
    DistinctNames(labels) && LabelsWithin(labels, |insts|) && Ascending(labels)
  }

  lemma {:induction false} ParseFromKeepsTable(toks: seq<Lexeme>, i: nat, insts: seq<RawInstruction>, labels: seq<Label>)
    requires i <= |toks| && LexerShaped(toks)
    requires GoodTable(insts, labels)
    requires ParseFrom(toks, i, insts, labels).Ok?
    ensures var p := ParseFrom(toks, i, insts, labels).value;
            GoodTable(p.insts, p.labels) && insts <= p.insts && labels <= p.labels
    decreases |toks| - i
  {
    if i < |toks| {
      match toks[i].token {
        case Newline =>
          ParseFromKeepsTable(toks, i + 1, insts, labels);
        case Ident =>
          var step := InstAt(toks, i).value;
          ParseFromKeepsTable(toks, step.1, insts + [step.0], labels);
        case LabelDef =>
          assert WellFormedLexeme(toks[i]);
          var lbl := LabelAt(toks[i], insts, labels).value;
          ParseFromKeepsTable(toks, i + 1, insts, labels + [lbl]);
      }
    }
  }

  /** On success the label names are pairwise distinct and denote instruction indices in ascending order. */
  lemma ParsedTableIsGood(toks: seq<Lexeme>)
    requires LexerShaped(toks) && ParseTokens(toks).Ok?
    ensures GoodTable(ParseTokens(toks).value.insts, ParseTokens(toks).value.labels)
  {
    ParseFromKeepsTable(toks, 0, [], []);
  }

  // ---------------------------------------------------------------------
  // Statements.

  /** A line of source: a blank line, a label definition, or an instruction ended by a newline. */
  datatype Stmt =
    | Blank(nl: Lexeme)
    | LabelStmt(def: Lexeme)
    | InstStmt(mnemonic: Lexeme, operands: seq<Lexeme>, nl: Lexeme)

  predicate IsOperandToken(t: Lexeme)
  {
    t.token.Ident? || t.token.Register? || t.token.Integer?
  }

  predicate AllOperandTokens(ops: seq<Lexeme>)
  {
    forall k :: 0 <= k < |ops| ==> IsOperandToken(ops[k])
  }

  predicate Shaped(s: Stmt)
  {
    match s
    case Blank(nl) => nl.token.Newline?
    case LabelStmt(def) => def.token.LabelDef? && WellFormedLexeme(def)
    case InstStmt(m, ops, nl) => m.token.Ident? && AllOperandTokens(ops) && nl.token.Newline?
  }

  function StmtTokens(s: Stmt): seq<Lexeme>
  {
    match s
    case Blank(nl) => [nl]
    case LabelStmt(def) => [def]
    case InstStmt(m, ops, nl) => [m] + ops + [nl]
  }

  function Tokens(stmts: seq<Stmt>): seq<Lexeme>
  {
    if |stmts| == 0 then [] else Tokens(stmts[..|stmts| - 1]) + StmtTokens(stmts[|stmts| - 1])
  }

  /** The operand an operand item stands for. */
  function OperandOf(t: Lexeme): RawOperand
    requires IsOperandToken(t)
  {
    match t.token
    case Ident => RawOperand.Name(t.slice)
    case Register(x) => RawOperand.Register(x)
    case Integer(x) => RawOperand.Integer(x)
  }

  function OperandsOf(ops: seq<Lexeme>): seq<(RawOperand, Span)>
    requires AllOperandTokens(ops)
  {
    if |ops| == 0 then [] else [(OperandOf(ops[0]), ops[0].span)] + OperandsOf(ops[1..])
  }

  /** From the start of the mnemonic to the end of the last operand (the newline is not included). */
  function StmtSpan(m: Lexeme, ops: seq<Lexeme>): Span
  {
    Span(m.span.start, if |ops| == 0 then m.span.end else ops[|ops| - 1].span.end)
  }

  function RawOf(m: Lexeme, ops: seq<Lexeme>): RawInstruction
    requires AllOperandTokens(ops)
  {
    RawInstruction(m.slice, OperandsOf(ops), StmtSpan(m, ops))
  }

  predicate Fresh(labels: seq<Label>, name: string)
  {
    forall k :: 0 <= k < |labels| ==> labels[k].0 != name
  }

  /** Every statement is shaped and no label is defined twice. */
  predicate WellFormed(stmts: seq<Stmt>)
    decreases |stmts|, 0
  {
    |stmts| == 0 ||
    var init, s := stmts[..|stmts| - 1], stmts[|stmts| - 1];
    WellFormed(init) && Shaped(s) &&
    (s.LabelStmt? ==> Fresh(Labels(init), LabelName(s.def.slice)))
  }

  /** One raw instruction per instruction statement, in order. */
  function Insts(stmts: seq<Stmt>): seq<RawInstruction>
    requires WellFormed(stmts)
    decreases |stmts|, 1
  {
    if |stmts| == 0 then []
    else
      var init, s := stmts[..|stmts| - 1], stmts[|stmts| - 1];
      if s.InstStmt? then Insts(init) + [RawOf(s.mnemonic, s.operands)] else Insts(init)
  }

  /** Each label bound to the number of instruction statements before it. */
  function Labels(stmts: seq<Stmt>): seq<Label>
    requires WellFormed(stmts)
    decreases |stmts|, 1
  {
    if |stmts| == 0 then []
    else
      var init, s := stmts[..|stmts| - 1], stmts[|stmts| - 1];
      if s.LabelStmt? then Labels(init) + [(LabelName(s.def.slice), |Insts(init)|)] else Labels(init)
  }

  lemma ShapedConcat(a: seq<Lexeme>, b: seq<Lexeme>)
    ensures LexerShaped(a + b) <==> LexerShaped(a) && LexerShaped(b)
  {
    if LexerShaped(a + b) {
      forall k | 0 <= k < |a| ensures WellFormedLexeme(a[k]) {
        assert a[k] == (a + b)[k];
      }
      forall k | 0 <= k < |b| ensures WellFormedLexeme(b[k]) {
        assert b[k] == (a + b)[|a| + k];
      }
    }
    if LexerShaped(a) && LexerShaped(b) {
      forall k | 0 <= k < |a + b| ensures WellFormedLexeme((a + b)[k]) {
        if k >= |a| {
          assert (a + b)[k] == b[k - |a|];
        }
      }
    }
  }

  lemma {:induction false} TokensShaped(stmts: seq<Stmt>)
    requires WellFormed(stmts)
    ensures LexerShaped(Tokens(stmts))
    decreases |stmts|
  {
    if |stmts| > 0 {
      var init, s := stmts[..|stmts| - 1], stmts[|stmts| - 1];
      TokensShaped(init);
      ShapedConcat(Tokens(init), StmtTokens(s));
    }
  }

  /** The operand loop reads a run of operand items one by one. */
  lemma {:induction false} OperandsRun(toks: seq<Lexeme>, j: nat, ops: seq<Lexeme>, inst: string,
                                       oprs: seq<(RawOperand, Span)>, span: Span)
    requires j + |ops| <= |toks| && toks[j..j + |ops|] == ops && AllOperandTokens(ops)
    ensures OperandsFrom(toks, j, inst, oprs, span) ==
            OperandsFrom(toks, j + |ops|, inst, oprs + OperandsOf(ops),
                         if |ops| == 0 then span else span.(end := ops[|ops| - 1].span.end))
    decreases |ops|
  {
    if |ops| == 0 {
      assert oprs + OperandsOf(ops) == oprs;
    } else {
      var t := ops[0];
      assert toks[j] == t;
      assert toks[j + 1..j + |ops|] == ops[1..];
      var oprs' := oprs + [(OperandOf(t), t.span)];
      OperandsRun(toks, j + 1, ops[1..], inst, oprs', span.(end := t.span.end));
      assert oprs' + OperandsOf(ops[1..]) == oprs + OperandsOf(ops);
    }
  }

  /** An instruction's operand loop reads its operand items and extends its span to the last of them. */
  lemma MnemonicAndOperands(toks: seq<Lexeme>, k: nat, m: Lexeme, ops: seq<Lexeme>)
    requires k + 1 + |ops| <= |toks| && toks[k] == m && toks[k + 1..k + 1 + |ops|] == ops && AllOperandTokens(ops)
    ensures InstAt(toks, k) == OperandsFrom(toks, k + 1 + |ops|, m.slice, OperandsOf(ops), StmtSpan(m, ops))
  {
    OperandsRun(toks, k + 1, ops, m.slice, [], m.span);
    assert [] + OperandsOf(ops) == OperandsOf(ops);
  }

  /** The instructions after one more statement. */
  function NextInsts(insts: seq<RawInstruction>, s: Stmt): seq<RawInstruction>
    requires Shaped(s)
  {
    if s.InstStmt? then insts + [RawOf(s.mnemonic, s.operands)] else insts
  }

  /** The labels after one more statement, `insts` being the instructions before it. */
  function NextLabels(insts: seq<RawInstruction>, labels: seq<Label>, s: Stmt): seq<Label>
    requires Shaped(s)
  {
    if s.LabelStmt? then labels + [(LabelName(s.def.slice), |insts|)] else labels
  }

  /** One statement moves the parser past its items and records what it defines. */
  lemma StmtStep(toks: seq<Lexeme>, k: nat, s: Stmt, insts: seq<RawInstruction>, labels: seq<Label>)
    requires LexerShaped(toks) && Shaped(s)
    requires k + |StmtTokens(s)| <= |toks| && toks[k..k + |StmtTokens(s)|] == StmtTokens(s)
    requires s.LabelStmt? ==> Fresh(labels, LabelName(s.def.slice))
    ensures ParseFrom(toks, k, insts, labels) ==
            ParseFrom(toks, k + |StmtTokens(s)|, NextInsts(insts, s), NextLabels(insts, labels, s))
  {
    assert toks[k] == StmtTokens(s)[0];
    match s {
      case Blank(nl) =>
      case LabelStmt(def) =>
      case InstStmt(m, ops, nl) =>
        var n := |ops|;
        InstStmtItems(toks, k, m, ops, nl);
        MnemonicAndOperands(toks, k, m, ops);
        assert InstAt(toks, k) == Ok((RawOf(m, ops), k + 2 + n));
    }
  }

  /** Where an instruction statement's items sit inside the item sequence. */
  lemma InstStmtItems(toks: seq<Lexeme>, k: nat, m: Lexeme, ops: seq<Lexeme>, nl: Lexeme)
    requires k + |ops| + 2 <= |toks| && toks[k..k + |ops| + 2] == [m] + ops + [nl]
    ensures toks[k] == m && toks[k + 1..k + 1 + |ops|] == ops && toks[k + 1 + |ops|] == nl
  {
    var w := toks[k..k + |ops| + 2];
    assert toks[k] == w[0];
    forall j | 0 <= j < |ops| ensures toks[k + 1..k + 1 + |ops|][j] == ops[j] {
      assert toks[k + 1 + j] == w[1 + j];
    }
    assert toks[k + 1 + |ops|] == w[1 + |ops|];
  }

  /** A middle part of a concatenation. */
  lemma MiddleSlice(pre: seq<Lexeme>, mid: seq<Lexeme>, post: seq<Lexeme>)
    ensures (pre + (mid + post))[|pre|..|pre| + |mid|] == mid
  {
    var toks := pre + (mid + post);
    forall j | 0 <= j < |mid| ensures toks[|pre|..|pre| + |mid|][j] == mid[j] {
      assert toks[|pre| + j] == (mid + post)[j];
    }
  }

  /** Parsing a prefix of statements leaves the parser after them with their instructions and labels. */
  lemma {:induction false} ParsePrefix(stmts: seq<Stmt>, tail: seq<Lexeme>)
    requires WellFormed(stmts) && LexerShaped(Tokens(stmts) + tail)
    ensures ParseTokens(Tokens(stmts) + tail) ==
            ParseFrom(Tokens(stmts) + tail, |Tokens(stmts)|, Insts(stmts), Labels(stmts))
    decreases |stmts|
  {
    if |stmts| > 0 {
      var init, s := stmts[..|stmts| - 1], stmts[|stmts| - 1];
      var toks := Tokens(stmts) + tail;
      LastStmt(stmts, tail);
      ParsePrefix(init, StmtTokens(s) + tail);
      StmtStep(toks, |Tokens(init)|, s, Insts(init), Labels(init));
    }
  }

  /** The facts about the last statement of a non-empty list that the induction step uses. */
  lemma LastStmt(stmts: seq<Stmt>, tail: seq<Lexeme>)
    requires |stmts| > 0 && WellFormed(stmts)
    ensures var init, s := stmts[..|stmts| - 1], stmts[|stmts| - 1];
            var toks := Tokens(stmts) + tail;
            WellFormed(init) && Shaped(s) && (s.LabelStmt? ==> Fresh(Labels(init), LabelName(s.def.slice))) &&
            toks == Tokens(init) + (StmtTokens(s) + tail) &&
            |Tokens(init)| + |StmtTokens(s)| == |Tokens(stmts)| <= |toks| &&
            toks[|Tokens(init)|..|Tokens(init)| + |StmtTokens(s)|] == StmtTokens(s) &&
            Insts(stmts) == NextInsts(Insts(init), s) && Labels(stmts) == NextLabels(Insts(init), Labels(init), s)
  {
    var init, s := stmts[..|stmts| - 1], stmts[|stmts| - 1];
    MiddleSlice(Tokens(init), StmtTokens(s), tail);
  }

  /**
   * A well-formed statement list parses to one raw instruction per
   * instruction statement, in order, and labels bound to the number of
   * instruction statements before their definition.
   */
  lemma ParseStatements(stmts: seq<Stmt>)
    requires WellFormed(stmts)
    ensures LexerShaped(Tokens(stmts))
    ensures ParseTokens(Tokens(stmts)) == Ok(RawProgram(Insts(stmts), Labels(stmts)))
  {
    TokensShaped(stmts);
    assert Tokens(stmts) + [] == Tokens(stmts);
    ParsePrefix(stmts, []);
  }

  /** A last instruction may end at the end of input instead of a newline. */
  lemma ParseUnterminated(stmts: seq<Stmt>, m: Lexeme, ops: seq<Lexeme>)
    requires WellFormed(stmts) && m.token.Ident? && AllOperandTokens(ops)
    ensures LexerShaped(Tokens(stmts) + [m] + ops)
    ensures ParseTokens(Tokens(stmts) + [m] + ops) ==
            Ok(RawProgram(Insts(stmts) + [RawOf(m, ops)], Labels(stmts)))
  {
    assert Tokens(stmts) + ([m] + ops) == Tokens(stmts) + [m] + ops;
    UnterminatedAfterPrefix(stmts, m, ops);
  }

  lemma UnterminatedAfterPrefix(stmts: seq<Stmt>, m: Lexeme, ops: seq<Lexeme>)
    requires WellFormed(stmts) && m.token.Ident? && AllOperandTokens(ops)
    ensures LexerShaped(Tokens(stmts) + ([m] + ops))
    ensures ParseTokens(Tokens(stmts) + ([m] + ops)) ==
            Ok(RawProgram(Insts(stmts) + [RawOf(m, ops)], Labels(stmts)))
  {
    var toks, k := Tokens(stmts) + ([m] + ops), |Tokens(stmts)|;
    assert LexerShaped(toks) by {
      TokensShaped(stmts);
      ShapedConcat(Tokens(stmts), [m] + ops);
    }
    assert ParseTokens(toks) == ParseFrom(toks, k, Insts(stmts), Labels(stmts)) by {
      ParsePrefix(stmts, [m] + ops);
    }
    assert ParseFrom(toks, k, Insts(stmts), Labels(stmts)) ==
           Ok(RawProgram(Insts(stmts) + [RawOf(m, ops)], Labels(stmts))) by {
      AfterPrefix(Tokens(stmts), m, ops, []);
      assert [m] + ops + [] == [m] + ops;
      MnemonicAndOperands(toks, k, m, ops);
      assert k + 1 + |ops| == |toks|;
      assert InstAt(toks, k) == Ok((RawOf(m, ops), |toks|));
    }
  }

  /** A register, integer or unlexable item where a statement should start fails with its span. */
  lemma ParseRejectsStrayToken(stmts: seq<Stmt>, bad: Lexeme, tail: seq<Lexeme>)
    requires WellFormed(stmts) && LexerShaped(tail)
    requires bad.token.Register? || bad.token.Integer? || bad.token.LexError?
    ensures LexerShaped(Tokens(stmts) + [bad] + tail)
    ensures ParseTokens(Tokens(stmts) + [bad] + tail) == Err(bad.span)
  {
    var toks := Tokens(stmts) + ([bad] + tail);
    assert toks == Tokens(stmts) + [bad] + tail;
    TokensShaped(stmts);
    ShapedConcat([bad], tail);
    ShapedConcat(Tokens(stmts), [bad] + tail);
    ParsePrefix(stmts, [bad] + tail);
    assert toks[|Tokens(stmts)|] == bad;
  }

  /** Defining a name a second time fails with the span of the second definition. */
  lemma ParseRejectsDuplicateLabel(stmts: seq<Stmt>, def: Lexeme, tail: seq<Lexeme>)
    requires WellFormed(stmts) && LexerShaped(tail)
    requires def.token.LabelDef? && WellFormedLexeme(def) && !Fresh(Labels(stmts), LabelName(def.slice))
    ensures LexerShaped(Tokens(stmts) + [def] + tail)
    ensures ParseTokens(Tokens(stmts) + [def] + tail) == Err(def.span)
  {
    var toks := Tokens(stmts) + ([def] + tail);
    assert toks == Tokens(stmts) + [def] + tail;
    TokensShaped(stmts);
    ShapedConcat([def], tail);
    ShapedConcat(Tokens(stmts), [def] + tail);
    ParsePrefix(stmts, [def] + tail);
    assert toks[|Tokens(stmts)|] == def;
  }

  /** A label definition or an unlexable item among an instruction's operands fails with its span. */
  lemma ParseRejectsBadOperand(stmts: seq<Stmt>, m: Lexeme, ops: seq<Lexeme>, bad: Lexeme, tail: seq<Lexeme>)
    requires WellFormed(stmts) && LexerShaped(tail)
    requires m.token.Ident? && AllOperandTokens(ops)
    requires (bad.token.LabelDef? || bad.token.LexError?) && WellFormedLexeme(bad)
    ensures LexerShaped(Tokens(stmts) + [m] + ops + [bad] + tail)
    ensures ParseTokens(Tokens(stmts) + [m] + ops + [bad] + tail) == Err(bad.span)
  {
    var rest := [m] + ops + ([bad] + tail);
    assert Tokens(stmts) + rest == Tokens(stmts) + [m] + ops + [bad] + tail;
    BadOperandAfterPrefix(stmts, m, ops, bad, tail);
  }

  lemma BadOperandAfterPrefix(stmts: seq<Stmt>, m: Lexeme, ops: seq<Lexeme>, bad: Lexeme, tail: seq<Lexeme>)
    requires WellFormed(stmts) && LexerShaped(tail)
    requires m.token.Ident? && AllOperandTokens(ops)
    requires (bad.token.LabelDef? || bad.token.LexError?) && WellFormedLexeme(bad)
    ensures LexerShaped(Tokens(stmts) + ([m] + ops + ([bad] + tail)))
    ensures ParseTokens(Tokens(stmts) + ([m] + ops + ([bad] + tail))) == Err(bad.span)
  {
    var rest := [m] + ops + ([bad] + tail);
    var toks, k := Tokens(stmts) + rest, |Tokens(stmts)|;
    assert LexerShaped(toks) by {
      TokensShaped(stmts);
      BadOperandShaped(m, ops, bad, tail);
      ShapedConcat(Tokens(stmts), rest);
    }
    assert ParseTokens(toks) == ParseFrom(toks, k, Insts(stmts), Labels(stmts)) by {
      ParsePrefix(stmts, rest);
    }
    assert ParseFrom(toks, k, Insts(stmts), Labels(stmts)) == Err(bad.span) by {
      AfterPrefix(Tokens(stmts), m, ops, [bad] + tail);
      BadOperandAt(toks, k, m, ops, bad, Insts(stmts), Labels(stmts));
    }
  }

  /** The instruction statement at `k` meets `bad` after its operands, so parsing from `k` fails with its span. */
  lemma BadOperandAt(toks: seq<Lexeme>, k: nat, m: Lexeme, ops: seq<Lexeme>, bad: Lexeme,
                     insts: seq<RawInstruction>, labels: seq<Label>)
    requires LexerShaped(toks) && k + 1 + |ops| < |toks| && m.token.Ident? && AllOperandTokens(ops)
    requires toks[k] == m && toks[k + 1..k + 1 + |ops|] == ops && toks[k + 1 + |ops|] == bad
    requires bad.token.LabelDef? || bad.token.LexError?
    ensures ParseFrom(toks, k, insts, labels) == Err(bad.span)
  {
    MnemonicAndOperands(toks, k, m, ops);
    assert OperandsFrom(toks, k + 1 + |ops|, m.slice, OperandsOf(ops), StmtSpan(m, ops)) == Err(bad.span);
  }

  lemma BadOperandShaped(m: Lexeme, ops: seq<Lexeme>, bad: Lexeme, tail: seq<Lexeme>)
    requires LexerShaped(tail) && m.token.Ident? && AllOperandTokens(ops) && WellFormedLexeme(bad)
    ensures LexerShaped([m] + ops + ([bad] + tail))
  {
    var rest := [m] + ops + ([bad] + tail);
    forall k | 0 <= k < |rest| ensures WellFormedLexeme(rest[k]) {
      if k > |ops| + 1 {
        assert rest[k] == tail[k - |ops| - 2];
      }
    }
  }

  /** Where a mnemonic, its operands and what follows sit after a prefix. */
  lemma AfterPrefix(pre: seq<Lexeme>, m: Lexeme, ops: seq<Lexeme>, after: seq<Lexeme>)
    ensures var toks := pre + ([m] + ops + after);
            toks[|pre|] == m && toks[|pre| + 1..|pre| + 1 + |ops|] == ops &&
            (|after| > 0 ==> toks[|pre| + 1 + |ops|] == after[0])
  {
    var toks := pre + ([m] + ops + after);
    assert toks[|pre|..] == [m] + ops + after;
    assert toks[|pre| + 1..|pre| + 1 + |ops|] == toks[|pre|..][1..1 + |ops|];
  }
}
