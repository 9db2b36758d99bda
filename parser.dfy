/**
 * The parser (src/parser.rs): a single-lookahead loop that turns the lexer's
 * items into an unresolved program, i.e. raw instructions and a label list.
 */
module Parser {
  import opened Wrappers
  import opened Lexer

  /** A label: its name and the index of the instruction it denotes. */
  type Label = (string, nat)

  /** An operand as written, not yet checked against any mnemonic. */
  datatype RawOperand =
    | Integer(value: int)
    | Register(index: nat)
    | Name(name: string)

  /** A mnemonic (case not yet normalised), its operands with their spans, and its own span. */
  datatype RawInstruction = RawInstruction(inst: string, oprs: seq<(RawOperand, Span)>, span: Span)

  datatype RawProgram = RawProgram(insts: seq<RawInstruction>, labels: seq<Label>)

  /** The first label called `name`, as `labels.iter().find(|a| a.0 == name)` finds it. */
  function FindLabel(labels: seq<Label>, name: string): (r: Option<Label>)
    ensures r.None? <==> forall k :: 0 <= k < |labels| ==> labels[k].0 != name
    ensures r.Some? ==> exists k :: 0 <= k < |labels| && labels[k] == r.value && r.value.0 == name &&
                                    forall j :: 0 <= j < k ==> labels[j].0 != name
  {
    if |labels| == 0 then None
    else if labels[0].0 == name then Some(labels[0])
    else
      var r := FindLabel(labels[1..], name);
      assert r.Some? ==> exists k :: 0 <= k < |labels[1..]| && labels[1..][k] == r.value && r.value.0 == name &&
                                     forall j :: 0 <= j < k ==> labels[1..][j].0 != name;
      assert forall k :: 1 <= k < |labels| ==> labels[k] == labels[1..][k - 1];
      r
  }

  /** A label definition's text without its trailing colon. */
  function LabelName(def: string): string
    requires |def| > 0
  {
    def[..|def| - 1]
  }

  // ---------------------------------------------------------------------
  // The lookahead adaptor.

  /**
   * `Peeking`: an iterator with one item of lookahead. The inner iterator is
   * the lexer, modelled as the sequence of its items and the number `pos` of
   * items it has produced so far; the lexer's `span()` and `slice()` describe
   * the last item it produced.
   */
  class Peeking {
    const toks: seq<Lexeme>
    var pos: nat
    var peeked: Option<Lexeme>

    /** A peeked item is always the last one the lexer produced. */
    ghost predicate Valid()
      reads this
    {
      pos <= |toks| && (peeked.Some? ==> 0 < pos && peeked.value == toks[pos - 1])
    }

    /** Index of the item `Next` yields next. */
    ghost function Cursor(): nat
      reads this
      requires Valid()
    {
      if peeked.Some? then pos - 1 else pos
    }

    /** `from_iter`: nothing peeked, lexer at the start. */
    constructor FromIter(toks: seq<Lexeme>)
      ensures Valid() && this.toks == toks && pos == 0 && peeked.None? && Cursor() == 0
    {
      this.toks := toks;
      pos := 0;
      peeked := None;
    }

    /** The lexer's `span()`: the span of the item it produced last. */
    function InnerSpan(): Span
      reads this
      requires Valid() && 0 < pos
    {
      toks[pos - 1].span
    }

    /** The lexer's `slice()`: the text of the item it produced last. */
    function InnerSlice(): string
      reads this
      requires Valid() && 0 < pos
    {
      toks[pos - 1].slice
    }

    /** `next`: hand out the peeked item if there is one, otherwise pull from the lexer. */
    method Next() returns (r: Option<Lexeme>)
      requires Valid()
      modifies this
      ensures Valid() && peeked.None?
      ensures old(Cursor()) < |toks| ==> r == Some(toks[old(Cursor())]) && Cursor() == old(Cursor()) + 1
      ensures old(Cursor()) == |toks| ==> r.None? && Cursor() == old(Cursor())
    {
      if peeked.Some? {
        r := peeked;
        peeked := None;
      } else if pos < |toks| {
        r := Some(toks[pos]);
        pos := pos + 1;
      } else {
        r := None;
      }
    }

    /** `peek`: the item `Next` would yield, without consuming it. */
    method Peek() returns (r: Option<Lexeme>)
      requires Valid()
      modifies this
      ensures Valid() && Cursor() == old(Cursor()) && r == peeked
      ensures r == if Cursor() < |toks| then Some(toks[Cursor()]) else None
    {
      if peeked.None? {
        var next := Next();
        peeked := next;
        r := next;
      } else {
        r := peeked;
      }
    }
  }

  /** A peek followed by a next yields the same item: the one at the cursor, which then moves past it. */
  method PeekThenNext(l: Peeking) returns (peeked: Option<Lexeme>, next: Option<Lexeme>)
    requires l.Valid()
    modifies l
    ensures l.Valid() && peeked == next
    ensures next == if old(l.Cursor()) < |l.toks| then Some(l.toks[old(l.Cursor())]) else None
    ensures l.Cursor() == if old(l.Cursor()) < |l.toks| then old(l.Cursor()) + 1 else old(l.Cursor())
  {
    peeked := l.Peek();
    next := l.Next();
  }

  // ---------------------------------------------------------------------
  // The grammar as functions of a cursor into the item sequence.

  /**
   * The operand loop of an instruction statement, from item `j` on, with the
   * operands `oprs` and the span `span` collected so far. Yields the raw
   * instruction and the index of the first item after the statement.
   */
  function OperandsFrom(toks: seq<Lexeme>, j: nat, inst: string, oprs: seq<(RawOperand, Span)>, span: Span)
    : (r: Result<(RawInstruction, nat), Span>)
    requires j <= |toks|
    ensures r.Ok? ==> j <= r.value.1 <= |toks|
    decreases |toks| - j
  {
    if j == |toks| then Ok((RawInstruction(inst, oprs, span), j))
    else
      var t := toks[j];
      match t.token
      case Newline => Ok((RawInstruction(inst, oprs, span), j + 1))
      case Ident =>
        OperandsFrom(toks, j + 1, inst, oprs + [(RawOperand.Name(t.slice), t.span)], span.(end := t.span.end))
      case Register(x) =>
        OperandsFrom(toks, j + 1, inst, oprs + [(RawOperand.Register(x), t.span)], span.(end := t.span.end))
      case Integer(x) =>
        OperandsFrom(toks, j + 1, inst, oprs + [(RawOperand.Integer(x), t.span)], span.(end := t.span.end))
      case _ => Err(t.span)
  }

  /** The instruction statement whose mnemonic is item `i`. */
  function InstAt(toks: seq<Lexeme>, i: nat): (r: Result<(RawInstruction, nat), Span>)
    requires i < |toks|
    ensures r.Ok? ==> i < r.value.1 <= |toks|
  {
    OperandsFrom(toks, i + 1, toks[i].slice, [], toks[i].span)
  }

  /** The label definition `t`, checked against the labels defined so far. */
  function LabelAt(t: Lexeme, insts: seq<RawInstruction>, labels: seq<Label>): (r: Result<Label, Span>)
    requires |t.slice| > 0
    ensures r.Ok? <==> forall k :: 0 <= k < |labels| ==> labels[k].0 != LabelName(t.slice)
    ensures r.Ok? ==> r.value == (LabelName(t.slice), |insts|)
    ensures r.Err? ==> r.error == t.span
  {
    var lbl := LabelName(t.slice);
    if FindLabel(labels, lbl).Some? then Err(t.span) else Ok((lbl, |insts|))
  }

  /** The top-level loop from item `i` on, with the instructions and labels collected so far. */
  function ParseFrom(toks: seq<Lexeme>, i: nat, insts: seq<RawInstruction>, labels: seq<Label>)
    : Result<RawProgram, Span>
    requires i <= |toks| && LexerShaped(toks)
    decreases |toks| - i
  {
    if i == |toks| then Ok(RawProgram(insts, labels))
    else
      match toks[i].token
      case Newline => ParseFrom(toks, i + 1, insts, labels)
      case Ident =>
        var step :- InstAt(toks, i);
        ParseFrom(toks, step.1, insts + [step.0], labels)
      case LabelDef =>
        assert WellFormedLexeme(toks[i]);
        var lbl :- LabelAt(toks[i], insts, labels);
        ParseFrom(toks, i + 1, insts, labels + [lbl])
      case _ => Err(toks[i].span)
  }

  /** An operand loop fails only at an item that is neither an operand nor a newline, with that item's span. */
  lemma {:induction false} OperandsFromError(toks: seq<Lexeme>, j: nat, inst: string, oprs: seq<(RawOperand, Span)>, span: Span)
    requires j <= |toks| && OperandsFrom(toks, j, inst, oprs, span).Err?
    ensures exists k :: j <= k < |toks| && OperandsFrom(toks, j, inst, oprs, span).error == toks[k].span &&
                        (toks[k].token.LabelDef? || toks[k].token.LexError?)
    decreases |toks| - j
  {
    var t := toks[j];
    if t.token.Ident? {
      OperandsFromError(toks, j + 1, inst, oprs + [(RawOperand.Name(t.slice), t.span)], span.(end := t.span.end));
    } else if t.token.Register? {
      OperandsFromError(toks, j + 1, inst, oprs + [(RawOperand.Register(t.token.index), t.span)], span.(end := t.span.end));
    } else if t.token.Integer? {
      OperandsFromError(toks, j + 1, inst, oprs + [(RawOperand.Integer(t.token.value), t.span)], span.(end := t.span.end));
    }
  }

  /** Parsing fails only with the span of one of the items still to be read. */
  lemma {:induction false} ParseFromError(toks: seq<Lexeme>, i: nat, insts: seq<RawInstruction>, labels: seq<Label>)
    requires i <= |toks| && LexerShaped(toks) && ParseFrom(toks, i, insts, labels).Err?
    ensures exists k :: i <= k < |toks| && ParseFrom(toks, i, insts, labels).error == toks[k].span
    decreases |toks| - i
  {
    match toks[i].token
    case Newline => ParseFromError(toks, i + 1, insts, labels);
    case Ident =>
      var step := InstAt(toks, i);
      if step.Err? {
        OperandsFromError(toks, i + 1, toks[i].slice, [], toks[i].span);
      } else {
        ParseFromError(toks, step.value.1, insts + [step.value.0], labels);
      }
    case LabelDef =>
      var lbl := LabelAt(toks[i], insts, labels);
      if lbl.Ok? {
        ParseFromError(toks, i + 1, insts, labels + [lbl.value]);
      }
    case _ =>
  }

  /** What `parse` computes for a whole item sequence. */
  function ParseTokens(toks: seq<Lexeme>): Result<RawProgram, Span>
    requires LexerShaped(toks)
  {
    ParseFrom(toks, 0, [], [])
  }

  // ---------------------------------------------------------------------
  // The parser as the source writes it.

  /** `parse`: skip newlines, parse instructions and label definitions, reject anything else. */
  method Parse(toks: seq<Lexeme>) returns (r: Result<RawProgram, Span>)
    requires LexerShaped(toks)
    ensures r == ParseTokens(toks)
  {
    var insts: seq<RawInstruction> := [];
    var labels: seq<Label> := [];
    var l := new Peeking.FromIter(toks);
    while true
      invariant l.Valid() && l.toks == toks
      invariant ParseFrom(toks, l.Cursor(), insts, labels) == ParseTokens(toks)
      decreases |toks| - l.Cursor()
    {
      var t := l.Peek();
      if t.None? {
        break;
      }
      match t.value.token {
        case Newline =>
          var _ := l.Next();
        case Ident =>
          var inst := ParseInst(l);
          if inst.Err? {
            return Err(inst.error);
          }
          insts := insts + [inst.value];
        case LabelDef =>
          assert WellFormedLexeme(toks[l.Cursor()]);
          var def := ParseLabelDef(l, insts, labels);
          if def.Err? {
            return Err(def.error);
          }
          labels := labels + [def.value];
        case _ =>
          return Err(l.InnerSpan());
      }
    }
    return Ok(RawProgram(insts, labels));
  }

  /** `parse_inst`: the mnemonic, then operands up to a newline (consumed) or the end of input. */
  method ParseInst(l: Peeking) returns (r: Result<RawInstruction, Span>)
    requires l.Valid() && l.Cursor() < |l.toks|
    modifies l
    ensures l.Valid()
    ensures var step := InstAt(l.toks, old(l.Cursor()));
            match r
            case Ok(inst) => step == Ok((inst, l.Cursor()))
            case Err(span) => step == Err(span)
  {
    ghost var start := l.Cursor();
    var _ := l.Next();
    var inst := l.InnerSlice();
    var oprs: seq<(RawOperand, Span)> := [];
    var span := l.InnerSpan();
    while true
      invariant l.Valid() && start < l.Cursor() <= |l.toks| && 0 < l.pos
      invariant OperandsFrom(l.toks, l.Cursor(), inst, oprs, span) == InstAt(l.toks, start)
      decreases |l.toks| - l.Cursor()
    {
      var t := l.Peek();
      if t.None? {
        break;
      }
      match t.value.token {
        case Newline =>
          var _ := l.Next();
          break;
        case Ident =>
          var _ := l.Next();
          oprs := oprs + [(RawOperand.Name(l.InnerSlice()), l.InnerSpan())];
        case Register(x) =>
          var _ := l.Next();
          oprs := oprs + [(RawOperand.Register(x), l.InnerSpan())];
        case Integer(x) =>
          var _ := l.Next();
          oprs := oprs + [(RawOperand.Integer(x), l.InnerSpan())];
        case _ =>
          return Err(l.InnerSpan());
      }
      span := span.(end := l.InnerSpan().end);
    }
    return Ok(RawInstruction(inst, oprs, span));
  }

  /** `parse_ldef`: bind the name (colon dropped) to the number of instructions parsed so far. */
  method ParseLabelDef(l: Peeking, insts: seq<RawInstruction>, labels: seq<Label>) returns (r: Result<Label, Span>)
    requires l.Valid() && l.Cursor() < |l.toks| && |l.toks[l.Cursor()].slice| > 0
    modifies l
    ensures l.Valid() && l.Cursor() == old(l.Cursor()) + 1
    ensures r == LabelAt(l.toks[old(l.Cursor())], insts, labels)
  {
    var _ := l.Next();
    var lbl := l.InnerSlice();
    lbl := lbl[..|lbl| - 1];
    if FindLabel(labels, lbl).Some? {
      return Err(l.InnerSpan());
    }
    return Ok((lbl, |insts|));
  }
}
