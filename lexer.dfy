/**
 * The shapes of the tokens the lexer (src/lexer.rs) hands to the parser.
 * The lexer itself is generated by a derive macro and is not part of this
 * model: the parser's input is taken to be the sequence of items it yields.
 */
module Lexer {

  /** A byte range `start..end` into the source text. */
  datatype Span = Span(start: nat, end: nat)

  /**
   * One item of the lexer's output. `LexError` stands for the `Err(())` item
   * the lexer yields for text that matches no token rule.
   */
  datatype Token =
    | Newline
    | Register(index: nat)
    | Integer(value: int)
    | LabelDef
    | Ident
    | LexError

  /** An item together with the text it was cut from (`slice()`) and where (`span()`). */
  datatype Lexeme = Lexeme(token: Token, slice: string, span: Span)

  /**
   * What the lexer's rules guarantee and the parser relies on: a label
   * definition's text is an identifier followed by a colon, so it is never empty.
   */
  predicate WellFormedLexeme(t: Lexeme)
  {
    t.token.LabelDef? ==> |t.slice| > 0 && t.slice[|t.slice| - 1] == ':'
  }

  predicate LexerShaped(toks: seq<Lexeme>)
  {
    forall k :: 0 <= k < |toks| ==> WellFormedLexeme(toks[k])
  }
}
