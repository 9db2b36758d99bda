/**
 * The driver (src/main.rs): `comp` chains the parser, the resolver and the
 * encoder; the program then refuses more than 256 words, pads the rest of
 * the 256-word memory with breakpoints and writes every word big-endian.
 */
module Assembler {
  import opened Wrappers
  import opened Lexer
  import opened Parser
  import opened PostProc
  import opened BinGen

  // ---------------------------------------------------------------------
  // comp

  /** The words `comp` yields, or the span of the first failure. */
  function Compile(toks: seq<Lexeme>): Result<seq<Word>, Span>
    requires LexerShaped(toks)
  {
    var raw :- ParseTokens(toks);
    var prog :- ResolveProgram(raw);
    Ok(seq(|prog.insts|, k requires 0 <= k < |prog.insts| => Encode(prog.insts[k])))
  }

  /** `comp`: parse, resolve, encode; either of the first two stages' errors is returned unchanged. */
  method Comp(toks: seq<Lexeme>) returns (r: Result<seq<Word>, Span>)
    requires LexerShaped(toks)
    ensures r == Compile(toks)
  {
    var p :- Parse(toks);
    var q :- PostProcess(p);
    var words := Generate(q);
    assert words == seq(|q.insts|, k requires 0 <= k < |q.insts| => Encode(q.insts[k]));
    return Ok(words);
  }

  /**
   * A parse error is the result; otherwise compilation succeeds exactly when
   * every instruction resolves at its own index, yielding one word per
   * instruction, and otherwise fails with the first instruction's error.
   */
  lemma CompileSpec(toks: seq<Lexeme>)
    requires LexerShaped(toks)
    ensures ParseTokens(toks).Err? ==> Compile(toks) == Err(ParseTokens(toks).error)
    ensures ParseTokens(toks).Ok? ==>
              var p := ParseTokens(toks).value;
              (Compile(toks).Ok? <==> ResolvesUpTo(p, |p.insts|)) &&
              (Compile(toks).Ok? ==>
                 |Compile(toks).value| == |p.insts| &&
                 forall pc :: 0 <= pc < |p.insts| ==>
                   ResolveInst(p.labels, pc, p.insts[pc]).Ok? &&
                   Compile(toks).value[pc] == Encode(ResolveInst(p.labels, pc, p.insts[pc]).value)) &&
              (Compile(toks).Err? ==>
                 exists pc :: 0 <= pc < |p.insts| && ResolvesUpTo(p, pc) &&
                              ResolveInst(p.labels, pc, p.insts[pc]) == Err(Compile(toks).error))
  {
    if ParseTokens(toks).Ok? {
      var p := ParseTokens(toks).value;
      var rs := Results(p);
      CollectSpec(rs);
      if Collect(rs).Err? {
        var k :| 0 <= k < |rs| && rs[k] == Err(Collect(rs).error) && forall j :: 0 <= j < k ==> rs[j].Ok?;
        assert Compile(toks) == Err(Collect(rs).error);
        assert rs[k] == ResolveInst(p.labels, k, p.insts[k]);
        assert ResolvesUpTo(p, k) by {
          assert forall j :: 0 <= j < k ==> rs[j] == ResolveInst(p.labels, j, p.insts[j]);
        }
      } else {
        assert forall pc :: 0 <= pc < |p.insts| ==> rs[pc] == ResolveInst(p.labels, pc, p.insts[pc]);
      }
    }
  }

  // ---------------------------------------------------------------------
  // The memory image

  /** Words of memory the image fills. */
  const ImageWords: nat := 256

  /** The word `resize` pads with: a breakpoint. */
  const Padding: Word := 0x400

  datatype ImageError = TooLarge

  /** `to_be_bytes`: the high byte, then the low byte. */
  function BeBytes(w: Word): seq<bv8>
  {
    [(w >> 8) as bv8, (w & 0xFF) as bv8]
  }

  /** `u16::from_be_bytes`. */
  function FromBeBytes(hi: bv8, lo: bv8): Word
  {
    ((hi as bv16) << 8) | (lo as bv16)
  }

  lemma BeBytesRoundTrip(w: Word)
    ensures FromBeBytes(BeBytes(w)[0], BeBytes(w)[1]) == w
  {
  }

  /** `map(to_be_bytes).flatten()`. */
  function Flatten(ws: seq<Word>): seq<bv8>
  {
    if |ws| == 0 then [] else Flatten(ws[..|ws| - 1]) + BeBytes(ws[|ws| - 1])
  }

  /** Two bytes back into one word each. */
  function Unflatten(bs: seq<bv8>): seq<Word>
    requires |bs| % 2 == 0
  {
    if |bs| == 0 then [] else Unflatten(bs[..|bs| - 2]) + [FromBeBytes(bs[|bs| - 2], bs[|bs| - 1])]
  }

  /** Word `k` occupies bytes `2k` (high) and `2k + 1` (low). */
  lemma {:induction false} FlattenLayout(ws: seq<Word>)
    ensures |Flatten(ws)| == 2 * |ws|
    ensures forall k :: 0 <= k < |ws| ==>
              Flatten(ws)[2 * k] == BeBytes(ws[k])[0] && Flatten(ws)[2 * k + 1] == BeBytes(ws[k])[1]
  {
    if |ws| > 0 {
      FlattenLayout(ws[..|ws| - 1]);
    }
  }

  /** Reading the bytes back two at a time gives the words again. */
  lemma {:induction false} UnflattenFlatten(ws: seq<Word>)
    ensures |Flatten(ws)| % 2 == 0 && Unflatten(Flatten(ws)) == ws
  {
    FlattenLayout(ws);
    if |ws| > 0 {
      var init := ws[..|ws| - 1];
      UnflattenFlatten(init);
      var bs := Flatten(ws);
      assert bs[..|bs| - 2] == Flatten(init);
      BeBytesRoundTrip(ws[|ws| - 1]);
    }
  }

  /** `b.resize(n, fill)`: cut to `n` words, or extend with copies of `fill`. */
  function Resized(b: seq<Word>, n: nat, fill: Word): (r: seq<Word>)
    ensures |r| == n
    ensures forall k :: 0 <= k < n ==> r[k] == if k < |b| then b[k] else fill
  {
    if |b| >= n then b[..n] else b + seq(n - |b|, _ => fill)
  }

  /** The file contents for the words `b`, or the size error. */
  function Image(b: seq<Word>): Result<seq<bv8>, ImageError>
  {
    if |b| > ImageWords then Err(TooLarge) else Ok(Flatten(Resized(b, ImageWords, Padding)))
  }

  /** Lines 25-32 of `main`: refuse more than 256 words, pad with breakpoints, write big-endian. */
  method WriteImage(b: seq<Word>) returns (r: Result<seq<bv8>, ImageError>)
    ensures r == Image(b)
    ensures r.Err? <==> |b| > ImageWords
  {
    if |b| > ImageWords {
      return Err(TooLarge);
    }
    var words := b;
    while |words| < ImageWords
      invariant |b| <= |words| <= ImageWords
      invariant words == b + seq(|words| - |b|, _ => Padding)
      decreases ImageWords - |words|
    {
      words := words + [Padding];
    }
    assert words == Resized(b, ImageWords, Padding);
    var bytes: seq<bv8> := [];
    for k := 0 to |words|
      invariant bytes == Flatten(words[..k])
    {
      assert words[..k + 1][..k] == words[..k];
      bytes := bytes + BeBytes(words[k]);
    }
    assert words[..|words|] == words;
    return Ok(bytes);
  }

  /**
   * An image is exactly 512 bytes; byte pairs `2k`, `2k + 1` read back as the
   * program's word `k`, and past the program as the breakpoint 0x400.
   */
  lemma ImageLayout(b: seq<Word>)
    requires |b| <= ImageWords
    ensures Image(b).Ok? && |Image(b).value| == 2 * ImageWords
    ensures forall k :: 0 <= k < ImageWords ==>
              FromBeBytes(Image(b).value[2 * k], Image(b).value[2 * k + 1]) == if k < |b| then b[k] else Padding
    ensures Unflatten(Image(b).value) == Resized(b, ImageWords, Padding)
  {
    var ws := Resized(b, ImageWords, Padding);
    FlattenLayout(ws);
    UnflattenFlatten(ws);
    forall k | 0 <= k < ImageWords
      ensures FromBeBytes(Image(b).value[2 * k], Image(b).value[2 * k + 1]) == ws[k]
    {
      BeBytesRoundTrip(ws[k]);
    }
  }

  /** The padding decodes as a breakpoint, so running off the program's end stops the machine. */
  lemma PaddingIsBreakpoint()
    ensures Padding == Encode(Breakpt) && Decode(Padding) == Breakpt
  {
    BreakptWord();
    DecodeEncode(Breakpt);
  }
}
