# chonkpu-asm in Dafny

A model of the assembler for the chonkpu, a toy CPU with sixteen opcodes and
4-bit fields. The assembler turns the lexer's items into a 512-byte memory
image in four stages:

- **Parser** (`src/parser.rs`). A single-lookahead loop builds raw
  instructions and a label list. Each raw instruction is a mnemonic, its
  operands with their spans, and its own span. A label is bound to the number
  of instructions parsed before it.
- **Resolver** (`post_proc`, `src/postproc.rs`). It dispatches on the
  lower-cased mnemonic, checks the operand count, then each operand's kind. It
  looks label names up and computes branch displacements from `pc + 2` with
  8-bit wrap-around. It stops at the first error.
- **Encoder** (`generate`, `src/bingen.rs`). It packs each typed instruction
  into `op << 8 | (a & 15) << 4 | (b & 15)`.
- **Driver** (`comp` and lines 25-32 of `main`, `src/main.rs`). It chains the
  stages and refuses more than 256 words. It pads the memory to 256 words with
  the breakpoint `0x400` and writes each word high byte first.

Files:

- `wrappers.dfy`: `Option` and `Result`.
- `lexer.dfy`: the shapes of the lexer's items.
- `parser.dfy`: the `Peeking` adaptor as a class, the grammar as functions of
  a cursor, and `parse`, `parse_inst` and `parse_ldef` as methods proved
  against those functions.
- `parser_facts.dfy`: the parser described without its cursor. A program
  made of statements parses to one raw instruction per instruction statement.
  The lemmas also cover the label table's invariants and each error's span.
- `postproc.dfy`: the operand macros as functions, the per-instruction
  dispatch, and `post_proc` as a loop.
- `postproc_facts.dfy`: label lookup and the exact acceptance condition for
  branch displacements.
- `bingen.dfy`: the opcode table, the bit packing, its numeric value and its
  inverse, and `generate` as a loop.
- `isa.dfy`: the instruction set as a signature table (opcode and operand
  kinds). The resolver's sixteen branches are proved equal to a resolver
  driven by this table.
- `assembler.dfy`: `comp` and the image layout.
- `programs.dfy`: two whole programs, from lexer items to words.

Words are `bv16` and are built with the same bit operations as the source.
Resolved fields are integers in 0..255, because they are Rust `u8`. The casts
are written out: `as u8` is `x % 256` and `as i8` is `(x + 128) % 256 - 128`.

## Model

| member | source | states |
|---|---|---|
| Parser.FindLabel | src/parser.rs:61 | `None` exactly when no label has the name; otherwise the first label with that name |
| Parser.LabelAt | src/parser.rs:56-66 | a label definition succeeds exactly when its name (slice without the colon) is new. It binds the name to the number of instructions parsed so far; a duplicate fails with the definition's span |
| Parser.Peeking.FromIter | src/parser.rs:104-109 | a new adaptor has nothing peeked, and its cursor is at the first item |
| Parser.Peeking.Next | src/parser.rs:115-121 | yields the item at the cursor and advances; at the end it yields nothing and the cursor stays put |
| Parser.Peeking.Peek | src/parser.rs:94-102 | yields the item at the cursor without moving it, and keeps that item as `peeked` |
| Parser.PeekThenNext | src/parser.rs:94-121 | on any adaptor, a `peek` followed by `next` yields the same item, the one at the cursor, and moves the cursor past it |
| Parser.OperandsFrom | src/parser.rs:29-51 | the operand loop stops neither before the item it starts at nor past the end. What it collects is stated by `ParserFacts.OperandsRun` and how it fails by `Parser.OperandsFromError` |
| Parser.OperandsFromError | src/parser.rs:29-51 | the operand loop fails only at a label definition or an unlexable item, with that item's span |
| Parser.InstAt | src/parser.rs:23-54 | an instruction statement ends strictly after its mnemonic and within the items; `ParserFacts.MnemonicAndOperands` states what it yields |
| Parser.ParseFrom | src/parser.rs:11-20 | the top-level loop from item `i` with the lists collected so far. `ParserFacts.ParseFromKeepsTable`, `ParserFacts.ParsePrefix` and `Parser.ParseFromError` state its behaviour |
| Parser.ParseFromError | src/parser.rs:11-17 | parsing fails only with the span of an item it has not yet passed |
| Parser.ParseTokens | src/parser.rs:6-21 | `parse` on a whole item sequence: the loop from the first item with no instructions and no labels. `ParserFacts.ParseStatements`, `ParserFacts.ParsedTableIsGood` and the `ParserFacts.ParseRejects*` lemmas state what it yields |
| Parser.Parse | src/parser.rs:6-21 | `parse` computes the grammar function `ParseTokens` |
| Parser.ParseInst | src/parser.rs:23-54 | `parse_inst` yields the raw instruction and the cursor after it that the grammar function `InstAt` gives, or the same error |
| Parser.ParseLabelDef | src/parser.rs:56-66 | `parse_ldef` advances past the definition and returns `LabelAt` |
| ParserFacts.ParseFromKeepsTable | src/parser.rs:11-20 | parsing keeps the label table good: names pairwise distinct, indices ascending and at most the instruction count. It only appends to both lists |
| ParserFacts.ParsedTableIsGood | src/parser.rs:14-20 | on success label names are pairwise distinct, each label index is at most the final instruction count, and indices ascend |
| ParserFacts.OperandsRun | src/parser.rs:29-51 | a run of operand items is collected in order as `Name(slice)`, `Register` or `Integer`, each with its own span. The instruction's span is extended to the last operand's end |
| ParserFacts.StmtStep | src/parser.rs:11-15 | one statement (a newline, a fresh label definition, or a mnemonic with operands and a newline) moves the parser past exactly its items, appending its raw instruction or its label bound to the current instruction count |
| ParserFacts.MnemonicAndOperands | src/parser.rs:23-51 | after a mnemonic followed by operand items, the instruction is named by the mnemonic's text and the operand loop stands after the last operand. It holds every operand in order, and its span runs from the mnemonic to the last operand's end |
| ParserFacts.ParsePrefix | src/parser.rs:11-18 | parsing a sequence of statements followed by anything continues from the instructions and labels of those statements |
| ParserFacts.ParseStatements | src/parser.rs:6-54 | statements parse to one raw instruction per instruction statement, in order. Each label is bound to the number of instruction statements before it. Each instruction's span runs from the mnemonic to the end of its last operand, not including the newline |
| ParserFacts.ParseUnterminated | src/parser.rs:29-53 | a last instruction may end at the end of input instead of a newline |
| ParserFacts.ParseRejectsStrayToken | src/parser.rs:11-17 | a register, integer or unlexable item where a statement starts fails with that item's span |
| ParserFacts.ParseRejectsDuplicateLabel | src/parser.rs:61-63 | redefining a name fails with the span of the second definition |
| ParserFacts.ParseRejectsBadOperand | src/parser.rs:47 | a label definition or unlexable item among operands fails with that item's span |
| PostProc.AsU8 | src/postproc.rs:25 | `as u8` yields the byte congruent to its argument modulo 256 |
| PostProc.AsI8 | src/postproc.rs:35 | `as i8` yields the value in -128..127 congruent to its argument modulo 256 |
| PostProc.ExpectRegister | src/postproc.rs:15-22 | succeeds exactly on a register operand, giving its index modulo 256; any other operand fails with that operand's span |
| PostProc.ExpectInteger | src/postproc.rs:23-29 | succeeds exactly on an integer literal or a defined label name. The value is the literal, or the index of the first label with that name, modulo 256. An unknown name or a register fails with the operand's span |
| PostProc.ResolveInst | src/postproc.rs:45-136 | a lower-cased mnemonic outside the sixteen fails with the instruction's span; `bp` always yields `Breakpt` |
| PostProc.CollectSpec | src/postproc.rs:6-139 | collecting the outcomes succeeds exactly when every instruction resolves, keeps their order, and otherwise yields the first failure |
| PostProc.CollectFirstError | src/postproc.rs:6-139 | when every outcome before position k succeeds and outcome k fails, the collection fails with outcome k's error, as the loop's early `return` does |
| PostProc.CollectAllOk | src/postproc.rs:6-139 | outcomes that all succeed are collected as exactly their values, in order |
| PostProc.ToLower | src/postproc.rs:45 | the same length; no ASCII upper-case letter is left, and every other character is unchanged |
| PostProc.Offset | src/postproc.rs:32-43 | an accepted displacement is a byte whose signed reading is in -8..7 (below 8 or at least 248). It is accepted only when the operand is a valid integer operand, and every failure carries the operand's span. `PostProcFacts.OffsetSpec` gives the exact acceptance condition |
| PostProc.ResolveProgram | src/postproc.rs:3-140 | the resolutions of all instructions, each at its own index, collected up to the first error. `PostProc.PostProcess` is proved equal to it and states its meaning |
| PostProc.PostProcess | src/postproc.rs:3-140 | `post_proc` succeeds exactly when every instruction resolves at its own index as pc. Output k is instruction k's resolution; otherwise the error is the first failing instruction's |
| PostProcFacts.ExpectIntegerIsTarget | src/postproc.rs:23-29 | an integer operand is its target (the literal or the first label's index) cut to eight bits, or fails with the operand's span |
| PostProcFacts.AsI8Unique | src/postproc.rs:35 | `as i8` is the only value in -128..127 congruent to its argument |
| PostProcFacts.SignedNibbleOfU8 | src/postproc.rs:41 | a displacement in -8..7 stored `as u8` reads back from its low four bits as itself |
| PostProcFacts.RegisterLowBits | src/postproc.rs:16-22 | cutting a register operand to eight bits keeps its low four bits, the only ones the encoder uses |
| PostProcFacts.IntegerLowBits | src/postproc.rs:23-25 | cutting an integer literal to eight bits keeps its low four bits |
| PostProcFacts.ReachesFixesOffset | src/postproc.rs:34-35 | a displacement in -128..127 that reaches the target from `pc + 2` modulo 256 is the one `offset!` computes |
| PostProcFacts.OffsetSpec | src/postproc.rs:32-43 | a relative operand succeeds exactly when some displacement in -8..7 from `pc + 2` reaches its target modulo 256. The four bits the encoder keeps are that displacement; a failure carries the operand's span |
| PostProcFacts.OffsetInRange | src/postproc.rs:32-43 | a target at a displacement in -8..7 is accepted and encoded as that displacement |
| PostProcFacts.ReachesNearby | src/postproc.rs:37 | for a target fewer than 248 words away, reaching it modulo 256 is reaching it exactly |
| PostProcFacts.OffsetNearby | src/postproc.rs:32-43 | for targets fewer than 248 words away, acceptance is exactly `-8 <= target - pc - 2 <= 7` |
| PostProcFacts.OffsetWrapsAround | src/postproc.rs:82-86 | `jmpr 250` at pc 0 is accepted as the displacement -8, stored as 248 |
| BinGen.Parts | src/bingen.rs:7-24 | every opcode in the table is below 16 |
| BinGen.PackValue | src/bingen.rs:26-30 | the packed word read as a number is `(op mod 16) * 256 + (a mod 16) * 16 + b mod 16` |
| BinGen.UnpackPack | src/bingen.rs:26-30 | every packed word is below 0x1000; extracting `w >> 8`, `(w >> 4) & 15` and `w & 15` gives back the opcode and both fields mod 16 |
| BinGen.PartsDetermineInstruction | src/bingen.rs:8-23 | the opcode table is one-to-one: opcode and fields determine the instruction |
| BinGen.EveryOpcodeUsed | src/bingen.rs:8-23 | each of 0x0..0xF is the opcode of some variant |
| BinGen.EncodeValue | src/bingen.rs:26-30 | every word is below 0x1000 and equals `op * 256 + (a mod 16) * 16 + b mod 16` |
| BinGen.DecodeEncode | src/bingen.rs:26-30 | decoding a word gives back the instruction with its fields cut to four bits |
| BinGen.PackLowNibbles | src/bingen.rs:27-29 | packing a field cut to its low four bits gives the same word as packing the field itself |
| BinGen.EncodeTruncates | src/bingen.rs:27-29 | the word depends only on the fields mod 16: larger fields are cut, not rejected |
| BinGen.BreakptWord | src/bingen.rs:12 | `Breakpt` is the word 0x400 |
| BinGen.JumpFields | src/bingen.rs:13-15 | `Jmpa` and `Jmpr` put their single field in bits 0-3 and zero in bits 4-7 |
| BinGen.Pack | src/bingen.rs:26-30 | the bit packing; its value is stated by `BinGen.PackValue` and its inverse by `BinGen.UnpackPack` |
| BinGen.Encode | src/bingen.rs:7-30 | one instruction's word; `BinGen.EncodeValue` states its value and `BinGen.DecodeEncode` its inverse |
| BinGen.Generate | src/bingen.rs:3-34 | one word per instruction, word k the encoding of instruction k alone; it never fails |
| Isa.TableCoversMnemonics | src/postproc.rs:45-136 | the signature table has exactly the sixteen mnemonics the resolver accepts |
| Isa.RegRegByTable | src/postproc.rs:46-57 | a two-register entry resolves like `expect_ops!(2)` followed by two `expect_op!(Register)` |
| Isa.RegIntByTable | src/postproc.rs:58-69 | a register-integer entry resolves like `expect_ops!(2)`, `expect_op!(0 Register)` and `expect_op!(1 Integer)` |
| Isa.LdwStwMnemonics | src/postproc.rs:46-57 | `ldw` and `stw` resolve as their table entries say: two registers |
| Isa.LdwrStwrMnemonics | src/postproc.rs:58-69 | `ldwr` and `stwr` resolve as their table entries say: a register, then an integer |
| Isa.BranchMnemonics | src/postproc.rs:70-86 | `bp`, `jmpa`, `bnsr` and `jmpr` resolve as their table entries say |
| Isa.AddNorMnemonics | src/postproc.rs:87-98 | `add` and `nor` resolve as their table entries say: two registers |
| Isa.AddiNoriMnemonics | src/postproc.rs:99-110 | `addi` and `nori` resolve as their table entries say: a register, then an integer |
| Isa.AddrNorrMnemonics | src/postproc.rs:111-122 | `addr` and `norr` resolve as their table entries say: two registers |
| Isa.AddirNoriraMnemonics | src/postproc.rs:123-134 | `addir` and `norira` resolve as their table entries say: a register, then an integer |
| Isa.ResolveInstByTable | src/postproc.rs:45-136 | the resolver's dispatch equals the table-driven resolver: same mnemonics, counts, operand kinds, order and variants |
| Isa.ToLowerIdempotent | src/postproc.rs:45 | lower-casing twice is lower-casing once |
| Isa.ResolveSlotsReadsOperands | src/postproc.rs:45-136 | resolving operands reads only the operands, not the mnemonic |
| Isa.MnemonicCaseInsensitive | src/postproc.rs:45 | an instruction resolves exactly like the same instruction with its mnemonic lower-cased |
| Isa.TableEncoding | src/bingen.rs:7-30 | a table entry's word has its opcode in bits 8-11, the first of two fields in bits 4-7 and the last field in bits 0-3 |
| Isa.CountCheckedFirst | src/postproc.rs:9-11 | `bp` ignores any operand list; every other mnemonic with the wrong operand count fails with the instruction's span, whatever the operands |
| Isa.FirstOperandFirst | src/postproc.rs:47-49 | operands are checked left to right: a failing first operand is the instruction's error |
| Assembler.Compile | src/main.rs:36-41 | parse, then resolve, then encode each instruction. `Assembler.CompileSpec` states its outcome |
| Assembler.Comp | src/main.rs:36-41 | `comp` computes `Compile`, parse then resolve then encode |
| Assembler.CompileSpec | src/main.rs:36-41 | a parse error is returned unchanged. Otherwise compilation succeeds exactly when every instruction resolves, giving word k as the encoding of resolved instruction k; otherwise it fails with the first failing instruction's error |
| Assembler.BeBytesRoundTrip | src/main.rs:32 | the two big-endian bytes of a word recombine to the word |
| Assembler.FlattenLayout | src/main.rs:32 | flattening gives two bytes per word: word k's high byte at 2k and its low byte at 2k+1 |
| Assembler.UnflattenFlatten | src/main.rs:32 | reading the bytes back two at a time gives the words again |
| Assembler.Resized | src/main.rs:30 | `resize(n, fill)` yields n words: the original words as a prefix, `fill` after them |
| Assembler.Image | src/main.rs:25-32 | the file contents for the words, or the size error. `Assembler.ImageLayout` states the layout |
| Assembler.WriteImage | src/main.rs:25-32 | more than 256 words is refused and exactly 256 accepted; otherwise the result is the padded, flattened image |
| Assembler.ImageLayout | src/main.rs:25-32 | an accepted image is 512 bytes. Bytes 2k and 2k+1 recombine to word k of the program, and to 0x400 past its end |
| Assembler.PaddingIsBreakpoint | src/main.rs:30 | the padding word 0x400 is the encoding of `Breakpt` and decodes back to it |
| Programs.CompileOk | src/main.rs:36-41 | a program that parses and resolves compiles to the encodings of its instructions |
| Programs.AddThenStopInsts | src/parser.rs:23-54 | the items of `addi r1 5` and `bp` each form one raw instruction |
| Programs.AddThenStopParses | src/parser.rs:6-21 | `addi r1 5\nbp\n` parses to two raw instructions and no labels |
| Programs.AddThenStopResolves | src/postproc.rs:70-104 | they resolve to `Addi(1, 5)` and `Breakpt` |
| Programs.AddThenStopWords | src/main.rs:36-41 | `addi r1 5\nbp\n` compiles to `[0xA15, 0x400]` |
| Programs.CountForeverInsts | src/parser.rs:23-54 | the items of `addi r0 1` and `jmpr loop` each form one raw instruction |
| Programs.CountForeverParses | src/parser.rs:6-21 | `loop: addi r0 1\njmpr loop\n` binds `loop` to instruction 0 |
| Programs.CountForeverResolves | src/postproc.rs:82-86 | the backward branch at pc 1 to `loop` is the displacement -3, stored as 0xFD |
| Programs.CountForeverWords | src/main.rs:36-41 | `loop: addi r0 1\njmpr loop\n` compiles to `[0xA01, 0x70D]` |
| Programs.CollectTwo | src/postproc.rs:139 | two resolved instructions are collected in order |
| Programs.AddiWords | src/bingen.rs:18 | `Addi(1, 5)` and `Addi(0, 1)` encode as 0xA15 and 0xA01 |
| Programs.JmprWord | src/bingen.rs:15 | `Jmpr(253)` encodes as 0x70D: the displacement -3 keeps only its low nibble |

Where the code does something other than what it is meant to do, the model
follows the code:

- **Branch range.** A branch is meant to fail when its target is outside
  -8..7 of `pc + 2`. The code cuts the target to eight bits and wraps the
  difference to `i8`. So a relative operand is accepted exactly when some
  displacement in -8..7 reaches the target modulo 256
  (`PostProcFacts.OffsetSpec`). A far target can therefore pass: at pc 0,
  `jmpr 250` is accepted as -8 (`PostProcFacts.OffsetWrapsAround`). For
  targets fewer than 248 words away, this agrees with the plain range check
  (`PostProcFacts.OffsetNearby`).
- **Breakpoint operands.** `bp` is meant to take no operands. The code
  accepts any operand list for `bp` and ignores it
  (`Isa.CountCheckedFirst`).
- **Field width.** Register and integer values are cut to eight bits when
  they are resolved, not only to four bits at encoding. The words are the
  same either way: the eight-bit cut keeps the low four bits
  (`PostProcFacts.RegisterLowBits`, `PostProcFacts.IntegerLowBits`), and the
  word depends only on those (`BinGen.EncodeTruncates`).

## Left out

- The lexer (`src/lexer.rs`) is not modelled. It is a derive macro over a
  regular-expression library. The parser's input is the sequence of items the
  lexer yields, each with its slice and span. A `LexError` item stands for
  `Err(())`. The integer-parsing panics for literals too large for
  `isize`/`usize` are not modelled either.
- Parser.Parse, Parser.ParseTokens, Parser.ParseFrom, Assembler.Comp,
  Assembler.Compile: they require `LexerShaped`, that every label
  definition's slice is non-empty and ends with a colon, as the lexer's label
  rule guarantees. Parser.ParseLabelDef requires only the non-empty slice. On
  an empty slice the source would panic at `len() - 1`; a slice without the
  colon would lose its last character.
- All I/O in `main` is not modelled: the argument, reading and writing
  files, printing the words and the error excerpt, and the exit status. The
  size error is modelled as a `Result`.
- Assembler.WriteImage: the in-place `resize` of the vector is modelled on a
  sequence value.
- PostProc.ToLower, Isa.MnemonicCaseInsensitive: lower-casing is modelled on ASCII letters
  only. `to_lowercase` is Unicode-aware, but only ASCII mnemonics can match
  one of the sixteen names.
- Integers are unbounded. `isize` literals and the `usize` program counter
  and label indices are not limited to 64 bits, so the subtraction
  `addr - pc - 2` cannot overflow in the model as it could in the source for
  a program with more than `isize::MAX` instructions.
- Spans are pairs of integers; the source text is not sliced.
- Lifetimes, `Debug` and the `Clone` plumbing of `Peeking` are not
  modelled. The inner lexer is a cursor into the item sequence.
