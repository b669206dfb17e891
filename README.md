# A verified model of the one-address assembler

This project models the core of `logism-one-address-assembler`, a two-pass assembler for a small
one-address CPU, in Dafny.

- **Lexer rules.** The model covers the rules that classify the source text as tokens: the keyword table, the numeric literals and the skipped text.
- **First pass.** The parser runs a section machine over the token stream. It has two states, `.text` and `.data`, and fills four pieces of state: the text stream, the data stream, a text label table and a data label table.
- **Second pass.** Every label operand is replaced by the address its label denotes.
- **Encoding.** Each addressed instruction becomes a 2-byte word, and each data word becomes two big-endian bytes.

The modules follow the source files:

- `Tokens` (`tokens.dfy`) is `src/token.rs`: the `Token` sum type, its `Display` form, the keyword
  lexemes, the decimal and hexadecimal literal callbacks and the skip rules. `Numerals` holds the
  integer ranges (`i8`, `u8`, `i16`) and the digit arithmetic behind `i16::from_str_radix` and `{}`.
- `Instructions` (`instructions.dfy`) is `src/instructions.rs`: the two 18-variant instruction
  types and the bit-exact encoder `opcode`, `alu_op`, `value`, `bytes`, `hex_string`. A decoder
  is written beside it as the encoder's inverse. `Octets` holds the byte/integer conversions it
  needs.
- `Parser` (`parser.dfy`) is the `Parser` object of `src/parser.rs`. It is a class over the token
  sequence with the fields the source mutates: the look-ahead slot `peeked`, the lexer position and
  span, `text`, `data`, `text_labels` and `data_labels`. Each method is proved against a pure
  function:
  - `Grammar` (`grammar.dfy`) is the reference meaning of the first pass. It is a section machine
    `Run` over the token sequence, with one function per item kind, and it carries the invariants
    the pass keeps (bounded streams; labels only added, never changed).
  - `Addressing` (`addressing.dfy`) is the reference meaning of `address_program` and of
    `AddressedProgram::assemble_text` and `data_bytes`, with the inverse readings of the bytes.
  - The mutually recursive `parse_text`/`parse_data` keep their mutual recursion
    (`ParseText`/`ParseData`). The whole parse computes `Grammar.ParseProgram`, and
    `address_program` computes `Addressing.Address`.
- `Scenarios` (`scenarios.dfy`) states what the model computes on small programs. They are stated
  on the token sequences the lexer produces for them.

A source span is modelled as a token index. The length of the token sequence stands for the
end-of-input span.

Points of behaviour worth knowing:

- The literal patterns (`src/token.rs:48-49`) have no sign, so `-128` cannot be written as an
  immediate: `-` is lexed as the error token and the parser rejects it
  (`Scenarios.NegativeImmediate`). If it could be written, it would encode as `0x80`
  (`Scenarios.ImmediateBytes`).
- The code has 18 instruction variants and 18 mnemonics.
- In the data section, the values of a `.number` run are appended only after the whole run has
  been read (`src/parser.rs:391-394`). A data overflow is therefore reported at the span of the
  token after the run, not at the `.number` that overflows.

## Model

| member | source | states |
|---|---|---|
| Tokens.KeywordToken | src/token.rs:39-92 | The keyword table yields only directive and mnemonic tokens, never a literal, identifier or error token |
| Tokens.Display | src/token.rs:4-34 | A non-negative literal prints as a decimal lexeme whose digits denote its value, with no leading zero |
| Tokens.DisplayKeywordRoundTrip | src/token.rs:4-34 | Printing any directive or mnemonic token and looking the text up in the keyword table gives back that token |
| Tokens.KeywordLexemeIsDisplay | src/token.rs:39-92 | Every `#[token]` lexeme is exactly the `Display` text of the token it produces |
| Tokens.DecimalLiteral | src/token.rs:48 | A `[0-9]+` lexeme yields a literal or the error token, and the literal is never negative |
| Tokens.HexLiteral | src/token.rs:49 | A `0x[0-9a-f]+` lexeme yields a literal or the error token, and the literal is never negative |
| Tokens.DecimalLiteralValue | src/token.rs:48 | A decimal lexeme is the literal of its base-10 value exactly when that value is at most 32767, and the error token otherwise |
| Tokens.HexLiteralValue | src/token.rs:49 | A hexadecimal lexeme is the literal of the base-16 value of the digits after `0x` exactly when it is at most 32767, else the error token |
| Tokens.DisplayLiteralRoundTrip | src/token.rs:11 | A non-negative literal prints as a decimal lexeme that lexes back to the same literal |
| Tokens.CommentEnd | src/token.rs:96 | A `#` comment body runs to the next line feed or the end of input and contains no line feed |
| Tokens.SkipTrivia | src/token.rs:94-97 | Skipping stops at the end of input or at a character that is neither blank nor `#` |
| Tokens.SkipTriviaSkipsOnlyTrivia | src/token.rs:94-97 | Every character skipped is a blank or lies inside a `#` comment that runs from a `#` to it without a line feed |
| Tokens.SkipTriviaIdempotent | src/token.rs:94-97 | Skipping again where skipping stopped skips nothing |
| Tokens.CommentRunsToEndOfLine | src/token.rs:96 | A comment swallows exactly the rest of its line; skipping goes on after the line feed |
| Tokens.SkipTriviaStopsOutsideComments | src/token.rs:94-97 | Skipping never stops inside a `#` comment: every `#` before the stop is closed by a line feed |
| Tokens.CommentRunsToEndOfInput | src/token.rs:96 | A comment with no line feed after it is skipped to the end of input |
| Numerals.FromStrRadix | src/token.rs:48-49 | `from_str_radix` on an unsigned digit string never yields a negative value |
| Numerals.FromStrRadixValue | src/token.rs:48-49 | `from_str_radix` succeeds exactly when the positional value of the digits fits in `i16`, and then yields that value |
| Numerals.NatToDecimal | src/token.rs:11 | `{}` of a non-negative number is a non-empty string of decimal digits with no leading zero (only 0 prints as `0`) |
| Numerals.NatToDecimalValue | src/token.rs:11 | The printed decimal digits of a number read back as that number |
| Numerals.IntToDecimal | src/token.rs:11 | `{}` of an integer is its decimal digits, after a `-` when it is negative, and the digits denote its magnitude and carry no leading zero |
| Instructions.Opcode | src/instructions.rs:52-73 | The opcode is at most 6, and each opcode value holds exactly for its variants: 0 `NoOp`, 1 immediates and shift, 2 ALU-register, 3 `ClearAc`, 4 `Store`, 5 `BranchZero`, 6 `Branch` |
| Instructions.AluOp | src/instructions.rs:75-89 | The ALU code is at most 6, is 0 for every non-ALU variant, and is 6 exactly for `Shift` |
| Instructions.ImmediateFormCodes | src/instructions.rs:75-100 | The immediate variant with ALU code c has opcode 1 and ALU code c, and its operand byte reads back as the immediate |
| Instructions.RegisterFormCodes | src/instructions.rs:75-109 | The register variant with ALU code c has opcode 2 and ALU code c, and its operand byte is the address |
| Instructions.UnsignedByte | src/instructions.rs:100 | `i as u8` of an immediate reads back as the immediate through `as i8` |
| Instructions.SignedByte | src/instructions.rs:100 | `b as i8` is the signed value congruent to the byte modulo 256, negative exactly from 128 up |
| Instructions.Value | src/instructions.rs:91-111 | The operand byte is 0 for `NoOp` and `ClearAc`, the address for label variants, and the two's-complement byte of the immediate otherwise |
| Instructions.Bytes | src/instructions.rs:113-119 | The word has two bytes: byte 0 shifted right by 4 is the opcode, byte 0 masked with `0xF` is the ALU code, byte 1 is the operand byte |
| Instructions.HexByte | src/instructions.rs:124 | `{:02x}` is two lower-case hex digits whose value is the byte |
| Instructions.HexString | src/instructions.rs:121-125 | The hex string is four lower-case hex digits: byte 0, then byte 1 |
| Instructions.DecodeBytes | src/instructions.rs:113-119 | Decoding the encoding of an instruction gives back the instruction |
| Instructions.DecodedCodes | src/instructions.rs:52-111 | An accepted word's opcode, ALU code and operand are those of the instruction it decodes to |
| Instructions.BytesOfDecode | src/instructions.rs:113-119 | Every word the decoder accepts is the encoding of what it decodes to |
| Instructions.BytesInjective | src/instructions.rs:52-119 | Distinct addressed instructions encode to distinct words |
| Grammar.LabelOperand | src/parser.rs:296-305 | The operand is accepted exactly when it is a label identifier; end of input is `UnexpectedEof("expected a label")`, any other token an `InvalidToken` at its span |
| Grammar.ImmediateOperand | src/parser.rs:251-263 | The operand is accepted exactly when it is a literal in -128..127; a literal outside is `InvalidNumber` with its value and span, another token `InvalidToken`, end of input `UnexpectedEof("expected an integer")` |
| Grammar.NumberAt | src/parser.rs:359-375 | `.number` followed by a literal yields the literal; a missing literal is `UnexpectedEof`, another token `InvalidToken` at its span |
| Grammar.NumberRun | src/parser.rs:377-385 | A successful run stops within the input and keeps the values read before it as a prefix |
| Grammar.NumberRunReadsPairs | src/parser.rs:377-385 | A successful run consumed exactly `.number <literal>` pairs holding the new values in order, and stopped before a token that is not `.number` |
| Grammar.NumberRunOfPairs | src/parser.rs:377-385 | Conversely, a run of `.number <literal>` pairs followed by anything but `.number` is read in full |
| Grammar.PushInstr | src/parser.rs:419-429 | Appending fails with `InstructionOverflow` exactly when the text stream holds 255 entries, and otherwise appends at the end; the stream never exceeds 255 |
| Grammar.PushData | src/parser.rs:431-441 | Appending fails with `DataOverflow` exactly when the data stream holds 255 entries, and otherwise appends at the end; the stream never exceeds 255 |
| Grammar.AppendData | src/parser.rs:392-394 | A run of values fits exactly when the total stays within 255, and is then appended in order; otherwise the first value that does not fit is reported |
| Grammar.DefineLabel | src/parser.rs:213-249 | A name already defined is `DuplicateLabel` with the first definition's span; a new name is added with its span, denotes the stream length when that is at most 255, and every other entry is kept |
| Grammar.TextLabelDef | src/parser.rs:213-230 | A text label definition succeeds only on a label identifier operand |
| Grammar.DataLabelDef | src/parser.rs:232-249 | A data label definition succeeds only on a label identifier operand |
| Grammar.WithLabelOperand | src/parser.rs:283-341 | The instruction a label-operand mnemonic builds carries the label, is a branch exactly for `beqz` and `br`, and is `Store` exactly for `stor` |
| Grammar.WithImmediateOperand | src/parser.rs:267-276 | The instruction an immediate mnemonic builds carries the immediate, and is `Shift` exactly for `shift` |
| Grammar.LabelInstr | src/parser.rs:281-294 | A label-operand instruction succeeds only when its operand is present |
| Grammar.ImmediateInstr | src/parser.rs:265-279 | An immediate instruction succeeds only when its operand is present |
| Grammar.TextItem | src/parser.rs:307-357 | A text item moves forward within the input and leaves the data side unchanged; `.data` switches to the data section, and `.text`, `.number`, a literal, an identifier or an error token is `InvalidToken` |
| Grammar.DataItem | src/parser.rs:387-409 | A data item moves forward within the input and leaves the text side unchanged; `.text` switches to the text section, and anything but `.label` or `.text` (a repeated `.data`, a bare `.number`) is `InvalidToken` |
| Grammar.Step | src/parser.rs:307-409 | Every transition of the section machine moves forward within the input |
| Grammar.Run | src/parser.rs:307-409 | The section machine: the end of input ends the parse in either section, a failing item ends it with its error, otherwise it goes on from the item's continuation (stated by `Parser.TextRunStep` and the lemmas beside it; its invariants by `Grammar.RunKeepsWf`) |
| Grammar.ParseFrom | src/parser.rs:187-203 | Empty input is `UnexpectedEof`, and a first token other than `.text` or `.data` is `InvalidToken` |
| Grammar.ParseProgram | src/parser.rs:82-86 | The first pass from the first token on an empty state (its outcome is bounded by `Grammar.ParseProgramWf`) |
| Grammar.AppendKeepsWf | src/parser.rs:419-441 | Appending within 255 keeps the state invariant and only grows the state |
| Grammar.DefineKeepsWf | src/parser.rs:213-249 | A new label keeps every address within its stream's length and keeps all earlier entries |
| Grammar.TextItemKeepsWf | src/parser.rs:307-357 | A text item keeps the invariant and only grows the state |
| Grammar.DataItemKeepsWf | src/parser.rs:387-409 | A data item keeps the invariant and only grows the state |
| Grammar.StepKeepsWf | src/parser.rs:307-409 | Every transition keeps the invariant and only grows the state |
| Grammar.RunKeepsWf | src/parser.rs:307-409 | A successful run keeps the invariant and only grows the state: streams gain entries at the end and no label is removed or redefined |
| Grammar.ParseProgramWf | src/parser.rs:187-203 | A parsed program holds at most 255 instructions and 255 data words, and every label's address is at most its stream's length (a trailing `.label` denotes the slot after the last entry) |
| Grammar.LabelInstrStep | src/parser.rs:312-341 | A label-operand mnemonic followed by a label appends the instruction and moves past both tokens |
| Grammar.ImmediateInstrStep | src/parser.rs:319-325 | An immediate mnemonic followed by a literal within `i8` appends the instruction |
| Grammar.ImmediateInstrFails | src/parser.rs:251-263 | An immediate mnemonic whose operand is not an `i8` literal ends the parse with the operand's error |
| Grammar.TextLabelStep | src/parser.rs:222-229 | A new text label denotes the current text length as a `u8` and carries its name's span |
| Grammar.DataLabelStep | src/parser.rs:390-395 | A new data label followed by a run that fits denotes the current data length, and the run is appended |
| Grammar.DataLabelDuplicate | src/parser.rs:234-240 | A data label already defined is `DuplicateLabel` with both spans |
| Grammar.NoOpItem | src/parser.rs:342-344 | `noop` appends unless the text already holds 255 instructions, and then is `InstructionOverflow` at its span |
| Grammar.NoOpStep | src/parser.rs:342-344 | `noop` below the bound appends one `NoOp` |
| Grammar.ClearAcStep | src/parser.rs:335-337 | `clac` below the bound appends one `ClearAc` |
| Grammar.NoOpRunFits | src/parser.rs:419-429 | A run of `noop`s is taken in full while the text stays within 255 instructions |
| Grammar.NoOpRunOverflows | src/parser.rs:419-429 | The first `noop` beyond the 255th instruction is `InstructionOverflow` at that `noop`'s span |
| Addressing.LabelAddress | src/parser.rs:205-211 | A lookup succeeds exactly when the name is in the table, and yields its address |
| Addressing.ResolveOne | src/parser.rs:92-158 | An instruction without a label always resolves; one with a label resolves exactly when the label is in the table its variant uses (text for branches, data otherwise), else `UnknownLabel(name)` |
| Addressing.ResolveOneShape | src/parser.rs:92-158 | A resolved instruction keeps its variant and immediate, and its address is the looked-up label's |
| Addressing.ResolveText | src/parser.rs:88-163 | Addressing succeeds exactly when every instruction resolves, and then each position holds its instruction's addressed form, with the same length |
| Addressing.FirstUnresolved | src/parser.rs:92-160 | Locates the first instruction, in text order, that does not resolve |
| Addressing.ResolveTextFirstError | src/parser.rs:92-160 | A failed addressing reports the error of the first unresolved instruction in text order |
| Addressing.Address | src/parser.rs:88-163 | The second pass succeeds exactly when every instruction resolves, keeps the data and the text length, and fails only with `UnknownLabel` |
| Addressing.AddressedProgram.AssembleText | src/parser.rs:26-32 | The loop builds the concatenated words of the text in order |
| Addressing.AddressedProgram.DataBytes | src/parser.rs:34-41 | The loop builds the concatenated big-endian words of the data in order |
| Addressing.TextBytes | src/parser.rs:26-32 | The text bytes are exactly two per instruction |
| Addressing.DecodeTextBytes | src/parser.rs:26-32 | The text bytes read back, two at a time, as the instructions they came from |
| Addressing.BigEndian | src/parser.rs:37 | `to_be_bytes` gives two bytes, high first, denoting the value modulo 2^16 |
| Addressing.FromBigEndian | src/parser.rs:37 | Reading two big-endian bytes gives the value they denote modulo 2^16 |
| Addressing.BigEndianRoundTrip | src/parser.rs:37 | A data word read back from its bytes is the same word |
| Addressing.FromBigEndianRoundTrip | src/parser.rs:37 | Two bytes read as a word and written again are the same bytes |
| Addressing.WordBytes | src/parser.rs:34-41 | The data bytes are exactly two per word |
| Addressing.ReadWordBytes | src/parser.rs:34-41 | The data bytes read back as the data words they came from |
| Parser.Parser.constructor | src/parser.rs:70-80 | A new parser has read nothing, peeks nothing, and has empty streams and tables |
| Parser.Parser.LexerNext | src/parser.rs:169 | The lexer hands out the next token and its span, or nothing with the end-of-input span |
| Parser.Parser.NextTokenOpt | src/parser.rs:165-171 | The peeked token if there is one, else the lexer's next; the look-ahead is empty afterwards and the streams and tables are unchanged |
| Parser.Parser.NextToken | src/parser.rs:173-176 | The next token, or `UnexpectedEof` with the expected description at the end of input |
| Parser.Parser.PeekToken | src/parser.rs:178-185 | The next token without consuming it: the cursor is unchanged and the token is held in the look-ahead, so a following `NextTokenOpt` returns it |
| Parser.Parser.ParseLabel | src/parser.rs:296-305 | Reads the operand as `Grammar.LabelOperand` |
| Parser.Parser.ParseImmediate | src/parser.rs:251-263 | Reads the operand as `Grammar.ImmediateOperand` |
| Parser.Parser.AddInstr | src/parser.rs:419-429 | Appends as `Grammar.PushInstr`, leaving the stream unchanged on overflow |
| Parser.Parser.AddData | src/parser.rs:431-441 | Appends as `Grammar.PushData`, leaving the stream unchanged on overflow |
| Parser.Parser.CurrentText | src/parser.rs:411-413 | The `u8` cast of the text length is exact |
| Parser.Parser.CurrentData | src/parser.rs:415-417 | The `u8` cast of the data length is exact |
| Parser.Parser.TextLabelAddress | src/parser.rs:205-207 | A text label has an address exactly when it is defined, and it is the table's |
| Parser.Parser.DataLabelAddress | src/parser.rs:209-211 | A data label has an address exactly when it is defined, and it is the table's |
| Parser.Parser.AddTextLabel | src/parser.rs:213-230 | Defines the operand in the text table as `Grammar.TextLabelDef`, and leaves the table unchanged when the definition fails |
| Parser.Parser.AddDataLabel | src/parser.rs:232-249 | Defines the operand in the data table as `Grammar.DataLabelDef`, changing nothing else, and leaves the table unchanged when the definition fails |
| Parser.Parser.ParseLabelInstr | src/parser.rs:281-294 | A label operand, then the instruction appended, as `Grammar.LabelInstr` |
| Parser.Parser.ParseImmediateInstr | src/parser.rs:265-279 | An immediate operand, then the instruction appended, as `Grammar.ImmediateInstr` |
| Parser.Parser.ParseNumber | src/parser.rs:359-375 | Reads `.number <literal>` as `Grammar.NumberAt` |
| Parser.Parser.ParseNumberList | src/parser.rs:377-385 | Reads the run as `Grammar.NumberRun`, leaves the token after it peeked, and changes no stream or table |
| Parser.Parser.AddDataRun | src/parser.rs:392-394 | Appends the run one value at a time as `Grammar.AppendData`, changing only the data stream |
| Parser.Parser.ParseTextItem | src/parser.rs:309-351 | One arm of the text loop does what `Grammar.TextItem` says |
| Parser.Parser.ParseTextInstr | src/parser.rs:312-351 | The instruction arms of the text loop do what `Grammar.TextItem` says |
| Parser.Parser.ParseTextItems | src/parser.rs:307-354 | The text loop runs the section machine up to the end of input, an error, or the `.data` that hands over |
| Parser.Parser.ParseText | src/parser.rs:307-357 | `parse_text` has the outcome of the section machine in the text section |
| Parser.Parser.ParseDataItem | src/parser.rs:389-403 | One arm of the data loop does what `Grammar.DataItem` says |
| Parser.Parser.ParseDataItems | src/parser.rs:387-406 | The data loop runs the section machine up to the end of input, an error, or the `.text` that hands over |
| Parser.Parser.ParseData | src/parser.rs:387-409 | `parse_data` has the outcome of the section machine in the data section |
| Parser.Parser.ParseInput | src/parser.rs:187-203 | `parse_input` has the outcome `Grammar.ParseFrom` gives |
| Parser.Parser.AddressProgram | src/parser.rs:88-163 | `address_program` returns what `Addressing.Address` gives for the parser's state |
| Parser.Parse | src/parser.rs:82-86 | `Parser::parse` succeeds exactly when `Grammar.ParseProgram` does, with its state, and otherwise fails with its error |
| Parser.TextRunData | src/parser.rs:311 | `.data` in the text section hands over to the data section at the next token |
| Parser.DataRunText | src/parser.rs:396 | `.text` in the data section hands over to the text section at the next token |
| Parser.TextRunStep | src/parser.rs:307-354 | In the text section, the machine goes on from where a successful item leaves it |
| Parser.TextRunError | src/parser.rs:307-354 | A failing text item ends the whole parse with its error |
| Parser.DataRunStep | src/parser.rs:387-406 | In the data section, the machine goes on from where a successful item leaves it |
| Parser.DataItemOfRun | src/parser.rs:389-395 | A data `.label` item defines its label, then appends its `.number` run, or fails with the run's overflow |
| Parser.DataRunError | src/parser.rs:387-406 | A failing data item ends the whole parse with its error |
| Parser.FirstUnresolvedAt | src/parser.rs:92-160 | When every instruction before position k resolves and the one at k does not, addressing fails with that instruction's error |
| Parser.ResolvePrefixStep | src/parser.rs:88-161 | One more loop iteration of `address_program` over a prefix that resolves appends that instruction's addressed form |
| Parser.ResolveTextSnoc | src/parser.rs:92-159 | Addressing one more instruction appends its addressed form |
| Scenarios.ForwardBranchParses | src/parser.rs:223-226 | In `.text br L .label L noop` the label is defined after the branch that uses it, at text address 1 |
| Scenarios.ForwardBranchText | src/parser.rs:310-344 | The text section `br L .label L noop` appends the branch, defines `L` at address 1 with span 4, and appends the `noop` |
| Scenarios.ForwardBranchAddresses | src/parser.rs:136-140 | The forward branch is addressed to the label's address, 1 |
| Scenarios.EndToEndParses | src/parser.rs:387-409 | `.data .label X .number 5 .number 7 .text add X clac` defines `X` at data address 0, holds 5 and 7, and switches to text for `add X` and `clac` |
| Scenarios.EndToEndDataSection | src/parser.rs:389-396 | The data section defines `X` at its name's token, appends 5 and 7, and hands over at `.text` |
| Scenarios.EndToEndTextSection | src/parser.rs:312-337 | The text section appends `add X` and then `clac` |
| Scenarios.EndToEndAddresses | src/parser.rs:94-157 | `add X` resolves in the data table to address 0, and `clac` passes through unchanged |
| Scenarios.EndToEndBytes | src/parser.rs:26-41 | The data bytes are `00 05 00 07` and the text bytes `20 00 30 00` |
| Scenarios.DuplicateDataLabel | src/parser.rs:232-240 | A second `.label X` in the data section is `DuplicateLabel` with both spans |
| Scenarios.SameNameInBothTables | src/parser.rs:213-249 | One name may be defined once as a text label and once as a data label |
| Scenarios.LargestImmediate | src/parser.rs:251-256 | `addi 127` is accepted |
| Scenarios.ImmediateBytes | src/instructions.rs:91-119 | The immediates 127 and -128 encode as operand bytes `0x7f` and `0x80` |
| Scenarios.ImmediateTooLarge | src/parser.rs:253-255 | `addi 128` is `InvalidNumber(128)` at the literal |
| Scenarios.NegativeImmediate | src/token.rs:48-49 | `addi -128` lexes with an error token for `-` and is rejected where an integer is expected |
| Scenarios.UndefinedLabel | src/parser.rs:94-97 | A reference to an undefined label parses, and addressing fails with `UnknownLabel` |
| Scenarios.NoOpProgramParses | src/parser.rs:419-429 | A text section of n `noop`s parses exactly when n is at most 255; the 256th `noop` is `InstructionOverflow` |

## Left out

- `src/main.rs` is not part of this model: command-line parsing, output file names, file reading
  and writing, the `v2.0 raw` header and the hex lines, and its panics are I/O.
- The logos lexing engine, which chooses between overlapping patterns by longest match and
  priority (for example a digit string matches both the decimal literal and the label pattern), is
  library code that is not available. The parser takes the token sequence as its input, and only the per-token
  rules are modelled: keywords, literal conversion and the skipped text.
- Spans are token indices rather than byte ranges of the input, and the end-of-input span is the
  length of the token sequence. The `input` field of `Parser` is not modelled, because only the
  lexer reads it.
- `InstructionOverflow` and `DataOverflow` carry the instruction and the value themselves, not
  their `{:?}` and `{}` strings. `InvalidToken` carries the token's `Display` text as the source does.
- The `fmt::Debug` impl for `Parser` and `Display` for `AddressedInstruction` only format text.
- Rust lifetimes, borrowed `&str` label names and `HashMap` hashing are left out: names are strings
  and the tables are maps.
- `Parser.Parser.ParseTextItem`, `ParseTextInstr`, `ParseTextItems`, `ParseDataItem` and
  `ParseDataItems` split the single `loop { match … }` of `parse_text` and `parse_data` into
  one method per loop and per arm. The order of the effects is the source's.
- `Grammar.TextLabelDef`, `Grammar.DataLabelDef`, `Grammar.LabelInstr` and `Grammar.ImmediateInstr`
  only state that success needs an operand. What they compute is stated by the item lemmas
  (`Grammar.TextLabelStep`, `Grammar.LabelInstrStep`, …) and by the parser methods proved against
  them.
- `Grammar.Run` is one section machine with the section as a parameter. The mutual recursion of
  `parse_text` and `parse_data` is kept in the imperative `Parser.Parser.ParseText` and
  `Parser.Parser.ParseData`.
