/**
 * What the model computes on small programs, stated on the token sequences the lexer produces
 * for them.
 */
module Scenarios {
  import opened Wrappers
  import opened Tokens
  import opened Grammar
  import opened Addressing
  import I = Instructions
  import P = Parser

  /** A whole text stream is addressed to `out` when each instruction resolves to its counterpart. */
  lemma ResolvesTo(text: seq<I.Instruction>, textLabels: LabelTable, dataLabels: LabelTable, out: seq<I.AddressedInstruction>)
    requires |text| == |out|
    requires forall k :: 0 <= k < |text| ==> ResolveOne(text[k], textLabels, dataLabels) == Ok(out[k])
    ensures ResolveText(text, textLabels, dataLabels) == Ok(out)
  {
    var r := ResolveText(text, textLabels, dataLabels);
    assert r.Ok?;
    assert forall k :: 0 <= k < |text| ==> r.value[k] == out[k];
    assert r.value == out;
  }

  // `.text br L .label L noop`: a branch to a label defined later in the same section.

  const FORWARD := [Text, Branch, LabelIdent("L"), Label, LabelIdent("L"), NoOp]
  const FORWARD_ASM := Asm([I.Instruction.Branch("L"), I.Instruction.NoOp], [], map["L" := LabelEntry(1, 4)], map[])

  /** The label is defined after one instruction, at its name's token, index 4. */
  lemma ForwardBranchParses(toks: seq<Token>)
    requires toks == FORWARD
    ensures ParseProgram(toks) == Ok(FORWARD_ASM)
  {
    assert ParseProgram(toks) == Run(toks, 1, InText, EMPTY);
    ForwardBranchText(toks);
  }

  /** The text section of the forward branch program: `br L`, then `.label L`, then `noop`. */
  lemma ForwardBranchText(toks: seq<Token>)
    requires |toks| == 6 && toks[1] == Branch && toks[2] == LabelIdent("L")
    requires toks[3] == Label && toks[4] == LabelIdent("L") && toks[5] == NoOp
    ensures Run(toks, 1, InText, EMPTY) == Ok(FORWARD_ASM)
  {
    var s1 := EMPTY.(text := EMPTY.text + [I.Instruction.Branch("L")]);
    var s2 := s1.(textLabels := s1.textLabels["L" := LabelEntry(1, 4)]);
    var s3 := s2.(text := s2.text + [I.Instruction.NoOp]);
    assert WithLabel(toks[1], toks[2].name) == I.Instruction.Branch("L");
    LabelInstrStep(toks, 1, EMPTY);
    assert |s1.text| % 256 == 1;
    TextLabelStep(toks, 3, s1);
    NoOpStep(toks, 5, s2);
    assert Run(toks, 6, InText, s3) == Ok(s3);
    assert s3 == FORWARD_ASM;
  }

  /** Addressing gives the branch the label's index, 1. */
  lemma ForwardBranchAddresses(a: Asm)
    requires a == FORWARD_ASM
    ensures Address(a) == Ok(AddressedProgram([I.AddressedInstruction.Branch(1), I.AddressedInstruction.NoOp], []))
  {
    var out := [I.AddressedInstruction.Branch(1), I.AddressedInstruction.NoOp];
    assert ResolveOne(a.text[0], a.textLabels, a.dataLabels) == Ok(out[0]);
    ResolvesTo(a.text, a.textLabels, a.dataLabels, out);
  }

  // `.data .label X .number 5 .number 7 .text add X clac`: one data label used by a text instruction.

  const END_TO_END := [Data, Label, LabelIdent("X"), Number, NumLiteral(5), Number, NumLiteral(7), Text, Add, LabelIdent("X"), ClearAc]
  const END_TO_END_ASM := Asm([I.Instruction.Add("X"), I.Instruction.ClearAc], [5, 7], map[], map["X" := LabelEntry(0, 2)])
  const END_TO_END_PROGRAM := AddressedProgram([I.AddressedInstruction.Add(0), I.AddressedInstruction.ClearAc], [5, 7])

  /** The data section defines `X` at data address 0 and holds 5 and 7; the text section uses `X`. */
  lemma EndToEndParses(toks: seq<Token>)
    requires toks == END_TO_END
    ensures ParseProgram(toks) == Ok(END_TO_END_ASM)
  {
    assert ParseProgram(toks) == Run(toks, 1, InData, EMPTY);
    EndToEndDataSection(toks);
    EndToEndTextSection(toks);
  }

  /** After the data section: `X` is defined at its name's token, index 2, and the words are 5 and 7. */
  lemma EndToEndDataSection(toks: seq<Token>)
    requires |toks| == 11 && toks[1] == Label && toks[2] == LabelIdent("X")
    requires toks[3] == Number && toks[4] == NumLiteral(5) && toks[5] == Number && toks[6] == NumLiteral(7) && toks[7] == Text
    ensures Run(toks, 1, InData, EMPTY) == Run(toks, 8, InText, END_TO_END_ASM.(text := []))
  {
    assert NumberAt(toks, 3) == Ok(5) && [] + [5] == [5];
    assert NumberAt(toks, 5) == Ok(7) && [5] + [7] == [5, 7];
    assert NumberRun(toks, 3, []) == NumberRun(toks, 5, [5]);
    assert NumberRun(toks, 5, [5]) == NumberRun(toks, 7, [5, 7]);
    var s1 := END_TO_END_ASM.(text := []);
    DataLabelStep(toks, 1, EMPTY, [5, 7], 7);
    assert EMPTY.(dataLabels := EMPTY.dataLabels["X" := LabelEntry(|EMPTY.data| % 256, 2)], data := EMPTY.data + [5, 7]) == s1;
    P.DataRunText(toks, 7, s1);
  }

  /** The text section adds the two instructions `add X` and `clac`. */
  lemma EndToEndTextSection(toks: seq<Token>)
    requires toks == END_TO_END
    ensures Run(toks, 8, InText, END_TO_END_ASM.(text := [])) == Ok(END_TO_END_ASM)
  {
    var s1 := END_TO_END_ASM.(text := []);
    assert WithLabel(toks[8], toks[9].name) == I.Instruction.Add("X");
    LabelInstrStep(toks, 8, s1);
    var s2 := s1.(text := s1.text + [I.Instruction.Add("X")]);
    ClearAcStep(toks, 10, s2);
    assert s2.(text := s2.text + [I.Instruction.ClearAc]) == END_TO_END_ASM;
  }

  /** `X` denotes data address 0. */
  lemma EndToEndAddresses(a: Asm)
    requires a == END_TO_END_ASM
    ensures Address(a) == Ok(END_TO_END_PROGRAM)
  {
    var out := END_TO_END_PROGRAM.text;
    assert ResolveOne(a.text[0], a.textLabels, a.dataLabels) == Ok(out[0]);
    assert ResolveOne(a.text[1], a.textLabels, a.dataLabels) == Ok(out[1]);
    ResolvesTo(a.text, a.textLabels, a.dataLabels, out);
  }

  /** The data bytes are `00 05 00 07` and the text bytes `20 00 30 00`. */
  lemma EndToEndBytes(p: AddressedProgram)
    requires p == END_TO_END_PROGRAM
    ensures WordBytes(p.data) == [0x00, 0x05, 0x00, 0x07]
    ensures TextBytes(p.text) == [0x20, 0x00, 0x30, 0x00]
  {
    assert I.Bytes(p.text[0]) == [0x20, 0x00];
    assert I.Bytes(p.text[1]) == [0x30, 0x00];
    assert TextBytes(p.text) == I.Bytes(p.text[0]) + I.Bytes(p.text[1]) + [];
    FromBigEndianRoundTrip([0x00, 0x05]);
    FromBigEndianRoundTrip([0x00, 0x07]);
    assert FromBigEndian([0x00, 0x05]) == 5 && FromBigEndian([0x00, 0x07]) == 7;
    assert WordBytes(p.data) == BigEndian(p.data[0]) + BigEndian(p.data[1]) + [];
  }

  /** Two `.label X` in one data section: the second, at token 4, duplicates the first, at token 2. */
  lemma DuplicateDataLabel(toks: seq<Token>)
    requires toks == [Data, Label, LabelIdent("X"), Label, LabelIdent("X")]
    ensures ParseProgram(toks) == Err(DuplicateLabel("X", 2, 4))
  {
    NumberRunOfPairs(toks, 3, [], []);
    var s1 := EMPTY.(dataLabels := EMPTY.dataLabels["X" := LabelEntry(0, 2)], data := EMPTY.data + []);
    DataLabelStep(toks, 1, EMPTY, [], 3);
    DataLabelDuplicate(toks, 3, s1);
  }

  /** One name defined once as a text label and once as a data label: the two tables are independent. */
  lemma SameNameInBothTables(toks: seq<Token>)
    requires toks == [Text, Label, LabelIdent("X"), Data, Label, LabelIdent("X")]
    ensures ParseProgram(toks) == Ok(Asm([], [], map["X" := LabelEntry(0, 2)], map["X" := LabelEntry(0, 5)]))
  {
    var s1 := EMPTY.(textLabels := EMPTY.textLabels["X" := LabelEntry(0, 2)]);
    var s2 := s1.(dataLabels := s1.dataLabels["X" := LabelEntry(0, 5)], data := s1.data + []);
    assert ParseProgram(toks) == Run(toks, 1, InText, EMPTY);
    TextLabelStep(toks, 1, EMPTY);
    P.TextRunData(toks, 3, s1);
    NumberRunOfPairs(toks, 6, [], []);
    DataLabelStep(toks, 4, s1, [], 6);
    assert Run(toks, 6, InData, s2) == Ok(s2);
    assert s2 == Asm([], [], map["X" := LabelEntry(0, 2)], map["X" := LabelEntry(0, 5)]);
  }

  /** `addi 127` is accepted. */
  lemma LargestImmediate(toks: seq<Token>)
    requires toks == [Text, AddImmediate, NumLiteral(127)]
    ensures ParseProgram(toks) == Ok(Asm([I.Instruction.AddImmediate(127)], [], map[], map[]))
  {
    assert ParseProgram(toks) == Run(toks, 1, InText, EMPTY);
    ImmediateInstrStep(toks, 1, EMPTY);
    assert EMPTY.(text := EMPTY.text + [WithImmediate(AddImmediate, 127)]) == Asm([I.Instruction.AddImmediate(127)], [], map[], map[]);
  }

  /** The largest and smallest immediates encode as bytes `0x7f` and `0x80`. */
  lemma ImmediateBytes()
    ensures I.Bytes(I.AddressedInstruction.AddImmediate(127)) == [0x10, 0x7f]
    ensures I.Bytes(I.AddressedInstruction.AddImmediate(-128)) == [0x10, 0x80]
  {
  }

  /** `addi 128` does not fit in `i8` and is an `InvalidNumber` at the literal. */
  lemma ImmediateTooLarge(toks: seq<Token>)
    requires toks == [Text, AddImmediate, NumLiteral(128)]
    ensures ParseProgram(toks) == Err(InvalidNumber(128, 2))
  {
    ImmediateInstrFails(toks, 1, EMPTY);
  }

  /**
   * The literal grammar has no sign: `addi -128` lexes as an error token for `-` followed by the
   * literal 128, and is rejected where an integer is expected. No source text produces the
   * immediate -128.
   */
  lemma NegativeImmediate(toks: seq<Token>)
    requires toks == [Text, AddImmediate, Error, NumLiteral(128)]
    ensures ParseProgram(toks) == Err(InvalidToken("Error", EXPECT_INTEGER, 2))
  {
    ImmediateInstrFails(toks, 1, EMPTY);
  }

  /** A reference to a label that is never defined parses, and fails when addressed. */
  lemma UndefinedLabel(toks: seq<Token>)
    requires toks == [Text, Add, LabelIdent("Y")]
    ensures var a := Asm([I.Instruction.Add("Y")], [], map[], map[]);
      ParseProgram(toks) == Ok(a) && Address(a) == Err(UnknownLabel("Y"))
  {
    LabelInstrStep(toks, 1, EMPTY);
    var a := Asm([I.Instruction.Add("Y")], [], map[], map[]);
    assert EMPTY.(text := EMPTY.text + [I.Instruction.Add("Y")]) == a;
    assert ResolveOne(a.text[0], a.textLabels, a.dataLabels) == Err(UnknownLabel("Y"));
  }

  /** A text section of `n` `noop`s. */
  function NoOpProgram(n: nat): (toks: seq<Token>)
    ensures |toks| == n + 1 && toks[0] == Text
    ensures forall k :: 1 <= k < |toks| ==> toks[k] == NoOp
  {
    [Text] + seq(n, _ => NoOp)
  }

  /**
   * A text section of `n` `noop`s parses exactly when `n` is at most 255; the 256th `noop`, token
   * 256, is the `InstructionOverflow`.
   */
  lemma NoOpProgramParses(n: nat)
    ensures n <= MAX_ITEMS ==> ParseProgram(NoOpProgram(n)) == Ok(EMPTY.(text := NoOps(n)))
    ensures n > MAX_ITEMS ==> ParseProgram(NoOpProgram(n)) == Err(InstructionOverflow(I.Instruction.NoOp, MAX_ITEMS + 1))
  {
    if n <= MAX_ITEMS {
      NoOpRunFits(NoOpProgram(n), 1, EMPTY);
      assert EMPTY.text + NoOps(n) == NoOps(n);
    } else {
      NoOpRunOverflows(NoOpProgram(n), 1, EMPTY);
    }
  }
}
