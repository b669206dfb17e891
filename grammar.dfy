/**
 * The meaning of the first pass of src/parser.rs, as pure functions over the token sequence: a
 * two-state section machine that grows the text and data streams and the two label tables. An
 * index into the token sequence stands for a source span; the length of the sequence stands for
 * the end of input. The imperative parser in module Parser is proved to compute these functions.
 */
module Grammar {
  import opened Wrappers
  import opened Numerals
  import opened Tokens
  import I = Instructions

  /** A source location: the index of a token, or the length of the token sequence for the end of input. */
  type Span = nat

  /** What a label table stores: the address the label denotes and where it was defined. */
  datatype LabelEntry = LabelEntry(address: UInt8, span: Span)

  type LabelTable = map<string, LabelEntry>

  datatype ParseError =
    | InvalidToken(found: string, expected: string, span: Span)
    | UnexpectedEof(expected: string)
    | DuplicateLabel(name: string, first: Span, second: Span)
    | InstructionOverflow(instr: I.Instruction, span: Span)
    | DataOverflow(value: Int16, span: Span)
    | InvalidNumber(value: Int16, span: Span)
    | UnknownLabel(name: string)

  const EXPECT_SECTION := "expected `.text` or `.data`"
  const EXPECT_INTEGER := "expected an integer"
  const EXPECT_LABEL := "expected a label"
  const EXPECT_NUMBER := "expected `.number`"
  const EXPECT_TEXT_ITEM := "expected mnemonic, label, or `.data`"
  const EXPECT_DATA_ITEM := "expected `.label`"

  /** Neither stream may hold more than 255 entries: address 255 is never given to an entry. */
  const MAX_ITEMS := 255

  /** The parser's accumulated state: both streams and both label tables. */
  datatype Asm = Asm(text: seq<I.Instruction>, data: seq<Int16>, textLabels: LabelTable, dataLabels: LabelTable)

  const EMPTY := Asm([], [], map[], map[])

  /** The two states of the section machine. */
  datatype Section = InText | InData

  /** The token at index `i`, or `None` at the end of input. */
  function TokenAt(toks: seq<Token>, i: nat): Option<Token> {
    if i < |toks| then Some(toks[i]) else None
  }

  /** `parse_label`: the operand at `i` must be a label identifier. */
  function LabelOperand(toks: seq<Token>, i: nat): (r: Result<string, ParseError>)
    ensures r.Ok? <==> i < |toks| && toks[i].LabelIdent?
    ensures r.Ok? ==> toks[i] == LabelIdent(r.value)
    ensures i >= |toks| ==> r == Err(UnexpectedEof(EXPECT_LABEL))
    ensures i < |toks| && !toks[i].LabelIdent? ==> r == Err(InvalidToken(Display(toks[i]), EXPECT_LABEL, i))
  {
    if i >= |toks| then Err(UnexpectedEof(EXPECT_LABEL))
    else match toks[i]
      case LabelIdent(name) => Ok(name)
      case other => Err(InvalidToken(Display(other), EXPECT_LABEL, i))
  }

  /** `parse_immediate`: the operand at `i` must be a literal that fits in `i8`. */
  function ImmediateOperand(toks: seq<Token>, i: nat): (r: Result<I.Immediate, ParseError>)
    ensures r.Ok? <==> i < |toks| && toks[i].NumLiteral? && -128 <= toks[i].value <= 127
    ensures r.Ok? ==> toks[i] == NumLiteral(r.value)
    ensures i >= |toks| ==> r == Err(UnexpectedEof(EXPECT_INTEGER))
    ensures i < |toks| && toks[i].NumLiteral? && !(-128 <= toks[i].value <= 127)
      ==> r == Err(InvalidNumber(toks[i].value, i))
    ensures i < |toks| && !toks[i].NumLiteral? ==> r == Err(InvalidToken(Display(toks[i]), EXPECT_INTEGER, i))
  {
    if i >= |toks| then Err(UnexpectedEof(EXPECT_INTEGER))
    else match toks[i]
      // `i8::try_from` succeeds exactly on -128..127
      case NumLiteral(v) => if -128 <= v <= 127 then Ok(v) else Err(InvalidNumber(v, i))
      case other => Err(InvalidToken(Display(other), EXPECT_INTEGER, i))
  }

  /** `parse_number`: a `.number` directive at `i` followed by a literal at `i + 1`. */
  function NumberAt(toks: seq<Token>, i: nat): (r: Result<Int16, ParseError>)
    ensures r.Ok? <==> i + 1 < |toks| && toks[i] == Number && toks[i + 1].NumLiteral?
    ensures r.Ok? ==> toks[i + 1] == NumLiteral(r.value)
    ensures i < |toks| && toks[i] == Number && i + 1 == |toks| ==> r == Err(UnexpectedEof(EXPECT_INTEGER))
    ensures i + 1 < |toks| && toks[i] == Number && !toks[i + 1].NumLiteral?
      ==> r == Err(InvalidToken(Display(toks[i + 1]), EXPECT_INTEGER, i + 1))
  {
    if i >= |toks| then Err(UnexpectedEof(EXPECT_NUMBER))
    else match toks[i]
      case Number =>
        if i + 1 >= |toks| then Err(UnexpectedEof(EXPECT_INTEGER))
        else (match toks[i + 1]
          case NumLiteral(v) => Ok(v)
          case other => Err(InvalidToken(Display(other), EXPECT_INTEGER, i + 1)))
      case other => Err(InvalidToken(Display(other), EXPECT_NUMBER, i))
  }

  /**
   * `parse_number_list`: while the next token is `.number`, read one `.number <literal>` pair;
   * `acc` holds the values read so far. The result is every value, in order, and the index of the
   * first token after the run.
   */
  function NumberRun(toks: seq<Token>, i: nat, acc: seq<Int16>): (r: Result<(seq<Int16>, nat), ParseError>)
    requires i <= |toks|
    ensures r.Ok? ==> i <= r.value.1 <= |toks| && acc <= r.value.0
    decreases |toks| - i
  {
    if i < |toks| && toks[i] == Number then
      match NumberAt(toks, i)
      case Err(e) => Err(e)
      case Ok(v) => NumberRun(toks, i + 2, acc + [v])
    else Ok((acc, i))
  }

  /** The tokens of a run of `.number` directives holding the given values. */
  function NumberTokens(vs: seq<Int16>): (ts: seq<Token>)
    ensures |ts| == 2 * |vs|
  {
    if vs == [] then [] else [Number, NumLiteral(vs[0])] + NumberTokens(vs[1..])
  }

  /** `add_instr`: append an instruction unless the text stream already holds 255. */
  function PushInstr(text: seq<I.Instruction>, instr: I.Instruction, span: Span): (r: Result<seq<I.Instruction>, ParseError>)
    ensures r.Err? <==> |text| == MAX_ITEMS
    ensures r.Err? ==> r.error == InstructionOverflow(instr, span)
    ensures r.Ok? ==> r.value == text + [instr]
    ensures |text| <= MAX_ITEMS && r.Ok? ==> |r.value| <= MAX_ITEMS
  {
    if |text| == MAX_ITEMS then Err(InstructionOverflow(instr, span)) else Ok(text + [instr])
  }

  /** `add_data`: append a data word unless the data stream already holds 255. */
  function PushData(data: seq<Int16>, v: Int16, span: Span): (r: Result<seq<Int16>, ParseError>)
    ensures r.Err? <==> |data| == MAX_ITEMS
    ensures r.Err? ==> r.error == DataOverflow(v, span)
    ensures r.Ok? ==> r.value == data + [v]
    ensures |data| <= MAX_ITEMS && r.Ok? ==> |r.value| <= MAX_ITEMS
  {
    if |data| == MAX_ITEMS then Err(DataOverflow(v, span)) else Ok(data + [v])
  }

  /**
   * `add_data` applied to each value of a run in turn. From a stream within bounds, all values fit
   * exactly when the total stays within 255; otherwise the first value that does not fit is reported.
   */
  function AppendData(data: seq<Int16>, vs: seq<Int16>, span: Span): (r: Result<seq<Int16>, ParseError>)
    ensures |data| <= MAX_ITEMS ==> (r.Ok? <==> |data| + |vs| <= MAX_ITEMS)
    ensures |data| <= MAX_ITEMS && r.Ok? ==> r.value == data + vs
    ensures |data| <= MAX_ITEMS && r.Err? ==> r.error == DataOverflow(vs[MAX_ITEMS - |data|], span)
    decreases |vs|
  {
    if vs == [] then Ok(data)
    else match PushData(data, vs[0], span)
      case Err(e) => Err(e)
      case Ok(d) =>
        var r := AppendData(d, vs[1..], span);
        assert d + vs[1..] == data + vs;
        r
  }

  /**
   * Defining a label: a name already in the table is a duplicate, reported with the first
   * definition's span (the caller keeps its table). A new name denotes `length`, the length of its
   * section's stream, cast to `u8`; every other entry is kept.
   */
  function DefineLabel(table: LabelTable, name: string, length: nat, span: Span): (r: Result<LabelTable, ParseError>)
    ensures r.Err? <==> name in table
    ensures r.Err? ==> r.error == DuplicateLabel(name, table[name].span, span)
    ensures r.Ok? ==> r.value.Keys == table.Keys + {name} && r.value[name].span == span
    ensures r.Ok? ==> forall other :: other in table ==> r.value[other] == table[other]
    ensures r.Ok? && length <= MAX_ITEMS ==> r.value[name].address == length
  {
    if name in table then Err(DuplicateLabel(name, table[name].span, span))
    // `len() as u8`
    else Ok(table[name := LabelEntry(length % 256, span)])
  }

  /** `add_text_label`: the name at `i` is defined in the text table, at the current text length. */
  function TextLabelDef(toks: seq<Token>, i: nat, st: Asm): (r: Result<LabelTable, ParseError>)
    ensures r.Ok? ==> i < |toks| && toks[i].LabelIdent?
  {
    match LabelOperand(toks, i)
    case Err(e) => Err(e)
    case Ok(name) => DefineLabel(st.textLabels, name, |st.text|, i)
  }

  /** `add_data_label`: the name at `i` is defined in the data table, at the current data length. */
  function DataLabelDef(toks: seq<Token>, i: nat, st: Asm): (r: Result<LabelTable, ParseError>)
    ensures r.Ok? ==> i < |toks| && toks[i].LabelIdent?
  {
    match LabelOperand(toks, i)
    case Err(e) => Err(e)
    case Ok(name) => DefineLabel(st.dataLabels, name, |st.data|, i)
  }

  /** The six ALU mnemonics whose operand is a data label. */
  predicate IsAluMnemonic(t: Token) {
    t == Add || t == Subtract || t == Multiply || t == Divide || t == Remainder || t == And
  }

  /** The mnemonics whose operand is a label: the ALU ones, `beqz`, `br` and `stor`. */
  predicate TakesLabel(t: Token) {
    IsAluMnemonic(t) || t == BranchZero || t == Branch || t == Store
  }

  /** The mnemonics whose operand is an immediate. */
  predicate TakesImmediate(t: Token) {
    t == AddImmediate || t == SubtractImmediate || t == MultiplyImmediate || t == DivideImmediate
    || t == RemainderImmediate || t == AndImmediate || t == Shift
  }

  /** The instruction a label-operand mnemonic builds. */
  function WithLabel(t: Token, name: string): I.Instruction
    requires TakesLabel(t)
  {
    match t
    case Add => I.Instruction.Add(name)
    case Subtract => I.Instruction.Subtract(name)
    case Multiply => I.Instruction.Multiply(name)
    case Divide => I.Instruction.Divide(name)
    case Remainder => I.Instruction.Remainder(name)
    case And => I.Instruction.And(name)
    case BranchZero => I.Instruction.BranchZero(name)
    case Branch => I.Instruction.Branch(name)
    case Store => I.Instruction.Store(name)
  }

  /** The instruction an immediate mnemonic builds. */
  function WithImmediate(t: Token, v: I.Immediate): I.Instruction
    requires TakesImmediate(t)
  {
    match t
    case AddImmediate => I.Instruction.AddImmediate(v)
    case SubtractImmediate => I.Instruction.SubtractImmediate(v)
    case MultiplyImmediate => I.Instruction.MultiplyImmediate(v)
    case DivideImmediate => I.Instruction.DivideImmediate(v)
    case RemainderImmediate => I.Instruction.RemainderImmediate(v)
    case AndImmediate => I.Instruction.AndImmediate(v)
    case Shift => I.Instruction.Shift(v)
  }

  /**
   * A label-operand mnemonic builds an instruction that carries the label; it is a branch exactly
   * for `beqz` and `br`, whose label is then looked up in the text table.
   */
  lemma WithLabelOperand(t: Token, name: string)
    requires TakesLabel(t)
    ensures var r := WithLabel(t, name);
      && (r.Add? || r.Subtract? || r.Multiply? || r.Divide? || r.Remainder? || r.And?
          || r.BranchZero? || r.Branch? || r.Store?)
      && r.name == name
      && (r.BranchZero? || r.Branch? <==> t == BranchZero || t == Branch)
      && (r.Store? <==> t == Store)
  {
  }

  /** An immediate mnemonic builds an instruction that carries the immediate; `shift` builds `Shift`. */
  lemma WithImmediateOperand(t: Token, v: I.Immediate)
    requires TakesImmediate(t)
    ensures var r := WithImmediate(t, v);
      && (r.AddImmediate? || r.SubtractImmediate? || r.MultiplyImmediate? || r.DivideImmediate?
          || r.RemainderImmediate? || r.AndImmediate? || r.Shift?)
      && r.imm == v
      && (r.Shift? <==> t == Shift)
  {
  }

  /** A label-operand instruction whose operand is at `i`: read the label, then append. */
  function LabelInstr(toks: seq<Token>, i: nat, t: Token, st: Asm): (r: Result<Asm, ParseError>)
    requires TakesLabel(t)
    ensures r.Ok? ==> i < |toks|
  {
    match LabelOperand(toks, i)
    case Err(e) => Err(e)
    case Ok(name) =>
      match PushInstr(st.text, WithLabel(t, name), i)
      case Err(e) => Err(e)
      case Ok(text) => Ok(st.(text := text))
  }

  /** An immediate instruction whose operand is at `i`: read the immediate, then append. */
  function ImmediateInstr(toks: seq<Token>, i: nat, t: Token, st: Asm): (r: Result<Asm, ParseError>)
    requires TakesImmediate(t)
    ensures r.Ok? ==> i < |toks|
  {
    match ImmediateOperand(toks, i)
    case Err(e) => Err(e)
    case Ok(v) =>
      match PushInstr(st.text, WithImmediate(t, v), i)
      case Err(e) => Err(e)
      case Ok(text) => Ok(st.(text := text))
  }

  /** Where the section machine goes on: the next token index, the section, the new state. */
  datatype Cont = Cont(next: nat, section: Section, asm: Asm)

  /** One item of a text section, starting at token `i`. */
  function TextItem(toks: seq<Token>, i: nat, st: Asm): (r: Result<Cont, ParseError>)
    requires i < |toks|
    ensures r.Ok? ==> i < r.value.next <= |toks|
    ensures r.Ok? ==> r.value.asm.data == st.data && r.value.asm.dataLabels == st.dataLabels
    ensures r.Ok? ==> (r.value.section == InData <==> toks[i].Data?)
    ensures toks[i].Data? ==> r == Ok(Cont(i + 1, InData, st))
    ensures toks[i].Text? || toks[i].Number? || toks[i].NumLiteral? || toks[i].LabelIdent? || toks[i].Error?
      ==> r == Err(InvalidToken(Display(toks[i]), EXPECT_TEXT_ITEM, i))
  {
    var t := toks[i];
    if t.Label? then
      match TextLabelDef(toks, i + 1, st)
      case Err(e) => Err(e)
      case Ok(table) => Ok(Cont(i + 2, InText, st.(textLabels := table)))
    else if t.Data? then Ok(Cont(i + 1, InData, st))
    else if TakesLabel(t) then
      match LabelInstr(toks, i + 1, t, st)
      case Err(e) => Err(e)
      case Ok(st') => Ok(Cont(i + 2, InText, st'))
    else if TakesImmediate(t) then
      match ImmediateInstr(toks, i + 1, t, st)
      case Err(e) => Err(e)
      case Ok(st') => Ok(Cont(i + 2, InText, st'))
    else if t.ClearAc? || t.NoOp? then
      var instr := if t.ClearAc? then I.Instruction.ClearAc else I.Instruction.NoOp;
      match PushInstr(st.text, instr, i)
      case Err(e) => Err(e)
      case Ok(text) => Ok(Cont(i + 1, InText, st.(text := text)))
    else Err(InvalidToken(Display(t), EXPECT_TEXT_ITEM, i))
  }

  /**
   * One item of a data section, starting at token `i`: a label definition followed by the run of
   * `.number` values it marks, which are appended to the data stream after the whole run is read.
   */
  function DataItem(toks: seq<Token>, i: nat, st: Asm): (r: Result<Cont, ParseError>)
    requires i < |toks|
    ensures r.Ok? ==> i < r.value.next <= |toks|
    ensures r.Ok? ==> r.value.asm.text == st.text && r.value.asm.textLabels == st.textLabels
    ensures r.Ok? ==> (r.value.section == InText <==> toks[i].Text?)
    ensures toks[i].Text? ==> r == Ok(Cont(i + 1, InText, st))
    ensures !toks[i].Label? && !toks[i].Text? ==> r == Err(InvalidToken(Display(toks[i]), EXPECT_DATA_ITEM, i))
  {
    match toks[i]
    case Label =>
      (match DataLabelDef(toks, i + 1, st)
      case Err(e) => Err(e)
      case Ok(table) =>
        match NumberRun(toks, i + 2, [])
        case Err(e) => Err(e)
        case Ok((vs, j)) =>
          // the span of every overflow is where the lexer stopped: the token after the run
          match AppendData(st.data, vs, j)
          case Err(e) => Err(e)
          case Ok(data) => Ok(Cont(j, InData, st.(dataLabels := table, data := data))))
    case Text => Ok(Cont(i + 1, InText, st))
    case other => Err(InvalidToken(Display(other), EXPECT_DATA_ITEM, i))
  }

  /** One transition of the section machine. */
  function Step(toks: seq<Token>, i: nat, sec: Section, st: Asm): (r: Result<Cont, ParseError>)
    requires i < |toks|
    ensures r.Ok? ==> i < r.value.next <= |toks|
  {
    if sec.InText? then TextItem(toks, i, st) else DataItem(toks, i, st)
  }

  /** The section machine from token `i` on: the end of input ends the parse in either section. */
  function Run(toks: seq<Token>, i: nat, sec: Section, st: Asm): Result<Asm, ParseError>
    requires i <= |toks|
    decreases |toks| - i
  {
    if i == |toks| then Ok(st)
    else match Step(toks, i, sec, st)
      case Err(e) => Err(e)
      case Ok(c) => Run(toks, c.next, c.section, c.asm)
  }

  /** `parse_input`: the token at `i` must choose the first section. */
  function ParseFrom(toks: seq<Token>, i: nat, st: Asm): (r: Result<Asm, ParseError>)
    requires i <= |toks|
    ensures i == |toks| ==> r == Err(UnexpectedEof(EXPECT_SECTION))
    ensures i < |toks| && !toks[i].Text? && !toks[i].Data?
      ==> r == Err(InvalidToken(Display(toks[i]), EXPECT_SECTION, i))
  {
    if i == |toks| then Err(UnexpectedEof(EXPECT_SECTION))
    else match toks[i]
      case Text => Run(toks, i + 1, InText, st)
      case Data => Run(toks, i + 1, InData, st)
      case other => Err(InvalidToken(Display(other), EXPECT_SECTION, i))
  }

  /** The first pass over a whole token sequence. */
  function ParseProgram(toks: seq<Token>): Result<Asm, ParseError> {
    ParseFrom(toks, 0, EMPTY)
  }

  // ---------------------------------------------------------------------------------------------
  // Properties of the first pass

  /** A successful run reads exactly `.number <literal>` pairs, holding the new values in order, and stops before a token that is not `.number`. */
  lemma {:induction false} NumberRunReadsPairs(toks: seq<Token>, i: nat, acc: seq<Int16>)
    requires i <= |toks| && NumberRun(toks, i, acc).Ok?
    ensures var (vs, j) := NumberRun(toks, i, acc).value;
      |acc| <= |vs| && toks[i..j] == NumberTokens(vs[|acc|..]) && (j == |toks| || toks[j] != Number)
    decreases |toks| - i
  {
    var (vs, j) := NumberRun(toks, i, acc).value;
    if i < |toks| && toks[i] == Number {
      var v := NumberAt(toks, i).value;
      NumberRunReadsPairs(toks, i + 2, acc + [v]);
      assert vs[|acc|..][1..] == vs[|acc| + 1..];
      assert vs[|acc|] == v by {
        assert vs[..|acc| + 1] == acc + [v];
      }
      assert toks[i..j] == [toks[i], toks[i + 1]] + toks[i + 2..j];
    } else {
      assert vs[|acc|..] == [];
    }
  }

  /** Conversely, a run of `.number <literal>` pairs followed by anything but `.number` is read in full. */
  lemma {:induction false} NumberRunOfPairs(toks: seq<Token>, i: nat, acc: seq<Int16>, vs: seq<Int16>)
    requires i + 2 * |vs| <= |toks| && toks[i..i + 2 * |vs|] == NumberTokens(vs)
    requires i + 2 * |vs| == |toks| || toks[i + 2 * |vs|] != Number
    ensures NumberRun(toks, i, acc) == Ok((acc + vs, i + 2 * |vs|))
    decreases |vs|
  {
    if vs == [] {
      assert acc + vs == acc;
    } else {
      assert toks[i] == NumberTokens(vs)[0] == Number;
      assert toks[i + 1] == NumberTokens(vs)[1] == NumLiteral(vs[0]);
      assert toks[i + 2..i + 2 + 2 * |vs[1..]|] == NumberTokens(vs[1..]) by {
        assert toks[i + 2..i + 2 * |vs|] == toks[i..i + 2 * |vs|][2..];
      }
      NumberRunOfPairs(toks, i + 2, acc + [vs[0]], vs[1..]);
      assert acc + [vs[0]] + vs[1..] == acc + vs;
    }
  }

  /**
   * The invariant of the parser's state: both streams within bounds, and every label denoting an
   * address no greater than its stream's length and carrying the span of a token.
   */
  ghost predicate Wf(st: Asm, n: nat) {
    && |st.text| <= MAX_ITEMS && |st.data| <= MAX_ITEMS
    && (forall name :: name in st.textLabels ==> st.textLabels[name].address <= |st.text| && st.textLabels[name].span < n)
    && (forall name :: name in st.dataLabels ==> st.dataLabels[name].address <= |st.data| && st.dataLabels[name].span < n)
  }

  /** `st'` grows `st`: the streams only gain entries at the end, and no label is removed or redefined. */
  ghost predicate Extends(st: Asm, st': Asm) {
    && st.text <= st'.text && st.data <= st'.data
    && (forall name :: name in st.textLabels ==> name in st'.textLabels && st'.textLabels[name] == st.textLabels[name])
    && (forall name :: name in st.dataLabels ==> name in st'.dataLabels && st'.dataLabels[name] == st.dataLabels[name])
  }

  lemma ExtendsTransitive(a: Asm, b: Asm, c: Asm)
    requires Extends(a, b) && Extends(b, c)
    ensures Extends(a, c)
  {
  }

  lemma AppendKeepsWf(st: Asm, text: seq<I.Instruction>, data: seq<Int16>, n: nat)
    requires Wf(st, n) && st.text <= text && st.data <= data && |text| <= MAX_ITEMS && |data| <= MAX_ITEMS
    ensures Wf(st.(text := text, data := data), n) && Extends(st, st.(text := text, data := data))
  {
  }

  lemma DefineKeepsWf(table: LabelTable, name: string, length: nat, span: Span, n: nat)
    requires DefineLabel(table, name, length, span).Ok? && length <= MAX_ITEMS && span < n
    requires forall k :: k in table ==> table[k].address <= length && table[k].span < n
    ensures var table' := DefineLabel(table, name, length, span).value;
      && (forall k :: k in table' ==> table'[k].address <= length && table'[k].span < n)
      && (forall k :: k in table ==> k in table' && table'[k] == table[k])
  {
  }

  lemma TextItemKeepsWf(toks: seq<Token>, i: nat, st: Asm)
    requires i < |toks| && Wf(st, |toks|) && TextItem(toks, i, st).Ok?
    ensures Wf(TextItem(toks, i, st).value.asm, |toks|)
    ensures Extends(st, TextItem(toks, i, st).value.asm)
  {
    var t, n := toks[i], |toks|;
    var st' := TextItem(toks, i, st).value.asm;
    if t == Label {
      var name := LabelOperand(toks, i + 1).value;
      DefineKeepsWf(st.textLabels, name, |st.text|, i + 1, n);
    } else if t == Data {
    } else if TakesLabel(t) {
      var name := LabelOperand(toks, i + 1).value;
      AppendKeepsWf(st, st.text + [WithLabel(t, name)], st.data, n);
    } else if TakesImmediate(t) {
      var v := ImmediateOperand(toks, i + 1).value;
      AppendKeepsWf(st, st.text + [WithImmediate(t, v)], st.data, n);
    } else {
      assert st'.text == st.text + [st'.text[|st.text|]];
      AppendKeepsWf(st, st'.text, st.data, n);
    }
  }

  lemma DataItemKeepsWf(toks: seq<Token>, i: nat, st: Asm)
    requires i < |toks| && Wf(st, |toks|) && DataItem(toks, i, st).Ok?
    ensures Wf(DataItem(toks, i, st).value.asm, |toks|)
    ensures Extends(st, DataItem(toks, i, st).value.asm)
  {
    var n := |toks|;
    if toks[i] == Label {
      var name := LabelOperand(toks, i + 1).value;
      var (vs, j) := NumberRun(toks, i + 2, []).value;
      var data := AppendData(st.data, vs, j).value;
      DefineKeepsWf(st.dataLabels, name, |st.data|, i + 1, n);
      AppendKeepsWf(st, st.text, data, n);
    }
  }

  /** Every transition keeps the invariant and only grows the state. */
  lemma StepKeepsWf(toks: seq<Token>, i: nat, sec: Section, st: Asm)
    requires i < |toks| && Wf(st, |toks|) && Step(toks, i, sec, st).Ok?
    ensures Wf(Step(toks, i, sec, st).value.asm, |toks|)
    ensures Extends(st, Step(toks, i, sec, st).value.asm)
  {
    if sec == InText {
      TextItemKeepsWf(toks, i, st);
    } else {
      DataItemKeepsWf(toks, i, st);
    }
  }

  /** A successful run from a well-formed state ends in a well-formed state that extends it. */
  lemma {:induction false} RunKeepsWf(toks: seq<Token>, i: nat, sec: Section, st: Asm)
    requires i <= |toks| && Wf(st, |toks|) && Run(toks, i, sec, st).Ok?
    ensures Wf(Run(toks, i, sec, st).value, |toks|)
    ensures Extends(st, Run(toks, i, sec, st).value)
    decreases |toks| - i
  {
    if i < |toks| {
      var c := Step(toks, i, sec, st).value;
      StepKeepsWf(toks, i, sec, st);
      RunKeepsWf(toks, c.next, c.section, c.asm);
      ExtendsTransitive(st, c.asm, Run(toks, i, sec, st).value);
    }
  }

  /** Whatever a parse produces holds at most 255 instructions and 255 data words, and its labels denote addresses within them. */
  lemma ParseProgramWf(toks: seq<Token>)
    requires ParseProgram(toks).Ok?
    ensures Wf(ParseProgram(toks).value, |toks|)
  {
    if toks[0] == Text {
      RunKeepsWf(toks, 1, InText, EMPTY);
    } else {
      RunKeepsWf(toks, 1, InData, EMPTY);
    }
  }

  /** `n` copies of the `noop` instruction. */
  function NoOps(n: nat): (r: seq<I.Instruction>)
    ensures |r| == n
  {
    if n == 0 then [] else [I.Instruction.NoOp] + NoOps(n - 1)
  }

  // ---------------------------------------------------------------------------------------------
  // Single items of the section machine

  /** A label-operand mnemonic followed by a label appends that instruction and moves past both tokens. */
  lemma LabelInstrStep(toks: seq<Token>, i: nat, st: Asm)
    requires i + 1 < |toks| && TakesLabel(toks[i]) && toks[i + 1].LabelIdent? && |st.text| < MAX_ITEMS
    ensures Run(toks, i, InText, st)
      == Run(toks, i + 2, InText, st.(text := st.text + [WithLabel(toks[i], toks[i + 1].name)]))
  {
    assert LabelInstr(toks, i + 1, toks[i], st) == Ok(st.(text := st.text + [WithLabel(toks[i], toks[i + 1].name)]));
  }

  /** An immediate mnemonic followed by a literal within `i8` appends that instruction. */
  lemma ImmediateInstrStep(toks: seq<Token>, i: nat, st: Asm)
    requires i + 1 < |toks| && TakesImmediate(toks[i]) && |st.text| < MAX_ITEMS
    requires toks[i + 1].NumLiteral? && -128 <= toks[i + 1].value <= 127
    ensures Run(toks, i, InText, st)
      == Run(toks, i + 2, InText, st.(text := st.text + [WithImmediate(toks[i], toks[i + 1].value)]))
  {
    var st' := st.(text := st.text + [WithImmediate(toks[i], toks[i + 1].value)]);
    assert ImmediateOperand(toks, i + 1) == Ok(toks[i + 1].value);
    assert ImmediateInstr(toks, i + 1, toks[i], st) == Ok(st');
    assert !toks[i].Label? && !toks[i].Data? && !TakesLabel(toks[i]);
    assert TextItem(toks, i, st) == Ok(Cont(i + 2, InText, st'));
  }

  /** An immediate mnemonic whose operand is not an `i8` literal ends the parse at the operand. */
  lemma ImmediateInstrFails(toks: seq<Token>, i: nat, st: Asm)
    requires i + 1 < |toks| && TakesImmediate(toks[i])
    requires !(toks[i + 1].NumLiteral? && -128 <= toks[i + 1].value <= 127)
    ensures Run(toks, i, InText, st) == Err(ImmediateOperand(toks, i + 1).error)
  {
    assert ImmediateInstr(toks, i + 1, toks[i], st) == Err(ImmediateOperand(toks, i + 1).error);
  }

  /** `.label` with a new name in the text section defines it at the current text length. */
  lemma TextLabelStep(toks: seq<Token>, i: nat, st: Asm)
    requires i + 1 < |toks| && toks[i] == Label && toks[i + 1].LabelIdent?
    requires toks[i + 1].name !in st.textLabels
    ensures Run(toks, i, InText, st)
      == Run(toks, i + 2, InText, st.(textLabels := st.textLabels[toks[i + 1].name := LabelEntry(|st.text| % 256, i + 1)]))
  {
    assert TextLabelDef(toks, i + 1, st) == Ok(st.textLabels[toks[i + 1].name := LabelEntry(|st.text| % 256, i + 1)]);
  }

  /**
   * `.label` with a new name in the data section, followed by a run of `.number` values that fits,
   * defines the name at the current data length and appends the whole run.
   */
  lemma DataLabelStep(toks: seq<Token>, i: nat, st: Asm, vs: seq<Int16>, j: nat)
    requires i + 1 < |toks| && toks[i] == Label && toks[i + 1].LabelIdent?
    requires toks[i + 1].name !in st.dataLabels
    requires NumberRun(toks, i + 2, []) == Ok((vs, j)) && |st.data| + |vs| <= MAX_ITEMS
    ensures Run(toks, i, InData, st)
      == Run(toks, j, InData, st.(dataLabels := st.dataLabels[toks[i + 1].name := LabelEntry(|st.data| % 256, i + 1)],
                                  data := st.data + vs))
  {
    var table := st.dataLabels[toks[i + 1].name := LabelEntry(|st.data| % 256, i + 1)];
    assert DataLabelDef(toks, i + 1, st) == Ok(table);
    assert DataItem(toks, i, st) == Ok(Cont(j, InData, st.(dataLabels := table, data := st.data + vs)));
  }

  /** `.label` with a name the data table already holds is a duplicate of the first definition. */
  lemma DataLabelDuplicate(toks: seq<Token>, i: nat, st: Asm)
    requires i + 1 < |toks| && toks[i] == Label && toks[i + 1].LabelIdent?
    requires toks[i + 1].name in st.dataLabels
    ensures Run(toks, i, InData, st)
      == Err(DuplicateLabel(toks[i + 1].name, st.dataLabels[toks[i + 1].name].span, i + 1))
  {
    assert DataItem(toks, i, st).Err?;
  }

  lemma NoOpStep(toks: seq<Token>, i: nat, st: Asm)
    requires i < |toks| && toks[i] == NoOp && |st.text| < MAX_ITEMS
    ensures Run(toks, i, InText, st) == Run(toks, i + 1, InText, st.(text := st.text + [I.Instruction.NoOp]))
  {
    NoOpItem(toks, i, st);
  }

  lemma AppendNoOps(s: seq<I.Instruction>, n: nat)
    requires n > 0
    ensures s + NoOps(n) == (s + [I.Instruction.NoOp]) + NoOps(n - 1)
  {
    assert s + ([I.Instruction.NoOp] + NoOps(n - 1)) == (s + [I.Instruction.NoOp]) + NoOps(n - 1);
  }

  /**
   * The text stream takes a run of `noop`s in full while it stays within 255 instructions.
   */
  lemma {:induction false} NoOpRunFits(toks: seq<Token>, i: nat, st: Asm)
    requires i <= |toks| && |st.text| + (|toks| - i) <= MAX_ITEMS
    requires forall k :: i <= k < |toks| ==> toks[k] == NoOp
    ensures Run(toks, i, InText, st) == Ok(st.(text := st.text + NoOps(|toks| - i)))
    decreases |toks| - i
  {
    if i < |toks| {
      var st' := st.(text := st.text + [I.Instruction.NoOp]);
      NoOpStep(toks, i, st);
      NoOpRunFits(toks, i + 1, st');
      AppendNoOps(st.text, |toks| - i);
    } else {
      assert st.text + NoOps(0) == st.text;
    }
  }

  /**
   * The first `noop` beyond the 255th instruction is an `InstructionOverflow` carrying that
   * `noop`'s span.
   */
  lemma {:induction false} NoOpRunOverflows(toks: seq<Token>, i: nat, st: Asm)
    requires i <= |toks| && |st.text| <= MAX_ITEMS < |st.text| + (|toks| - i)
    requires forall k :: i <= k < |toks| ==> toks[k] == NoOp
    ensures Run(toks, i, InText, st) == Err(InstructionOverflow(I.Instruction.NoOp, i + MAX_ITEMS - |st.text|))
    decreases |toks| - i
  {
    NoOpItem(toks, i, st);
    if |st.text| < MAX_ITEMS {
      var st' := st.(text := st.text + [I.Instruction.NoOp]);
      assert Run(toks, i, InText, st) == Run(toks, i + 1, InText, st');
      NoOpRunOverflows(toks, i + 1, st');
    }
  }

  /** `clac` below the bound appends one `ClearAc`. */
  lemma ClearAcStep(toks: seq<Token>, i: nat, st: Asm)
    requires i < |toks| && toks[i] == ClearAc && |st.text| < MAX_ITEMS
    ensures Run(toks, i, InText, st) == Run(toks, i + 1, InText, st.(text := st.text + [I.Instruction.ClearAc]))
  {
    assert TextItem(toks, i, st) == Ok(Cont(i + 1, InText, st.(text := st.text + [I.Instruction.ClearAc])));
  }

  lemma NoOpItem(toks: seq<Token>, i: nat, st: Asm)
    requires i < |toks| && toks[i] == NoOp
    ensures TextItem(toks, i, st)
      == if |st.text| == MAX_ITEMS then Err(InstructionOverflow(I.Instruction.NoOp, i))
         else Ok(Cont(i + 1, InText, st.(text := st.text + [I.Instruction.NoOp])))
  {
  }
}
