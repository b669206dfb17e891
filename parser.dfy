/**
 * The parser object of src/parser.rs: a cursor over the lexer's token stream with one token of
 * look-ahead, and the two streams and two label tables it fills in place. Each method is proved to
 * do what the corresponding function of module Grammar says, so a whole parse computes
 * `Grammar.ParseProgram`, and addressing computes `Addressing.Address`.
 *
 * The lexer is modelled by the token sequence it produces: `pos` is the number of tokens it has
 * handed out and `span` the index of the last one (the length of the sequence once it is exhausted).
 */
module Parser {
  import opened Wrappers
  import opened Numerals
  import opened Tokens
  import opened Grammar
  import opened Addressing
  import I = Instructions

  class Parser {
    const tokens: seq<Token>
    var pos: nat
    var span: Span
    var peeked: Option<Token>

    var text: seq<I.Instruction>
    var data: seq<Int16>
    var textLabels: LabelTable
    var dataLabels: LabelTable

    /** The lexer stays within the input, and a peeked token is the one the lexer handed out last. */
    ghost predicate Valid()
      reads this`pos, this`span, this`peeked, this`text, this`data
    {
      && pos <= |tokens| && span <= |tokens|
      && (peeked.Some? ==> 0 < pos && tokens[pos - 1] == peeked.value && span == pos - 1)
      && |text| <= MAX_ITEMS && |data| <= MAX_ITEMS
    }

    /**
     * The index of the next token the parser will consume, counting a peeked token as unconsumed
     * (in a valid parser a peeked token has always been handed out by the lexer, so `0 < pos`).
     */
    ghost function Cursor(): nat
      reads this`pos, this`peeked
    {
      if peeked.Some? && 0 < pos then pos - 1 else pos
    }

    /** The parser's accumulated state, as the value module Grammar works on. */
    ghost function Asm(): Asm
      reads this`text, this`data, this`textLabels, this`dataLabels
    {
      Grammar.Asm(text, data, textLabels, dataLabels)
    }

    /** What a parsing method's result means: the accumulated state on success, else the error. */
    ghost function Outcome(r: Result<(), ParseError>): Result<Asm, ParseError>
      reads this`text, this`data, this`textLabels, this`dataLabels
    {
      if r.Ok? then Ok(Asm()) else Err(r.error)
    }

    /** What an item method's result means: where the section machine goes on, else the error. */
    ghost function ItemOutcome(r: Result<(), ParseError>, sec: Section): Result<Cont, ParseError>
      reads this`pos, this`peeked, this`text, this`data, this`textLabels, this`dataLabels
    {
      if r.Ok? then Ok(Cont(Cursor(), sec, Asm())) else Err(r.error)
    }

    /** `Parser::new`: nothing lexed, nothing peeked, both streams and tables empty. */
    constructor (tokens: seq<Token>)
      ensures this.tokens == tokens && Valid() && Cursor() == 0 && Asm() == EMPTY
    {
      this.tokens := tokens;
      pos, span, peeked := 0, 0, None;
      text, data, textLabels, dataLabels := [], [], map[], map[];
    }

    /** The lexer's `next`: the next token, with its span; at the end, `None` and the end-of-input span. */
    method LexerNext() returns (t: Option<Token>)
      requires Valid() && peeked.None?
      modifies this`pos, this`span
      ensures Valid() && t == TokenAt(tokens, old(pos))
      ensures t.Some? ==> pos == old(pos) + 1 && span == old(pos)
      ensures t.None? ==> pos == old(pos) == |tokens| && span == |tokens|
    {
      if pos < |tokens| {
        t := Some(tokens[pos]);
        span := pos;
        pos := pos + 1;
      } else {
        t := None;
        span := |tokens|;
      }
    }

    /** `next_token_opt`: the peeked token if there is one, otherwise the lexer's next. */
    method NextTokenOpt() returns (t: Option<Token>)
      requires Valid()
      modifies this`pos, this`span, this`peeked
      ensures Valid() && peeked.None? && t == TokenAt(tokens, old(Cursor())) && Asm() == old(Asm())
      ensures t.Some? ==> Cursor() == old(Cursor()) + 1 && span == old(Cursor())
      ensures t.None? ==> Cursor() == old(Cursor()) == |tokens| && span == |tokens|
    {
      if peeked.Some? {
        t := peeked;
        peeked := None;
      } else {
        t := LexerNext();
      }
    }

    /** `next_token`: as `next_token_opt`, with the end of input an `UnexpectedEof` error. */
    method NextToken(expected: string) returns (r: Result<Token, ParseError>)
      requires Valid()
      modifies this`pos, this`span, this`peeked
      ensures Valid() && peeked.None?
      ensures r == (if old(Cursor()) < |tokens| then Ok(tokens[old(Cursor())]) else Err(UnexpectedEof(expected)))
      ensures r.Ok? ==> Cursor() == old(Cursor()) + 1 && span == old(Cursor())
    {
      var t := NextTokenOpt();
      r := if t.Some? then Ok(t.value) else Err(UnexpectedEof(expected));
    }

    /** `peek_token`: the next token without consuming it; the lexer's span is then that token's. */
    method PeekToken() returns (t: Option<Token>)
      requires Valid()
      modifies this`pos, this`span, this`peeked
      ensures Valid() && Cursor() == old(Cursor()) && span == Cursor()
      ensures t == TokenAt(tokens, Cursor()) && peeked == t
    {
      if peeked.Some? {
        t := peeked;
      } else {
        peeked := LexerNext();
        t := peeked;
      }
    }

    /** `parse_label`: reads the operand as `Grammar.LabelOperand` says. */
    method ParseLabel() returns (r: Result<string, ParseError>)
      requires Valid()
      modifies this`pos, this`span, this`peeked
      ensures Valid() && peeked.None?
      ensures r == LabelOperand(tokens, old(Cursor()))
      ensures r.Ok? ==> Cursor() == old(Cursor()) + 1 && span == old(Cursor())
    {
      var t := NextToken(EXPECT_LABEL);
      if t.Err? {
        return Err(t.error);
      }
      match t.value
      case LabelIdent(name) => r := Ok(name);
      case other => r := Err(InvalidToken(Display(other), EXPECT_LABEL, span));
    }

    /** `parse_immediate`: reads the operand as `Grammar.ImmediateOperand` says. */
    method ParseImmediate() returns (r: Result<I.Immediate, ParseError>)
      requires Valid()
      modifies this`pos, this`span, this`peeked
      ensures Valid() && peeked.None?
      ensures r == ImmediateOperand(tokens, old(Cursor()))
      ensures r.Ok? ==> Cursor() == old(Cursor()) + 1 && span == old(Cursor())
    {
      var t := NextToken(EXPECT_INTEGER);
      if t.Err? {
        return Err(t.error);
      }
      match t.value
      case NumLiteral(v) =>
        if -128 <= v <= 127 {
          r := Ok(v);
        } else {
          r := Err(InvalidNumber(v, span));
        }
      case other => r := Err(InvalidToken(Display(other), EXPECT_INTEGER, span));
    }

    /** `add_instr`: appends as `Grammar.PushInstr` says, with the lexer's current span. */
    method AddInstr(instr: I.Instruction) returns (r: Result<(), ParseError>)
      requires Valid()
      modifies this`text
      ensures Valid()
      ensures var spec := PushInstr(old(text), instr, span);
        && (r.Ok? <==> spec.Ok?)
        && (r.Err? ==> r.error == spec.error)
        && text == if spec.Ok? then spec.value else old(text)
    {
      if |text| == MAX_ITEMS {
        r := Err(InstructionOverflow(instr, span));
      } else {
        text := text + [instr];
        r := Ok(());
      }
    }

    /** `add_data`: appends as `Grammar.PushData` says, with the lexer's current span. */
    method AddData(v: Int16) returns (r: Result<(), ParseError>)
      requires Valid()
      modifies this`data
      ensures Valid()
      ensures var spec := PushData(old(data), v, span);
        && (r.Ok? <==> spec.Ok?)
        && (r.Err? ==> r.error == spec.error)
        && data == if spec.Ok? then spec.value else old(data)
    {
      if |data| == MAX_ITEMS {
        r := Err(DataOverflow(v, span));
      } else {
        data := data + [v];
        r := Ok(());
      }
    }

    /** `current_text`: the text length as `u8`, which is exact because the stream holds at most 255. */
    function CurrentText(): (r: UInt8)
      reads this
      requires Valid()
      ensures r == |text|
    {
      |text| % 256
    }

    /** `current_data`: the data length as `u8`, which is exact because the stream holds at most 255. */
    function CurrentData(): (r: UInt8)
      reads this
      requires Valid()
      ensures r == |data|
    {
      |data| % 256
    }

    /** `text_label_address`: the address a text label denotes, if it is defined. */
    function TextLabelAddress(name: string): (r: Option<I.Address>)
      reads this
      ensures r.Some? <==> name in textLabels
      ensures r.Some? ==> r.value == textLabels[name].address
    {
      LabelAddress(textLabels, name)
    }

    /** `data_label_address`: the address a data label denotes, if it is defined. */
    function DataLabelAddress(name: string): (r: Option<I.Address>)
      reads this
      ensures r.Some? <==> name in dataLabels
      ensures r.Some? ==> r.value == dataLabels[name].address
    {
      LabelAddress(dataLabels, name)
    }

    /** `add_text_label`: defines the label operand in the text table, as `Grammar.TextLabelDef` says. */
    method AddTextLabel() returns (r: Result<(), ParseError>)
      requires Valid()
      modifies this`pos, this`span, this`peeked, this`textLabels
      ensures Valid() && peeked.None?
      ensures var spec := TextLabelDef(tokens, old(Cursor()), old(Asm()));
        && (r.Ok? <==> spec.Ok?)
        && (r.Err? ==> r.error == spec.error)
        && (r.Ok? ==> textLabels == spec.value && Cursor() == old(Cursor()) + 1)
      ensures r.Err? ==> textLabels == old(textLabels)
    {
      var name := ParseLabel();
      if name.Err? {
        return Err(name.error);
      }
      if name.value in textLabels {
        r := Err(DuplicateLabel(name.value, textLabels[name.value].span, span));
      } else {
        textLabels := textLabels[name.value := LabelEntry(CurrentText(), span)];
        r := Ok(());
      }
    }

    /** `add_data_label`: defines the label operand in the data table, as `Grammar.DataLabelDef` says. */
    method AddDataLabel() returns (r: Result<(), ParseError>)
      requires Valid()
      modifies this`pos, this`span, this`peeked, this`dataLabels
      ensures Valid() && peeked.None?
      ensures Asm() == old(Asm()).(dataLabels := dataLabels)
      ensures var spec := DataLabelDef(tokens, old(Cursor()), old(Asm()));
        && (r.Ok? <==> spec.Ok?)
        && (r.Err? ==> r.error == spec.error)
        && (r.Ok? ==> dataLabels == spec.value && Cursor() == old(Cursor()) + 1)
      ensures r.Err? ==> dataLabels == old(dataLabels)
    {
      var name := ParseLabel();
      if name.Err? {
        return Err(name.error);
      }
      if name.value in dataLabels {
        r := Err(DuplicateLabel(name.value, dataLabels[name.value].span, span));
      } else {
        dataLabels := dataLabels[name.value := LabelEntry(CurrentData(), span)];
        r := Ok(());
      }
    }

    /**
     * `parse_alu_instr` and the `beqz`, `br` and `stor` arms of `parse_text`: a label operand, then
     * the instruction is appended, as `Grammar.LabelInstr` says.
     */
    method ParseLabelInstr(t: Token) returns (r: Result<(), ParseError>)
      requires Valid() && TakesLabel(t)
      modifies this`pos, this`span, this`peeked, this`text
      ensures Valid() && peeked.None?
      ensures Outcome(r) == LabelInstr(tokens, old(Cursor()), t, old(Asm()))
      ensures r.Ok? ==> Cursor() == old(Cursor()) + 1
    {
      var name := ParseLabel();
      if name.Err? {
        return Err(name.error);
      }
      r := AddInstr(WithLabel(t, name.value));
    }

    /** `parse_immediate_instr`: an immediate operand, then the instruction, as `Grammar.ImmediateInstr` says. */
    method ParseImmediateInstr(t: Token) returns (r: Result<(), ParseError>)
      requires Valid() && TakesImmediate(t)
      modifies this`pos, this`span, this`peeked, this`text
      ensures Valid() && peeked.None?
      ensures Outcome(r) == ImmediateInstr(tokens, old(Cursor()), t, old(Asm()))
      ensures r.Ok? ==> Cursor() == old(Cursor()) + 1
    {
      var v := ParseImmediate();
      if v.Err? {
        return Err(v.error);
      }
      r := AddInstr(WithImmediate(t, v.value));
    }

    /** `parse_number`: a `.number` directive and its literal, as `Grammar.NumberAt` says. */
    method ParseNumber() returns (r: Result<Int16, ParseError>)
      requires Valid()
      modifies this`pos, this`span, this`peeked
      ensures Valid() && peeked.None?
      ensures r == NumberAt(tokens, old(Cursor()))
      ensures r.Ok? ==> Cursor() == old(Cursor()) + 2
    {
      var t := NextToken(EXPECT_NUMBER);
      if t.Err? {
        return Err(t.error);
      }
      match t.value {
        case Number =>
          var l := NextToken(EXPECT_INTEGER);
          if l.Err? {
            return Err(l.error);
          }
          match l.value {
            case NumLiteral(v) => r := Ok(v);
            case other => r := Err(InvalidToken(Display(other), EXPECT_INTEGER, span));
          }
        case other => r := Err(InvalidToken(Display(other), EXPECT_NUMBER, span));
      }
    }

    /**
     * `parse_number_list`: the values of the run of `.number` directives ahead, as `Grammar.NumberRun`
     * says. The token after the run is left peeked, so the lexer's span is that token's.
     */
    method ParseNumberList() returns (r: Result<seq<Int16>, ParseError>)
      requires Valid()
      modifies this`pos, this`span, this`peeked
      ensures Valid() && Asm() == old(Asm())
      ensures var spec := NumberRun(tokens, old(Cursor()), []);
        && (r.Ok? <==> spec.Ok?)
        && (r.Err? ==> r.error == spec.error)
        && (r.Ok? ==> r.value == spec.value.0 && Cursor() == spec.value.1 && span == Cursor())
    {
      ghost var c0 := Cursor();
      var numbers := [];
      var t := PeekToken();
      while t == Some(Number)
        invariant Valid() && c0 <= Cursor() && span == Cursor()
        invariant t == TokenAt(tokens, Cursor())
        invariant NumberRun(tokens, c0, []) == NumberRun(tokens, Cursor(), numbers)
        decreases |tokens| - Cursor()
      {
        var n := ParseNumber();
        if n.Err? {
          return Err(n.error);
        }
        numbers := numbers + [n.value];
        t := PeekToken();
      }
      r := Ok(numbers);
    }

    /**
     * The values of a `.number` run are appended one at a time, as `Grammar.AppendData` says; the
     * first that does not fit ends the parse.
     */
    method AddDataRun(vs: seq<Int16>) returns (r: Result<(), ParseError>)
      requires Valid()
      modifies this`data
      ensures Valid() && Asm() == old(Asm()).(data := data)
      ensures var spec := AppendData(old(data), vs, span);
        && (r.Ok? <==> spec.Ok?)
        && (r.Err? ==> r.error == spec.error)
        && (r.Ok? ==> data == spec.value)
    {
      var k := 0;
      while k < |vs|
        invariant Valid() && k <= |vs|
        invariant AppendData(old(data), vs, span) == AppendData(data, vs[k..], span)
      {
        assert vs[k..][0] == vs[k] && vs[k..][1..] == vs[k + 1..];
        var added := AddData(vs[k]);
        if added.Err? {
          return Err(added.error);
        }
        k := k + 1;
      }
      r := Ok(());
    }

    /**
     * One arm of the loop in `parse_text`, for the token `tok` at index `i` just consumed (anything
     * but `.data`): the item it starts, as `Grammar.TextItem` says.
     */
    method ParseTextItem(tok: Token, ghost i: nat) returns (r: Result<(), ParseError>)
      requires Valid() && peeked.None? && i < |tokens| && tokens[i] == tok && !tok.Data?
      requires Cursor() == i + 1 && span == i
      modifies this`pos, this`span, this`peeked, this`text, this`textLabels
      ensures Valid()
      ensures ItemOutcome(r, InText) == TextItem(tokens, i, old(Asm()))
    {
      if tok.Label? {
        r := AddTextLabel();
      } else {
        r := ParseTextInstr(tok, i);
      }
    }

    /** The arms of `parse_text` for a token other than `.label` and `.data`: one instruction, or an error. */
    method ParseTextInstr(tok: Token, ghost i: nat) returns (r: Result<(), ParseError>)
      requires Valid() && peeked.None? && i < |tokens| && tokens[i] == tok && !tok.Data? && !tok.Label?
      requires Cursor() == i + 1 && span == i
      modifies this`pos, this`span, this`peeked, this`text
      ensures Valid()
      ensures ItemOutcome(r, InText) == TextItem(tokens, i, old(Asm()))
    {
      if TakesLabel(tok) {
        r := ParseLabelInstr(tok);
      } else if TakesImmediate(tok) {
        r := ParseImmediateInstr(tok);
      } else if tok.ClearAc? {
        r := AddInstr(I.Instruction.ClearAc);
      } else if tok.NoOp? {
        r := AddInstr(I.Instruction.NoOp);
      } else {
        r := Err(InvalidToken(Display(tok), EXPECT_TEXT_ITEM, span));
      }
    }

    /**
     * The loop of `parse_text`: text items until the end of input (`false`) or until the `.data`
     * token that hands over to `parse_data` has been consumed (`true`). Up to that point the parser
     * has done what the section machine does from the cursor `c0` on, starting from the state `a0`.
     */
    method ParseTextItems(ghost c0: nat, ghost a0: Asm) returns (r: Result<bool, ParseError>)
      requires Valid() && Cursor() == c0 && Asm() == a0
      modifies this`pos, this`span, this`peeked, this`text, this`textLabels
      ensures Valid()
      ensures r == Ok(false) ==> Run(tokens, c0, InText, a0) == Ok(Asm())
      ensures r == Ok(true) ==> c0 < Cursor() && Run(tokens, c0, InText, a0) == Run(tokens, Cursor(), InData, Asm())
      ensures r.Err? ==> Run(tokens, c0, InText, a0) == Err(r.error)
    {
      while true
        invariant Valid() && c0 <= Cursor()
        invariant Run(tokens, c0, InText, a0) == Run(tokens, Cursor(), InText, Asm())
        decreases |tokens| - Cursor()
      {
        ghost var i, a := Cursor(), Asm();
        var t := NextTokenOpt();
        if t.None? {
          return Ok(false);
        }
        if t.value.Data? {
          TextRunData(tokens, i, a);
          assert Run(tokens, c0, InText, a0) == Run(tokens, i + 1, InData, a);
          assert Cursor() == i + 1 && Asm() == a;
          return Ok(true);
        }
        var item := ParseTextItem(t.value, i);
        if item.Err? {
          TextRunError(tokens, i, a);
          return Err(item.error);
        }
        TextRunStep(tokens, i, a, Cont(Cursor(), InText, Asm()));
      }
    }

    /**
     * `parse_text`: the items of a text section, then, after `.data`, `parse_data`. The outcome is
     * the section machine's from the cursor `c0` on, starting from the state `a0`.
     */
    method ParseText(ghost c0: nat, ghost a0: Asm) returns (r: Result<(), ParseError>)
      requires Valid() && Cursor() == c0 && Asm() == a0
      modifies this
      ensures Valid()
      ensures Outcome(r) == Run(tokens, c0, InText, a0)
      decreases |tokens| - c0, 0
    {
      var handOver := ParseTextItems(c0, a0);
      if handOver.Err? {
        return Err(handOver.error);
      }
      if handOver.value {
        r := ParseData(Cursor(), Asm());
      } else {
        r := Ok(());
      }
    }

    /**
     * One arm of the loop in `parse_data`, for the token `tok` at index `i` just consumed (anything
     * but `.text`): after `.label`, a data label, the run of `.number` values after it, and each
     * value appended; any other token is an error. This is the item `Grammar.DataItem` describes.
     */
    method ParseDataItem(tok: Token, ghost i: nat) returns (r: Result<(), ParseError>)
      requires Valid() && peeked.None? && i < |tokens| && tokens[i] == tok && !tok.Text?
      requires Cursor() == i + 1 && span == i
      modifies this`pos, this`span, this`peeked, this`data, this`dataLabels
      ensures Valid()
      ensures ItemOutcome(r, InData) == DataItem(tokens, i, old(Asm()))
    {
      if !tok.Label? {
        return Err(InvalidToken(Display(tok), EXPECT_DATA_ITEM, span));
      }
      ghost var a := Asm();
      r := AddDataLabel();
      if r.Err? {
        return;
      }
      ghost var table := dataLabels;
      var numbers := ParseNumberList();
      if numbers.Err? {
        return Err(numbers.error);
      }
      DataItemOfRun(tokens, i, a, table, numbers.value, Cursor());
      r := AddDataRun(numbers.value);
      assert r.Ok? ==> Asm() == a.(dataLabels := table, data := data);
    }

    /**
     * The loop of `parse_data`: data items until the end of input (`false`) or until the `.text`
     * token that hands over to `parse_text` has been consumed (`true`). Up to that point the parser
     * has done what the section machine does from the cursor `c0` on, starting from the state `a0`.
     */
    method ParseDataItems(ghost c0: nat, ghost a0: Asm) returns (r: Result<bool, ParseError>)
      requires Valid() && Cursor() == c0 && Asm() == a0
      modifies this`pos, this`span, this`peeked, this`data, this`dataLabels
      ensures Valid()
      ensures r == Ok(false) ==> Run(tokens, c0, InData, a0) == Ok(Asm())
      ensures r == Ok(true) ==> c0 < Cursor() && Run(tokens, c0, InData, a0) == Run(tokens, Cursor(), InText, Asm())
      ensures r.Err? ==> Run(tokens, c0, InData, a0) == Err(r.error)
    {
      while true
        invariant Valid() && c0 <= Cursor()
        invariant Run(tokens, c0, InData, a0) == Run(tokens, Cursor(), InData, Asm())
        decreases |tokens| - Cursor()
      {
        ghost var i, a := Cursor(), Asm();
        var t := NextTokenOpt();
        if t.None? {
          return Ok(false);
        }
        if t.value.Text? {
          DataRunText(tokens, i, a);
          assert Run(tokens, c0, InData, a0) == Run(tokens, i + 1, InText, a);
          assert Cursor() == i + 1 && Asm() == a;
          return Ok(true);
        }
        var item := ParseDataItem(t.value, i);
        if item.Err? {
          DataRunError(tokens, i, a);
          return Err(item.error);
        }
        DataRunStep(tokens, i, a, Cont(Cursor(), InData, Asm()));
      }
    }

    /**
     * `parse_data`: the items of a data section, then, after `.text`, `parse_text`. The outcome is
     * the section machine's from the cursor `c0` on, starting from the state `a0`.
     */
    method ParseData(ghost c0: nat, ghost a0: Asm) returns (r: Result<(), ParseError>)
      requires Valid() && Cursor() == c0 && Asm() == a0
      modifies this
      ensures Valid()
      ensures Outcome(r) == Run(tokens, c0, InData, a0)
      decreases |tokens| - c0, 0
    {
      var handOver := ParseDataItems(c0, a0);
      if handOver.Err? {
        return Err(handOver.error);
      }
      if handOver.value {
        r := ParseText(Cursor(), Asm());
      } else {
        r := Ok(());
      }
    }

    /** `parse_input`: `.text` or `.data` chooses the first section, as `Grammar.ParseFrom` says. */
    method ParseInput() returns (r: Result<(), ParseError>)
      requires Valid()
      modifies this
      ensures Valid()
      ensures Outcome(r) == ParseFrom(tokens, old(Cursor()), old(Asm()))
    {
      ghost var i, a := Cursor(), Asm();
      var t := NextToken(EXPECT_SECTION);
      if t.Err? {
        return Err(t.error);
      }
      match t.value
      case Text => r := ParseText(i + 1, a);
      case Data => r := ParseData(i + 1, a);
      case other => r := Err(InvalidToken(Display(other), EXPECT_SECTION, span));
    }

    /** `address_program`: every instruction addressed in order, as `Addressing.Address` says. */
    method AddressProgram() returns (r: Result<AddressedProgram, ParseError>)
      ensures r == Address(Asm())
    {
      var out := [];
      var k := 0;
      while k < |text|
        invariant k <= |text|
        invariant ResolveText(text[..k], textLabels, dataLabels) == Ok(out)
      {
        var a := ResolveOne(text[k], textLabels, dataLabels);
        if a.Err? {
          FirstUnresolvedAt(text, k, textLabels, dataLabels);
          return Err(a.error);
        }
        ResolvePrefixStep(text, k, textLabels, dataLabels);
        out := out + [a.value];
        k := k + 1;
      }
      assert text[..k] == text;
      r := Ok(AddressedProgram(out, data));
    }
  }

  /** `Parser::parse`: a fresh parser over the tokens, followed by `parse_input`. */
  method Parse(tokens: seq<Token>) returns (r: Result<Parser, ParseError>)
    ensures r.Ok? <==> ParseProgram(tokens).Ok?
    ensures r.Ok? ==> fresh(r.value) && r.value.Valid() && r.value.Asm() == ParseProgram(tokens).value
    ensures r.Err? ==> r.error == ParseProgram(tokens).error
  {
    var p := new Parser(tokens);
    var done := p.ParseInput();
    if done.Err? {
      return Err(done.error);
    }
    r := Ok(p);
  }

  // ---------------------------------------------------------------------------------------------
  // Unfolding the section machine one item at a time

  /** In the text section, the machine goes on from where a successful item leaves it. */
  lemma TextRunStep(toks: seq<Token>, i: nat, st: Asm, c: Cont)
    requires i < |toks| && TextItem(toks, i, st) == Ok(c)
    ensures Run(toks, i, InText, st) == Run(toks, c.next, c.section, c.asm)
  {
  }

  /** `.data` in the text section hands over to the data section. */
  lemma TextRunData(toks: seq<Token>, i: nat, st: Asm)
    requires i < |toks| && toks[i].Data?
    ensures Run(toks, i, InText, st) == Run(toks, i + 1, InData, st)
  {
  }

  /** `.text` in the data section hands over to the text section. */
  lemma DataRunText(toks: seq<Token>, i: nat, st: Asm)
    requires i < |toks| && toks[i].Text?
    ensures Run(toks, i, InData, st) == Run(toks, i + 1, InText, st)
  {
  }

  /** In the text section, a failed item is the outcome of the whole run. */
  lemma TextRunError(toks: seq<Token>, i: nat, st: Asm)
    requires i < |toks| && TextItem(toks, i, st).Err?
    ensures Run(toks, i, InText, st) == Err(TextItem(toks, i, st).error)
  {
  }

  /** In the data section, the machine goes on from where a successful item leaves it. */
  lemma DataRunStep(toks: seq<Token>, i: nat, st: Asm, c: Cont)
    requires i < |toks| && DataItem(toks, i, st) == Ok(c)
    ensures Run(toks, i, InData, st) == Run(toks, c.next, c.section, c.asm)
  {
  }

  /** A `.label` item of the data section, once its label is defined and its `.number` run read. */
  lemma DataItemOfRun(toks: seq<Token>, i: nat, st: Asm, table: LabelTable, vs: seq<Int16>, j: nat)
    requires i < |toks| && toks[i].Label? && DataLabelDef(toks, i + 1, st) == Ok(table)
    requires i + 2 <= |toks| && NumberRun(toks, i + 2, []) == Ok((vs, j))
    ensures DataItem(toks, i, st)
      == match AppendData(st.data, vs, j)
         case Err(e) => Err(e)
         case Ok(data) => Ok(Cont(j, InData, st.(dataLabels := table, data := data)))
  {
  }

  /** In the data section, a failed item is the outcome of the whole run. */
  lemma DataRunError(toks: seq<Token>, i: nat, st: Asm)
    requires i < |toks| && DataItem(toks, i, st).Err?
    ensures Run(toks, i, InData, st) == Err(DataItem(toks, i, st).error)
  {
  }

  lemma FirstUnresolvedAt(text: seq<I.Instruction>, k: nat, textLabels: LabelTable, dataLabels: LabelTable)
    requires k < |text| && ResolveText(text[..k], textLabels, dataLabels).Ok?
    requires ResolveOne(text[k], textLabels, dataLabels).Err?
    ensures ResolveText(text, textLabels, dataLabels).Err?
    ensures FirstUnresolved(text, textLabels, dataLabels) == k
    ensures ResolveText(text, textLabels, dataLabels) == Err(ResolveOne(text[k], textLabels, dataLabels).error)
  {
    forall j | 0 <= j < k
      ensures ResolveOne(text[j], textLabels, dataLabels).Ok?
    {
      assert text[..k][j] == text[j];
    }
    ResolveTextFirstError(text, textLabels, dataLabels);
  }

  /** Addressing one more instruction of a prefix that resolves appends that instruction's addressed form. */
  lemma ResolvePrefixStep(text: seq<I.Instruction>, k: nat, textLabels: LabelTable, dataLabels: LabelTable)
    requires k < |text| && ResolveText(text[..k], textLabels, dataLabels).Ok?
    requires ResolveOne(text[k], textLabels, dataLabels).Ok?
    ensures ResolveText(text[..k + 1], textLabels, dataLabels)
      == Ok(ResolveText(text[..k], textLabels, dataLabels).value + [ResolveOne(text[k], textLabels, dataLabels).value])
  {
    ResolveTextSnoc(text[..k], text[k], textLabels, dataLabels);
    assert text[..k + 1] == text[..k] + [text[k]];
  }

  lemma ResolveTextSnoc(text: seq<I.Instruction>, instr: I.Instruction, textLabels: LabelTable, dataLabels: LabelTable)
    requires ResolveText(text, textLabels, dataLabels).Ok? && ResolveOne(instr, textLabels, dataLabels).Ok?
    ensures ResolveText(text + [instr], textLabels, dataLabels)
      == Ok(ResolveText(text, textLabels, dataLabels).value + [ResolveOne(instr, textLabels, dataLabels).value])
  {
    var t := text + [instr];
    var o := ResolveText(text, textLabels, dataLabels).value;
    var a := ResolveOne(instr, textLabels, dataLabels).value;
    assert forall k :: 0 <= k < |t| ==> ResolveOne(t[k], textLabels, dataLabels).Ok? by {
      forall k | 0 <= k < |t|
        ensures ResolveOne(t[k], textLabels, dataLabels).Ok?
      {
        if k < |text| {
          assert t[k] == text[k];
        }
      }
    }
    var v := ResolveText(t, textLabels, dataLabels).value;
    forall k | 0 <= k < |t|
      ensures v[k] == (o + [a])[k]
    {
      if k < |text| {
        assert t[k] == text[k];
      }
    }
    assert v == o + [a];
  }
}
