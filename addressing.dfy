/**
 * The second pass of src/parser.rs and the serialisation of its result: every label operand is
 * replaced by the address its label denotes (branch targets in the text table, every other operand
 * in the data table), and the addressed program is laid out as big-endian bytes.
 */
module Addressing {
  import opened Wrappers
  import opened Numerals
  import Octets
  import opened Grammar
  import I = Instructions

  /** The label an instruction names, for the nine variants whose operand is a label. */
  function LabelOf(instr: I.Instruction): Option<string> {
    match instr
    case Add(n) => Some(n)
    case Subtract(n) => Some(n)
    case Multiply(n) => Some(n)
    case Divide(n) => Some(n)
    case Remainder(n) => Some(n)
    case And(n) => Some(n)
    case BranchZero(n) => Some(n)
    case Branch(n) => Some(n)
    case Store(n) => Some(n)
    case _ => None
  }

  /** Branch targets are text labels; ALU and store operands are data labels. */
  predicate ResolvesInText(instr: I.Instruction) {
    instr.BranchZero? || instr.Branch?
  }

  function TableFor(instr: I.Instruction, textLabels: LabelTable, dataLabels: LabelTable): LabelTable {
    if ResolvesInText(instr) then textLabels else dataLabels
  }

  /** The addressed instruction of the same variant with the same immediate and address 0 for a label operand. */
  function Shape(instr: I.Instruction): I.AddressedInstruction {
    match instr
    case Add(_) => I.AddressedInstruction.Add(0)
    case AddImmediate(v) => I.AddressedInstruction.AddImmediate(v)
    case Subtract(_) => I.AddressedInstruction.Subtract(0)
    case SubtractImmediate(v) => I.AddressedInstruction.SubtractImmediate(v)
    case Multiply(_) => I.AddressedInstruction.Multiply(0)
    case MultiplyImmediate(v) => I.AddressedInstruction.MultiplyImmediate(v)
    case Divide(_) => I.AddressedInstruction.Divide(0)
    case DivideImmediate(v) => I.AddressedInstruction.DivideImmediate(v)
    case Remainder(_) => I.AddressedInstruction.Remainder(0)
    case RemainderImmediate(v) => I.AddressedInstruction.RemainderImmediate(v)
    case Shift(v) => I.AddressedInstruction.Shift(v)
    case And(_) => I.AddressedInstruction.And(0)
    case AndImmediate(v) => I.AddressedInstruction.AndImmediate(v)
    case BranchZero(_) => I.AddressedInstruction.BranchZero(0)
    case Branch(_) => I.AddressedInstruction.Branch(0)
    case ClearAc => I.AddressedInstruction.ClearAc
    case Store(_) => I.AddressedInstruction.Store(0)
    case NoOp => I.AddressedInstruction.NoOp
  }

  /** An addressed instruction with its address operand, if it has one, set to 0. */
  function Blank(a: I.AddressedInstruction): I.AddressedInstruction {
    match a
    case Add(_) => I.AddressedInstruction.Add(0)
    case Subtract(_) => I.AddressedInstruction.Subtract(0)
    case Multiply(_) => I.AddressedInstruction.Multiply(0)
    case Divide(_) => I.AddressedInstruction.Divide(0)
    case Remainder(_) => I.AddressedInstruction.Remainder(0)
    case And(_) => I.AddressedInstruction.And(0)
    case BranchZero(_) => I.AddressedInstruction.BranchZero(0)
    case Branch(_) => I.AddressedInstruction.Branch(0)
    case Store(_) => I.AddressedInstruction.Store(0)
    case _ => a
  }

  /** `text_label_address` and `data_label_address`: the address a label denotes, if it is defined. */
  function LabelAddress(table: LabelTable, name: string): (r: Option<I.Address>)
    ensures r.Some? <==> name in table
    ensures r.Some? ==> r.value == table[name].address
  {
    if name in table then Some(table[name].address) else None
  }

  /**
   * Addressing one instruction: a label operand is looked up in the table its variant resolves in,
   * and an undefined label is an `UnknownLabel` error; an instruction without a label is kept.
   */
  function ResolveOne(instr: I.Instruction, textLabels: LabelTable, dataLabels: LabelTable): (r: Result<I.AddressedInstruction, ParseError>)
    ensures LabelOf(instr).None? ==> r.Ok?
    ensures LabelOf(instr).Some? ==> (r.Ok? <==> LabelOf(instr).value in TableFor(instr, textLabels, dataLabels))
    ensures r.Err? ==> r.error == UnknownLabel(LabelOf(instr).value)
  {
    match instr
    case Add(n) =>
      (match LabelAddress(dataLabels, n)
      case None => Err(UnknownLabel(n))
      case Some(x) => Ok(I.AddressedInstruction.Add(x)))
    case Subtract(n) =>
      (match LabelAddress(dataLabels, n)
      case None => Err(UnknownLabel(n))
      case Some(x) => Ok(I.AddressedInstruction.Subtract(x)))
    case Multiply(n) =>
      (match LabelAddress(dataLabels, n)
      case None => Err(UnknownLabel(n))
      case Some(x) => Ok(I.AddressedInstruction.Multiply(x)))
    case Divide(n) =>
      (match LabelAddress(dataLabels, n)
      case None => Err(UnknownLabel(n))
      case Some(x) => Ok(I.AddressedInstruction.Divide(x)))
    case Remainder(n) =>
      (match LabelAddress(dataLabels, n)
      case None => Err(UnknownLabel(n))
      case Some(x) => Ok(I.AddressedInstruction.Remainder(x)))
    case And(n) =>
      (match LabelAddress(dataLabels, n)
      case None => Err(UnknownLabel(n))
      case Some(x) => Ok(I.AddressedInstruction.And(x)))
    case BranchZero(n) =>
      (match LabelAddress(textLabels, n)
      case None => Err(UnknownLabel(n))
      case Some(x) => Ok(I.AddressedInstruction.BranchZero(x)))
    case Branch(n) =>
      (match LabelAddress(textLabels, n)
      case None => Err(UnknownLabel(n))
      case Some(x) => Ok(I.AddressedInstruction.Branch(x)))
    case Store(n) =>
      (match LabelAddress(dataLabels, n)
      case None => Err(UnknownLabel(n))
      case Some(x) => Ok(I.AddressedInstruction.Store(x)))
    case AddImmediate(v) => Ok(I.AddressedInstruction.AddImmediate(v))
    case SubtractImmediate(v) => Ok(I.AddressedInstruction.SubtractImmediate(v))
    case MultiplyImmediate(v) => Ok(I.AddressedInstruction.MultiplyImmediate(v))
    case DivideImmediate(v) => Ok(I.AddressedInstruction.DivideImmediate(v))
    case RemainderImmediate(v) => Ok(I.AddressedInstruction.RemainderImmediate(v))
    case Shift(v) => Ok(I.AddressedInstruction.Shift(v))
    case AndImmediate(v) => Ok(I.AddressedInstruction.AndImmediate(v))
    case ClearAc => Ok(I.AddressedInstruction.ClearAc)
    case NoOp => Ok(I.AddressedInstruction.NoOp)
  }

  /**
   * A resolved instruction keeps its variant and immediate, and its address operand is the address
   * of the label it named, looked up in the table its variant resolves in.
   */
  lemma ResolveOneShape(instr: I.Instruction, textLabels: LabelTable, dataLabels: LabelTable)
    requires ResolveOne(instr, textLabels, dataLabels).Ok?
    ensures Blank(ResolveOne(instr, textLabels, dataLabels).value) == Shape(instr)
    ensures LabelOf(instr).Some?
      ==> I.AddressOf(ResolveOne(instr, textLabels, dataLabels).value)
          == Some(TableFor(instr, textLabels, dataLabels)[LabelOf(instr).value].address)
  {
    match instr
    case Add(_) =>
    case Subtract(_) =>
    case Multiply(_) =>
    case Divide(_) =>
    case Remainder(_) =>
    case And(_) =>
    case BranchZero(_) =>
    case Branch(_) =>
    case Store(_) =>
    case _ =>
  }

  /**
   * Addressing the text stream in order. It succeeds exactly when every instruction resolves, and
   * then holds each instruction's addressed form at the same position.
   */
  function ResolveText(text: seq<I.Instruction>, textLabels: LabelTable, dataLabels: LabelTable): (r: Result<seq<I.AddressedInstruction>, ParseError>)
    ensures r.Ok? <==> forall k :: 0 <= k < |text| ==> ResolveOne(text[k], textLabels, dataLabels).Ok?
    ensures r.Ok? ==> (|r.value| == |text|
      && forall k :: 0 <= k < |text| ==> r.value[k] == ResolveOne(text[k], textLabels, dataLabels).value)
  {
    if text == [] then Ok([])
    else match ResolveOne(text[0], textLabels, dataLabels)
      case Err(e) => Err(e)
      case Ok(a) =>
        match ResolveText(text[1..], textLabels, dataLabels)
        case Err(e) =>
          assert !ResolveOne(text[1..][FirstUnresolved(text[1..], textLabels, dataLabels)], textLabels, dataLabels).Ok?;
          Err(e)
        case Ok(rest) =>
          assert forall k :: 1 <= k < |text| ==> text[k] == text[1..][k - 1] && ([a] + rest)[k] == rest[k - 1];
          Ok([a] + rest)
  }

  /** The position of the first instruction that does not resolve, or the length if all do. */
  function FirstUnresolved(text: seq<I.Instruction>, textLabels: LabelTable, dataLabels: LabelTable): (k: nat)
    ensures k <= |text|
    ensures forall j :: 0 <= j < k ==> ResolveOne(text[j], textLabels, dataLabels).Ok?
    ensures k < |text| ==> ResolveOne(text[k], textLabels, dataLabels).Err?
  {
    if text == [] then 0
    else if ResolveOne(text[0], textLabels, dataLabels).Err? then 0
    else
      var k := FirstUnresolved(text[1..], textLabels, dataLabels);
      assert forall j :: 1 <= j < k + 1 ==> text[j] == text[1..][j - 1];
      k + 1
  }

  /** A failed addressing reports the error of the first instruction that does not resolve. */
  lemma {:induction false} ResolveTextFirstError(text: seq<I.Instruction>, textLabels: LabelTable, dataLabels: LabelTable)
    requires ResolveText(text, textLabels, dataLabels).Err?
    ensures FirstUnresolved(text, textLabels, dataLabels) < |text|
    ensures ResolveText(text, textLabels, dataLabels).error
      == ResolveOne(text[FirstUnresolved(text, textLabels, dataLabels)], textLabels, dataLabels).error
  {
    if ResolveOne(text[0], textLabels, dataLabels).Ok? {
      ResolveTextFirstError(text[1..], textLabels, dataLabels);
    }
  }

  /** The result of the second pass: addressed text and the data words, unchanged. */
  datatype AddressedProgram = AddressedProgram(text: seq<I.AddressedInstruction>, data: seq<Int16>)
  {
    /** `assemble_text`: the encoded words of the text, in order. */
    method AssembleText() returns (bytes: seq<bv8>)
      ensures bytes == TextBytes(text)
    {
      bytes := [];
      var k := 0;
      while k < |text|
        invariant k <= |text|
        invariant bytes == TextBytes(text[..k])
      {
        TextBytesSnoc(text[..k], text[k]);
        assert text[..k + 1] == text[..k] + [text[k]];
        bytes := bytes + I.Bytes(text[k]);
        k := k + 1;
      }
      assert text[..k] == text;
    }

    /** `data_bytes`: the big-endian bytes of the data words, in order. */
    method DataBytes() returns (bytes: seq<bv8>)
      ensures bytes == WordBytes(data)
    {
      bytes := [];
      var k := 0;
      while k < |data|
        invariant k <= |data|
        invariant bytes == WordBytes(data[..k])
      {
        WordBytesSnoc(data[..k], data[k]);
        assert data[..k + 1] == data[..k] + [data[k]];
        bytes := bytes + BigEndian(data[k]);
        k := k + 1;
      }
      assert data[..k] == data;
    }
  }

  /** `address_program`: the text is addressed against the two tables; the data is kept. */
  function Address(asm: Asm): (r: Result<AddressedProgram, ParseError>)
    ensures r.Ok? <==> ResolveText(asm.text, asm.textLabels, asm.dataLabels).Ok?
    ensures r.Ok? ==> r.value.data == asm.data && |r.value.text| == |asm.text|
    ensures r.Err? ==> r.error.UnknownLabel?
  {
    match ResolveText(asm.text, asm.textLabels, asm.dataLabels)
    case Err(e) =>
      ResolveTextFirstError(asm.text, asm.textLabels, asm.dataLabels);
      Err(e)
    case Ok(text) => Ok(AddressedProgram(text, asm.data))
  }

  // ---------------------------------------------------------------------------------------------
  // Serialisation

  /** The concatenated 2-byte words of a sequence of addressed instructions. */
  function TextBytes(text: seq<I.AddressedInstruction>): (bytes: seq<bv8>)
    ensures |bytes| == 2 * |text|
  {
    if text == [] then [] else I.Bytes(text[0]) + TextBytes(text[1..])
  }

  lemma {:induction false} TextBytesSnoc(text: seq<I.AddressedInstruction>, a: I.AddressedInstruction)
    ensures TextBytes(text + [a]) == TextBytes(text) + I.Bytes(a)
    decreases |text|
  {
    if text == [] {
      assert TextBytes([a]) == I.Bytes(a) + TextBytes([]);
    } else {
      assert (text + [a])[1..] == text[1..] + [a];
      TextBytesSnoc(text[1..], a);
    }
  }

  /** Reads a byte string back as words, two bytes at a time; `None` if any word is not an encoding. */
  function DecodeText(bytes: seq<bv8>): Option<seq<I.AddressedInstruction>>
    decreases |bytes|
  {
    if bytes == [] then Some([])
    else if |bytes| == 1 then None
    else match I.Decode(bytes[..2])
      case None => None
      case Some(a) =>
        match DecodeText(bytes[2..])
        case None => None
        case Some(rest) => Some([a] + rest)
  }

  /** The encoded text decodes back to the addressed instructions it came from. */
  lemma {:induction false} DecodeTextBytes(text: seq<I.AddressedInstruction>)
    ensures DecodeText(TextBytes(text)) == Some(text)
    decreases |text|
  {
    if text != [] {
      var bytes := TextBytes(text);
      assert bytes[..2] == I.Bytes(text[0]);
      assert bytes[2..] == TextBytes(text[1..]);
      I.DecodeBytes(text[0]);
      DecodeTextBytes(text[1..]);
      assert [text[0]] + text[1..] == text;
    }
  }

  /** An `i16` modulo 2^16: its two's-complement bit pattern read as unsigned. */
  lemma Wrap16(v: Int16)
    ensures v % 65536 == if v >= 0 then v else v + 65536
  {
  }

  /** `i16::to_be_bytes`: the two's-complement value modulo 2^16, high byte first. */
  function BigEndian(v: Int16): (b: seq<bv8>)
    ensures |b| == 2
    ensures b[0] as int * 256 + b[1] as int == v % 65536
  {
    var u := v % 65536;
    var hi, lo := u / 256, u % 256;
    assert hi * 256 + lo == u;
    Octets.ByteToInt(hi);
    Octets.ByteToInt(lo);
    [hi as bv8, lo as bv8]
  }

  /** `i16::from_be_bytes`: the inverse reading of two big-endian bytes. */
  function FromBigEndian(b: seq<bv8>): (v: Int16)
    requires |b| == 2
    ensures v % 65536 == b[0] as int * 256 + b[1] as int
  {
    var u := b[0] as int * 256 + b[1] as int;
    var v: Int16 := if u < 32768 then u else u - 65536;
    Wrap16(v);
    v
  }

  lemma BigEndianRoundTrip(v: Int16)
    ensures FromBigEndian(BigEndian(v)) == v
  {
    var b := BigEndian(v);
    Wrap16(v);
    Wrap16(FromBigEndian(b));
  }

  lemma FromBigEndianRoundTrip(b: seq<bv8>)
    requires |b| == 2
    ensures BigEndian(FromBigEndian(b)) == b
  {
    Octets.BytePairsEqual(BigEndian(FromBigEndian(b)), b);
  }

  /** The concatenated big-endian words of a data stream. */
  function WordBytes(data: seq<Int16>): (bytes: seq<bv8>)
    ensures |bytes| == 2 * |data|
  {
    if data == [] then [] else BigEndian(data[0]) + WordBytes(data[1..])
  }

  lemma {:induction false} WordBytesSnoc(data: seq<Int16>, v: Int16)
    ensures WordBytes(data + [v]) == WordBytes(data) + BigEndian(v)
    decreases |data|
  {
    if data == [] {
      assert WordBytes([v]) == BigEndian(v) + WordBytes([]);
    } else {
      assert (data + [v])[1..] == data[1..] + [v];
      WordBytesSnoc(data[1..], v);
    }
  }

  /** Reads a byte string back as big-endian words; `None` for an odd length. */
  function ReadWords(bytes: seq<bv8>): Option<seq<Int16>>
    decreases |bytes|
  {
    if bytes == [] then Some([])
    else if |bytes| == 1 then None
    else match ReadWords(bytes[2..])
      case None => None
      case Some(rest) => Some([FromBigEndian(bytes[..2])] + rest)
  }

  /** The data bytes read back as the data words they came from. */
  lemma {:induction false} ReadWordBytes(data: seq<Int16>)
    ensures ReadWords(WordBytes(data)) == Some(data)
    decreases |data|
  {
    if data != [] {
      var bytes := WordBytes(data);
      assert bytes[..2] == BigEndian(data[0]);
      assert bytes[2..] == WordBytes(data[1..]);
      BigEndianRoundTrip(data[0]);
      ReadWordBytes(data[1..]);
      assert [data[0]] + data[1..] == data;
    }
  }
}
