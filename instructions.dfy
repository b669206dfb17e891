/**
 * The instruction set (src/instructions.rs): symbolic instructions whose operands are label names
 * or immediates, addressed instructions whose label operands have become 8-bit addresses, and the
 * bit-exact encoding of an addressed instruction as a 2-byte word.
 */
module Instructions {
  import opened Wrappers
  import opened Numerals
  import Octets

  type Immediate = Int8
  type Address = UInt8

  /** An instruction as parsed: ALU, store and branch operands still name a label. */
  datatype Instruction =
    | Add(name: string)
    | AddImmediate(imm: Immediate)
    | Subtract(name: string)
    | SubtractImmediate(imm: Immediate)
    | Multiply(name: string)
    | MultiplyImmediate(imm: Immediate)
    | Divide(name: string)
    | DivideImmediate(imm: Immediate)
    | Remainder(name: string)
    | RemainderImmediate(imm: Immediate)
    | Shift(imm: Immediate)
    | And(name: string)
    | AndImmediate(imm: Immediate)
    | BranchZero(name: string)
    | Branch(name: string)
    | ClearAc
    | Store(name: string)
    | NoOp

  /** An instruction whose label operand has been replaced by the address the label denotes. */
  datatype AddressedInstruction =
    | Add(address: Address)
    | AddImmediate(imm: Immediate)
    | Subtract(address: Address)
    | SubtractImmediate(imm: Immediate)
    | Multiply(address: Address)
    | MultiplyImmediate(imm: Immediate)
    | Divide(address: Address)
    | DivideImmediate(imm: Immediate)
    | Remainder(address: Address)
    | RemainderImmediate(imm: Immediate)
    | Shift(imm: Immediate)
    | And(address: Address)
    | AndImmediate(imm: Immediate)
    | BranchZero(address: Address)
    | Branch(address: Address)
    | ClearAc
    | Store(address: Address)
    | NoOp

  /** The seven variants that carry an immediate (opcode 1). */
  predicate IsImmediateForm(a: AddressedInstruction) {
    a.AddImmediate? || a.SubtractImmediate? || a.MultiplyImmediate? || a.DivideImmediate?
    || a.RemainderImmediate? || a.AndImmediate? || a.Shift?
  }

  /** The six ALU variants whose operand is a data address (opcode 2). */
  predicate IsRegisterForm(a: AddressedInstruction) {
    a.Add? || a.Subtract? || a.Multiply? || a.Divide? || a.Remainder? || a.And?
  }

  /** The address operand of a variant that carries one. */
  function AddressOf(a: AddressedInstruction): Option<Address> {
    match a
    case Add(x) => Some(x)
    case Subtract(x) => Some(x)
    case Multiply(x) => Some(x)
    case Divide(x) => Some(x)
    case Remainder(x) => Some(x)
    case And(x) => Some(x)
    case BranchZero(x) => Some(x)
    case Branch(x) => Some(x)
    case Store(x) => Some(x)
    case _ => None
  }

  /** `x as i8` for a byte: the two's-complement reading of an unsigned byte. */
  function SignedByte(b: UInt8): (i: Int8)
    ensures i % 256 == b
    ensures i < 0 <==> b >= 128
  {
    if b < 128 then b else b - 256
  }

  /** `i as u8` for an immediate: its two's-complement byte, which reads back as the immediate. */
  function UnsignedByte(i: Int8): (b: UInt8)
    ensures SignedByte(b) == i
  {
    i % 256
  }

  function Opcode(a: AddressedInstruction): (r: UInt8)
    ensures r <= 6
    ensures r == 0 <==> a.NoOp?
    ensures r == 1 <==> IsImmediateForm(a)
    ensures r == 2 <==> IsRegisterForm(a)
    ensures r == 3 <==> a.ClearAc?
    ensures r == 4 <==> a.Store?
    ensures r == 5 <==> a.BranchZero?
    ensures r == 6 <==> a.Branch?
  {
    match a
    case NoOp => 0
    case AddImmediate(_) => 1
    case SubtractImmediate(_) => 1
    case MultiplyImmediate(_) => 1
    case DivideImmediate(_) => 1
    case AndImmediate(_) => 1
    case RemainderImmediate(_) => 1
    case Shift(_) => 1
    case Add(_) => 2
    case Subtract(_) => 2
    case Multiply(_) => 2
    case Divide(_) => 2
    case Remainder(_) => 2
    case And(_) => 2
    case ClearAc => 3
    case Store(_) => 4
    case BranchZero(_) => 5
    case Branch(_) => 6
  }

  function AluOp(a: AddressedInstruction): (r: UInt8)
    ensures r <= 6
    ensures !IsImmediateForm(a) && !IsRegisterForm(a) ==> r == 0
    ensures r == 6 <==> a.Shift?
  {
    match a
    case NoOp => 0
    case ClearAc => 0
    case Store(_) => 0
    case BranchZero(_) => 0
    case Branch(_) => 0
    case AddImmediate(_) => 0
    case Add(_) => 0
    case SubtractImmediate(_) => 1
    case Subtract(_) => 1
    case MultiplyImmediate(_) => 2
    case Multiply(_) => 2
    case DivideImmediate(_) => 3
    case Divide(_) => 3
    case RemainderImmediate(_) => 4
    case Remainder(_) => 4
    case AndImmediate(_) => 5
    case And(_) => 5
    case Shift(_) => 6
  }

  /** The operand byte: zero, an address, or the two's-complement byte of an immediate. */
  function Value(a: AddressedInstruction): (r: UInt8)
    ensures a.NoOp? || a.ClearAc? ==> r == 0
    ensures AddressOf(a).Some? ==> r == AddressOf(a).value
    ensures IsImmediateForm(a) ==> SignedByte(r) == a.imm
  {
    match a
    case NoOp => 0
    case ClearAc => 0
    case AddImmediate(i) => UnsignedByte(i)
    case SubtractImmediate(i) => UnsignedByte(i)
    case MultiplyImmediate(i) => UnsignedByte(i)
    case DivideImmediate(i) => UnsignedByte(i)
    case AndImmediate(i) => UnsignedByte(i)
    case RemainderImmediate(i) => UnsignedByte(i)
    case Shift(i) => UnsignedByte(i)
    case Add(x) => x
    case Subtract(x) => x
    case Multiply(x) => x
    case Divide(x) => x
    case And(x) => x
    case Store(x) => x
    case Remainder(x) => x
    case Branch(x) => x
    case BranchZero(x) => x
  }

  /** The 2-byte word: opcode in the high nibble of byte 0, ALU operation in its low nibble, then the operand byte. */
  function Bytes(a: AddressedInstruction): (w: seq<bv8>)
    ensures |w| == 2
    ensures w[0] >> 4 == Opcode(a) as bv8
    ensures w[0] & 0xF == AluOp(a) as bv8
    ensures w[1] == Value(a) as bv8
    ensures w[0] as int == Opcode(a) * 16 + AluOp(a) && w[1] as int == Value(a)
  {
    var hi, lo := Opcode(a) as bv8, AluOp(a) as bv8;
    var b0 := (hi << 4) | lo;
    Octets.NibblesJoin(hi, lo);
    Octets.NibblesAsInt(b0);
    Octets.ByteToInt(Opcode(a));
    Octets.ByteToInt(AluOp(a));
    Octets.ByteToInt(Value(a));
    [b0, Value(a) as bv8]
  }

  /** `{:02x}` of one byte: two lower-case hexadecimal digits, high digit first. */
  function HexByte(b: bv8): (s: string)
    ensures |s| == 2 && IsLowerHexDigit(s[0]) && IsLowerHexDigit(s[1])
    ensures DigitValue(s[0]) * 16 + DigitValue(s[1]) == b as int
  {
    [DigitChar(b as int / 16), DigitChar(b as int % 16)]
  }

  /** The word as four lower-case hexadecimal digits: byte 0, then byte 1, each zero-padded to two. */
  function HexString(a: AddressedInstruction): (s: string)
    ensures |s| == 4
    ensures forall k :: 0 <= k < 4 ==> IsLowerHexDigit(s[k])
    ensures DigitValue(s[0]) * 16 + DigitValue(s[1]) == Bytes(a)[0] as int
    ensures DigitValue(s[2]) * 16 + DigitValue(s[3]) == Bytes(a)[1] as int
  {
    var w := Bytes(a);
    HexByte(w[0]) + HexByte(w[1])
  }

  /** The immediate variant with the given ALU operation code. */
  function ImmediateForm(alu: nat, i: Immediate): AddressedInstruction
    requires alu <= 6
  {
    if alu == 0 then AddressedInstruction.AddImmediate(i)
    else if alu == 1 then AddressedInstruction.SubtractImmediate(i)
    else if alu == 2 then AddressedInstruction.MultiplyImmediate(i)
    else if alu == 3 then AddressedInstruction.DivideImmediate(i)
    else if alu == 4 then AddressedInstruction.RemainderImmediate(i)
    else if alu == 5 then AddressedInstruction.AndImmediate(i)
    else AddressedInstruction.Shift(i)
  }

  /** The address-operand ALU variant with the given ALU operation code. */
  function RegisterForm(alu: nat, x: Address): AddressedInstruction
    requires alu <= 5
  {
    if alu == 0 then AddressedInstruction.Add(x)
    else if alu == 1 then AddressedInstruction.Subtract(x)
    else if alu == 2 then AddressedInstruction.Multiply(x)
    else if alu == 3 then AddressedInstruction.Divide(x)
    else if alu == 4 then AddressedInstruction.Remainder(x)
    else AddressedInstruction.And(x)
  }

  /**
   * Reads a 2-byte word back as an instruction, splitting byte 0 into its opcode and ALU nibbles.
   * Only words the encoder can produce are accepted.
   */
  function Decode(w: seq<bv8>): Option<AddressedInstruction>
    requires |w| == 2
  {
    var op := w[0] as int / 16;
    var alu := w[0] as int % 16;
    var v: UInt8 := w[1] as int;
    if op == 0 && alu == 0 && v == 0 then Some(AddressedInstruction.NoOp)
    else if op == 1 && alu <= 6 then Some(ImmediateForm(alu, SignedByte(v)))
    else if op == 2 && alu <= 5 then Some(RegisterForm(alu, v))
    else if op == 3 && alu == 0 && v == 0 then Some(AddressedInstruction.ClearAc)
    else if op == 4 && alu == 0 then Some(AddressedInstruction.Store(v))
    else if op == 5 && alu == 0 then Some(AddressedInstruction.BranchZero(v))
    else if op == 6 && alu == 0 then Some(AddressedInstruction.Branch(v))
    else None
  }

  /** Decoding the encoding gives back the instruction: opcode, ALU code and operand determine it. */
  lemma {:induction false} DecodeBytes(a: AddressedInstruction)
    ensures Decode(Bytes(a)) == Some(a)
  {
    var w := Bytes(a);
    assert w[0] as int / 16 == Opcode(a) && w[0] as int % 16 == AluOp(a);
    if IsImmediateForm(a) {
      assert SignedByte(w[1] as int) == a.imm;
    }
  }

  lemma ImmediateFormCodes(alu: nat, i: Immediate)
    requires alu <= 6
    ensures Opcode(ImmediateForm(alu, i)) == 1 && AluOp(ImmediateForm(alu, i)) == alu
    ensures SignedByte(Value(ImmediateForm(alu, i))) == i
  {
  }

  lemma RegisterFormCodes(alu: nat, x: Address)
    requires alu <= 5
    ensures Opcode(RegisterForm(alu, x)) == 2 && AluOp(RegisterForm(alu, x)) == alu
    ensures Value(RegisterForm(alu, x)) == x
  {
  }

  /** Every word the decoder accepts is the encoding of what it decodes to. */
  lemma {:induction false} BytesOfDecode(w: seq<bv8>)
    requires |w| == 2 && Decode(w).Some?
    ensures Bytes(Decode(w).value) == w
  {
    DecodedCodes(w);
    CodesDetermineWord(Bytes(Decode(w).value), w);
  }

  /** What the decoder accepts carries the opcode, ALU code and operand it was read from. */
  lemma {:induction false} DecodedCodes(w: seq<bv8>)
    requires |w| == 2 && Decode(w).Some?
    ensures var a := Decode(w).value;
      Opcode(a) == w[0] as int / 16 && AluOp(a) == w[0] as int % 16 && Value(a) == w[1] as int
  {
    var a := Decode(w).value;
    var op, alu, v := w[0] as int / 16, w[0] as int % 16, w[1] as int;
    if op == 1 && alu <= 6 {
      ImmediateFormCodes(alu, SignedByte(v));
      assert Value(a) == v;
    } else if op == 2 && alu <= 5 {
      RegisterFormCodes(alu, v);
    }
  }

  lemma CodesDetermineWord(b: seq<bv8>, w: seq<bv8>)
    requires |b| == 2 && |w| == 2
    requires b[0] as int == w[0] as int / 16 * 16 + w[0] as int % 16 && b[1] as int == w[1] as int
    ensures b == w
  {
    Octets.ByteFromInt(b[0], w[0]);
    Octets.ByteFromInt(b[1], w[1]);
  }

  /** Distinct instructions encode to distinct words. */
  lemma BytesInjective(a: AddressedInstruction, b: AddressedInstruction)
    requires Bytes(a) == Bytes(b)
    ensures a == b
  {
    DecodeBytes(a);
    DecodeBytes(b);
  }
}
