/**
 * Fixed-width integer ranges and the digit arithmetic shared by the numeric-literal rules of the
 * lexer and the hexadecimal printing of encoded instructions.
 */
module Numerals {
  import opened Wrappers

  /** Rust's `i8`: the range of an immediate operand. */
  type Int8 = x: int | -128 <= x < 128

  /** Rust's `u8`: an address or an encoded byte value. */
  type UInt8 = x: int | 0 <= x < 256

  /** Rust's `i16`: a numeric literal and a data word. */
  type Int16 = x: int | -32768 <= x < 32768

  const INT16_MAX := 32767

  predicate IsDecimalDigit(c: char) {
    '0' <= c <= '9'
  }

  /** A digit of the `[0-9a-f]` alphabet: the only hexadecimal digits the lexer accepts. */
  predicate IsLowerHexDigit(c: char) {
    IsDecimalDigit(c) || 'a' <= c <= 'f'
  }

  function DigitValue(c: char): (d: nat)
    requires IsLowerHexDigit(c)
    ensures d < 16
    ensures IsDecimalDigit(c) <==> d < 10
  {
    if IsDecimalDigit(c) then c as int - '0' as int else c as int - 'a' as int + 10
  }

  /** The lower-case digit character of `d`; the inverse of `DigitValue`. */
  function DigitChar(d: nat): (c: char)
    requires d < 16
    ensures IsLowerHexDigit(c) && DigitValue(c) == d
  {
    if d < 10 then ('0' as int + d) as char else ('a' as int + d - 10) as char
  }

  /** Every character of `s` is a digit whose value is below `radix`. */
  predicate IsDigitString(s: string, radix: nat) {
    forall k :: 0 <= k < |s| ==> IsLowerHexDigit(s[k]) && DigitValue(s[k]) < radix
  }

  /** The positional value of a digit string: the last digit counts once, the one before it `radix` times, and so on. */
  function DigitsValue(s: string, radix: nat): nat
    requires IsDigitString(s, radix)
  {
    if |s| == 0 then 0 else DigitsValue(s[..|s| - 1], radix) * radix + DigitValue(s[|s| - 1])
  }

  /**
   * The standard library's `i16::from_str_radix` on a non-empty unsigned digit string: the digits are
   * consumed from the left, the running value is multiplied by the radix and the digit is added, and
   * the conversion fails as soon as the running value leaves the `i16` range.
   */
  function FromStrRadix(s: string, radix: nat): (r: Option<Int16>)
    requires 2 <= radix <= 16 && |s| > 0 && IsDigitString(s, radix)
    ensures r.Some? ==> 0 <= r.value
  {
    Accumulate(s, radix, 0, 0)
  }

  function Accumulate(s: string, radix: nat, k: nat, acc: nat): (r: Option<Int16>)
    requires 2 <= radix <= 16 && k <= |s| && acc <= INT16_MAX && IsDigitString(s, radix)
    ensures r.Some? ==> 0 <= r.value
    decreases |s| - k
  {
    if k == |s| then Some(acc)
    else
      var next := acc * radix + DigitValue(s[k]);
      if next > INT16_MAX then None else Accumulate(s, radix, k + 1, next)
  }

  lemma DigitsValueSnoc(s: string, radix: nat, k: nat)
    requires IsDigitString(s, radix) && k < |s|
    ensures IsDigitString(s[..k], radix) && IsDigitString(s[..k + 1], radix)
    ensures DigitsValue(s[..k + 1], radix) == DigitsValue(s[..k], radix) * radix + DigitValue(s[k])
  {
    assert s[..k + 1][..k] == s[..k];
  }

  /** A longer prefix of a digit string never has a smaller value. */
  lemma {:induction false} DigitsValuePrefixMonotone(s: string, radix: nat, k: nat)
    requires IsDigitString(s, radix) && k <= |s| && radix >= 1
    ensures IsDigitString(s[..k], radix)
    ensures DigitsValue(s[..k], radix) <= DigitsValue(s, radix)
    decreases |s| - k
  {
    if k < |s| {
      DigitsValuePrefixMonotone(s, radix, k + 1);
      DigitsValueSnoc(s, radix, k);
      var shorter := DigitsValue(s[..k], radix);
      assert shorter <= shorter * radix by { MulAtLeastOne(shorter, radix); }
    } else {
      assert s[..k] == s;
    }
  }

  lemma MulAtLeastOne(a: nat, b: nat)
    requires b >= 1
    ensures a <= a * b
  {
    assert a * b == a + a * (b - 1);
  }

  lemma {:induction false} AccumulateValue(s: string, radix: nat, k: nat)
    requires 2 <= radix <= 16 && k <= |s| && IsDigitString(s, radix)
    requires IsDigitString(s[..k], radix) && DigitsValue(s[..k], radix) <= INT16_MAX
    ensures Accumulate(s, radix, k, DigitsValue(s[..k], radix))
      == if DigitsValue(s, radix) <= INT16_MAX then Some(DigitsValue(s, radix)) else None
    decreases |s| - k
  {
    if k == |s| {
      assert s[..k] == s;
    } else {
      DigitsValueSnoc(s, radix, k);
      var next := DigitsValue(s[..k], radix) * radix + DigitValue(s[k]);
      if next > INT16_MAX {
        DigitsValuePrefixMonotone(s, radix, k + 1);
      } else {
        AccumulateValue(s, radix, k + 1);
      }
    }
  }

  /** `from_str_radix` succeeds exactly when the positional value fits in `i16`, and then yields it. */
  lemma FromStrRadixValue(s: string, radix: nat)
    requires 2 <= radix <= 16 && |s| > 0 && IsDigitString(s, radix)
    ensures FromStrRadix(s, radix)
      == if DigitsValue(s, radix) <= INT16_MAX then Some(DigitsValue(s, radix)) else None
  {
    assert s[..0] == [];
    AccumulateValue(s, radix, 0);
  }

  /** Rust's `{}` formatting of a non-negative integer: its decimal digits, without leading zeros. */
  function NatToDecimal(n: nat): (s: string)
    ensures |s| > 0 && IsDigitString(s, 10)
    ensures s[0] == '0' ==> n == 0 && s == "0"
    decreases n
  {
    if n < 10 then [DigitChar(n)] else NatToDecimal(n / 10) + [DigitChar(n % 10)]
  }

  /**
   * Rust's `{}` formatting of an integer: a minus sign before the digits of a negative value. The
   * digits read back as the magnitude of the number and carry no leading zero.
   */
  function IntToDecimal(i: int): (s: string)
    ensures 0 <= i ==> |s| > 0 && IsDigitString(s, 10) && DigitsValue(s, 10) == i
    ensures 0 <= i ==> (s[0] == '0' ==> s == "0")
    ensures i < 0 ==> |s| > 1 && s[0] == '-' && IsDigitString(s[1..], 10) && DigitsValue(s[1..], 10) == -i
    ensures i < 0 ==> s[1] != '0'
  {
    if i < 0 then
      NatToDecimalValue(-i);
      var s := "-" + NatToDecimal(-i);
      assert s[1..] == NatToDecimal(-i);
      s
    else
      NatToDecimalValue(i);
      NatToDecimal(i)
  }

  /** Reading back the printed digits gives the number that was printed. */
  lemma {:induction false} NatToDecimalValue(n: nat)
    ensures DigitsValue(NatToDecimal(n), 10) == n
    decreases n
  {
    var s := NatToDecimal(n);
    if n >= 10 {
      NatToDecimalValue(n / 10);
      assert s[..|s| - 1] == NatToDecimal(n / 10);
    }
  }
}
