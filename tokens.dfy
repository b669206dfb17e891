/**
 * The lexical tokens of the assembler (src/token.rs): the token sum type, its textual form, the
 * keyword table of the lexer, the conversion of numeric literals and the text the lexer skips.
 * The lexing engine that chooses between overlapping patterns is not part of this model; the
 * parser takes the token sequence as its input.
 */
module Tokens {
  import opened Wrappers
  import opened Numerals

  datatype Token =
    // section directives
    | Text | Data | Label | Number
    // a literal and an identifier
    | NumLiteral(value: Int16)
    | LabelIdent(name: string)
    // mnemonics
    | Add | AddImmediate | Subtract | SubtractImmediate | Multiply | MultiplyImmediate
    | Divide | DivideImmediate | Remainder | RemainderImmediate | Shift | And | AndImmediate
    | BranchZero | Branch | ClearAc | Store | NoOp
    // anything the lexer could not classify
    | Error

  /** A directive or mnemonic: a token produced by a fixed `#[token(..)]` lexeme. */
  predicate IsKeyword(t: Token) {
    !(t.NumLiteral? || t.LabelIdent? || t.Error?)
  }

  /**
   * The `Display` form of a token, used in diagnostics: a non-negative literal prints as its
   * decimal digits, without leading zeros (and a keyword as its lexeme, by
   * `DisplayKeywordRoundTrip`).
   */
  function Display(t: Token): (r: string)
    ensures t.NumLiteral? && 0 <= t.value ==> IsDecimalLexeme(r) && DigitsValue(r, 10) == t.value
    ensures t.NumLiteral? && 0 <= t.value ==> (r[0] == '0' ==> r == "0")
  {
    match t
    case Text => ".text"
    case Data => ".data"
    case Label => ".label"
    case Number => ".number"
    case NumLiteral(i) => IntToDecimal(i)
    case LabelIdent(name) => name
    case Add => "add"
    case AddImmediate => "addi"
    case Subtract => "sub"
    case SubtractImmediate => "subi"
    case Multiply => "mul"
    case MultiplyImmediate => "muli"
    case Divide => "div"
    case DivideImmediate => "divi"
    case Remainder => "rem"
    case RemainderImmediate => "remi"
    case Shift => "shift"
    case And => "and"
    case AndImmediate => "andi"
    case BranchZero => "beqz"
    case Branch => "br"
    case ClearAc => "clac"
    case Store => "stor"
    case NoOp => "noop"
    case Error => "Error"
  }

  /** The lexer's keyword table: the token that each `#[token(..)]` lexeme produces. */
  function KeywordToken(s: string): (r: Option<Token>)
    ensures r.Some? ==> IsKeyword(r.value)
  {
    if s == ".text" then Some(Text)
    else if s == ".data" then Some(Data)
    else if s == ".label" then Some(Label)
    else if s == ".number" then Some(Number)
    else if s == "add" then Some(Add)
    else if s == "addi" then Some(AddImmediate)
    else if s == "sub" then Some(Subtract)
    else if s == "subi" then Some(SubtractImmediate)
    else if s == "mul" then Some(Multiply)
    else if s == "muli" then Some(MultiplyImmediate)
    else if s == "div" then Some(Divide)
    else if s == "divi" then Some(DivideImmediate)
    else if s == "rem" then Some(Remainder)
    else if s == "remi" then Some(RemainderImmediate)
    else if s == "shift" then Some(Shift)
    else if s == "and" then Some(And)
    else if s == "andi" then Some(AndImmediate)
    else if s == "beqz" then Some(BranchZero)
    else if s == "br" then Some(Branch)
    else if s == "clac" then Some(ClearAc)
    else if s == "stor" then Some(Store)
    else if s == "noop" then Some(NoOp)
    else None
  }

  /** Printing a keyword token gives back the lexeme that produces it. */
  lemma {:induction false} DisplayKeywordRoundTrip(t: Token)
    requires IsKeyword(t)
    ensures KeywordToken(Display(t)) == Some(t)
  {
    match t
    case Text =>
    case Data =>
    case Label =>
    case Number =>
    case Add =>
    case AddImmediate =>
    case Subtract =>
    case SubtractImmediate =>
    case Multiply =>
    case MultiplyImmediate =>
    case Divide =>
    case DivideImmediate =>
    case Remainder =>
    case RemainderImmediate =>
    case Shift =>
    case And =>
    case AndImmediate =>
    case BranchZero =>
    case Branch =>
    case ClearAc =>
    case Store =>
    case NoOp =>
  }

  /** Every keyword lexeme is the printed form of the token it produces. */
  lemma {:induction false} KeywordLexemeIsDisplay(s: string, t: Token)
    requires KeywordToken(s) == Some(t)
    ensures Display(t) == s
  {
    if s == ".text" {
    } else if s == ".data" {
    } else if s == ".label" {
    } else if s == ".number" {
    } else if s == "add" {
    } else if s == "addi" {
    } else if s == "sub" {
    } else if s == "subi" {
    } else if s == "mul" {
    } else if s == "muli" {
    } else if s == "div" {
    } else if s == "divi" {
    } else if s == "rem" {
    } else if s == "remi" {
    } else if s == "shift" {
    } else if s == "and" {
    } else if s == "andi" {
    } else if s == "beqz" {
    } else if s == "br" {
    } else if s == "clac" {
    } else if s == "stor" {
    } else if s == "noop" {
    }
  }

  /** A lexeme matching `[0-9]+`. */
  predicate IsDecimalLexeme(s: string) {
    |s| > 0 && IsDigitString(s, 10)
  }

  /** A lexeme matching `0x[0-9a-f]+`. */
  predicate IsHexLexeme(s: string) {
    |s| > 2 && s[0] == '0' && s[1] == 'x' && IsDigitString(s[2..], 16)
  }

  /**
   * The token produced for a decimal lexeme: its callback converts the digits with
   * `i16::from_str_radix(.., 10)`, and a failed conversion yields the error token.
   */
  function DecimalLiteral(s: string): (t: Token)
    requires IsDecimalLexeme(s)
    ensures t.NumLiteral? || t.Error?
    ensures t.NumLiteral? ==> 0 <= t.value
  {
    match FromStrRadix(s, 10)
    case Some(v) => NumLiteral(v)
    case None => Error
  }

  /** The token produced for a hexadecimal lexeme: the digits after `0x`, converted in radix 16. */
  function HexLiteral(s: string): (t: Token)
    requires IsHexLexeme(s)
    ensures t.NumLiteral? || t.Error?
    ensures t.NumLiteral? ==> 0 <= t.value
  {
    match FromStrRadix(s[2..], 16)
    case Some(v) => NumLiteral(v)
    case None => Error
  }

  /** A decimal literal denotes the base-10 value of its digits, and only when that value fits in `i16`. */
  lemma DecimalLiteralValue(s: string)
    requires IsDecimalLexeme(s)
    ensures DecimalLiteral(s)
      == if DigitsValue(s, 10) <= INT16_MAX then NumLiteral(DigitsValue(s, 10)) else Error
  {
    FromStrRadixValue(s, 10);
  }

  /** A hexadecimal literal denotes the base-16 value of the digits after `0x`, and only when it fits in `i16`. */
  lemma HexLiteralValue(s: string)
    requires IsHexLexeme(s)
    ensures HexLiteral(s)
      == if DigitsValue(s[2..], 16) <= INT16_MAX then NumLiteral(DigitsValue(s[2..], 16)) else Error
  {
    FromStrRadixValue(s[2..], 16);
  }

  /** A non-negative literal prints as a decimal lexeme that reads back as the same token. */
  lemma DisplayLiteralRoundTrip(v: Int16)
    requires 0 <= v
    ensures IsDecimalLexeme(Display(NumLiteral(v)))
    ensures DecimalLiteral(Display(NumLiteral(v))) == NumLiteral(v)
  {
    NatToDecimalValue(v);
    DecimalLiteralValue(NatToDecimal(v));
  }

  /** The characters of the `[ \t\n\r]+` skip rule. */
  predicate IsBlank(c: char) {
    c == ' ' || c == '\t' || c == '\n' || c == '\r'
  }

  /**
   * The end of a comment body that starts at index `i` of the input (`.*` after `#`): the index
   * of the next line feed, or the end of input. Every character before it is part of the comment.
   */
  function CommentEnd(s: string, i: nat): (j: nat)
    requires i <= |s|
    ensures i <= j <= |s|
    ensures j == |s| || s[j] == '\n'
    ensures forall k :: i <= k < j ==> s[k] != '\n'
    decreases |s| - i
  {
    if i < |s| && s[i] != '\n' then CommentEnd(s, i + 1) else i
  }

  /**
   * The text the lexer skips before the next token, from index `i` of the input: runs of blanks
   * and `#` comments, in any order. The result is the index at which the next token (or the end
   * of input) begins.
   */
  function SkipTrivia(s: string, i: nat): (j: nat)
    requires i <= |s|
    ensures i <= j <= |s|
    ensures j == |s| || (!IsBlank(s[j]) && s[j] != '#')
    decreases |s| - i
  {
    if i < |s| && IsBlank(s[i]) then SkipTrivia(s, i + 1)
    else if i < |s| && s[i] == '#' then SkipTrivia(s, CommentEnd(s, i + 1))
    else i
  }

  /**
   * Index `k` lies inside a `#` comment that starts at or after `i`: there is a `#` at some `h` in
   * `[i, k]` and no line feed after it up to `k`.
   */
  predicate InComment(s: string, i: nat, k: nat)
    requires k < |s|
  {
    exists h :: i <= h <= k && s[h] == '#' && forall m :: h < m <= k ==> s[m] != '\n'
  }

  /** Skipping passes over nothing but blanks and comment text. */
  lemma {:induction false} SkipTriviaSkipsOnlyTrivia(s: string, i: nat)
    requires i <= |s|
    ensures forall k :: i <= k < SkipTrivia(s, i) ==> IsBlank(s[k]) || InComment(s, i, k)
    decreases |s| - i
  {
    var j := SkipTrivia(s, i);
    if i < |s| && IsBlank(s[i]) {
      SkipTriviaSkipsOnlyTrivia(s, i + 1);
      forall k | i < k < j && !IsBlank(s[k])
        ensures InComment(s, i, k)
      {
        var h :| i + 1 <= h <= k && s[h] == '#' && forall m :: h < m <= k ==> s[m] != '\n';
      }
    } else if i < |s| && s[i] == '#' {
      var e := CommentEnd(s, i + 1);
      SkipTriviaSkipsOnlyTrivia(s, e);
      forall k | i <= k < j && !IsBlank(s[k])
        ensures InComment(s, i, k)
      {
        if k < e {
          assert s[i] == '#' && forall m :: i < m <= k ==> s[m] != '\n';
        } else {
          var h :| e <= h <= k && s[h] == '#' && forall m :: h < m <= k ==> s[m] != '\n';
        }
      }
    }
  }

  /**
   * Skipping never stops inside a comment: a `#` before the stop is always closed by a line feed
   * at or before it. A comment that runs to the end of input is therefore skipped whole.
   */
  lemma {:induction false} SkipTriviaStopsOutsideComments(s: string, i: nat)
    requires i <= |s|
    ensures SkipTrivia(s, i) < |s| ==> !InComment(s, i, SkipTrivia(s, i))
    decreases |s| - i
  {
    var j := SkipTrivia(s, i);
    if j < |s| {
      if i < |s| && IsBlank(s[i]) {
        SkipTriviaStopsOutsideComments(s, i + 1);
      } else if i < |s| && s[i] == '#' {
        var e := CommentEnd(s, i + 1);
        SkipTriviaStopsOutsideComments(s, e);
        forall h | i <= h <= j && s[h] == '#'
          ensures exists m :: h < m <= j && s[m] == '\n'
        {
          if h < e {
            assert h < e <= j && s[e] == '\n';
          } else {
            assert !InComment(s, e, j);
          }
        }
      }
    }
  }

  /** Skipping stops only where there is nothing more to skip: a second skip stays put. */
  lemma SkipTriviaIdempotent(s: string, i: nat)
    requires i <= |s|
    ensures SkipTrivia(s, SkipTrivia(s, i)) == SkipTrivia(s, i)
  {
  }

  /**
   * A comment ends at the end of its line: skipping from a `#` at `i` whose line ends at `j` goes
   * on from the character after that line feed.
   */
  lemma CommentRunsToEndOfLine(s: string, i: nat, j: nat)
    requires i < j < |s| && s[i] == '#' && s[j] == '\n'
    requires forall k :: i < k < j ==> s[k] != '\n'
    ensures SkipTrivia(s, i) == SkipTrivia(s, j + 1)
  {
    var e := CommentEnd(s, i + 1);
    if e < j {
      assert false;
    }
  }

  /** A comment on the last line of an input without a final line feed is skipped to the end of input. */
  lemma CommentRunsToEndOfInput(s: string, i: nat)
    requires i < |s| && s[i] == '#'
    requires forall k :: i < k < |s| ==> s[k] != '\n'
    ensures SkipTrivia(s, i) == |s|
  {
    assert CommentEnd(s, i + 1) == |s|;
  }
}
