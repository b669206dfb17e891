/** Conversions between bytes and their integer values, kept apart from the models that use them. */
module Octets {

  /** An integer within a byte keeps its value through a byte. */
  lemma ByteToInt(x: int)
    requires 0 <= x < 256
    ensures (x as bv8) as int == x
  {
  }

  /** The high and low nibbles of a byte are its quotient and remainder by 16. */
  lemma NibblesAsInt(b: bv8)
    ensures (b as int) / 16 == (b >> 4) as int && (b as int) % 16 == (b & 0xF) as int
  {
  }

  /** Two nibbles joined into one byte are read back unchanged. */
  lemma NibblesJoin(hi: bv8, lo: bv8)
    requires hi < 16 && lo < 16
    ensures ((hi << 4) | lo) >> 4 == hi && ((hi << 4) | lo) & 0xF == lo
  {
  }

  /** Bytes with the same value are equal. */
  lemma ByteFromInt(x: bv8, y: bv8)
    requires x as int == y as int
    ensures x == y
  {
  }

  /** A number below 256 times 256 plus a digit below 256 determines both. */
  lemma BaseDigitsEqual(x0: int, x1: int, y0: int, y1: int)
    requires 0 <= x1 < 256 && 0 <= y1 < 256
    requires x0 * 256 + x1 == y0 * 256 + y1
    ensures x0 == y0 && x1 == y1
  {
  }

  /** Two big-endian byte pairs denoting the same number are equal. */
  lemma BytePairsEqual(b: seq<bv8>, c: seq<bv8>)
    requires |b| == 2 && |c| == 2
    requires b[0] as int * 256 + b[1] as int == c[0] as int * 256 + c[1] as int
    ensures b == c
  {
    BaseDigitsEqual(b[0] as int, b[1] as int, c[0] as int, c[1] as int);
    ByteFromInt(b[0], c[0]);
    ByteFromInt(b[1], c[1]);
    assert b == [b[0], b[1]] && c == [c[0], c[1]];
  }
}
