/**
 The Base58 alphabet and its inverse table. Text is the sequence of its bytes.
 */
module Base58Alphabet {

  type byte = b: nat | b < 256

  const NUMERAL_GLYPHS := "123456789"
  const UPPER_GLYPHS := "ABCDEFGHJKLMNPQRSTUVWXYZ"
  const LOWER_GLYPHS := "abcdefghijkmnopqrstuvwxyz"
  const ALPHABET := NUMERAL_GLYPHS + UPPER_GLYPHS + LOWER_GLYPHS

  // The table of the source, one row of 24 entries a constant.
  const NO_DIGITS: seq<int> := [
    -1, -1, -1, -1, -1, -1, -1, -1, -1, -1, -1, -1, -1, -1, -1, -1, -1, -1, -1, -1, -1, -1, -1, -1]
  const ROW_48: seq<int> := [
    -1, 0, 1, 2, 3, 4, 5, 6, 7, 8, -1, -1, -1, -1, -1, -1, -1, 9, 10, 11, 12, 13, 14, 15]
  const ROW_72: seq<int> := [
    16, -1, 17, 18, 19, 20, 21, -1, 22, 23, 24, 25, 26, 27, 28, 29, 30, 31, 32, -1, -1, -1, -1, -1]
  const ROW_96: seq<int> := [
    -1, 33, 34, 35, 36, 37, 38, 39, 40, 41, 42, 43, -1, 44, 45, 46, 47, 48, 49, 50, 51, 52, 53, 54]
  const ROW_120: seq<int> := [55, 56, 57, -1, -1, -1, -1, -1]
  const DIGITS_MAP := NO_DIGITS + NO_DIGITS + ROW_48 + ROW_72 + ROW_96 + ROW_120

  /** The character '1', which stands for the digit zero. */
  const ONE: byte := 49

  /** What the table says, as ranges of character codes. */
  function RangeDigit(c: int): (d: int)
    ensures -1 <= d < 58
  {
    if 49 <= c <= 57 then c - 49
    else if 65 <= c <= 72 then c - 56
    else if 74 <= c <= 78 then c - 57
    else if 80 <= c <= 90 then c - 58
    else if 97 <= c <= 107 then c - 64
    else if 109 <= c <= 122 then c - 65
    else -1
  }

  lemma LowRows(c: nat)
    requires c < 24
    ensures |NO_DIGITS| == 24 && NO_DIGITS[c] == -1
    ensures |ROW_48| == 24 && ROW_48[c] == RangeDigit(c + 48)
  {
  }

  lemma HighRows(c: nat)
    requires c < 24
    ensures |ROW_72| == 24 && ROW_72[c] == RangeDigit(c + 72)
    ensures |ROW_96| == 24 && ROW_96[c] == RangeDigit(c + 96)
    ensures |ROW_120| == 8 && (c < 8 ==> ROW_120[c] == RangeDigit(c + 120))
  {
  }

  lemma SixRows(r0: seq<int>, r1: seq<int>, r2: seq<int>, r3: seq<int>, r4: seq<int>, r5: seq<int>, k: nat, c: nat)
    requires |r0| == |r1| == |r2| == |r3| == |r4| == 24 && |r5| == 8
    requires k == c / 24 && c < 128
    ensures var rows := r0 + r1 + r2 + r3 + r4 + r5;
            |rows| == 128 && rows[c] == [r0, r1, r2, r3, r4, r5][k][c - 24 * k]
  {
  }

  lemma MapAt(c: nat)
    requires c < 128
    ensures |DIGITS_MAP| == 128 && DIGITS_MAP[c] == RangeDigit(c)
  {
    var k, r := c / 24, c - c / 24 * 24;
    LowRows(r);
    HighRows(r);
    SixRows(NO_DIGITS, NO_DIGITS, ROW_48, ROW_72, ROW_96, ROW_120, k, c);
  }

  lemma NumeralGlyph(d: nat)
    requires d < 9
    ensures |NUMERAL_GLYPHS| == 9 && NUMERAL_GLYPHS[d] as int == d + 49
  {
  }

  lemma UpperGlyph(d: nat)
    requires d < 24
    ensures |UPPER_GLYPHS| == 24
    ensures UPPER_GLYPHS[d] as int == d + (if d < 8 then 65 else if d < 13 then 66 else 67)
  {
  }

  lemma LowerGlyph(d: nat)
    requires d < 25
    ensures |LOWER_GLYPHS| == 25
    ensures LOWER_GLYPHS[d] as int == d + (if d < 11 then 97 else 98)
  {
  }

  lemma ThreeRows(r0: string, r1: string, r2: string, d: nat)
    requires |r0| == 9 && |r1| == 24 && |r2| == 25 && d < 58
    ensures |r0 + r1 + r2| == 58
    ensures (r0 + r1 + r2)[d] == if d < 9 then r0[d] else if d < 33 then r1[d - 9] else r2[d - 33]
  {
  }

  lemma AlphabetAt(d: nat)
    requires d < 58
    ensures |ALPHABET| == 58 && RangeDigit(ALPHABET[d] as int) == d
  {
    NumeralGlyph(if d < 9 then d else 0);
    UpperGlyph(if 9 <= d < 33 then d - 9 else 0);
    LowerGlyph(if 33 <= d then d - 33 else 0);
    ThreeRows(NUMERAL_GLYPHS, UPPER_GLYPHS, LOWER_GLYPHS, d);
  }

  /** The byte that writes digit d. */
  function Glyph(d: nat): (c: byte)
    requires d < 58
    ensures c < 128
    ensures RangeDigit(c) == d
  {
    AlphabetAt(d);
    ALPHABET[d] as int
  }

  /** The digit that a byte of text stands for, or -1. */
  function DigitOf(c: byte): (d: int)
    ensures d == if c < 128 then RangeDigit(c) else -1
  {
    if c >= 128 then -1 else
      MapAt(c);
      DIGITS_MAP[c]
  }

  lemma RangeDigitInjective(c: int, d: int)
    requires RangeDigit(c) == RangeDigit(d) != -1
    ensures c == d
  {
  }

  /** The table inverts the alphabet, in both directions. */
  lemma GlyphsAndDigits(c: byte, d: nat)
    requires d < 58
    ensures DigitOf(c) == d <==> c == Glyph(d)
  {
    if DigitOf(c) == d {
      RangeDigitInjective(c, Glyph(d));
    }
  }
}
