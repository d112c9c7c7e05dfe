/// Character classes used by the grammar: nom_unicode's `alpha1` /
/// `alphanumeric0` (Unicode `is_alphabetic` / `is_alphanumeric`), nom's
/// `multispace0` and Rust's `is_ascii_digit`.
module Chars {

  predicate IsAsciiLetter(c: char) {
    'a' <= c <= 'z' || 'A' <= c <= 'Z'
  }

  predicate IsAsciiDigit(c: char) {
    '0' <= c <= '9'
  }

  /// Letters outside ASCII. Unicode's Alphabetic property is a large table;
  /// this keeps its main alphabetic blocks: Latin-1 and Latin Extended,
  /// Greek (without the unassigned U+03A2), Cyrillic, Hebrew, Arabic, the
  /// Roman numerals (letter numbers, which are alphabetic), Hiragana,
  /// Katakana, CJK ideographs and Hangul syllables.
  predicate IsOtherLetter(c: char) {
    var n := c as int;
    || (0xC0 <= n <= 0x24F && n != 0xD7 && n != 0xF7)
    || (0x391 <= n <= 0x3C9 && n != 0x3A2)
    || 0x400 <= n <= 0x481
    || 0x5D0 <= n <= 0x5EA
    || 0x620 <= n <= 0x64A
    || 0x2160 <= n <= 0x2188
    || 0x3041 <= n <= 0x3096
    || 0x30A1 <= n <= 0x30FA
    || 0x4E00 <= n <= 0x9FFF
    || 0xAC00 <= n <= 0xD7A3
  }

  /// `char::is_alphabetic`
  predicate IsAlpha(c: char) {
    IsAsciiLetter(c) || IsOtherLetter(c)
  }

  /// Numeric characters outside ASCII that are not alphabetic (Unicode
  /// categories Nd and No), again by their main blocks: superscript and
  /// subscript digits, vulgar fractions, Arabic-Indic and Devanagari
  /// digits, circled numbers and fullwidth digits.
  predicate IsOtherNumeric(c: char) {
    var n := c as int;
    || n == 0xB2 || n == 0xB3 || n == 0xB9
    || 0xBC <= n <= 0xBE
    || 0x660 <= n <= 0x669
    || 0x6F0 <= n <= 0x6F9
    || 0x966 <= n <= 0x96F
    || n == 0x2070
    || 0x2074 <= n <= 0x2079
    || 0x2080 <= n <= 0x2089
    || 0x2460 <= n <= 0x249B
    || 0xFF10 <= n <= 0xFF19
  }

  /// `char::is_alphanumeric`: alphabetic or numeric
  predicate IsAlnum(c: char) {
    IsAlpha(c) || IsAsciiDigit(c) || IsOtherNumeric(c)
  }

  /// The characters nom's `multispace0` skips.
  predicate IsMultispace(c: char) {
    c == ' ' || c == '\t' || c == '\r' || c == '\n'
  }

  /// The facts about the classes that the grammar's behaviour rests on:
  /// ASCII letters are alphabetic, ASCII digits are alphanumeric but not
  /// alphabetic, and the grammar's punctuation and whitespace are neither.
  lemma AsciiClasses(c: char)
    ensures IsAsciiLetter(c) ==> IsAlpha(c) && IsAlnum(c)
    ensures IsAsciiDigit(c) ==> IsAlnum(c) && !IsAlpha(c)
    ensures c in "_ ()=,:-+*/>\n\t\r" ==> !IsAlnum(c) && !IsAlpha(c)
    ensures IsMultispace(c) ==> !IsAlnum(c)
  {
  }
}
