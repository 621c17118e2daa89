/**
 * Character classes used by the cell-type patterns.
 *
 * The patterns rely on Unicode-aware classes (`\d`, `\p{N}`, `\p{L}`,
 * `\p{Sc}`, `\s`, `\w`). Each class is given here as an explicit table of
 * code-point ranges. The ASCII members are exact; outside ASCII the tables
 * list a selection of blocks (see README, "Left out"). The tables are chosen
 * so that the inclusions the regex engine guarantees hold here too:
 * decimal digits are numbers, numbers and letters are disjoint, and so on.
 */
module Unicode {

  predicate IsAsciiDigit(c: char) { '0' <= c <= '9' }

  predicate IsAsciiLetter(c: char) { 'a' <= c <= 'z' || 'A' <= c <= 'Z' }

  /** `\d`: decimal digits (general category Nd). */
  predicate IsDecimalDigit(c: char)
  {
    || IsAsciiDigit(c)
    || '\U{0660}' <= c <= '\U{0669}'   // Arabic-Indic
    || '\U{06F0}' <= c <= '\U{06F9}'   // Extended Arabic-Indic
    || '\U{0966}' <= c <= '\U{096F}'   // Devanagari
    || '\U{09E6}' <= c <= '\U{09EF}'   // Bengali
    || '\U{0E50}' <= c <= '\U{0E59}'   // Thai
    || '\U{FF10}' <= c <= '\U{FF19}'   // Fullwidth
  }

  /** `\p{N}`: numbers (Nd, Nl, No). */
  predicate IsNumeric(c: char)
  {
    || IsDecimalDigit(c)
    || c == '\U{00B2}' || c == '\U{00B3}' || c == '\U{00B9}'   // superscripts
    || '\U{00BC}' <= c <= '\U{00BE}'                         // vulgar fractions
    || '\U{2160}' <= c <= '\U{2182}'                         // Roman numerals
    || '\U{2460}' <= c <= '\U{249B}'                         // enclosed numbers
    || c == '\U{3007}' || '\U{3021}' <= c <= '\U{3029}'       // CJK numerals
  }

  /** `\p{L}`: letters (Lu, Ll, Lt, Lm, Lo). */
  predicate IsLetter(c: char)
  {
    || IsAsciiLetter(c)
    || c == '\U{00AA}' || c == '\U{00B5}' || c == '\U{00BA}'
    || '\U{00C0}' <= c <= '\U{00D6}' || '\U{00D8}' <= c <= '\U{00F6}'
    || '\U{00F8}' <= c <= '\U{02C1}'   // Latin-1, Latin Extended, IPA
    || '\U{0391}' <= c <= '\U{03A1}' || '\U{03A3}' <= c <= '\U{03C9}'   // Greek
    || '\U{0400}' <= c <= '\U{0481}'   // Cyrillic
    || '\U{05D0}' <= c <= '\U{05EA}'   // Hebrew
    || '\U{0620}' <= c <= '\U{064A}'   // Arabic
    || '\U{3041}' <= c <= '\U{3096}'   // Hiragana
    || '\U{30A1}' <= c <= '\U{30FA}'   // Katakana
    || '\U{4E00}' <= c <= '\U{9FFF}'   // CJK Unified Ideographs
    || '\U{AC00}' <= c <= '\U{D7A3}'   // Hangul syllables
  }

  /** `\p{Sc}`: currency symbols. */
  predicate IsCurrencySymbol(c: char)
  {
    || c == '$'
    || '\U{00A2}' <= c <= '\U{00A5}'
    || c == '\U{058F}' || c == '\U{060B}' || c == '\U{07FE}' || c == '\U{07FF}'
    || c == '\U{09F2}' || c == '\U{09F3}' || c == '\U{09FB}' || c == '\U{0AF1}'
    || c == '\U{0BF9}' || c == '\U{0E3F}' || c == '\U{17DB}'
    || '\U{20A0}' <= c <= '\U{20C0}'
    || c == '\U{A838}' || c == '\U{FDFC}' || c == '\U{FE69}' || c == '\U{FF04}'
    || c == '\U{FFE0}' || c == '\U{FFE1}' || c == '\U{FFE5}' || c == '\U{FFE6}'
  }

  /** `\s`: characters with the White_Space property. */
  predicate IsWhitespace(c: char)
  {
    || '\t' <= c <= '\r' || c == ' ' || c == '\U{0085}' || c == '\U{00A0}'
    || c == '\U{1680}' || '\U{2000}' <= c <= '\U{200A}'
    || c == '\U{2028}' || c == '\U{2029}' || c == '\U{202F}' || c == '\U{205F}'
    || c == '\U{3000}'
  }

  /** `\w`: word characters. */
  predicate IsWordChar(c: char) { IsLetter(c) || IsDecimalDigit(c) || c == '_' }

  /** The characters of SPECIALS_ALLOWED: script-specific periods, parentheses,
      question marks and exclamation marks (ccsv/detect_type.py:17-69). */
  predicate IsSpecialAllowed(c: char)
  {
    c in {
      // periods
      '.', '\U{06D4}', '\U{3002}', '\U{FE52}', '\U{FF0E}', '\U{FF61}',
      // parentheses
      '(', ')', '\U{27EE}', '\U{27EF}', '\U{FF08}', '\U{FF09}',
      // question marks
      '?', '\U{00BF}', '\U{037E}', '\U{055E}', '\U{061F}', '\U{1367}', '\U{1945}',
      '\U{2047}', '\U{2048}', '\U{2049}', '\U{2CFA}', '\U{2CFB}', '\U{2E2E}', '\U{A60F}',
      '\U{A6F7}', '\U{FE16}', '\U{FE56}', '\U{FF1F}', '\U{11143}', '\U{1E95F}',
      // exclamation marks
      '!', '\U{00A1}', '\U{01C3}', '\U{055C}', '\U{07F9}', '\U{109F}', '\U{1944}',
      '\U{203C}', '\U{AA77}', '\U{FE15}', '\U{FE57}', '\U{FF01}', '\U{1E95E}'
    }
  }

  /** The tables keep the inclusions and exclusions of the real categories. */
  lemma ClassRelations(c: char)
    ensures IsAsciiDigit(c) ==> IsDecimalDigit(c)
    ensures IsDecimalDigit(c) ==> IsNumeric(c)
    ensures !(IsNumeric(c) && IsLetter(c))
    ensures IsCurrencySymbol(c) ==> !IsNumeric(c) && !IsLetter(c) && !IsWhitespace(c)
    ensures IsWhitespace(c) ==> !IsNumeric(c) && !IsLetter(c)
  {
  }
}
