/**
 * The three character classes the repository uses to clean OCR text.
 * Each call site deletes, with `re.sub(pattern, '', text)`, every character
 * matched by a negated character class; a character therefore survives
 * cleanup exactly when `Allows` below holds of it.
 */
module AllowList {

  /** One allow-list per call site. */
  datatype Pattern =
    | AsciiHyphen     // web app: ASCII letters, digits and '-'
    | JapaneseHyphen  // OCR utility module: also kana/CJK symbols and kanji, and '-'
    | Japanese        // shared configuration: kana/CJK symbols and kanji, but no '-'

  predicate IsAsciiDigit(c: char) {
    '0' <= c <= '9'
  }

  predicate IsAsciiLetter(c: char) {
    'A' <= c <= 'Z' || 'a' <= c <= 'z'
  }

  predicate IsAsciiAlnum(c: char) {
    IsAsciiDigit(c) || IsAsciiLetter(c)
  }

  /** U+3000..U+30FF: CJK symbols and punctuation, hiragana, katakana. */
  predicate IsKana(c: char) {
    '\U{3000}' <= c <= '\U{30FF}'
  }

  /** U+4E00..U+9FFF: the CJK unified ideographs block. */
  predicate IsKanji(c: char) {
    '\U{4E00}' <= c <= '\U{9FFF}'
  }

  /** True iff the pattern's negated class does not match `c`, so `c` is kept. */
  predicate Allows(p: Pattern, c: char) {
    match p
    case AsciiHyphen => IsAsciiAlnum(c) || c == '-'
    case JapaneseHyphen => IsAsciiAlnum(c) || IsKana(c) || IsKanji(c) || c == '-'
    case Japanese => IsAsciiAlnum(c) || IsKana(c) || IsKanji(c)
  }
}
