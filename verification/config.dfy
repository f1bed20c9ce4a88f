/**
 * Properties of the shared configuration's static data: its correction table
 * (full-width Latin letters and misread 'B' glyphs) and its cleanup
 * allow-list, which unlike the utility module's has no hyphen.
 */
module Config {
  import opened Maybes
  import opened AllowList
  import opened Tables
  import opened Cleanup

  predicate IsFullWidthLetter(c: char) {
    'Ａ' <= c <= 'Ｚ' || 'ａ' <= c <= 'ｚ'
  }

  /** The eight glyphs the table treats as misread 'B's. */
  predicate IsMisreadB(c: char) {
    c == '川' || c == '八' || c == '日' || c == '丨' || c == '|' || c == 'リ' || c == '工' || c == '三'
  }

  /** Each full-width letter maps to the ASCII letter whose code point is 0xFEE0 lower. */
  lemma FullWidthToAscii(c: char)
    requires IsFullWidthLetter(c)
    ensures Get(ConfigTable, c) == Just((c as int - 0xFEE0) as char)
  {
    if c <= 'Ｚ' {
      FullWidthUpperToAscii(c);
    } else {
      FullWidthLowerToAscii(c);
    }
  }

  lemma FullWidthUpperToAscii(c: char)
    requires 'Ａ' <= c <= 'Ｚ'
    ensures Get(ConfigTable, c) == Just((c as int - 0xFEE0) as char)
  {
  }

  lemma FullWidthLowerToAscii(c: char)
    requires 'ａ' <= c <= 'ｚ'
    ensures Get(ConfigTable, c) == Just((c as int - 0xFEE0) as char)
  {
  }

  /** Every misread glyph maps to 'B'. */
  lemma MisreadGlyphsAreB(c: char)
    requires IsMisreadB(c)
    ensures Get(ConfigTable, c) == Just('B')
  {
  }

  /** The table has no keys besides the full-width letters and the misread glyphs. */
  lemma KeysAreExactly(c: char)
    ensures Get(ConfigTable, c).Just? <==> IsFullWidthLetter(c) || IsMisreadB(c)
  {
  }

  /** Every value is an ASCII letter, so it survives this file's own cleanup. */
  lemma ValuesAreAsciiLetters(c: char)
    requires Get(ConfigTable, c).Just?
    ensures IsAsciiLetter(Get(ConfigTable, c).value)
    ensures Sub(Japanese, [Fix(ConfigTable, c)]) == [Fix(ConfigTable, c)]
  {
  }

  /** This allow-list deletes every hyphen; otherwise it agrees with the utility module's. */
  lemma {:induction false} CleanupWithoutHyphen(s: string)
    ensures '-' !in Sub(Japanese, s)
    ensures '-' !in s ==> Sub(Japanese, s) == Sub(JapaneseHyphen, s)
  {
    if s != [] {
      CleanupWithoutHyphen(s[1..]);
      assert s[0] in s;
    }
  }
}
