/**
 * The three OCR correction tables of the repository. In the source each is a
 * Python dict from one-character strings to one-character strings; here each
 * is a lookup that lists the dict's pairs in source order, so a key is a
 * `char` by construction and an absent key yields `Nothing`.
 */
module Tables {
  import opened Maybes

  datatype Table =
    | WebAppTable   // the web app's table
    | UtilityTable  // the OCR utility module's one-entry table
    | ConfigTable   // the shared configuration's full-width / misread-B table

  /** Misreads fixed by the web app: a hyphen, the O/0 pair, a 'B', bars and brackets. */
  function WebAppEntry(c: char): Maybe<char> {
    match c
    case '一' => Just('-')
    case 'O' => Just('0')
    case '0' => Just('O')
    case '巴' => Just('B')
    case '|' => Just('|')
    case '｜' => Just('|')
    case '（' => Just('(')
    case '）' => Just(')')
    case _ => Nothing
  }

  /** The utility module only turns the kanji "one" into a hyphen. */
  function UtilityEntry(c: char): Maybe<char> {
    match c
    case '一' => Just('-')
    case _ => Nothing
  }

  /** Full-width Latin letters to ASCII, and eight glyphs that are misread 'B's. */
  function ConfigEntry(c: char): Maybe<char> {
    match c
    case 'Ａ' => Just('A') case 'Ｂ' => Just('B') case 'Ｃ' => Just('C') case 'Ｄ' => Just('D')
    case 'Ｅ' => Just('E') case 'Ｆ' => Just('F') case 'Ｇ' => Just('G') case 'Ｈ' => Just('H')
    case 'Ｉ' => Just('I') case 'Ｊ' => Just('J') case 'Ｋ' => Just('K') case 'Ｌ' => Just('L')
    case 'Ｍ' => Just('M') case 'Ｎ' => Just('N') case 'Ｏ' => Just('O') case 'Ｐ' => Just('P')
    case 'Ｑ' => Just('Q') case 'Ｒ' => Just('R') case 'Ｓ' => Just('S') case 'Ｔ' => Just('T')
    case 'Ｕ' => Just('U') case 'Ｖ' => Just('V') case 'Ｗ' => Just('W') case 'Ｘ' => Just('X')
    case 'Ｙ' => Just('Y') case 'Ｚ' => Just('Z')
    case 'ａ' => Just('a') case 'ｂ' => Just('b') case 'ｃ' => Just('c') case 'ｄ' => Just('d')
    case 'ｅ' => Just('e') case 'ｆ' => Just('f') case 'ｇ' => Just('g') case 'ｈ' => Just('h')
    case 'ｉ' => Just('i') case 'ｊ' => Just('j') case 'ｋ' => Just('k') case 'ｌ' => Just('l')
    case 'ｍ' => Just('m') case 'ｎ' => Just('n') case 'ｏ' => Just('o') case 'ｐ' => Just('p')
    case 'ｑ' => Just('q') case 'ｒ' => Just('r') case 'ｓ' => Just('s') case 'ｔ' => Just('t')
    case 'ｕ' => Just('u') case 'ｖ' => Just('v') case 'ｗ' => Just('w') case 'ｘ' => Just('x')
    case 'ｙ' => Just('y') case 'ｚ' => Just('z')
    case '川' => Just('B') case '八' => Just('B') case '日' => Just('B') case '丨' => Just('B')
    case '|' => Just('B') case 'リ' => Just('B') case '工' => Just('B') case '三' => Just('B')
    case _ => Nothing
  }

  /** `table.get(c)`: the entry for `c`, if the table has one. */
  function Get(t: Table, c: char): Maybe<char> {
    match t
    case WebAppTable => WebAppEntry(c)
    case UtilityTable => UtilityEntry(c)
    case ConfigTable => ConfigEntry(c)
  }

  /** `table.get(c, c)`: the corrected character, `c` itself when it is not a key. */
  function Fix(t: Table, c: char): char {
    Get(t, c).Else(c)
  }
}
