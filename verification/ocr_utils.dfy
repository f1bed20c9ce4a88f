/**
 * The OCR utility module's post-processing: every detection is kept whatever
 * its confidence, each text is first cleaned with the allow-list of ASCII
 * letters and digits, kana and CJK symbols, kanji and '-', and only then
 * corrected with the one-entry table that turns the kanji "one" into '-'.
 * One string is returned per detection.
 */
module OcrUtils {
  import opened AllowList
  import opened Tables
  import opened Cleanup
  import opened Correction
  import opened Recognition

  /** One detection's text after cleanup and then correction. */
  function CleanThenCorrect(text: string): (r: string)
    ensures |r| <= |text|
    ensures forall i | 0 <= i < |r| :: Allows(JapaneseHyphen, r[i]) && r[i] != '一'
  {
    Correct(UtilityTable, Sub(JapaneseHyphen, text))
  }

  /**
   * The post-processing half of the utility module's `ocr_image`, written as
   * the source does it: one pass that cleans every text, then one pass that
   * corrects every cleaned text. The OCR engine's output is the parameter.
   */
  method OcrImage(results: seq<Detection>) returns (correctedTexts: seq<string>)
    ensures |correctedTexts| == |results|
    ensures forall i | 0 <= i < |results| :: correctedTexts[i] == CleanThenCorrect(results[i].text)
  {
    var texts: seq<string> := [];
    for k := 0 to |results|
      invariant |texts| == k
      invariant forall i | 0 <= i < k :: texts[i] == Sub(JapaneseHyphen, results[i].text)
    {
      texts := texts + [Sub(JapaneseHyphen, results[k].text)];
    }
    correctedTexts := [];
    for k := 0 to |texts|
      invariant |correctedTexts| == k
      invariant forall i | 0 <= i < k :: correctedTexts[i] == CleanThenCorrect(results[i].text)
    {
      var corrected := Correct(UtilityTable, texts[k]);
      correctedTexts := correctedTexts + [corrected];
    }
  }

  /** Correction changes nothing but the kanji "one", which becomes '-'. */
  lemma CorrectsOnlyKanjiOne(s: string)
    ensures |Correct(UtilityTable, s)| == |s|
    ensures forall i | 0 <= i < |s| ::
      Correct(UtilityTable, s)[i] == if s[i] == '一' then '-' else s[i]
  {
  }

  /** Correction turns every kanji "one" into a hyphen and adds no other hyphen. */
  lemma {:induction false} CorrectHyphenCount(s: string)
    ensures multiset(Correct(UtilityTable, s))['-'] == multiset(s)['-'] + multiset(s)['一']
    ensures multiset(Correct(UtilityTable, s))['一'] == 0
  {
    if s != [] {
      CorrectHyphenCount(s[1..]);
      assert s == [s[0]] + s[1..];
      assert multiset(s) == multiset([s[0]]) + multiset(s[1..]);
    }
  }

  /**
   * Cleanup runs first, but the kanji "one" (U+4E00) is inside the kept kanji
   * range, so every one of them survives and becomes a hyphen: the output has
   * as many hyphens as the input had hyphens and kanji "one" together.
   */
  lemma KanjiOneBecomesHyphen(text: string)
    ensures multiset(CleanThenCorrect(text))['-'] == multiset(text)['-'] + multiset(text)['一']
  {
    SubCounts(JapaneseHyphen, text, '-');
    SubCounts(JapaneseHyphen, text, '一');
    CorrectHyphenCount(Sub(JapaneseHyphen, text));
  }

  /** Because both '-' and the kanji "one" are allowed, correcting first would give the same strings. */
  lemma {:induction false} OrderIrrelevant(text: string)
    ensures CleanThenCorrect(text) == Sub(JapaneseHyphen, Correct(UtilityTable, text))
  {
    if text != [] {
      OrderIrrelevant(text[1..]);
      var head := [text[0]];
      assert text == head + text[1..];
      SubAppend(JapaneseHyphen, head, text[1..]);
      CorrectAppend(UtilityTable, head, text[1..]);
      CorrectAppend(UtilityTable, Sub(JapaneseHyphen, head), Sub(JapaneseHyphen, text[1..]));
      SubAppend(JapaneseHyphen, Correct(UtilityTable, head), Correct(UtilityTable, text[1..]));
    }
  }

  /** Post-processing an already post-processed text changes nothing. */
  lemma Idempotent(text: string)
    ensures CleanThenCorrect(CleanThenCorrect(text)) == CleanThenCorrect(text)
  {
    var once := CleanThenCorrect(text);
    SubFixesExactlyAllowed(JapaneseHyphen, once);
    CorrectWithoutKeys(UtilityTable, once);
  }

  /** Worked examples: an empty text stays empty, and a lone kanji "one" becomes "-". */
  lemma Examples()
    ensures CleanThenCorrect("") == ""
    ensures CleanThenCorrect("一") == "-"
  {
  }
}
