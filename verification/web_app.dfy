/**
 * The web app's post-processing of OCR output: drop detections whose
 * confidence is not above 0.5, correct each surviving fragment with the web
 * app's table, join the fragments in detection order, then delete every
 * character other than ASCII letters, digits and '-'.
 */
module WebApp {
  import opened AllowList
  import opened Tables
  import opened Cleanup
  import opened Correction
  import opened Recognition

  const ConfidenceThreshold: real := 0.5

  /** A detection is used only when its confidence is strictly above the threshold. */
  predicate Confident(d: Detection) {
    d.confidence > ConfidenceThreshold
  }

  /** What one detection adds to the scan result on its own. */
  function Contribution(d: Detection): string {
    if Confident(d) then Sub(AsciiHyphen, Correct(WebAppTable, d.text)) else ""
  }

  /**
   * Reference definition of the scan result: the contributions of the
   * detections, concatenated in detection order.
   */
  function Normalize(results: seq<Detection>): string {
    Gather(Contribution, results)
  }

  /**
   * The post-processing half of the web app's `ocr_image`, written as the
   * source does it: filter and correct in one pass, join, then clean. The OCR
   * engine's output is the parameter.
   */
  method OcrImage(results: seq<Detection>) returns (joined: string)
    ensures joined == Normalize(results)
    ensures forall i | 0 <= i < |joined| :: IsAsciiAlnum(joined[i]) || joined[i] == '-'
  {
    var texts: seq<string> := [];
    for k := 0 to |results|
      invariant Sub(AsciiHyphen, Join(texts)) == Normalize(results[..k])
    {
      var d := results[k];
      if d.confidence > ConfidenceThreshold {
        var corrected := Correct(WebAppTable, d.text);
        JoinSnoc(texts, corrected);
        SubAppend(AsciiHyphen, Join(texts), corrected);
        texts := texts + [corrected];
      }
      assert results[..k + 1][..k] == results[..k];
    }
    assert results[..|results|] == results;
    joined := Join(texts);
    joined := Sub(AsciiHyphen, joined);
  }

  /** Every character of a scan result is an ASCII letter, an ASCII digit or '-'. */
  lemma {:induction false} NormalizeAlphabet(results: seq<Detection>)
    ensures forall i | 0 <= i < |Normalize(results)| ::
      IsAsciiAlnum(Normalize(results)[i]) || Normalize(results)[i] == '-'
    decreases |results|
  {
    if results != [] {
      var prefix, last := results[..|results| - 1], results[|results| - 1];
      NormalizeAlphabet(prefix);
      assert Normalize(results) == Normalize(prefix) + Contribution(last);
    }
  }

  /** Results of consecutive batches of detections are concatenated in order. */
  lemma NormalizeAppend(a: seq<Detection>, b: seq<Detection>)
    ensures Normalize(a + b) == Normalize(a) + Normalize(b)
  {
    GatherAppend(Contribution, a, b);
  }

  /** A detection at or below the threshold has no effect on the result, wherever it occurs. */
  lemma DropsUnconfident(a: seq<Detection>, d: Detection, b: seq<Detection>)
    requires d.confidence <= ConfidenceThreshold
    ensures Normalize(a + [d] + b) == Normalize(a + b)
  {
    GatherSkipsEmpty(Contribution, a, d, b);
  }

  /** No detections, or none above the threshold, give the empty string. */
  lemma {:induction false} NothingConfidentGivesEmpty(results: seq<Detection>)
    requires forall i | 0 <= i < |results| :: results[i].confidence <= ConfidenceThreshold
    ensures Normalize(results) == ""
    decreases |results|
  {
    if results != [] {
      NothingConfidentGivesEmpty(results[..|results| - 1]);
    }
  }

  /** A single detection counts exactly when its confidence is above 0.5: at 0.5 it is dropped. */
  lemma ThresholdBoundary(text: string, confidence: real)
    ensures Normalize([Detection(text, confidence)]) ==
            if confidence > ConfidenceThreshold then Sub(AsciiHyphen, Correct(WebAppTable, text)) else ""
  {
    GatherSingle(Contribution, Detection(text, confidence));
  }

  /** Each bar or bracket glyph is corrected to a character the allow-list deletes. */
  lemma BarOrBracketIsDeleted(c: char)
    requires c in "|｜（）"
    ensures !Allows(AsciiHyphen, Fix(WebAppTable, c))
  {
  }

  /**
   * The table's bar and bracket entries land outside the allow-list, so a
   * detection made only of those glyphs contributes nothing.
   */
  lemma BarsAndBracketsVanish(a: seq<Detection>, d: Detection, b: seq<Detection>)
    requires forall i | 0 <= i < |d.text| :: d.text[i] in "|｜（）"
    ensures Normalize(a + [d] + b) == Normalize(a + b)
  {
    var corrected := Correct(WebAppTable, d.text);
    forall i | 0 <= i < |corrected| ensures !Allows(AsciiHyphen, corrected[i]) {
      BarOrBracketIsDeleted(d.text[i]);
    }
    SubOfDisallowed(AsciiHyphen, corrected);
    GatherSkipsEmpty(Contribution, a, d, b);
  }

  /**
   * The table swaps 'O' and '0', so correction is not idempotent: on a string
   * of those two characters, correcting twice restores the input, and
   * correcting once changes every character.
   */
  lemma OAndZeroSwap(s: string)
    requires forall i | 0 <= i < |s| :: s[i] == 'O' || s[i] == '0'
    ensures Correct(WebAppTable, Correct(WebAppTable, s)) == s
    ensures forall i | 0 <= i < |s| :: Correct(WebAppTable, s)[i] != s[i]
  {
    var once := Correct(WebAppTable, s);
    var twice := Correct(WebAppTable, once);
    forall i | 0 <= i < |s| ensures twice[i] == s[i] && once[i] != s[i] {
      if s[i] == 'O' {
        assert once[i] == '0';
      } else {
        assert once[i] == 'O';
      }
    }
    assert twice == s;
  }

  /** The only allowed characters the table corrects are 'O' and '0'. */
  lemma PlainCharIsNoKey(c: char)
    requires Allows(AsciiHyphen, c) && c != 'O' && c != '0'
    ensures Get(WebAppTable, c).Nothing?
  {
  }

  /**
   * A confidently read code made of allowed characters other than 'O' and '0'
   * comes through unchanged, e.g. "AB-123".
   */
  lemma PlainCodeUnchanged(text: string, confidence: real)
    requires confidence > ConfidenceThreshold
    requires forall i | 0 <= i < |text| :: Allows(AsciiHyphen, text[i]) && text[i] != 'O' && text[i] != '0'
    ensures Normalize([Detection(text, confidence)]) == text
  {
    ThresholdBoundary(text, confidence);
    forall i | 0 <= i < |text| ensures Get(WebAppTable, text[i]).Nothing? {
      PlainCharIsNoKey(text[i]);
    }
    CorrectWithoutKeys(WebAppTable, text);
    SubFixesExactlyAllowed(AsciiHyphen, text);
  }

  /** A kanji "one" read where a hyphen was printed becomes '-'; no detections give "". */
  lemma Examples()
    ensures Normalize([Detection("一", 0.7)]) == "-"
    ensures Normalize([]) == ""
  {
    ThresholdBoundary("一", 0.7);
  }
}
