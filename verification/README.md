# Label scanner OCR post-processing, modelled in Dafny

The label scanner photographs a label, hands a cropped region to an OCR
engine, cleans up the recognised text and decides whether the label is white
or transparent. Its own logic is small: two text normalisers, three static
correction tables with their cleanup allow-lists, a brightness threshold and
the geometry of the scan frame. This project models that logic as pure
functions and proves what each promises.

- `maybe.dfy` (`Maybes`): `Maybe`, a value that may be missing. It is the result
  of a dictionary lookup and the NaN brightness of an empty image.
- `allow_list.dfy` (`AllowList`): the three cleanup character classes. They are
  the web app's ASCII-plus-hyphen class (scripts/app.py:49), the utility
  module's class that adds kana/CJK symbols (U+3000–U+30FF) and kanji
  (U+4E00–U+9FFF) (scripts/ocr_utils.py:14), and the shared configuration's
  class, which is the same without the hyphen (scripts/config.py:7).
- `tables.dfy` (`Tables`): the three correction dicts. Each one lists its pairs
  in source order, as a lookup from `char` to `Maybe<char>`.
- `cleanup.dfy` (`Cleanup`): `re.sub(negated class, '', s)` as `Sub`.
- `correction.dfy` (`Correction`): `''.join(table.get(c, c) for c in s)` as `Correct`.
- `recognition.dfy` (`Recognition`): the OCR output as a sequence of
  `Detection(text, confidence)`, and the in-order concatenation of strings
  derived from detections.
- `web_app.dfy` (`WebApp`): the web app's normaliser. It drops detections whose
  confidence is not above 0.5, corrects each remaining fragment, joins the
  fragments, then cleans the result.
- `ocr_utils.dfy` (`OcrUtils`): the utility module's normaliser. It keeps every
  detection and returns one string per detection. Each string is cleaned
  first and corrected second.
- `config.dfy` (`Config`): properties of the shared configuration's table and
  allow-list.
- `label_color.dfy` (`LabelColor`): the white/transparent classifier at
  thresholds 190 (web app) and 200 (image utility module).
- `scan_frame.dfy` (`ScanFrame`): the centred scan frame and the size of the
  crop kept for scanning.

Every key of each correction dict is a single character. The model encodes
this in the type: each table is a lookup on one `char`, and each value is one
`char`. As a result, correction preserves length and works position by
position (`Correction.Correct`).

The web app corrects each fragment before it joins them. Correcting the
joined text would give the same result, because correction works
character by character (`Correction.CorrectAppend`). The confidence test is
strict: a detection at exactly 0.5 is dropped.

## Model

| member | source | states |
|---|---|---|
| `AllowList.Allows` | scripts/app.py:49 | a character survives cleanup exactly when the call site's class keeps it: ASCII letters, digits and '-' in the web app; the same plus U+3000–U+30FF and U+4E00–U+9FFF in the utility module (scripts/ocr_utils.py:14); that class without '-' in the shared configuration (scripts/config.py:7) |
| `Tables.WebAppEntry` | scripts/app.py:14-19 | lists the web-app dict's eight pairs in source order; any other character has no entry |
| `Tables.UtilityEntry` | scripts/ocr_utils.py:9-11 | the utility dict's single pair, kanji "one" to '-'; any other character has no entry |
| `Tables.ConfigEntry` | scripts/config.py:9-21 | lists the shared dict's 52 full-width letters and eight misread glyphs in source order; any other character has no entry |
| `Cleanup.Sub` | scripts/app.py:49 | cleanup never lengthens a string and leaves only characters the allow-list keeps |
| `Cleanup.SubAppend` | scripts/app.py:48-49 | cleanup works character by character: cleaning joined fragments equals joining the cleaned fragments, in order |
| `Cleanup.SubFixesExactlyAllowed` | scripts/ocr_utils.py:14 | a string is left unchanged by cleanup if and only if every character of it is allowed |
| `Cleanup.SubIdempotent` | scripts/ocr_utils.py:41 | cleaning twice gives the same string as cleaning once |
| `Cleanup.SubCounts` | scripts/ocr_utils.py:14 | every occurrence of an allowed character is kept and every occurrence of any other character is deleted |
| `Cleanup.SubOfDisallowed` | scripts/app.py:49 | a string with no allowed character cleans to the empty string |
| `Correction.Correct` | scripts/app.py:44 | correction keeps the length, and position i of the result is the table's entry for character i, or that character when it is not a key |
| `Correction.CorrectAppend` | scripts/app.py:44 | correcting a concatenation corrects each part with nothing reordered |
| `Correction.CorrectWithoutKeys` | scripts/ocr_utils.py:45 | a string containing no key of the table is left unchanged |
| `Recognition.Join` | scripts/app.py:48 | the fragments concatenated in order, with no separator |
| `Recognition.GatherAppend` | scripts/app.py:41-48 | the strings derived from two batches of detections concatenate in detection order, with no separator |
| `WebApp.OcrImage` | scripts/app.py:41-50 | the filter-correct-join-clean loop returns exactly the in-order concatenation of each detection's cleaned, corrected text (confidence above 0.5 only), and only ASCII letters, digits and '-' |
| `WebApp.NormalizeAlphabet` | scripts/app.py:49 | every character of the result is in A–Z, a–z, 0–9 or '-' |
| `WebApp.NormalizeAppend` | scripts/app.py:41-48 | the result for two batches of detections is the first batch's result followed by the second's |
| `WebApp.DropsUnconfident` | scripts/app.py:42-43 | a detection with confidence at most 0.5 has no effect on the result, wherever it occurs |
| `WebApp.NothingConfidentGivesEmpty` | scripts/app.py:41-50 | no detections, or none above 0.5, give the empty string |
| `WebApp.ThresholdBoundary` | scripts/app.py:43-45 | a single detection contributes its cleaned, corrected text if its confidence is strictly above 0.5, and nothing at exactly 0.5 or below |
| `WebApp.BarOrBracketIsDeleted` | scripts/app.py:17-18 | the bar and bracket entries of the table map to characters the allow-list deletes |
| `WebApp.BarsAndBracketsVanish` | scripts/app.py:44-49 | a detection made only of half- and full-width vertical bars and full-width brackets contributes nothing to the result |
| `WebApp.OAndZeroSwap` | scripts/app.py:16 | the table swaps 'O' and '0': correcting twice restores such a string and correcting once changes every character, so correction is not idempotent |
| `WebApp.PlainCharIsNoKey` | scripts/app.py:14-19 | among allowed characters, only 'O' and '0' are keys of the table |
| `WebApp.PlainCodeUnchanged` | scripts/app.py:44-49 | a confidently read code of allowed characters other than 'O' and '0', such as "AB-123", comes through unchanged |
| `WebApp.Examples` | scripts/app.py:41-50 | a kanji "one" read at confidence 0.7 gives "-", and no detections give "" |
| `OcrUtils.CleanThenCorrect` | scripts/ocr_utils.py:41-46 | the result is no longer than the input, every character is allowed by the utility allow-list, and no kanji "one" remains |
| `OcrUtils.OcrImage` | scripts/ocr_utils.py:39-47 | one output string per detection, in detection order, each the cleaned-then-corrected text, with no confidence filtering |
| `OcrUtils.CorrectsOnlyKanjiOne` | scripts/ocr_utils.py:9-11 | correction keeps the length and changes only the kanji "one", into '-' |
| `OcrUtils.CorrectHyphenCount` | scripts/ocr_utils.py:43-46 | after correction there are as many hyphens as hyphens and kanji "one" before, and no kanji "one" |
| `OcrUtils.KanjiOneBecomesHyphen` | scripts/ocr_utils.py:41-46 | although cleanup runs first, every kanji "one" of the input survives it and becomes a hyphen in the output |
| `OcrUtils.OrderIrrelevant` | scripts/ocr_utils.py:41-46 | correcting before cleaning would give the same string as cleaning before correcting |
| `OcrUtils.Idempotent` | scripts/ocr_utils.py:41-46 | post-processing an already post-processed text changes nothing |
| `OcrUtils.Examples` | scripts/ocr_utils.py:39-47 | an empty text yields an empty text, and a lone kanji "one" yields "-" |
| `Config.FullWidthToAscii` | scripts/config.py:11-18 | each full-width letter U+FF21–U+FF3A and U+FF41–U+FF5A maps to the ASCII letter 0xFEE0 below it |
| `Config.MisreadGlyphsAreB` | scripts/config.py:20 | the glyphs 川 八 日 丨 リ 工 三 and the ASCII vertical bar all map to 'B' |
| `Config.KeysAreExactly` | scripts/config.py:9-21 | the table's keys are exactly the 52 full-width letters and the eight misread glyphs |
| `Config.ValuesAreAsciiLetters` | scripts/config.py:7-21 | every value of the table is an ASCII letter, and so survives this file's cleanup allow-list |
| `Config.CleanupWithoutHyphen` | scripts/config.py:7 | this allow-list deletes every '-', and on text without '-' it agrees with the utility module's allow-list |
| `LabelColor.Brightness` | scripts/app.py:54-56 | the mean of the three channel means is defined exactly when the image has pixels (an empty image has a NaN mean), and then lies between 0 and 255 |
| `LabelColor.BrightnessAboveIff` | scripts/app.py:55-57 | for a non-empty image, the mean of the channel means is above T exactly when the sum of all channel values is above 3·T·pixels |
| `LabelColor.Classify` | scripts/app.py:53-57 | the verdict is white exactly when the image has pixels and its mean of channel means is strictly above the threshold; an empty image (NaN mean) is transparent |
| `LabelColor.DetectLabelColor` | scripts/image_utils.py:5-13 | the result is exactly one of "白" and "透明", and it is "白" if and only if the mean of channel means is strictly above the threshold |
| `LabelColor.AtThresholdIsTransparent` | scripts/image_utils.py:10 | a mean exactly equal to the threshold gives "透明" |
| `LabelColor.UniformBrightness` | scripts/image_utils.py:9 | an image of identical grey pixels has that grey value as its brightness |
| `LabelColor.WhiteAndBlackImages` | scripts/image_utils.py:9-13 | an all-(255,255,255) image is white and an all-(0,0,0) image is transparent, at both thresholds |
| `LabelColor.Monotone` | scripts/image_utils.py:9-10 | raising channel values never turns a white verdict into a transparent one |
| `LabelColor.CallSitesDisagree` | scripts/app.py:57 | an image whose mean is in (190, 200] is white for the web app but transparent for the image utility module |
| `LabelColor.CallSitesDisagreeExample` | scripts/image_utils.py:10 | one (200, 200, 200) pixel is "白" at threshold 190 and "透明" at threshold 200 |
| `ScanFrame.ScanRect` | scripts/app.py:68-76 | the frame measures min(302, w-10) by min(56, h-10). For frames of at least 10 pixels it lies at least 5 pixels inside each edge. It is centred, with the right/bottom margin equal to the left/top margin or one larger |
| `ScanFrame.CropSize` | scripts/app.py:71-82 | the kept crop is min(302, w-10) by min(56, h-10) when the camera image is at least 10 pixels in that direction, and empty otherwise |
| `ScanFrame.FrameConstants` | scripts/app.py:68-70 | the truncated frame constants are 302 and 56 pixels |

## Left out

- The Streamlit/WebRTC page, the scan button and result display, the PySimpleGUI label generator window and the OpenCV preview loop: user interface and event handling.
- Image preprocessing: grey conversion, resizing, median blur and adaptive thresholding. These are calls into OpenCV with no logic of the repository's own.
- The OCR engines: the EasyOCR reader and its construction on every web-app call, `readtext`, and Tesseract. Their output is a parameter of the normalisers.
- The allow-list the utility module passes to the OCR engine. It is not treated as a guarantee about that output, so the normaliser is proved for every input text.
- The bounding box of each detection: none of the post-processing reads it.
- Drawing the green frame. The frame is drawn into the camera image with a 2-pixel line before the crop is copied, so the crop's border pixels are green (0, 255, 0). The classifier and the normaliser take the crop's pixels as given and do not model where they came from.
- Converting video frames to and from arrays: library calls, with no logic of the repository's own.
- The check that a frame has been captured before scanning: user-interface control flow.
- Label image generation and file saving: `create_label_image` is not part of this model, and saving is I/O. The same holds for output and font paths.
- Conversion of other image modes to RGB before classification: the model takes RGB pixels directly.
- The 2-D layout of the image: the model flattens the height-by-width-by-3 array into a sequence of pixels. The mean over axes (0, 1) depends only on which pixels there are, not on their arrangement.
- `LabelColor.Classify`: compares the exact rational mean rather than a float64 mean. Rounding of the float division can decide a mean within rounding distance of the threshold differently.
- `ScanFrame.FrameConstants`: computes the constants as exact rationals (37.795 px/cm as 37795/1000) rather than as float products. The truncated results, 302 and 56, are the same.
- `ScanFrame.ScanRect`: models frame sizes as natural numbers. The arithmetic uses unbounded integers, which matches Python's.

## Notes

- The web app's table maps 'O' to '0' and '0' to 'O' at the same time, so a read "AB-0O" becomes "AB-O0". The intended direction cannot be told from the code, so the model keeps the swap as written (`WebApp.OAndZeroSwap`).
- The web app's entries for the two vertical bars and the two full-width brackets have no visible effect. Their corrected values are all deleted by the cleanup that follows (`WebApp.BarsAndBracketsVanish`).
- The web app keeps the crop after drawing the green frame into the camera image (scripts/app.py:79, then scripts/app.py:82). So the rows and columns along the crop's edges are green rather than label. These pixels enter the brightness mean and the OCR input.
- The shared configuration's table and allow-list are not used by either normaliser. Their properties are stated on their own (`Config`).
