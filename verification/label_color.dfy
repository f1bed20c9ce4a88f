/**
 * The label colour classifier: the mean of the three per-channel means of an
 * RGB image is compared with a fixed threshold, strictly. The web app uses
 * 190 and the image utility module uses 200.
 */
module LabelColor {
  import opened Maybes

  /** An 8-bit channel value, as held by the image arrays. */
  type Channel = x: int | 0 <= x <= 255

  datatype Pixel = Pixel(r: Channel, g: Channel, b: Channel)

  datatype Band = Red | Green | Blue

  datatype Verdict = White | Transparent

  const WebAppThreshold: nat := 190
  const UtilityThreshold: nat := 200

  /** The string the source returns for a verdict. */
  function Name(v: Verdict): string {
    match v
    case White => "白"
    case Transparent => "透明"
  }

  function Value(p: Pixel, band: Band): Channel {
    match band
    case Red => p.r
    case Green => p.g
    case Blue => p.b
  }

  /** Sum of one channel over all pixels. */
  function BandSum(img: seq<Pixel>, band: Band): nat {
    if img == [] then 0 else BandSum(img[..|img| - 1], band) + Value(img[|img| - 1], band)
  }

  /** Sum of every channel value of every pixel. */
  function Total(img: seq<Pixel>): nat {
    BandSum(img, Red) + BandSum(img, Green) + BandSum(img, Blue)
  }

  /**
   * The brightness the source compares: the mean of the per-channel means,
   * in exact arithmetic. An image without pixels has a NaN mean, written `Nothing`.
   */
  function Brightness(img: seq<Pixel>): (m: Maybe<real>)
    ensures m.Just? <==> |img| > 0
    ensures m.Just? ==> 0.0 <= m.value <= 255.0
  {
    if |img| == 0 then Nothing
    else
      var n := |img| as real;
      var r, g, b := BandSum(img, Red) as real, BandSum(img, Green) as real, BandSum(img, Blue) as real;
      BandSumBounded(img, Red);
      BandSumBounded(img, Green);
      BandSumBounded(img, Blue);
      MeanOfMeansWithin(r, g, b, n);
      Just((r / n + g / n + b / n) / 3.0)
  }

  /** A channel sums to at most 255 per pixel. */
  lemma {:induction false} BandSumBounded(img: seq<Pixel>, band: Band)
    ensures BandSum(img, band) <= 255 * |img|
  {
    if img != [] {
      BandSumBounded(img[..|img| - 1], band);
    }
  }

  /** Means of values in [0, 255] stay in [0, 255]. */
  lemma MeanOfMeansWithin(a: real, b: real, c: real, n: real)
    requires n > 0.0
    requires 0.0 <= a <= 255.0 * n && 0.0 <= b <= 255.0 * n && 0.0 <= c <= 255.0 * n
    ensures 0.0 <= (a / n + b / n + c / n) / 3.0 <= 255.0
  {
    ChannelMeanWithin(a, n);
    ChannelMeanWithin(b, n);
    ChannelMeanWithin(c, n);
  }

  lemma ChannelMeanWithin(a: real, n: real)
    requires n > 0.0 && 0.0 <= a <= 255.0 * n
    ensures 0.0 <= a / n <= 255.0
  {
    assert a / n * n == a;
  }

  /** Dividing by three and by a positive count preserves a strict comparison. */
  lemma MeanOfMeansAbove(a: real, b: real, c: real, n: real, t: real)
    requires n > 0.0
    ensures (a / n + b / n + c / n) / 3.0 > t <==> a + b + c > 3.0 * t * n
  {
    var s := a + b + c;
    assert a / n + b / n + c / n == s / n;
    assert s / n / 3.0 == s / (3.0 * n);
    assert s / (3.0 * n) * (3.0 * n) == s;
  }

  /** For a non-empty image, "brightness above T" is the integer test "total above 3 * T * pixels". */
  lemma BrightnessAboveIff(img: seq<Pixel>, threshold: nat)
    requires |img| > 0
    ensures Brightness(img).value > threshold as real <==> Total(img) > threshold * 3 * |img|
  {
    var n := |img| as real;
    MeanOfMeansAbove(BandSum(img, Red) as real, BandSum(img, Green) as real, BandSum(img, Blue) as real,
                     n, threshold as real);
    assert (threshold * 3 * |img|) as real == 3.0 * (threshold as real) * n;
  }

  /**
   * The verdict for a threshold, decided without floats. A NaN brightness
   * compares false, so an image without pixels is "transparent".
   */
  function Classify(img: seq<Pixel>, threshold: nat): (v: Verdict)
    ensures v == White <==> Brightness(img).Just? && Brightness(img).value > threshold as real
  {
    if |img| == 0 then Transparent
    else
      BrightnessAboveIff(img, threshold);
      if Total(img) > threshold * 3 * |img| then White else Transparent
  }

  /**
   * `detect_label_color` with the threshold as a parameter: sums the channel
   * values pixel by pixel and returns one of the two label strings.
   */
  method DetectLabelColor(img: seq<Pixel>, threshold: nat) returns (color: string)
    ensures color == "白" <==> Brightness(img).Just? && Brightness(img).value > threshold as real
    ensures color == "白" || color == "透明"
    ensures color == Name(Classify(img, threshold))
  {
    var total := 0;
    for k := 0 to |img|
      invariant total == Total(img[..k])
    {
      assert img[..k + 1][..k] == img[..k];
      total := total + img[k].r + img[k].g + img[k].b;
    }
    assert img[..|img|] == img;
    if |img| > 0 && total > threshold * 3 * |img| {
      assert Classify(img, threshold) == White;
      color := "白";
    } else {
      assert Classify(img, threshold) == Transparent;
      color := "透明";
    }
  }

  /** A brightness exactly at the threshold is "transparent": the comparison is strict. */
  lemma AtThresholdIsTransparent(img: seq<Pixel>, threshold: nat)
    requires Brightness(img) == Just(threshold as real)
    ensures Classify(img, threshold) == Transparent
  {
  }

  /** An image of `n` pixels all equal to (v, v, v). */
  function Uniform(n: nat, v: Channel): seq<Pixel> {
    seq(n, _ => Pixel(v, v, v))
  }

  lemma {:induction false} UniformBandSum(n: nat, v: Channel, band: Band)
    ensures BandSum(Uniform(n, v), band) == n * v
  {
    if n > 0 {
      assert Uniform(n, v)[..n - 1] == Uniform(n - 1, v);
      UniformBandSum(n - 1, v, band);
    }
  }

  /** A non-empty uniform grey image has that grey as its brightness. */
  lemma UniformBrightness(n: nat, v: Channel)
    requires n > 0
    ensures Brightness(Uniform(n, v)) == Just(v as real)
  {
    UniformBandSum(n, v, Red);
    UniformBandSum(n, v, Green);
    UniformBandSum(n, v, Blue);
    var nr := n as real;
    assert (n * v) as real / nr == v as real;
  }

  /** All-white pixels give "白" and all-black pixels give "透明", at both call sites' thresholds. */
  lemma WhiteAndBlackImages(n: nat)
    requires n > 0
    ensures Classify(Uniform(n, 255), WebAppThreshold) == White
    ensures Classify(Uniform(n, 255), UtilityThreshold) == White
    ensures Classify(Uniform(n, 0), WebAppThreshold) == Transparent
    ensures Classify(Uniform(n, 0), UtilityThreshold) == Transparent
  {
    UniformBrightness(n, 255);
    UniformBrightness(n, 0);
  }

  /** `b` is at least as bright as `a` in every channel of every pixel. */
  predicate Brighter(b: seq<Pixel>, a: seq<Pixel>) {
    |a| == |b| &&
    forall i | 0 <= i < |a| :: a[i].r <= b[i].r && a[i].g <= b[i].g && a[i].b <= b[i].b
  }

  lemma {:induction false} BandSumMonotone(a: seq<Pixel>, b: seq<Pixel>, band: Band)
    requires Brighter(b, a)
    ensures BandSum(a, band) <= BandSum(b, band)
  {
    if a != [] {
      BandSumMonotone(a[..|a| - 1], b[..|b| - 1], band);
    }
  }

  /** Raising channel values never turns a "白" verdict into "透明". */
  lemma Monotone(a: seq<Pixel>, b: seq<Pixel>, threshold: nat)
    requires Brighter(b, a)
    requires Classify(a, threshold) == White
    ensures Classify(b, threshold) == White
  {
    BandSumMonotone(a, b, Red);
    BandSumMonotone(a, b, Green);
    BandSumMonotone(a, b, Blue);
  }

  /** A brightness in (190, 200] is "白" for the web app but "透明" for the utility module. */
  lemma CallSitesDisagree(img: seq<Pixel>)
    requires Brightness(img).Just? && 190.0 < Brightness(img).value <= 200.0
    ensures Classify(img, WebAppThreshold) == White
    ensures Classify(img, UtilityThreshold) == Transparent
  {
  }

  /** One image on which the two call sites disagree: a single (200, 200, 200) pixel. */
  lemma CallSitesDisagreeExample()
    ensures Name(Classify([Pixel(200, 200, 200)], WebAppThreshold)) == "白"
    ensures Name(Classify([Pixel(200, 200, 200)], UtilityThreshold)) == "透明"
  {
    UniformBrightness(1, 200);
    assert Uniform(1, 200) == [Pixel(200, 200, 200)];
  }
}
