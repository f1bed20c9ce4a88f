/**
 * The web app's scan frame: a centred rectangle of at most 8 cm by 1.5 cm
 * (at 37.795 pixels per centimetre) drawn on each camera image, whose inside
 * is kept as the image to scan.
 */
module ScanFrame {

  /** 37.795 pixels per centimetre, in thousandths of a pixel. */
  const PixelsPerCmMilli: nat := 37795

  /** `int(8 * 37.795)`: the frame is at most 8 cm wide; truncation of a positive value is floor. */
  const MaxWidth: nat := 8 * PixelsPerCmMilli / 1000

  /** `int(1.5 * 37.795)`: the frame is at most 1.5 cm high. */
  const MaxHeight: nat := 15 * PixelsPerCmMilli / 10000

  /** Corners (x1, y1) and (x2, y2) of the frame; a slice `[x1:x2]` excludes x2. */
  datatype Rect = Rect(x1: int, y1: int, x2: int, y2: int)

  function Min(a: int, b: int): int {
    if a <= b then a else b
  }

  /**
   * The frame for a w-by-h camera image. Its size is clamped to leave a
   * 10-pixel margin, so `w - rectW` is at least 10 and Python's floor
   * division `//` agrees with Dafny's `/` on it.
   */
  function ScanRect(w: nat, h: nat): (r: Rect)
    ensures r.x2 - r.x1 == Min(MaxWidth, w - 10) && r.y2 - r.y1 == Min(MaxHeight, h - 10)
    ensures w >= 10 ==> 5 <= r.x1 <= r.x2 <= w - 5
    ensures h >= 10 ==> 5 <= r.y1 <= r.y2 <= h - 5
    ensures w - r.x2 == r.x1 || w - r.x2 == r.x1 + 1
    ensures h - r.y2 == r.y1 || h - r.y2 == r.y1 + 1
  {
    var rectW := Min(MaxWidth, w - 10);
    var rectH := Min(MaxHeight, h - 10);
    var x1 := (w - rectW) / 2;
    var y1 := (h - rectH) / 2;
    Rect(x1, y1, x1 + rectW, y1 + rectH)
  }

  /** Where a slice bound `i` lands on an axis of length `len` (step 1, negative `i` counts from the end). */
  function SliceBound(i: int, len: nat): (b: nat)
    ensures b <= len
  {
    if i < 0 then (if i + len < 0 then 0 else i + len)
    else if i > len then len
    else i
  }

  /** Number of elements of `a[start:stop]` when `a` has length `len`. */
  function SliceLength(len: nat, start: int, stop: int): nat {
    var lo, hi := SliceBound(start, len), SliceBound(stop, len);
    if hi > lo then hi - lo else 0
  }

  /**
   * Width and height of `img[y1:y2, x1:x2]`, the image kept for scanning:
   * the whole frame when the camera image is at least 10 pixels in that
   * direction, and nothing otherwise.
   */
  function CropSize(w: nat, h: nat): (size: (nat, nat))
    ensures size.0 == if w >= 10 then Min(MaxWidth, w - 10) else 0
    ensures size.1 == if h >= 10 then Min(MaxHeight, h - 10) else 0
    ensures size.0 <= MaxWidth && size.1 <= MaxHeight
  {
    var r := ScanRect(w, h);
    (SliceLength(w, r.x1, r.x2), SliceLength(h, r.y1, r.y2))
  }

  /** The truncated constants are 302 by 56 pixels. */
  lemma FrameConstants()
    ensures MaxWidth == 302 && MaxHeight == 56
  {
  }
}
