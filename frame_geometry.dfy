/**
 * The per-frame arithmetic of src/processor.py: frame-rate normalisation, the
 * partial-subject border filter, padding and clamping of the smoothed box,
 * numpy slicing of the crop, and letterbox sizing. Exact reals stand for the
 * doubles the source computes with.
 */
module FrameGeometry {
  import opened Boxes

  // ---------------------------------------------------------------------------
  // Frame rate
  // ---------------------------------------------------------------------------

  /** What `cap.get(cv2.CAP_PROP_FPS)` can return: a finite double, NaN, or an infinity. */
  datatype RawFps = Finite(value: real) | NaN | Infinite(positive: bool)

  /** The frame rate process_video passes on, or the OverflowError `round(inf)` raises. */
  datatype Rate = Rate(fps: int) | RoundOverflow

  /** Python's `round(x)` on a finite value: the nearest integer, ties to the even one. */
  function RoundHalfEven(x: real): (n: int)
    ensures -0.5 <= n as real - x <= 0.5
    ensures (n as real - x == 0.5 || x - n as real == 0.5) ==> n % 2 == 0
  {
    var f := x.Floor;
    var frac := x - f as real;
    if frac < 0.5 then f
    else if frac > 0.5 then f + 1
    else if f % 2 == 0 then f
    else f + 1
  }

  /** The contract of `RoundHalfEven` leaves no choice: any integer nearest to `x`, even at a tie, is its result. */
  lemma RoundHalfEvenUnique(x: real, n: int)
    requires -0.5 <= n as real - x <= 0.5
    requires (n as real - x == 0.5 || x - n as real == 0.5) ==> n % 2 == 0
    ensures n == RoundHalfEven(x)
  {
    var m := RoundHalfEven(x);
    assert -1 <= n - m <= 1;
  }

  /**
   * Lines 26-35 of processor.py: a non-positive or NaN rate becomes 30, any
   * other rate is rounded to the nearest integer (which overflows on +inf).
   */
  function NormalizeFps(raw: RawFps): (r: Rate)
    ensures raw.NaN? ==> r == Rate(30)
    ensures raw.Infinite? ==> (r == if raw.positive then RoundOverflow else Rate(30))
    ensures raw.Finite? && raw.value <= 0.0 ==> r == Rate(30)
    ensures raw.Finite? && raw.value > 0.0 ==>
      r.Rate? && r.fps >= 0 && -0.5 <= r.fps as real - raw.value <= 0.5
    ensures raw.Finite? && raw.value > 0.0 ==> r == Rate(RoundHalfEven(raw.value))
  {
    match raw
    case NaN => Rate(30)
    case Infinite(positive) => if positive then RoundOverflow else Rate(30)
    case Finite(v) => if v <= 0.0 then Rate(30) else Rate(RoundHalfEven(v))
  }

  /** The repository's examples: 240.373 becomes 240, while 0 and NaN become 30. */
  lemma NormalizeFpsExamples()
    ensures NormalizeFps(Finite(240.373)) == Rate(240)
    ensures NormalizeFps(Finite(0.0)) == Rate(30)
    ensures NormalizeFps(NaN) == Rate(30)
  {
  }

  /** A positive rate of at most one half rounds to 0, which the writer later replaces by 30. */
  lemma TinyRateRoundsToZero()
    ensures NormalizeFps(Finite(0.5)) == Rate(0)
    ensures NormalizeFps(Finite(1.5)) == Rate(2)
    ensures NormalizeFps(Finite(2.5)) == Rate(2) && NormalizeFps(Finite(12.5)) == Rate(12)
  {
  }

  // ---------------------------------------------------------------------------
  // Border filter, padding, clamping
  // ---------------------------------------------------------------------------

  /** The partial-subject filter of line 79: the raw box comes within `margin` of an edge. */
  predicate TouchesBorder(b: IntBox, width: int, height: int, margin: int) {
    b.x1 <= margin || b.y1 <= margin || b.x2 >= width - margin || b.y2 >= height - margin
  }

  /** How close the box comes to the nearest frame edge. */
  function EdgeGap(b: IntBox, width: int, height: int): int {
    Min(Min(b.x1, b.y1), Min(width - b.x2, height - b.y2))
  }

  /** A detection is dropped exactly when its nearest edge is within `margin` of the frame's. */
  lemma TouchesBorderIff(b: IntBox, width: int, height: int, margin: int)
    ensures TouchesBorder(b, width, height, margin) <==> EdgeGap(b, width, height) <= margin
  {
  }

  /**
   * The filter is monotone: a box inside one that is kept is kept too, and
   * so is a kept box under any smaller margin.
   */
  lemma TouchesBorderMonotone(inner: IntBox, outer: IntBox, width: int, height: int, margin: int, smaller: int)
    requires ContainsBox(outer, inner) && smaller <= margin
    requires !TouchesBorder(outer, width, height, margin)
    ensures !TouchesBorder(inner, width, height, smaller)
  {
  }

  /**
   * The box the repository's processor scenarios feed in, [0, 0, 50, 50] on a
   * 100 x 100 frame, lies on the border with the configured margin of 5 and
   * is dropped, while the same box moved inwards is kept.
   */
  lemma ScenarioBoxOnBorder()
    ensures TouchesBorder(IntBox(0, 0, 50, 50), 100, 100, 5)
    ensures !TouchesBorder(IntBox(10, 10, 60, 60), 100, 100, 5)
  {
  }

  function Max(a: int, b: int): int { if a >= b then a else b }

  function Min(a: int, b: int): int { if a <= b then a else b }

  /** The box lies in the frame with its corners ordered. */
  predicate InFrame(b: IntBox, width: int, height: int) {
    0 <= b.x1 <= b.x2 <= width && 0 <= b.y1 <= b.y2 <= height
  }

  predicate ContainsBox(outer: IntBox, inner: IntBox) {
    outer.x1 <= inner.x1 && outer.y1 <= inner.y1 && inner.x2 <= outer.x2 && inner.y2 <= outer.y2
  }

  /**
   * Lines 88-98: grow the box by `pad` on every side, then clamp it to the
   * frame. The result never leaves the frame on its low sides nor its high
   * sides, and a box inside the frame stays inside and is contained in it.
   */
  function PadClamp(b: IntBox, pad: int, width: int, height: int): (r: IntBox)
    ensures 0 <= r.x1 && 0 <= r.y1 && r.x2 <= width && r.y2 <= height
    ensures pad >= 0 ==> r.x1 <= Max(0, b.x1) && r.y1 <= Max(0, b.y1)
    ensures InFrame(b, width, height) && pad >= 0 ==> InFrame(r, width, height) && ContainsBox(r, b)
    ensures pad >= 0 && b.x1 - pad >= 0 && b.x2 + pad <= width ==> r.x2 - r.x1 == b.x2 - b.x1 + 2 * pad
    ensures pad >= 0 && b.y1 - pad >= 0 && b.y2 + pad <= height ==> r.y2 - r.y1 == b.y2 - b.y1 + 2 * pad
  {
    IntBox(Max(0, b.x1 - pad), Max(0, b.y1 - pad), Min(width, b.x2 + pad), Min(height, b.y2 + pad))
  }

  // ---------------------------------------------------------------------------
  // Cropping with numpy slicing
  // ---------------------------------------------------------------------------

  /** Python's normalisation of a slice bound `i` on an axis of length `n`. */
  function SliceIndex(i: int, n: nat): (r: nat)
    ensures r <= n
    ensures 0 <= i <= n ==> r == i
    ensures i < 0 && i + n >= 0 ==> r == i + n
  {
    if i < 0 then (if i + n < 0 then 0 else i + n) else (if i > n then n else i)
  }

  /** The part of the frame `frame[y1:y2, x1:x2]` selects: its origin and size. */
  datatype Rect = Rect(x: nat, y: nat, w: nat, h: nat)

  /** `frame[y1:y2, x1:x2]` on a `width` x `height` frame. */
  function Crop(region: IntBox, width: nat, height: nat): (r: Rect)
    ensures r.x + r.w <= width && r.y + r.h <= height
    ensures InFrame(region, width, height) ==>
      r == Rect(region.x1, region.y1, region.x2 - region.x1, region.y2 - region.y1)
  {
    var x0, x1 := SliceIndex(region.x1, width), SliceIndex(region.x2, width);
    var y0, y1 := SliceIndex(region.y1, height), SliceIndex(region.y2, height);
    Rect(x0, y0, if x1 > x0 then x1 - x0 else 0, if y1 > y0 then y1 - y0 else 0)
  }

  /** `cow_crop.size == 0` */
  predicate EmptyCrop(r: Rect) {
    r.w == 0 || r.h == 0
  }

  /** A negative right edge counts from the end of the row, as Python slicing does. */
  lemma NegativeStopCountsFromEnd()
    ensures Crop(IntBox(0, 0, -3, 10), 100, 50) == Rect(0, 0, 97, 10)
  {
  }

  // ---------------------------------------------------------------------------
  // Letterbox sizing
  // ---------------------------------------------------------------------------

  /** Where the (possibly shrunk) crop goes on the `tw` x `th` canvas. */
  datatype Layout = Layout(width: nat, height: nat, xOffset: nat, yOffset: nat, resized: bool)

  /** The letterbox outcome: a layout, or the error cv2.resize raises for a zero-sized target. */
  datatype Fit = Placed(layout: Layout) | ResizeRejected

  function RealMin(a: real, b: real): real { if a <= b then a else b }

  /** `int(n * scale)` for a non-negative product: the size cv2.resize is asked for. */
  function Scaled(n: nat, scale: real): int {
    (n as real * scale).Floor
  }

  lemma MulMono(x: real, y: real, z: real)
    requires 0.0 <= x && y <= z
    ensures x * y <= x * z
  {
    assert x * z - x * y == x * (z - y);
  }

  lemma RatioBelowOne(t: nat, n: nat)
    requires t < n
    ensures t as real / n as real < 1.0
  {
    var q := t as real / n as real;
    assert n as real * q == t as real;
    if q >= 1.0 {
      MulMono(n as real, 1.0, q);
    }
  }

  /**
   * `int(n * (t / m))` for naturals computed without reals: the scaled side
   * is the integer quotient `n * t / m`.
   */
  lemma ScaledIsQuotient(n: nat, t: nat, m: nat)
    requires m > 0
    ensures Scaled(n, t as real / m as real) == (n * t) / m
  {
    var q, r := (n * t) / m, (n * t) % m;
    assert n * t == q * m + r && 0 <= r < m;
    var x := n as real * (t as real / m as real);
    assert x == (n * t) as real / m as real;
    assert (n * t) as real == q as real * m as real + r as real;
    assert x == q as real + r as real / m as real;
    RatioBelowOne(r, m);
    assert q as real <= x < q as real + 1.0;
  }

  lemma IntMulMono(a: int, b: int, c: nat)
    requires a <= b
    ensures a * c <= b * c
  {
    assert b * c - a * c == (b - a) * c;
  }

  lemma IntMulStrict(a: int, b: int, c: nat)
    requires a < b && c > 0
    ensures a * c < b * c
  {
    IntMulMono(a, b - 1, c);
    assert (b - 1) * c == b * c - c;
  }

  /** `a / m` is at most `u` when `a` is at most `u * m`, and below `n` when `a` is below `n * m`. */
  lemma QuotientBounds(a: nat, m: nat, u: nat, n: nat)
    requires m > 0
    ensures a <= u * m ==> a / m <= u
    ensures a < n * m ==> a / m < n
  {
    var q := a / m;
    assert q * m <= a;
    if q > u {
      IntMulMono(u + 1, q, m);
      assert (u + 1) * m == u * m + m;
    }
    if q >= n {
      IntMulMono(n, q, m);
    }
  }

  /**
   * When `t / m` is the smaller ratio (`t * n <= u * m`) and the crop is
   * larger than the target on some side, the `m` side shrinks to exactly
   * `t`, and the `n` side shrinks strictly and still fits in `u`.
   */
  lemma ShrinkSides(m: nat, n: nat, t: nat, u: nat)
    requires m > 0 && n > 0 && t * n <= u * m && (m > t || n > u)
    ensures t < m
    ensures (n * t) / m < n && (n * t) / m <= u
  {
    if m <= t {
      IntMulMono(m, t, n);
      IntMulStrict(u, n, m);
      assert false;
    }
    IntMulStrict(t, m, n);
    QuotientBounds(n * t, m, u, n);
  }

  /** ShrinkSides for whichever ratio is the smaller. */
  lemma ShrinkBoth(w: nat, h: nat, tw: nat, th: nat)
    requires w > 0 && h > 0 && (w > tw || h > th)
    ensures tw * h <= th * w ==> tw < w && (h * tw) / w < h && (h * tw) / w <= th
    ensures tw * h > th * w ==> th < h && (w * th) / h < w && (w * th) / h <= tw
  {
    if tw * h <= th * w {
      ShrinkSides(w, h, tw, th);
    } else {
      ShrinkSides(h, w, th, tw);
    }
  }

  /**
   * Lines 122-139: a crop that fits is placed as it is; a larger one is
   * shrunk by the single factor `min(tw / w, th / h)`, which makes the side
   * with the smaller ratio exactly fill the target; either way it is centred
   * on the `tw` x `th` canvas. Shrinking a very thin crop can make one side
   * 0, which cv2.resize rejects.
   */
  function Letterbox(w: nat, h: nat, tw: nat, th: nat): (r: Fit)
    requires w > 0 && h > 0
    ensures r.Placed? ==>
      var l := r.layout;
      && l.width <= tw && l.height <= th
      && l.xOffset + l.width <= tw && l.yOffset + l.height <= th
      && 0 <= (tw - l.width) - 2 * l.xOffset <= 1
      && 0 <= (th - l.height) - 2 * l.yOffset <= 1
      && 0 < l.width <= w && 0 < l.height <= h
      && (l.resized <==> (w > tw || h > th))
      && (!l.resized ==> l.width == w && l.height == h)
      && (l.resized ==> l.width < w && l.height < h && (l.width == tw || l.height == th))
    ensures r.ResizeRejected? ==> w > tw || h > th
  {
    if w > tw || h > th then
      var widthBound := tw * h <= th * w;
      var nw := if widthBound then tw else (w * th) / h;
      var nh := if widthBound then (h * tw) / w else th;
      ShrinkBoth(w, h, tw, th);
      if nw <= 0 || nh <= 0 then ResizeRejected
      else Placed(Layout(nw, nh, (tw - nw) / 2, (th - nh) / 2, true))
    else
      Placed(Layout(w, h, (tw - w) / 2, (th - h) / 2, false))
  }

  /** Comparing the two ratios of `min(tw / w, th / h)` by cross-multiplying. */
  lemma RatioOrder(w: nat, h: nat, tw: nat, th: nat)
    requires w > 0 && h > 0
    ensures tw as real / w as real <= th as real / h as real <==> tw * h <= th * w
  {
    var a, b := tw as real / w as real, th as real / h as real;
    var wh := w as real * h as real;
    assert a * wh == tw as real * h as real == (tw * h) as real;
    assert b * wh == th as real * w as real == (th * w) as real;
    if a <= b {
      MulMono(wh, a, b);
    } else {
      MulMono(wh, b, a);
      assert a * wh - b * wh == (a - b) * wh;
      assert (a - b) * wh > 0.0;
    }
  }

  /** The scale and the scaled sides, as the source computes them with `min` and `int`. */
  function ScaledSize(w: nat, h: nat, tw: nat, th: nat): (int, int)
    requires w > 0 && h > 0
  {
    var s := RealMin(tw as real / w as real, th as real / h as real);
    (Scaled(w, s), Scaled(h, s))
  }

  lemma ScaledSizeQuotients(w: nat, h: nat, tw: nat, th: nat)
    requires w > 0 && h > 0
    ensures tw * h <= th * w ==> ScaledSize(w, h, tw, th) == (tw, (h * tw) / w)
    ensures tw * h > th * w ==> ScaledSize(w, h, tw, th) == ((w * th) / h, th)
  {
    var a, b := tw as real / w as real, th as real / h as real;
    RatioOrder(w, h, tw, th);
    if tw * h <= th * w {
      assert RealMin(a, b) == a;
      ScaledIsQuotient(w, tw, w);
      ScaledIsQuotient(h, tw, w);
      assert (w * tw) / w == tw by { assert w * tw == tw * w; }
      assert ScaledSize(w, h, tw, th) == (Scaled(w, a), Scaled(h, a));
    } else {
      assert RealMin(a, b) == b;
      ScaledIsQuotient(w, th, h);
      ScaledIsQuotient(h, th, h);
      assert (h * th) / h == th by { assert h * th == th * h; }
      assert ScaledSize(w, h, tw, th) == (Scaled(w, b), Scaled(h, b));
    }
  }

  /**
   * The resized size is the source's `int(w * scale)` x `int(h * scale)`
   * with `scale = min(tw / w, th / h)`, and the resize is rejected exactly
   * when one of them is 0.
   */
  lemma LetterboxScale(w: nat, h: nat, tw: nat, th: nat)
    requires w > 0 && h > 0 && (w > tw || h > th)
    ensures var (nw, nh) := ScaledSize(w, h, tw, th);
      && (Letterbox(w, h, tw, th).ResizeRejected? <==> nw <= 0 || nh <= 0)
      && (Letterbox(w, h, tw, th).Placed? ==>
            Letterbox(w, h, tw, th).layout.width == nw && Letterbox(w, h, tw, th).layout.height == nh)
  {
    ScaledSizeQuotients(w, h, tw, th);
  }

  /** A one-pixel-wide, tall crop shrinks to width 0 and is rejected by the resize. */
  lemma ThinCropRejected()
    ensures Letterbox(1, 1000, 640, 640) == ResizeRejected
  {
  }

  /** The repository's resize scenario: a 50 x 50 crop on a 64 x 64 target is centred unscaled. */
  lemma SmallCropCentred()
    ensures Letterbox(50, 50, 64, 64) == Placed(Layout(50, 50, 7, 7, false))
  {
  }
}
