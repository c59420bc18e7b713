/**
 * Background removal and canvas placement in src/processor.py: which mask a
 * detection gets, the hard mask's per-pixel choice between the frame and the
 * background colour, cropping, and placing a crop on the black canvas.
 * Images are rows of BGR pixels; the rasterised polygon is a boolean grid
 * given by the caller.
 */
module Masking {
  import opened Wrappers
  import opened Config
  import opened Detection
  import opened FrameGeometry

  // ---------------------------------------------------------------------------
  // Which mask applies
  // ---------------------------------------------------------------------------

  /** The hard cut of `_apply_binary_mask` or the blended edge of `_apply_soft_mask`. */
  datatype MaskKind = Hard | Soft

  /** `_apply_mask`'s dispatch: "binary" is the hard mask, "soft" and anything else the soft one. */
  function MaskKindOf(name: string): (k: MaskKind)
    ensures k == Hard <==> name == "binary"
    ensures name == "soft" ==> k == Soft
  {
    if name == "binary" then Hard else Soft
  }

  /** The source the crop is cut from: the frame itself, or the frame masked by a polygon. */
  datatype MaskUse = NoMask | Masked(kind: MaskKind, polygon: Polygon)

  /**
   * Lines 104-110: detection `i` is masked exactly when the result carries
   * segments, there is a segment at index `i`, and it is a non-empty polygon.
   */
  function MaskChoice(name: string, segments: Option<seq<Option<Polygon>>>, i: nat): (m: MaskUse)
    ensures m.Masked? <==>
      segments.Some? && i < |segments.value| && segments.value[i].Some? && |segments.value[i].value| > 0
    ensures m.Masked? ==> m.polygon == segments.value[i].value && m.kind == MaskKindOf(name)
  {
    if segments.Some? && |segments.value| > i then
      var seg := segments.value[i];
      if seg.Some? && |seg.value| > 0 then Masked(MaskKindOf(name), seg.value) else NoMask
    else NoMask
  }

  /** Without a MASK_METHOD setting the default "soft" applies. */
  lemma DefaultMaskIsSoft(cfg: Settings, segments: Option<seq<Option<Polygon>>>, i: nat)
    requires cfg.maskMethod.None?
    ensures MaskChoice(MaskMethod(cfg), segments, i).Masked? ==> MaskChoice(MaskMethod(cfg), segments, i).kind == Soft
  {
  }

  // ---------------------------------------------------------------------------
  // Pixel grids
  // ---------------------------------------------------------------------------

  /** An image as rows of pixels, `img[y][x]`. */
  type Image = seq<seq<Bgr>>

  type Grid = seq<seq<bool>>

  predicate Dims<T>(g: seq<seq<T>>, w: nat, h: nat) {
    |g| == h && forall y :: 0 <= y < h ==> |g[y]| == w
  }

  /** `np.full(shape, colour)` */
  function Fill(w: nat, h: nat, c: Bgr): (r: Image)
    ensures Dims(r, w, h)
    ensures forall y, x :: 0 <= y < h && 0 <= x < w ==> r[y][x] == c
  {
    seq(h, _ => seq(w, _ => c))
  }

  /**
   * `_apply_binary_mask`: the frame's pixel where the rasterised polygon is
   * set, the background colour elsewhere.
   */
  function HardMask(frame: Image, mask: Grid, bg: Bgr, w: nat, h: nat): (r: Image)
    requires Dims(frame, w, h) && Dims(mask, w, h)
    ensures Dims(r, w, h)
    ensures forall y, x :: 0 <= y < h && 0 <= x < w ==> r[y][x] == (if mask[y][x] then frame[y][x] else bg)
  {
    seq(h, y requires 0 <= y < h =>
      seq(w, x requires 0 <= x < w => if mask[y][x] then frame[y][x] else bg))
  }

  /** Masking an already masked frame with the same mask changes nothing. */
  lemma HardMaskIdempotent(frame: Image, mask: Grid, bg: Bgr, w: nat, h: nat)
    requires Dims(frame, w, h) && Dims(mask, w, h)
    ensures HardMask(HardMask(frame, mask, bg, w, h), mask, bg, w, h) == HardMask(frame, mask, bg, w, h)
  {
    var once := HardMask(frame, mask, bg, w, h);
    var twice := HardMask(once, mask, bg, w, h);
    forall y | 0 <= y < h
      ensures twice[y] == once[y]
    {
      assert |twice[y]| == |once[y]| == w;
      forall x | 0 <= x < w
        ensures twice[y][x] == once[y][x]
      {
      }
    }
  }

  /** A mask set everywhere keeps the frame; a mask set nowhere gives a plain background. */
  lemma HardMaskExtremes(frame: Image, mask: Grid, bg: Bgr, w: nat, h: nat)
    requires Dims(frame, w, h) && Dims(mask, w, h)
    ensures (forall y, x :: 0 <= y < h && 0 <= x < w ==> mask[y][x]) ==> HardMask(frame, mask, bg, w, h) == frame
    ensures (forall y, x :: 0 <= y < h && 0 <= x < w ==> !mask[y][x]) ==> HardMask(frame, mask, bg, w, h) == Fill(w, h, bg)
  {
    var r := HardMask(frame, mask, bg, w, h);
    if forall y, x :: 0 <= y < h && 0 <= x < w ==> mask[y][x] {
      forall y | 0 <= y < h
        ensures r[y] == frame[y]
      {
        assert |r[y]| == |frame[y]|;
      }
    }
    if forall y, x :: 0 <= y < h && 0 <= x < w ==> !mask[y][x] {
      var f := Fill(w, h, bg);
      forall y | 0 <= y < h
        ensures r[y] == f[y]
      {
        assert |r[y]| == |f[y]|;
      }
    }
  }

  // ---------------------------------------------------------------------------
  // Crop and canvas
  // ---------------------------------------------------------------------------

  /** `img[r.y:r.y + r.h, r.x:r.x + r.w]` for a rectangle inside the image. */
  function CropPixels(img: Image, r: Rect, w: nat, h: nat): (c: Image)
    requires Dims(img, w, h) && r.x + r.w <= w && r.y + r.h <= h
    ensures Dims(c, r.w, r.h)
    ensures forall y, x :: 0 <= y < r.h && 0 <= x < r.w ==> c[y][x] == img[r.y + y][r.x + x]
  {
    seq(r.h, y requires 0 <= y < r.h => img[r.y + y][r.x..r.x + r.w])
  }

  /** The canvas pixel at (x, y): the crop inside the placed region, black (`np.zeros`) outside it. */
  function CanvasPixel(crop: Image, cw: nat, ch: nat, xo: nat, yo: nat, x: nat, y: nat): Bgr
    requires Dims(crop, cw, ch)
  {
    if yo <= y < yo + ch && xo <= x < xo + cw then crop[y - yo][x - xo] else Black
  }

  /**
   * Lines 122 and 139: a `tw` x `th` black canvas with the `cw` x `ch` crop
   * written at offset (xo, yo). The canvas always has the target size, the
   * placed region holds the crop and every other pixel is black.
   */
  function Place(crop: Image, cw: nat, ch: nat, xo: nat, yo: nat, tw: nat, th: nat): (canvas: Image)
    requires Dims(crop, cw, ch) && xo + cw <= tw && yo + ch <= th
    ensures Dims(canvas, tw, th)
    ensures forall y, x :: 0 <= y < ch && 0 <= x < cw ==> canvas[yo + y][xo + x] == crop[y][x]
    ensures forall y, x :: 0 <= y < th && 0 <= x < tw && !(yo <= y < yo + ch && xo <= x < xo + cw) ==>
      canvas[y][x] == Black
  {
    seq(th, y requires 0 <= y < th => seq(tw, x requires 0 <= x < tw => CanvasPixel(crop, cw, ch, xo, yo, x, y)))
  }

  /** Cutting the placed region back out of the canvas gives the crop. */
  lemma PlaceThenCrop(crop: Image, cw: nat, ch: nat, xo: nat, yo: nat, tw: nat, th: nat)
    requires Dims(crop, cw, ch) && xo + cw <= tw && yo + ch <= th
    ensures CropPixels(Place(crop, cw, ch, xo, yo, tw, th), Rect(xo, yo, cw, ch), tw, th) == crop
  {
    var canvas := Place(crop, cw, ch, xo, yo, tw, th);
    var back := CropPixels(canvas, Rect(xo, yo, cw, ch), tw, th);
    forall y | 0 <= y < ch
      ensures back[y] == crop[y]
    {
      assert |back[y]| == |crop[y]| == cw;
      forall x | 0 <= x < cw
        ensures back[y][x] == crop[y][x]
      {
        assert back[y][x] == canvas[yo + y][xo + x];
      }
    }
  }

  /**
   * A letterbox layout places an unresized crop on its canvas: the region
   * holds the crop, the border is black, and the canvas has the target size.
   */
  lemma LetterboxPlacement(crop: Image, w: nat, h: nat, tw: nat, th: nat)
    requires w > 0 && h > 0 && Dims(crop, w, h)
    requires Letterbox(w, h, tw, th).Placed? && !Letterbox(w, h, tw, th).layout.resized
    ensures var l := Letterbox(w, h, tw, th).layout;
      && l.width == w && l.height == h && l.xOffset + w <= tw && l.yOffset + h <= th
      && CropPixels(Place(crop, w, h, l.xOffset, l.yOffset, tw, th), Rect(l.xOffset, l.yOffset, w, h), tw, th) == crop
  {
    var l := Letterbox(w, h, tw, th).layout;
    PlaceThenCrop(crop, w, h, l.xOffset, l.yOffset, tw, th);
  }
}
