/**
 The preview downscaling policy of the editor (`downscale_image`): only the
 `(width, height)` arithmetic; the resampling itself is PIL's.

 The source computes `aspect_ratio = height / width` as a float and truncates
 `width * aspect_ratio` and `height / aspect_ratio` with `int`. The model uses
 the exact quotients `maxWidth * height / width` and `maxHeight * width / height`
 instead; a float product or quotient can fall just below an exact integer and
 come out one smaller at such boundary cases.
 */
module Downscaler {

  import opened Arith

  /** Image dimensions in pixels. */
  datatype Size = Size(width: nat, height: nat)

  /** The bounds the preview path uses (the default arguments). */
  const MaxPreviewWidth: nat := 800
  const MaxPreviewHeight: nat := 600

  /**
   First step: a width over the bound becomes the bound, and the height follows
   the original aspect ratio, truncated.
   */
  function ClampWidth(size: Size, maxWidth: nat): (r: Size)
    requires size.width > 0
    ensures size.width <= maxWidth ==> r == size
    ensures r.width <= maxWidth
    ensures r.width <= size.width && r.height <= size.height
    ensures size.width > maxWidth ==>
      r.width == maxWidth &&
      r.height * size.width <= maxWidth * size.height < (r.height + 1) * size.width
  {
    if size.width > maxWidth then
      var h := maxWidth * size.height / size.width;
      MulCancelHeight(h, maxWidth, size);
      Size(maxWidth, h)
    else size
  }

  /** `h * w <= m * H` with `m < w` leaves `h <= H`: the truncated height never grows. */
  lemma MulCancelHeight(h: nat, m: nat, size: Size)
    requires size.width > 0 && m < size.width
    requires h * size.width <= m * size.height
    ensures h <= size.height
  {
    MulMono(m, size.width, size.height);
    if h > size.height {
      MulMono(size.height + 1, h, size.width);
    }
  }

  /**
   Second step: a height (after the first step) over the bound becomes the
   bound, and the width is recomputed from the ORIGINAL aspect ratio,
   truncated.
   */
  function ClampHeight(current: Size, original: Size, maxHeight: nat): (r: Size)
    requires original.width > 0 && current.height <= original.height
    ensures current.height <= maxHeight ==> r == current
    ensures r.height <= maxHeight
    ensures current.height > maxHeight ==>
      r.height == maxHeight &&
      r.width * original.height <= maxHeight * original.width < (r.width + 1) * original.height
  {
    if current.height > maxHeight then
      Size(maxHeight * original.width / original.height, maxHeight)
    else current
  }

  /**
   `downscale_image`: nothing happens inside the bounds; otherwise width is
   clamped first and height second. The result always fits the bounds and is
   never larger than the original in either dimension. A zero width is
   accepted when the image is within the bounds; over them, the source
   divides by it (line 43), hence the precondition.
   */
  function Downscale(size: Size, maxWidth: nat, maxHeight: nat): (r: Size)
    requires size.width > 0 || size.height <= maxHeight
    ensures size.width <= maxWidth && size.height <= maxHeight ==> r == size
    ensures r.width <= maxWidth && r.height <= maxHeight
    ensures r.width <= size.width && r.height <= size.height
  {
    if size.width > maxWidth || size.height > maxHeight then
      ClampBoth(size, maxWidth, maxHeight);
      ClampHeight(ClampWidth(size, maxWidth), size, maxHeight)
    else size
  }

  /** The two steps together fit the bounds and never enlarge the image. */
  lemma ClampBoth(size: Size, maxWidth: nat, maxHeight: nat)
    requires size.width > 0
    ensures var r := ClampHeight(ClampWidth(size, maxWidth), size, maxHeight);
      r.width <= maxWidth && r.height <= maxHeight &&
      r.width <= size.width && r.height <= size.height
  {
    var c := ClampWidth(size, maxWidth);
    if c.height > maxHeight {
      var r := ClampHeight(c, size, maxHeight);
      HeightStepNarrower(size, c, maxWidth, maxHeight, r.width);
      assert maxHeight < size.height;
      MulMono(maxHeight + 1, size.height, size.width);
      assert r.width * size.height < size.width * size.height;
      MulCancel(r.width, size.width, size.height);
    }
  }

  /**
   The width recomputed in the height step is below `maxWidth`: the height
   step runs only when the proportional height at the current width exceeds
   `maxHeight`.
   */
  lemma HeightStepNarrower(size: Size, c: Size, maxWidth: nat, maxHeight: nat, w: nat)
    requires size.width > 0 && c == ClampWidth(size, maxWidth) && c.height > maxHeight
    requires w * size.height <= maxHeight * size.width
    ensures w < maxWidth
  {
    var W, H := size.width, size.height;
    MulMono(maxHeight + 1, c.height, W);
    assert maxHeight * W < c.height * W;
    if W > maxWidth {
      assert c.height * W <= maxWidth * H;
    } else {
      assert c == size;
      MulMono(W, maxWidth, H);
      assert c.height * W <= maxWidth * H;
    }
    assert w * H < maxWidth * H;
    MulCancel(w, maxWidth, H);
  }

  /**
   Width is clamped first: an image too wide whose proportional height then
   fits ends up exactly `maxWidth` wide with the height scaled by the same
   factor, truncated.
   */
  lemma DownscaleWidthStep(size: Size, maxWidth: nat, maxHeight: nat)
    requires size.width > maxWidth
    requires maxWidth * size.height / size.width <= maxHeight
    ensures var r := Downscale(size, maxWidth, maxHeight);
      r.width == maxWidth &&
      r.height * size.width <= maxWidth * size.height < (r.height + 1) * size.width
  {
  }

  /**
   When the height is still over the bound after the width step, the result
   is exactly `maxHeight` tall and its width comes from the ORIGINAL aspect
   ratio, truncated; the width-step result is discarded.
   */
  lemma DownscaleHeightStep(size: Size, maxWidth: nat, maxHeight: nat)
    requires size.width > 0
    requires ClampWidth(size, maxWidth).height > maxHeight
    ensures var r := Downscale(size, maxWidth, maxHeight);
      r.height == maxHeight &&
      r.width * size.height <= maxHeight * size.width < (r.width + 1) * size.height
  {
  }

  /** Worked cases at the preview bounds of 800 x 600. */
  lemma DownscalePreviewExamples()
    ensures Downscale(Size(640, 480), MaxPreviewWidth, MaxPreviewHeight) == Size(640, 480)
    ensures Downscale(Size(1600, 1200), MaxPreviewWidth, MaxPreviewHeight) == Size(800, 600)
    ensures Downscale(Size(1000, 2000), MaxPreviewWidth, MaxPreviewHeight) == Size(300, 600)
    ensures Downscale(Size(2000, 500), MaxPreviewWidth, MaxPreviewHeight) == Size(800, 200)
  {
  }

  /**
   The two steps are not one joint scale: a 3 x 2 image bounded by 2 x 1 keeps
   width 2 because the width step truncates its height to 1, which fits, so
   the result is wider than the original ratio allows at height 1; scaling
   both sides by the smaller factor 1/2 would give width 1.
   */
  lemma DownscaleTwoStepNotJoint()
    ensures var r := Downscale(Size(3, 2), 2, 1);
      r == Size(2, 1) && r.width * 2 > r.height * 3 && 1 * 3 / 2 < r.width
  {
  }
}
