/** Integer arithmetic of the view: the downscaled image dimensions
    (pdfcomp/pdfcompressor/views.py:76) and the sizes it reports in KiB
    (views.py:103-104), with the size warning (views.py:97). */
module Sizes {
  import opened Presets

  /** `int(d * scale)` for a pixel count `d >= 0`: Python's `int` truncates
      toward zero, which is the floor on non-negative values. */
  function ScaledDim(d: nat, s: Scale): (r: nat)
    requires s.den > 0
    ensures r * s.den <= d * s.num < (r + 1) * s.den
  {
    d * s.num / s.den
  }

  /** A factor of at most one never enlarges a dimension. */
  lemma ScaledDimAtMost(d: nat, s: Scale)
    requires ValidScale(s)
    ensures ScaledDim(d, s) <= d
  {
  }

  /** The `(width, height)` passed to the resampler. */
  function TargetSize(width: nat, height: nat, s: Scale): (r: (nat, nat))
    requires ValidScale(s)
    ensures r.0 <= width && r.1 <= height
    ensures r.0 == ScaledDim(width, s) && r.1 == ScaledDim(height, s)
  {
    ScaledDimAtMost(width, s);
    ScaledDimAtMost(height, s);
    (ScaledDim(width, s), ScaledDim(height, s))
  }

  /** A dimension scales to zero pixels exactly when it is below one over
      the factor; the view does not clamp, so such an image reaches the
      resampler with a zero size. */
  lemma ScaledDimZero(d: nat, s: Scale)
    requires s.den > 0
    ensures ScaledDim(d, s) == 0 <==> d * s.num < s.den
  {
  }

  /** Two sample sizes: 800x600 at `recommended` becomes 600x450, and
      1000x1000 at `extreme` becomes 500x500. */
  lemma PresetSizeExamples()
    ensures TargetSize(800, 600, Settings(Recommended).scale) == (600, 450)
    ensures TargetSize(1000, 1000, Settings(Extreme).scale) == (500, 500)
  {
  }

  /** `size // 1024`: the whole number of KiB in a byte count. */
  function Kib(size: nat): (k: nat)
    ensures k * 1024 <= size < (k + 1) * 1024
  {
    size / 1024
  }

  /** The post-write check: the output is not smaller although the document
      had images to recompress. */
  predicate SizeWarning(originalSize: nat, compressedSize: nat, hasImages: bool) {
    compressedSize >= originalSize && hasImages
  }

  /** A document with images that draws no warning reports a compressed KiB
      figure no larger than the original one. */
  lemma NoWarningReportsNoGrowth(originalSize: nat, compressedSize: nat, hasImages: bool)
    requires hasImages && !SizeWarning(originalSize, compressedSize, hasImages)
    ensures Kib(compressedSize) <= Kib(originalSize)
  {
  }
}
