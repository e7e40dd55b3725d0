/**
 * The fixed-threshold step the Otsu and Global binarizers share
 * (`applyThreshold`): a sample at or above the threshold becomes white
 * (255), every other sample black (0).
 */
module Threshold {
  import opened Raster

  /** The image applyThreshold produces, described sample by sample. */
  function Thresholded(img: Image, threshold: int): (out: Image)
    requires img.Valid()
    ensures out.Valid() && out.width == img.width && out.height == img.height
    ensures IsBinary(out.pixels)
    ensures forall i :: 0 <= i < |img.pixels| ==> (out.pixels[i] == 255 <==> img.pixels[i] >= threshold)
  {
    Image(img.width, img.height,
      seq(|img.pixels|, i requires 0 <= i < |img.pixels| => if img.pixels[i] >= threshold then 255 else 0))
  }

  /** applyThreshold: one pass over the samples into a fresh output buffer. */
  method ApplyThreshold(img: Image, threshold: int) returns (out: Image)
    requires img.Valid()
    ensures out == Thresholded(img, threshold)
  {
    var outputPixels := new int[|img.pixels|];
    var i := 0;
    while i < |img.pixels|
      invariant 0 <= i <= |img.pixels|
      invariant forall j :: 0 <= j < i ==> outputPixels[j] == Thresholded(img, threshold).pixels[j]
    {
      var pixel := img.pixels[i];
      outputPixels[i] := if pixel >= threshold then 255 else 0;
      i := i + 1;
    }
    out := Image(img.width, img.height, outputPixels[..]);
  }

  /** A threshold at or below 0 turns every sample white. */
  lemma ThresholdAtMostZeroAllWhite(img: Image, threshold: int)
    requires img.Valid() && threshold <= 0
    ensures forall i :: 0 <= i < |img.pixels| ==> Thresholded(img, threshold).pixels[i] == 255
  {
  }

  /** A threshold above 255 turns every sample black. */
  lemma ThresholdAbove255AllBlack(img: Image, threshold: int)
    requires img.Valid() && threshold > 255
    ensures forall i :: 0 <= i < |img.pixels| ==> Thresholded(img, threshold).pixels[i] == 0
  {
  }

  /** Raising the threshold never turns a black sample white. */
  lemma ThresholdMonotone(img: Image, low: int, high: int, i: int)
    requires img.Valid() && low <= high && 0 <= i < |img.pixels|
    ensures Thresholded(img, high).pixels[i] == 255 ==> Thresholded(img, low).pixels[i] == 255
  {
  }

  /** Any threshold in 1 .. 255 reproduces an image that is already black and white. */
  lemma ThresholdKeepsBinary(img: Image, threshold: int)
    requires img.Valid() && IsBinary(img.pixels) && 1 <= threshold <= 255
    ensures Thresholded(img, threshold) == img
  {
    assert Thresholded(img, threshold).pixels == img.pixels;
  }
}
