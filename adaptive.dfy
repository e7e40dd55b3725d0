/**
 * AdaptiveMeanBinarizer.applyAdaptiveThreshold: each sample is compared
 * with the mean of the (2r+1)-square window around it, cut at the image
 * border (not replicated), minus a constant C. The window sums come from
 * an integral image (summed-area table) built once per image.
 */
module Adaptive {
  import opened Common
  import opened JavaLang
  import opened Raster

  // ---------------------------------------------------------------------
  // Window sums.

  /** Sum of row r over the columns x1 .. x2-1. */
  function RowSpan(img: Image, r: int, x1: int, x2: int): int
    requires img.Valid() && 0 <= r < img.height && 0 <= x1 <= x2 <= img.width
    decreases x2 - x1
  {
    if x1 == x2 then 0 else RowSpan(img, r, x1, x2 - 1) + At(img, x2 - 1, r)
  }

  /** Sum of the rectangle of rows y1 .. y2-1 and columns x1 .. x2-1. */
  function Box(img: Image, y1: int, y2: int, x1: int, x2: int): int
    requires img.Valid() && 0 <= y1 <= y2 <= img.height && 0 <= x1 <= x2 <= img.width
    decreases y2 - y1
  {
    if y1 == y2 then 0 else Box(img, y1, y2 - 1, x1, x2) + RowSpan(img, y2 - 1, x1, x2)
  }

  /** `integral[y][x]`: the sum of all samples above row y and left of column x. */
  function Integral(img: Image, y: int, x: int): int
    requires img.Valid() && 0 <= y <= img.height && 0 <= x <= img.width
  {
    Box(img, 0, y, 0, x)
  }

  lemma {:induction false} RowSpanSplit(img: Image, r: int, x0: int, x1: int, x2: int)
    requires img.Valid() && 0 <= r < img.height && 0 <= x0 <= x1 <= x2 <= img.width
    ensures RowSpan(img, r, x0, x2) == RowSpan(img, r, x0, x1) + RowSpan(img, r, x1, x2)
    decreases x2 - x1
  {
    if x1 < x2 {
      RowSpanSplit(img, r, x0, x1, x2 - 1);
    }
  }

  lemma {:induction false} BoxSplitColumns(img: Image, y1: int, y2: int, x0: int, x1: int, x2: int)
    requires img.Valid() && 0 <= y1 <= y2 <= img.height && 0 <= x0 <= x1 <= x2 <= img.width
    ensures Box(img, y1, y2, x0, x2) == Box(img, y1, y2, x0, x1) + Box(img, y1, y2, x1, x2)
    decreases y2 - y1
  {
    if y1 < y2 {
      BoxSplitColumns(img, y1, y2 - 1, x0, x1, x2);
      RowSpanSplit(img, y2 - 1, x0, x1, x2);
    }
  }

  lemma {:induction false} BoxSplitRows(img: Image, y0: int, y1: int, y2: int, x1: int, x2: int)
    requires img.Valid() && 0 <= y0 <= y1 <= y2 <= img.height && 0 <= x1 <= x2 <= img.width
    ensures Box(img, y0, y2, x1, x2) == Box(img, y0, y1, x1, x2) + Box(img, y1, y2, x1, x2)
    decreases y2 - y1
  {
    if y1 < y2 {
      BoxSplitRows(img, y0, y1, y2 - 1, x1, x2);
    }
  }

  /**
   * Inclusion-exclusion on the integral image: the sum of any rectangle is
   * four reads of the table.
   */
  lemma BoxFromIntegral(img: Image, y1: int, y2: int, x1: int, x2: int)
    requires img.Valid() && 0 <= y1 <= y2 <= img.height && 0 <= x1 <= x2 <= img.width
    ensures Box(img, y1, y2, x1, x2)
         == Integral(img, y2, x2) - Integral(img, y1, x2) - Integral(img, y2, x1) + Integral(img, y1, x1)
  {
    BoxSplitRows(img, 0, y1, y2, 0, x2);
    BoxSplitRows(img, 0, y1, y2, 0, x1);
    BoxSplitColumns(img, y1, y2, 0, x1, x2);
  }

  lemma {:induction false} EmptyBoxColumns(img: Image, y: int)
    requires img.Valid() && 0 <= y <= img.height
    ensures Integral(img, y, 0) == 0
    decreases y
  {
    if y > 0 {
      EmptyBoxColumns(img, y - 1);
    }
  }

  // ---------------------------------------------------------------------
  // The integral image.

  /** True when `integral` holds the summed-area table of img. */
  predicate IsIntegralOf(integral: array2<int>, img: Image)
    reads integral
    requires img.Valid()
  {
    integral.Length0 == img.height + 1 && integral.Length1 == img.width + 1 &&
    forall y, x :: 0 <= y <= img.height && 0 <= x <= img.width ==> integral[y, x] == Integral(img, y, x)
  }

  /** buildIntegralImage: row 0 and column 0 stay 0; each row adds a running row sum to the row above. */
  method BuildIntegralImage(img: Image) returns (integral: array2<int>)
    requires img.Valid()
    ensures fresh(integral) && IsIntegralOf(integral, img)
  {
    integral := new int[img.height + 1, img.width + 1]((_, _) => 0);
    forall y | 0 <= y <= img.height {
      EmptyBoxColumns(img, y);
    }
    var y := 1;
    while y <= img.height
      invariant 1 <= y <= img.height + 1
      invariant integral.Length0 == img.height + 1 && integral.Length1 == img.width + 1
      invariant forall yy, x :: 0 <= yy < y && 0 <= x <= img.width ==> integral[yy, x] == Integral(img, yy, x)
      invariant forall yy :: 0 <= yy <= img.height ==> integral[yy, 0] == 0
    {
      FillIntegralRow(img, integral, y);
      y := y + 1;
    }
  }

  /** One row of buildIntegralImage. */
  method FillIntegralRow(img: Image, integral: array2<int>, y: int)
    requires img.Valid() && 1 <= y <= img.height
    requires integral.Length0 == img.height + 1 && integral.Length1 == img.width + 1
    requires forall yy, x :: 0 <= yy < y && 0 <= x <= img.width ==> integral[yy, x] == Integral(img, yy, x)
    requires forall yy :: 0 <= yy <= img.height ==> integral[yy, 0] == 0
    modifies integral
    ensures forall yy, x :: 0 <= yy <= y && 0 <= x <= img.width ==> integral[yy, x] == Integral(img, yy, x)
    ensures forall yy :: 0 <= yy <= img.height ==> integral[yy, 0] == 0
  {
    EmptyBoxColumns(img, y);
    var rowSum := 0;
    var x := 1;
    while x <= img.width
      invariant 1 <= x <= img.width + 1
      invariant rowSum == RowSpan(img, y - 1, 0, x - 1)
      invariant forall yy, xx :: 0 <= yy < y && 0 <= xx <= img.width ==> integral[yy, xx] == Integral(img, yy, xx)
      invariant forall xx :: 0 <= xx < x ==> integral[y, xx] == Integral(img, y, xx)
      invariant forall yy :: 0 <= yy <= img.height ==> integral[yy, 0] == 0
    {
      var pixel := img.pixels[Index(img, x - 1, y - 1)];
      rowSum := rowSum + pixel;
      integral[y, x] := integral[y - 1, x] + rowSum;
      x := x + 1;
    }
  }

  /** getIntegralSum(x1, y1, x2, y2) for the inclusive rectangle, after shifting to the table's 1-based corners. */
  function GetIntegralSum(integral: array2<int>, x1: int, y1: int, x2: int, y2: int): int
    reads integral
    requires 0 <= x1 < integral.Length1 && 0 <= y1 < integral.Length0
    requires 0 <= x2 + 1 < integral.Length1 && 0 <= y2 + 1 < integral.Length0
  {
    integral[y2 + 1, x2 + 1] - integral[y1, x2 + 1] - integral[y2 + 1, x1] + integral[y1, x1]
  }

  /** Four table reads give the sum of the inclusive rectangle (x1, y1) .. (x2, y2). */
  lemma IntegralSumIsBox(integral: array2<int>, img: Image, x1: int, y1: int, x2: int, y2: int)
    requires img.Valid() && IsIntegralOf(integral, img)
    requires 0 <= x1 <= x2 < img.width && 0 <= y1 <= y2 < img.height
    ensures GetIntegralSum(integral, x1, y1, x2, y2) == Box(img, y1, y2 + 1, x1, x2 + 1)
  {
    BoxFromIntegral(img, y1, y2 + 1, x1, x2 + 1);
  }

  /**
   * The window of radius -1 has its corners crossed, (x + 1, y + 1) .. (x - 1, y - 1):
   * the four table reads then cancel down to the sample at (x, y).
   */
  lemma IntegralSumOfCrossedWindow(integral: array2<int>, img: Image, x: int, y: int)
    requires img.Valid() && IsIntegralOf(integral, img)
    requires 0 <= x < img.width && 0 <= y < img.height
    ensures GetIntegralSum(integral, x + 1, y + 1, x - 1, y - 1) == At(img, x, y)
  {
    BoxFromIntegral(img, y, y + 1, x, x + 1);
    assert Box(img, y, y + 1, x, x + 1) == RowSpan(img, y, x, x + 1);
  }

  // ---------------------------------------------------------------------
  // The threshold.

  /**
   * `Math.max(0, p - r)`. For r >= 0 the window starts inside the image, at or
   * before p; for r = -1 it starts one past p.
   */
  function WindowStart(p: int, r: int): (s: int)
    requires 0 <= p && -1 <= r
    ensures 0 <= s <= p + 1
    ensures 0 <= r ==> s <= p
    ensures s == p - r || (s == 0 && p - r < 0)
  {
    if p - r > 0 then p - r else 0
  }

  /**
   * `Math.min(n - 1, p + r)`. For r >= 0 the window ends inside the image, at
   * or after p; for r = -1 it ends one before p.
   */
  function WindowEnd(p: int, r: int, n: int): (e: int)
    requires 0 <= p < n && -1 <= r
    ensures p - 1 <= e < n
    ensures 0 <= r ==> p <= e
    ensures e == p + r || (e == n - 1 && p + r > n - 1)
  {
    if p + r < n - 1 then p + r else n - 1
  }

  /**
   * `(x2 - x1 + 1) * (y2 - y1 + 1)`: the number of samples in the window, never 0.
   * Corners crossed by one on both axes give (-1) * (-1) = 1.
   */
  function WindowCount(x1: int, x2: int, y1: int, y2: int): (n: int)
    requires (x1 <= x2 && y1 <= y2) || (x1 == x2 + 2 && y1 == y2 + 2)
    ensures n >= 1
    ensures x1 == x2 + 2 ==> n == 1
  {
    if x1 <= x2 then
      MulAtLeastOne(x2 - x1 + 1, y2 - y1 + 1);
      (x2 - x1 + 1) * (y2 - y1 + 1)
    else
      (x2 - x1 + 1) * (y2 - y1 + 1)
  }

  /**
   * The mean of the window around (x, y): its sum over its sample count. The
   * window of radius -1 is crossed; its table sum is the sample itself.
   */
  function LocalMean(img: Image, r: int, x: int, y: int): real
    requires img.Valid() && -1 <= r && 0 <= x < img.width && 0 <= y < img.height
  {
    var x1, x2 := WindowStart(x, r), WindowEnd(x, r, img.width);
    var y1, y2 := WindowStart(y, r), WindowEnd(y, r, img.height);
    var sum := if 0 <= r then Box(img, y1, y2 + 1, x1, x2 + 1) else At(img, x, y);
    (sum as real) / (WindowCount(x1, x2, y1, y2) as real)
  }

  /** One output sample: white when the sample is at least the local mean minus C. */
  function AdaptiveAt(img: Image, r: int, c: real, j: int): int
    requires img.Valid() && -1 <= r && 0 <= j < |img.pixels|
  {
    IndexOfCoords(img, j);
    var x, y := j % img.width, j / img.width;
    if (img.pixels[j] as real) >= LocalMean(img, r, x, y) - c then 255 else 0
  }

  /**
   * applyAdaptiveThreshold(gray, blockSize, C) with r = blockSize / 2, for the
   * block sizes Java completes on: r >= -1, or an image without samples.
   */
  function AdaptiveThresholded(img: Image, blockSize: int, c: real): (out: Image)
    requires img.Valid() && (JavaHalf(blockSize) >= -1 || |img.pixels| == 0)
    ensures out.Valid() && out.width == img.width && out.height == img.height
    ensures IsBinary(out.pixels)
  {
    var r := JavaHalf(blockSize);
    Image(img.width, img.height,
          seq(|img.pixels|, j requires 0 <= j < |img.pixels| => AdaptiveAt(img, r, c, j)))
  }

  /** One output sample, read through the integral image. */
  method AdaptivePixel(img: Image, integral: array2<int>, radius: int, c: real, x: int, y: int)
    returns (v: int)
    requires img.Valid() && IsIntegralOf(integral, img) && -1 <= radius
    requires 0 <= x < img.width && 0 <= y < img.height
    ensures 0 <= y * img.width + x < |img.pixels|
    ensures v == AdaptiveAt(img, radius, c, y * img.width + x)
  {
    var x1 := WindowStart(x, radius);
    var y1 := WindowStart(y, radius);
    var x2 := WindowEnd(x, radius, img.width);
    var y2 := WindowEnd(y, radius, img.height);
    var count := WindowCount(x1, x2, y1, y2);
    if 0 <= radius {
      IntegralSumIsBox(integral, img, x1, y1, x2, y2);
    } else {
      IntegralSumOfCrossedWindow(integral, img, x, y);
    }
    var sum := GetIntegralSum(integral, x1, y1, x2, y2);
    var mean := (sum as real) / (count as real);
    RowMajor(x, y, img.width, img.height);
    var pixel := img.pixels[y * img.width + x];
    v := if (pixel as real) >= mean - c then 255 else 0;
  }

  /**
   * AdaptiveMeanBinarizer.applyAdaptiveThreshold: the integral image, then
   * one pass over the samples. With r <= -2 the first sample reads the table
   * at row and column r + 1 < 0, which throws ArrayIndexOutOfBoundsException.
   */
  method ApplyAdaptiveThreshold(img: Image, blockSize: int, c: real)
    returns (r: Result<Image, JavaException>)
    requires img.Valid()
    ensures r.Err? <==> JavaHalf(blockSize) < -1 && |img.pixels| > 0
    ensures r.Err? ==> r.error == IndexOutOfBounds
    ensures r.Ok? ==> r.value == AdaptiveThresholded(img, blockSize, c)
  {
    var w, h := img.width, img.height;
    var integral := BuildIntegralImage(img);
    var outputPixels := new int[w * h];
    var radius := JavaHalf(blockSize);
    var y, i := 0, 0;
    while y < h
      invariant 0 <= y <= h && i == y * w && i <= w * h
      invariant radius < -1 ==> i == 0
      invariant forall j :: 0 <= j < i ==> outputPixels[j] == AdaptiveAt(img, radius, c, j)
      modifies outputPixels
    {
      RowMajorEnd(y, w, h);
      var x := 0;
      while x < w
        invariant 0 <= x <= w && i == y * w + x && y * w + w <= w * h
        invariant radius < -1 ==> i == 0
        invariant forall j :: 0 <= j < i ==> outputPixels[j] == AdaptiveAt(img, radius, c, j)
        modifies outputPixels
      {
        if radius < -1 {
          return Err(IndexOutOfBounds);
        }
        outputPixels[i] := AdaptivePixel(img, integral, radius, c, x, y);
        x, i := x + 1, i + 1;
      }
      y := y + 1;
    }
    var spec := AdaptiveThresholded(img, blockSize, c);
    assert i == |spec.pixels|;
    assert forall j :: 0 <= j < i ==> outputPixels[j] == spec.pixels[j];
    r := Ok(Image(w, h, outputPixels[..]));
  }

  // ---------------------------------------------------------------------
  // What the threshold does on flat and on extreme inputs.

  /** Every sample of img lies in lo .. hi. */
  predicate SamplesWithin(img: Image, lo: int, hi: int)
  {
    forall i :: 0 <= i < |img.pixels| ==> lo <= img.pixels[i] <= hi
  }

  lemma {:induction false} RowSpanWithin(img: Image, r: int, x1: int, x2: int, lo: int, hi: int)
    requires img.Valid() && SamplesWithin(img, lo, hi)
    requires 0 <= r < img.height && 0 <= x1 <= x2 <= img.width
    ensures lo * (x2 - x1) <= RowSpan(img, r, x1, x2) <= hi * (x2 - x1)
    decreases x2 - x1
  {
    if x1 < x2 {
      RowSpanWithin(img, r, x1, x2 - 1, lo, hi);
      assert lo * (x2 - x1) == lo * (x2 - 1 - x1) + lo;
      assert hi * (x2 - x1) == hi * (x2 - 1 - x1) + hi;
    }
  }

  lemma {:induction false} BoxWithin(img: Image, y1: int, y2: int, x1: int, x2: int, lo: int, hi: int)
    requires img.Valid() && SamplesWithin(img, lo, hi)
    requires 0 <= y1 <= y2 <= img.height && 0 <= x1 <= x2 <= img.width
    ensures lo * ((x2 - x1) * (y2 - y1)) <= Box(img, y1, y2, x1, x2) <= hi * ((x2 - x1) * (y2 - y1))
    decreases y2 - y1
  {
    if y1 < y2 {
      var n, m := x2 - x1, y2 - y1;
      BoxWithin(img, y1, y2 - 1, x1, x2, lo, hi);
      RowSpanWithin(img, y2 - 1, x1, x2, lo, hi);
      ProductStep(lo, n, m);
      ProductStep(hi, n, m);
      var below, row := Box(img, y1, y2 - 1, x1, x2), RowSpan(img, y2 - 1, x1, x2);
      assert Box(img, y1, y2, x1, x2) == below + row;
    }
  }

  lemma ProductStep(k: int, n: int, m: int)
    ensures k * (n * m) == k * (n * (m - 1)) + k * n
  {
    assert n * m == n * (m - 1) + n;
  }

  lemma MeanBetween(sum: int, count: int, lo: int, hi: int)
    requires count > 0 && lo * count <= sum <= hi * count
    ensures lo as real <= (sum as real) / (count as real) <= hi as real
  {
    assert (lo * count) as real == (lo as real) * (count as real);
    assert (hi * count) as real == (hi as real) * (count as real);
  }

  /** The window mean of an image whose samples lie in lo .. hi lies in lo .. hi too. */
  lemma LocalMeanWithin(img: Image, r: int, x: int, y: int, lo: int, hi: int)
    requires img.Valid() && SamplesWithin(img, lo, hi)
    requires -1 <= r && 0 <= x < img.width && 0 <= y < img.height
    ensures lo as real <= LocalMean(img, r, x, y) <= hi as real
  {
    var x1, x2 := WindowStart(x, r), WindowEnd(x, r, img.width);
    var y1, y2 := WindowStart(y, r), WindowEnd(y, r, img.height);
    if 0 <= r {
      BoxWithin(img, y1, y2 + 1, x1, x2 + 1, lo, hi);
      MeanBetween(Box(img, y1, y2 + 1, x1, x2 + 1), WindowCount(x1, x2, y1, y2), lo, hi);
    } else {
      assert At(img, x, y) == img.pixels[Index(img, x, y)];
    }
  }

  /**
   * On a uniform image every window mean is the sample itself, so the output
   * is all white for C >= 0 and all black for C < 0.
   */
  lemma AdaptiveUniform(img: Image, blockSize: int, c: real, v: int)
    requires img.Valid() && JavaHalf(blockSize) >= -1 && SamplesWithin(img, v, v)
    ensures forall j :: 0 <= j < |img.pixels| ==>
      AdaptiveThresholded(img, blockSize, c).pixels[j] == if c >= 0.0 then 255 else 0
  {
    forall j | 0 <= j < |img.pixels|
      ensures AdaptiveAt(img, JavaHalf(blockSize), c, j) == if c >= 0.0 then 255 else 0
    {
      IndexOfCoords(img, j);
      LocalMeanWithin(img, JavaHalf(blockSize), j % img.width, j / img.width, v, v);
    }
  }

  /**
   * A byte sample and a byte mean are less than 256 apart: with C >= 255
   * every sample turns white, with C < -255 every sample turns black.
   */
  lemma AdaptiveExtremeC(img: Image, blockSize: int, c: real)
    requires img.Valid() && JavaHalf(blockSize) >= -1
    ensures c >= 255.0 ==> forall j :: 0 <= j < |img.pixels| ==> AdaptiveThresholded(img, blockSize, c).pixels[j] == 255
    ensures c < -255.0 ==> forall j :: 0 <= j < |img.pixels| ==> AdaptiveThresholded(img, blockSize, c).pixels[j] == 0
  {
    forall j | 0 <= j < |img.pixels|
      ensures c >= 255.0 ==> AdaptiveAt(img, JavaHalf(blockSize), c, j) == 255
      ensures c < -255.0 ==> AdaptiveAt(img, JavaHalf(blockSize), c, j) == 0
    {
      IndexOfCoords(img, j);
      LocalMeanWithin(img, JavaHalf(blockSize), j % img.width, j / img.width, 0, 255);
    }
  }

  /**
   * Block sizes -3 .. 1 (r = -1 or r = 0) leave a single sample in every
   * window: the mean is the sample itself, so the output is all white for
   * C >= 0 and all black for C < 0, whatever the image.
   */
  lemma AdaptiveSingleSample(img: Image, blockSize: int, c: real)
    requires img.Valid() && -1 <= JavaHalf(blockSize) <= 0
    ensures forall j :: 0 <= j < |img.pixels| ==>
      AdaptiveThresholded(img, blockSize, c).pixels[j] == if c >= 0.0 then 255 else 0
  {
    var r := JavaHalf(blockSize);
    forall j | 0 <= j < |img.pixels|
      ensures AdaptiveAt(img, r, c, j) == if c >= 0.0 then 255 else 0
    {
      IndexOfCoords(img, j);
      var x, y := j % img.width, j / img.width;
      assert At(img, x, y) == img.pixels[j];
      if r == 0 {
        assert Box(img, y, y + 1, x, x + 1) == RowSpan(img, y, x, x + 1);
      }
      assert LocalMean(img, r, x, y) == img.pixels[j] as real;
    }
  }

  /** The crossed window of blockSize -3 thresholds exactly like the one-sample window of blockSize 1. */
  lemma AdaptiveMinusThreeIsOne(img: Image, c: real)
    requires img.Valid()
    ensures AdaptiveThresholded(img, -3, c) == AdaptiveThresholded(img, 1, c)
  {
    AdaptiveSingleSample(img, -3, c);
    AdaptiveSingleSample(img, 1, c);
    assert AdaptiveThresholded(img, -3, c).pixels == AdaptiveThresholded(img, 1, c).pixels;
  }

  /** The mean of all samples of img. */
  function ImageMean(img: Image): real
    requires img.Valid() && img.width > 0 && img.height > 0
  {
    (Box(img, 0, img.height, 0, img.width) as real) / ((img.width * img.height) as real)
  }

  /**
   * A block at least twice the larger side makes every window the whole
   * image: the result is a single cut at the image mean minus C.
   */
  lemma AdaptiveLargeBlockIsGlobal(img: Image, blockSize: int, c: real)
    requires img.Valid() && JavaHalf(blockSize) >= 0
    requires JavaHalf(blockSize) >= img.width - 1 && JavaHalf(blockSize) >= img.height - 1
    ensures forall j :: 0 <= j < |img.pixels| ==>
      img.width > 0 && img.height > 0 &&
      AdaptiveThresholded(img, blockSize, c).pixels[j] == if (img.pixels[j] as real) >= ImageMean(img) - c then 255 else 0
  {
    var r := JavaHalf(blockSize);
    forall j | 0 <= j < |img.pixels|
      ensures img.width > 0 && img.height > 0
      ensures AdaptiveAt(img, r, c, j) == if (img.pixels[j] as real) >= ImageMean(img) - c then 255 else 0
    {
      IndexOfCoords(img, j);
      var x, y := j % img.width, j / img.width;
      assert WindowStart(x, r) == 0 && WindowEnd(x, r, img.width) == img.width - 1;
      assert WindowStart(y, r) == 0 && WindowEnd(y, r, img.height) == img.height - 1;
      assert LocalMean(img, r, x, y) == ImageMean(img);
    }
  }
}
