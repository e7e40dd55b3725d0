/**
 * ImageUtils: median and Gaussian blur, erosion, dilation, opening,
 * closing and the output-format rule of saveImage. Each image operation
 * is a method whose nested loops fill a fresh output buffer, proved equal
 * to a specification function defined pixel by pixel.
 */
module ImageUtils {
  import opened JavaLang
  import opened Raster
  import Sorting

  // =====================================================================
  // Erosion and dilation

  /** Every clamped neighbour within radius r of (x, y) is white. */
  predicate AllWhiteAround(img: Image, x: int, y: int, r: int)
    requires img.Valid() && 0 <= x < img.width && 0 <= y < img.height
  {
    forall ky, kx :: -r <= ky <= r && -r <= kx <= r ==> IsWhite(Sample(img, x, y, kx, ky))
  }

  /** Some clamped neighbour within radius r of (x, y) is white. */
  predicate AnyWhiteAround(img: Image, x: int, y: int, r: int)
    requires img.Valid() && 0 <= x < img.width && 0 <= y < img.height
  {
    exists ky, kx :: -r <= ky <= r && -r <= kx <= r && IsWhite(Sample(img, x, y, kx, ky))
  }

  function ErodeAt(img: Image, r: int, j: int): int
    requires img.Valid() && 0 <= j < |img.pixels|
  {
    IndexOfCoords(img, j);
    if AllWhiteAround(img, j % img.width, j / img.width, r) then 255 else 0
  }

  function DilateAt(img: Image, r: int, j: int): int
    requires img.Valid() && 0 <= j < |img.pixels|
  {
    IndexOfCoords(img, j);
    if AnyWhiteAround(img, j % img.width, j / img.width, r) then 255 else 0
  }

  /** erode(img, kernelSize): 255 where the whole (2r+1)-square window is white, r = kernelSize / 2. */
  function Eroded(img: Image, kernelSize: int): (out: Image)
    requires img.Valid()
    ensures out.Valid() && out.width == img.width && out.height == img.height
    ensures IsBinary(out.pixels)
  {
    var r := JavaHalf(kernelSize);
    Image(img.width, img.height,
          seq(|img.pixels|, j requires 0 <= j < |img.pixels| => ErodeAt(img, r, j)))
  }

  /** dilate(img, kernelSize): 255 where some pixel of the (2r+1)-square window is white. */
  function Dilated(img: Image, kernelSize: int): (out: Image)
    requires img.Valid()
    ensures out.Valid() && out.width == img.width && out.height == img.height
    ensures IsBinary(out.pixels)
  {
    var r := JavaHalf(kernelSize);
    Image(img.width, img.height,
          seq(|img.pixels|, j requires 0 <= j < |img.pixels| => DilateAt(img, r, j)))
  }

  /** open = dilate after erode. */
  function Opened(img: Image, kernelSize: int): (out: Image)
    requires img.Valid()
    ensures out.Valid() && out.width == img.width && out.height == img.height
    ensures IsBinary(out.pixels)
  {
    Dilated(Eroded(img, kernelSize), kernelSize)
  }

  /** close = erode after dilate. */
  function Closed(img: Image, kernelSize: int): (out: Image)
    requires img.Valid()
    ensures out.Valid() && out.width == img.width && out.height == img.height
    ensures IsBinary(out.pixels)
  {
    Eroded(Dilated(img, kernelSize), kernelSize)
  }

  /** The eroded pixel at (x, y) is white iff its whole window is white, else black. */
  lemma ErodedPixel(img: Image, kernelSize: int, x: int, y: int)
    requires img.Valid() && 0 <= x < img.width && 0 <= y < img.height
    ensures At(Eroded(img, kernelSize), x, y)
         == if AllWhiteAround(img, x, y, JavaHalf(kernelSize)) then 255 else 0
  {
    RowMajor(x, y, img.width, img.height);
  }

  /** The dilated pixel at (x, y) is white iff some pixel of its window is white, else black. */
  lemma DilatedPixel(img: Image, kernelSize: int, x: int, y: int)
    requires img.Valid() && 0 <= x < img.width && 0 <= y < img.height
    ensures At(Dilated(img, kernelSize), x, y)
         == if AnyWhiteAround(img, x, y, JavaHalf(kernelSize)) then 255 else 0
  {
    RowMajor(x, y, img.width, img.height);
  }

  /** With kernelSize >= -1 the window holds the pixel itself, so erosion only removes white. */
  lemma ErosionShrinks(img: Image, kernelSize: int)
    requires img.Valid() && JavaHalf(kernelSize) >= 0
    ensures forall j :: 0 <= j < |img.pixels| && Eroded(img, kernelSize).pixels[j] == 255
                        ==> IsWhite(img.pixels[j])
  {
    forall j | 0 <= j < |img.pixels| && Eroded(img, kernelSize).pixels[j] == 255
      ensures IsWhite(img.pixels[j])
    {
      IndexOfCoords(img, j);
      SampleCentre(img, j % img.width, j / img.width);
    }
  }

  /** With kernelSize >= -1 dilation only adds white. */
  lemma DilationGrows(img: Image, kernelSize: int)
    requires img.Valid() && JavaHalf(kernelSize) >= 0
    ensures forall j :: 0 <= j < |img.pixels| && IsWhite(img.pixels[j])
                        ==> Dilated(img, kernelSize).pixels[j] == 255
  {
    forall j | 0 <= j < |img.pixels| && IsWhite(img.pixels[j])
      ensures Dilated(img, kernelSize).pixels[j] == 255
    {
      IndexOfCoords(img, j);
      var x, y := j % img.width, j / img.width;
      SampleCentre(img, x, y);
      assert IsWhite(Sample(img, x, y, 0, 0));
    }
  }

  /** Opening never whitens a pixel that was below 128, whatever the kernel size. */
  lemma OpeningAddsNoWhite(img: Image, kernelSize: int)
    requires img.Valid()
    ensures forall j :: 0 <= j < |img.pixels| && Opened(img, kernelSize).pixels[j] == 255
                        ==> IsWhite(img.pixels[j])
  {
    forall j | 0 <= j < |img.pixels| && Opened(img, kernelSize).pixels[j] == 255
      ensures IsWhite(img.pixels[j])
    {
      IndexOfCoords(img, j);
      OpenedPixelWhite(img, kernelSize, j % img.width, j / img.width);
    }
  }

  lemma OpenedPixelWhite(img: Image, kernelSize: int, x: int, y: int)
    requires img.Valid() && 0 <= x < img.width && 0 <= y < img.height
    requires At(Opened(img, kernelSize), x, y) == 255
    ensures IsWhite(At(img, x, y))
  {
    var r := JavaHalf(kernelSize);
    var e := Eroded(img, kernelSize);
    DilatedPixel(e, kernelSize, x, y);
    var ky, kx :| -r <= ky <= r && -r <= kx <= r && IsWhite(Sample(e, x, y, kx, ky));
    ErodedNeighbourWhite(img, kernelSize, x, y, kx, ky);
  }

  /** If the eroded image is white at a neighbour of (x, y), the input is white at (x, y). */
  lemma ErodedNeighbourWhite(img: Image, kernelSize: int, x: int, y: int, kx: int, ky: int)
    requires img.Valid() && 0 <= x < img.width && 0 <= y < img.height
    requires -JavaHalf(kernelSize) <= ky <= JavaHalf(kernelSize)
    requires -JavaHalf(kernelSize) <= kx <= JavaHalf(kernelSize)
    requires IsWhite(Sample(Eroded(img, kernelSize), x, y, kx, ky))
    ensures IsWhite(At(img, x, y))
  {
    var r := JavaHalf(kernelSize);
    var qx := Clamp(x + kx, 0, img.width - 1);
    var qy := Clamp(y + ky, 0, img.height - 1);
    ErodedPixel(img, kernelSize, qx, qy);
    assert AllWhiteAround(img, qx, qy, r);
    var jx := ClampReachBack(x, kx, r, img.width);
    var jy := ClampReachBack(y, ky, r, img.height);
    assert IsWhite(Sample(img, qx, qy, jx, jy));
  }

  /** Closing never blackens a pixel that was 128 or above, whatever the kernel size. */
  lemma ClosingRemovesNoWhite(img: Image, kernelSize: int)
    requires img.Valid()
    ensures forall j :: 0 <= j < |img.pixels| && IsWhite(img.pixels[j])
                        ==> Closed(img, kernelSize).pixels[j] == 255
  {
    forall j | 0 <= j < |img.pixels| && IsWhite(img.pixels[j])
      ensures Closed(img, kernelSize).pixels[j] == 255
    {
      IndexOfCoords(img, j);
      ClosedPixelWhite(img, kernelSize, j % img.width, j / img.width);
    }
  }

  lemma ClosedPixelWhite(img: Image, kernelSize: int, x: int, y: int)
    requires img.Valid() && 0 <= x < img.width && 0 <= y < img.height
    requires IsWhite(At(img, x, y))
    ensures At(Closed(img, kernelSize), x, y) == 255
  {
    var r := JavaHalf(kernelSize);
    var d := Dilated(img, kernelSize);
    forall ky, kx | -r <= ky <= r && -r <= kx <= r
      ensures IsWhite(Sample(d, x, y, kx, ky))
    {
      var qx := Clamp(x + kx, 0, img.width - 1);
      var qy := Clamp(y + ky, 0, img.height - 1);
      var jx := ClampReachBack(x, kx, r, img.width);
      var jy := ClampReachBack(y, ky, r, img.height);
      assert IsWhite(Sample(img, qx, qy, jx, jy));
      DilatedPixel(img, kernelSize, qx, qy);
    }
    ErodedPixel(d, kernelSize, x, y);
  }

  /** The loops of erode around one pixel, leaving early at the first non-white sample. */
  method AllWhiteScan(img: Image, x: int, y: int, radius: int) returns (allWhite: bool)
    requires img.Valid() && 0 <= x < img.width && 0 <= y < img.height
    ensures allWhite == AllWhiteAround(img, x, y, radius)
  {
    allWhite := true;
    var ky := -radius;
    while ky <= radius && allWhite
      invariant allWhite ==> forall ky', kx' :: -radius <= ky' < ky && -radius <= kx' <= radius
                                               ==> IsWhite(Sample(img, x, y, kx', ky'))
      invariant !allWhite ==> !AllWhiteAround(img, x, y, radius)
      invariant allWhite && ky > radius ==> ky == radius + 1 || radius < 0
      decreases radius - ky + 1
    {
      var kx := -radius;
      while kx <= radius && allWhite
        invariant -radius <= kx <= radius + 1
        invariant allWhite ==> forall ky', kx' :: -radius <= ky' < ky && -radius <= kx' <= radius
                                                 ==> IsWhite(Sample(img, x, y, kx', ky'))
        invariant allWhite ==> forall kx' :: -radius <= kx' < kx ==> IsWhite(Sample(img, x, y, kx', ky))
        invariant !allWhite ==> !AllWhiteAround(img, x, y, radius)
        decreases radius - kx + 1
      {
        if Sample(img, x, y, kx, ky) < 128 {
          allWhite := false;
        }
        kx := kx + 1;
      }
      ky := ky + 1;
    }
  }

  /** The loops of dilate around one pixel, leaving early at the first white sample. */
  method AnyWhiteScan(img: Image, x: int, y: int, radius: int) returns (anyWhite: bool)
    requires img.Valid() && 0 <= x < img.width && 0 <= y < img.height
    ensures anyWhite == AnyWhiteAround(img, x, y, radius)
  {
    anyWhite := false;
    var ky := -radius;
    while ky <= radius && !anyWhite
      invariant !anyWhite ==> forall ky', kx' :: -radius <= ky' < ky && -radius <= kx' <= radius
                                                ==> !IsWhite(Sample(img, x, y, kx', ky'))
      invariant anyWhite ==> AnyWhiteAround(img, x, y, radius)
      invariant !anyWhite && ky > radius ==> ky == radius + 1 || radius < 0
      decreases radius - ky + 1
    {
      var kx := -radius;
      while kx <= radius && !anyWhite
        invariant -radius <= kx <= radius + 1
        invariant !anyWhite ==> forall ky', kx' :: -radius <= ky' < ky && -radius <= kx' <= radius
                                                  ==> !IsWhite(Sample(img, x, y, kx', ky'))
        invariant !anyWhite ==> forall kx' :: -radius <= kx' < kx ==> !IsWhite(Sample(img, x, y, kx', ky))
        invariant anyWhite ==> AnyWhiteAround(img, x, y, radius)
        decreases radius - kx + 1
      {
        if Sample(img, x, y, kx, ky) >= 128 {
          anyWhite := true;
        }
        kx := kx + 1;
      }
      ky := ky + 1;
    }
  }

  /** ImageUtils.erode: fills a fresh buffer row by row. */
  method Erode(img: Image, kernelSize: int) returns (out: Image)
    requires img.Valid()
    ensures out == Eroded(img, kernelSize)
  {
    var w, h := img.width, img.height;
    var radius := JavaHalf(kernelSize);
    var outputPixels := new int[w * h];
    var y, i := 0, 0;
    while y < h
      invariant 0 <= y <= h && i == y * w && i <= w * h
      invariant forall j :: 0 <= j < i ==> outputPixels[j] == ErodeAt(img, radius, j)
    {
      RowMajorEnd(y, w, h);
      var x := 0;
      while x < w
        invariant 0 <= x <= w && i == y * w + x && y * w + w <= w * h
        invariant forall j :: 0 <= j < i ==> outputPixels[j] == ErodeAt(img, radius, j)
      {
        outputPixels[i] := ErodeAtPixel(img, radius, x, y);
        x, i := x + 1, i + 1;
      }
      y := y + 1;
    }
    var spec := Eroded(img, kernelSize);
    assert i == |spec.pixels|;
    assert forall j :: 0 <= j < i ==> outputPixels[j] == spec.pixels[j];
    out := Image(w, h, outputPixels[..]);
  }

  /** One output sample: the window scan, stored as 255 or 0. */
  method ErodeAtPixel(img: Image, r: int, x: int, y: int) returns (v: int)
    requires img.Valid() && 0 <= x < img.width && 0 <= y < img.height
    ensures 0 <= y * img.width + x < |img.pixels|
    ensures v == ErodeAt(img, r, y * img.width + x)
  {
    var allWhite := AllWhiteScan(img, x, y, r);
    RowMajor(x, y, img.width, img.height);
    v := if allWhite then 255 else 0;
  }

  /** ImageUtils.dilate: fills a fresh buffer row by row. */
  method Dilate(img: Image, kernelSize: int) returns (out: Image)
    requires img.Valid()
    ensures out == Dilated(img, kernelSize)
  {
    var w, h := img.width, img.height;
    var radius := JavaHalf(kernelSize);
    var outputPixels := new int[w * h];
    var y, i := 0, 0;
    while y < h
      invariant 0 <= y <= h && i == y * w && i <= w * h
      invariant forall j :: 0 <= j < i ==> outputPixels[j] == DilateAt(img, radius, j)
    {
      RowMajorEnd(y, w, h);
      var x := 0;
      while x < w
        invariant 0 <= x <= w && i == y * w + x && y * w + w <= w * h
        invariant forall j :: 0 <= j < i ==> outputPixels[j] == DilateAt(img, radius, j)
      {
        outputPixels[i] := DilateAtPixel(img, radius, x, y);
        x, i := x + 1, i + 1;
      }
      y := y + 1;
    }
    var spec := Dilated(img, kernelSize);
    assert i == |spec.pixels|;
    assert forall j :: 0 <= j < i ==> outputPixels[j] == spec.pixels[j];
    out := Image(w, h, outputPixels[..]);
  }

  /** One output sample: the window scan, stored as 255 or 0. */
  method DilateAtPixel(img: Image, r: int, x: int, y: int) returns (v: int)
    requires img.Valid() && 0 <= x < img.width && 0 <= y < img.height
    ensures 0 <= y * img.width + x < |img.pixels|
    ensures v == DilateAt(img, r, y * img.width + x)
  {
    var anyWhite := AnyWhiteScan(img, x, y, r);
    RowMajor(x, y, img.width, img.height);
    v := if anyWhite then 255 else 0;
  }

  /** ImageUtils.open. */
  method Open(img: Image, kernelSize: int) returns (out: Image)
    requires img.Valid()
    ensures out == Opened(img, kernelSize)
  {
    var eroded := Erode(img, kernelSize);
    out := Dilate(eroded, kernelSize);
  }

  /** ImageUtils.close. */
  method Close(img: Image, kernelSize: int) returns (out: Image)
    requires img.Valid()
    ensures out == Closed(img, kernelSize)
  {
    var dilated := Dilate(img, kernelSize);
    out := Erode(dilated, kernelSize);
  }

  // =====================================================================
  // Median blur

  /** Row ky of the (2r+1)-square window around (x, y), offsets kx = -r .. r in order. */
  function WindowRow(img: Image, x: int, y: int, r: int, ky: int): (row: seq<int>)
    requires 0 <= r
    requires img.Valid() && 0 <= x < img.width && 0 <= y < img.height
    ensures |row| == 2 * r + 1
  {
    seq(2 * r + 1, i requires 0 <= i < 2 * r + 1 => Sample(img, x, y, i - r, ky))
  }

  /** Rows -r .. ky-1 of the window, in the order the loops visit them. */
  function WindowRows(img: Image, x: int, y: int, r: int, ky: int): (rows: seq<int>)
    requires 0 <= r
    requires img.Valid() && 0 <= x < img.width && 0 <= y < img.height
    requires -r <= ky <= r + 1
    decreases ky + r
  {
    if ky == -r then []
    else WindowRows(img, x, y, r, ky - 1) + WindowRow(img, x, y, r, ky - 1)
  }

  lemma {:induction false} WindowRowsLength(img: Image, x: int, y: int, r: int, ky: int)
    requires 0 <= r
    requires img.Valid() && 0 <= x < img.width && 0 <= y < img.height
    requires -r <= ky <= r + 1
    ensures |WindowRows(img, x, y, r, ky)| == (ky + r) * (2 * r + 1)
    decreases ky + r
  {
    if ky > -r {
      WindowRowsLength(img, x, y, r, ky - 1);
      MulSucc(ky - 1 + r, 2 * r + 1);
    }
  }

  lemma MulSucc(a: int, n: int)
    ensures (a + 1) * n == a * n + n
  {
  }

  /** The whole window the median loops collect around (x, y). */
  function Window(img: Image, x: int, y: int, r: int): (w: seq<int>)
    requires 0 <= r
    requires img.Valid() && 0 <= x < img.width && 0 <= y < img.height
    ensures |w| == (2 * r + 1) * (2 * r + 1) && |w| > 0
  {
    WindowRowsLength(img, x, y, r, r + 1);
    MulNonNegative(2 * r, 2 * r + 1);
    WindowRows(img, x, y, r, r + 1)
  }

  /** The middle element of the sorted window: window[idx / 2] after Arrays.sort. */
  function Median(window: seq<int>): int
    requires |window| > 0
  {
    Sorting.Sort(window)[|window| / 2]
  }

  function MedianAt(img: Image, r: int, j: int): (v: int)
    requires 0 <= r
    requires img.Valid() && 0 <= j < |img.pixels|
    ensures 0 <= v <= 255
  {
    IndexOfCoords(img, j);
    var window := Window(img, j % img.width, j / img.width, r);
    WindowRowsAreBytes(img, j % img.width, j / img.width, r, r + 1);
    MedianBetweenExtremes(window, 0, 255);
    Median(window)
  }

  lemma {:induction false} WindowRowsAreBytes(img: Image, x: int, y: int, r: int, ky: int)
    requires 0 <= r
    requires img.Valid() && 0 <= x < img.width && 0 <= y < img.height
    requires -r <= ky <= r + 1
    ensures IsByteSamples(WindowRows(img, x, y, r, ky))
    decreases ky + r
  {
    if ky > -r {
      WindowRowsAreBytes(img, x, y, r, ky - 1);
      var a, b := WindowRows(img, x, y, r, ky - 1), WindowRow(img, x, y, r, ky - 1);
      assert WindowRows(img, x, y, r, ky) == a + b;
      assert forall i :: 0 <= i < |b| ==> b[i] == Sample(img, x, y, i - r, ky - 1);
      assert forall i :: 0 <= i < |a + b| ==> (a + b)[i] == if i < |a| then a[i] else b[i - |a|];
    }
  }

  /**
   * The kernel sizes applyMedianBlur and applyGaussianBlur can run with:
   * at most 1 (no-op), or odd. An even size above 1 needs a window of
   * (k+1)^2 samples, which overruns the k*k buffer and the k-by-k kernel.
   */
  predicate BlurKernelOk(kernelSize: int)
  {
    kernelSize <= 1 || JavaIsOdd(kernelSize)
  }

  lemma OddKernelRadius(kernelSize: int)
    requires kernelSize > 1 && JavaIsOdd(kernelSize)
    ensures kernelSize == 2 * JavaHalf(kernelSize) + 1
  {
  }

  /** applyMedianBlur(img, kernelSize): each pixel becomes the median of its clamped window. */
  function MedianBlurred(img: Image, kernelSize: int): (out: Image)
    requires img.Valid() && BlurKernelOk(kernelSize)
    ensures out.Valid() && out.width == img.width && out.height == img.height
    ensures kernelSize <= 1 ==> out == img
  {
    if kernelSize <= 1 then img
    else
      var r := JavaHalf(kernelSize);
      Image(img.width, img.height,
            seq(|img.pixels|, j requires 0 <= j < |img.pixels| => MedianAt(img, r, j)))
  }

  /** The median is a sample of the window, at least its minimum and at most its maximum. */
  lemma MedianWithinWindow(window: seq<int>)
    requires |window| > 0
    ensures Median(window) in window
  {
    Sorting.SortedElementsFromInput(window, |window| / 2);
  }

  /** Min <= median <= max: the median lies between the window's extremes. */
  lemma MedianBetweenExtremes(window: seq<int>, lo: int, hi: int)
    requires |window| > 0
    requires forall i :: 0 <= i < |window| ==> lo <= window[i] <= hi
    ensures lo <= Median(window) <= hi
  {
    MedianWithinWindow(window);
  }

  /** A window of one repeated value has that value as its median. */
  lemma MedianOfConstant(window: seq<int>, v: int)
    requires |window| > 0
    requires forall i :: 0 <= i < |window| ==> window[i] == v
    ensures Median(window) == v
  {
    Sorting.SortConstant(window, v);
  }

  predicate IsConstant(img: Image, v: int)
  {
    forall i :: 0 <= i < |img.pixels| ==> img.pixels[i] == v
  }

  lemma {:induction false} WindowRowsOfConstant(img: Image, v: int, x: int, y: int, r: int, ky: int)
    requires 0 <= r
    requires img.Valid() && 0 <= x < img.width && 0 <= y < img.height && IsConstant(img, v)
    requires -r <= ky <= r + 1
    ensures forall i :: 0 <= i < |WindowRows(img, x, y, r, ky)| ==> WindowRows(img, x, y, r, ky)[i] == v
    decreases ky + r
  {
    if ky > -r {
      WindowRowsOfConstant(img, v, x, y, r, ky - 1);
      var a, b := WindowRows(img, x, y, r, ky - 1), WindowRow(img, x, y, r, ky - 1);
      assert WindowRows(img, x, y, r, ky) == a + b;
      assert forall i :: 0 <= i < |b| ==> b[i] == Sample(img, x, y, i - r, ky - 1);
      assert forall i :: 0 <= i < |a + b| ==> (a + b)[i] == if i < |a| then a[i] else b[i - |a|];
    }
  }

  /** Median blur leaves a constant image unchanged, for every usable kernel size. */
  lemma MedianBlurKeepsConstant(img: Image, kernelSize: int, v: int)
    requires img.Valid() && BlurKernelOk(kernelSize) && IsConstant(img, v)
    ensures MedianBlurred(img, kernelSize) == img
  {
    if kernelSize > 1 {
      var r := JavaHalf(kernelSize);
      var out := MedianBlurred(img, kernelSize);
      forall j | 0 <= j < |img.pixels|
        ensures out.pixels[j] == img.pixels[j]
      {
        IndexOfCoords(img, j);
        var win := Window(img, j % img.width, j / img.width, r);
        WindowRowsOfConstant(img, v, j % img.width, j / img.width, r, r + 1);
        MedianOfConstant(win, v);
      }
    }
  }

  /** The inner window loop: copies row ky of the window into window[start .. start + 2r + 1). */
  method FillWindowRow(img: Image, x: int, y: int, radius: int, ky: int, window: array<int>, start: int)
    requires 0 <= radius
    requires img.Valid() && 0 <= x < img.width && 0 <= y < img.height
    requires 0 <= start && start + 2 * radius + 1 <= window.Length
    modifies window
    ensures window[..start + 2 * radius + 1] == old(window[..start]) + WindowRow(img, x, y, radius, ky)
  {
    ghost var prefix := window[..start];
    ghost var row := WindowRow(img, x, y, radius, ky);
    var idx := start;
    var kx := -radius;
    while kx <= radius
      invariant -radius <= kx <= radius + 1
      invariant idx == start + kx + radius
      invariant window[..idx] == prefix + row[..kx + radius]
    {
      window[idx] := Sample(img, x, y, kx, ky);
      assert row[..kx + radius + 1] == row[..kx + radius] + [row[kx + radius]];
      assert window[..idx + 1] == window[..idx] + [window[idx]];
      idx := idx + 1;
      kx := kx + 1;
    }
    assert row[..kx + radius] == row;
  }

  /** The window loops: copies the clamped (2r+1)-square neighbourhood of (x, y) into window[0 .. n*n). */
  method FillWindow(img: Image, x: int, y: int, radius: int, window: array<int>) returns (idx: int)
    requires 0 <= radius
    requires img.Valid() && 0 <= x < img.width && 0 <= y < img.height
    requires window.Length == (2 * radius + 1) * (2 * radius + 1)
    modifies window
    ensures idx == window.Length
    ensures window[..idx] == Window(img, x, y, radius)
  {
    var n := 2 * radius + 1;
    idx := 0;
    var ky := -radius;
    while ky <= radius
      invariant -radius <= ky <= radius + 1
      invariant idx == (ky + radius) * n
      invariant window[..idx] == WindowRows(img, x, y, radius, ky)
    {
      RowMajorEnd(ky + radius, n, n);
      FillWindowRow(img, x, y, radius, ky, window, idx);
      idx := idx + n;
      ky := ky + 1;
    }
  }

  /** ImageUtils.applyMedianBlur. */
  method ApplyMedianBlur(img: Image, kernelSize: int) returns (out: Image)
    requires img.Valid() && BlurKernelOk(kernelSize)
    ensures out == MedianBlurred(img, kernelSize)
  {
    if kernelSize <= 1 {
      return img;
    }
    var w, h := img.width, img.height;
    var radius := JavaHalf(kernelSize);
    OddKernelRadius(kernelSize);
    var outputPixels := new int[w * h];
    var window := new int[kernelSize * kernelSize];
    var y, i := 0, 0;
    while y < h
      invariant 0 <= y <= h && i == y * w && i <= w * h
      invariant forall j :: 0 <= j < i ==> outputPixels[j] == MedianAt(img, radius, j)
    {
      RowMajorEnd(y, w, h);
      var x := 0;
      while x < w
        invariant 0 <= x <= w && i == y * w + x && y * w + w <= w * h
        invariant forall j :: 0 <= j < i ==> outputPixels[j] == MedianAt(img, radius, j)
      {
        outputPixels[i] := MedianPixel(img, radius, x, y, window);
        x, i := x + 1, i + 1;
      }
      y := y + 1;
    }
    var spec := MedianBlurred(img, kernelSize);
    assert i == |spec.pixels|;
    assert forall j :: 0 <= j < i ==> outputPixels[j] == spec.pixels[j];
    out := Image(w, h, outputPixels[..]);
  }

  /** One output sample: fill the window, sort its filled part, take the middle element. */
  method MedianPixel(img: Image, radius: int, x: int, y: int, window: array<int>) returns (v: int)
    requires 0 <= radius
    requires img.Valid() && 0 <= x < img.width && 0 <= y < img.height
    requires window.Length == (2 * radius + 1) * (2 * radius + 1)
    modifies window
    ensures 0 <= y * img.width + x < |img.pixels|
    ensures v == MedianAt(img, radius, y * img.width + x)
  {
    var idx := FillWindow(img, x, y, radius, window);
    RowMajor(x, y, img.width, img.height);
    v := Sorting.Sort(window[..idx])[idx / 2];
  }

  // =====================================================================
  // Gaussian blur

  /** kernel(row, col): entry [row][col] of the k-by-k kernel generateGaussianKernel(k) returns. */
  type Kernel = (int, int) -> real

  /** Sum over kx' = -r .. kx-1 of sample(kx', ky) * kernel[ky + r][kx' + r]. */
  function ConvolveRow(img: Image, x: int, y: int, r: int, kernel: Kernel, ky: int, kx: int): real
    requires 0 <= r
    requires img.Valid() && 0 <= x < img.width && 0 <= y < img.height
    requires -r <= kx <= r + 1
    decreases kx + r
  {
    if kx == -r then 0.0
    else ConvolveRow(img, x, y, r, kernel, ky, kx - 1)
         + (Sample(img, x, y, kx - 1, ky) as real) * kernel(ky + r, kx - 1 + r)
  }

  /** Sum of the full rows -r .. ky-1 of the convolution around (x, y). */
  function ConvolveRows(img: Image, x: int, y: int, r: int, kernel: Kernel, ky: int): real
    requires 0 <= r
    requires img.Valid() && 0 <= x < img.width && 0 <= y < img.height
    requires -r <= ky <= r + 1
    decreases ky + r
  {
    if ky == -r then 0.0
    else ConvolveRows(img, x, y, r, kernel, ky - 1) + ConvolveRow(img, x, y, r, kernel, ky - 1, r + 1)
  }

  /** Java's (int) cast of a double: truncation toward zero (saturation is hidden by the clamp that follows). */
  function Truncate(v: real): (i: int)
    ensures 0.0 <= v ==> i as real <= v < i as real + 1.0
    ensures v < 0.0 ==> i as real - 1.0 < v <= i as real
  {
    if v >= 0.0 then v.Floor else -((-v).Floor)
  }

  function GaussianAt(img: Image, r: int, kernel: Kernel, j: int): (v: int)
    requires 0 <= r
    requires img.Valid() && 0 <= j < |img.pixels|
    ensures 0 <= v <= 255
  {
    IndexOfCoords(img, j);
    Clamp(Truncate(ConvolveRows(img, j % img.width, j / img.width, r, kernel, r + 1)), 0, 255)
  }

  /**
   * applyGaussianBlur(img, kernelSize) with exact real arithmetic: the
   * clamped-border convolution, truncated and clamped into 0 .. 255.
   */
  function GaussianBlurred(img: Image, kernelSize: int, kernel: Kernel): (out: Image)
    requires img.Valid() && BlurKernelOk(kernelSize)
    ensures out.Valid() && out.width == img.width && out.height == img.height
    ensures kernelSize <= 1 ==> out == img
  {
    if kernelSize <= 1 then img
    else
      var r := JavaHalf(kernelSize);
      Image(img.width, img.height,
            seq(|img.pixels|, j requires 0 <= j < |img.pixels| => GaussianAt(img, r, kernel, j)))
  }

  /** Sum of the kernel entries of rows 0 .. rows-1, each of `cols` entries, scanned like the convolution. */
  function KernelRowSum(kernel: Kernel, row: int, cols: nat): real
  {
    if cols == 0 then 0.0 else KernelRowSum(kernel, row, cols - 1) + kernel(row, cols - 1)
  }

  function KernelSum(kernel: Kernel, rows: nat, cols: nat): real
  {
    if rows == 0 then 0.0 else KernelSum(kernel, rows - 1, cols) + KernelRowSum(kernel, rows - 1, cols)
  }

  /** The kernel sums with every entry first multiplied by v, in the same order. */
  function ScaledRowSum(kernel: Kernel, v: real, row: int, cols: nat): real
  {
    if cols == 0 then 0.0 else ScaledRowSum(kernel, v, row, cols - 1) + v * kernel(row, cols - 1)
  }

  function ScaledSum(kernel: Kernel, v: real, rows: nat, cols: nat): real
  {
    if rows == 0 then 0.0 else ScaledSum(kernel, v, rows - 1, cols) + ScaledRowSum(kernel, v, rows - 1, cols)
  }

  lemma {:induction false} ScaledRowSumFactor(kernel: Kernel, v: real, row: int, cols: nat)
    ensures ScaledRowSum(kernel, v, row, cols) == v * KernelRowSum(kernel, row, cols)
  {
    if cols > 0 {
      ScaledRowSumFactor(kernel, v, row, cols - 1);
    }
  }

  lemma {:induction false} ScaledSumFactor(kernel: Kernel, v: real, rows: nat, cols: nat)
    ensures ScaledSum(kernel, v, rows, cols) == v * KernelSum(kernel, rows, cols)
  {
    if rows > 0 {
      ScaledSumFactor(kernel, v, rows - 1, cols);
      ScaledRowSumFactor(kernel, v, rows - 1, cols);
    }
  }

  lemma {:induction false} ConvolveRowOfConstant(img: Image, v: int, x: int, y: int, r: int, kernel: Kernel, ky: int, kx: int)
    requires 0 <= r
    requires img.Valid() && 0 <= x < img.width && 0 <= y < img.height && IsConstant(img, v)
    requires -r <= kx <= r + 1
    ensures ConvolveRow(img, x, y, r, kernel, ky, kx) == ScaledRowSum(kernel, v as real, ky + r, kx + r)
    decreases kx + r
  {
    if kx > -r {
      ConvolveRowOfConstant(img, v, x, y, r, kernel, ky, kx - 1);
      assert Sample(img, x, y, kx - 1, ky) == v;
    }
  }

  lemma {:induction false} ConvolveRowsOfConstant(img: Image, v: int, x: int, y: int, r: int, kernel: Kernel, ky: int)
    requires 0 <= r
    requires img.Valid() && 0 <= x < img.width && 0 <= y < img.height && IsConstant(img, v)
    requires -r <= ky <= r + 1
    ensures ConvolveRows(img, x, y, r, kernel, ky) == ScaledSum(kernel, v as real, ky + r, 2 * r + 1)
    decreases ky + r
  {
    if ky > -r {
      ConvolveRowsOfConstant(img, v, x, y, r, kernel, ky - 1);
      ConvolveRowOfConstant(img, v, x, y, r, kernel, ky - 1, r + 1);
    }
  }

  /**
   * In exact arithmetic a kernel whose k*k entries sum to 1 (as
   * generateGaussianKernel normalises it) leaves a constant image unchanged.
   */
  lemma GaussianBlurKeepsConstant(img: Image, kernelSize: int, kernel: Kernel, v: int)
    requires img.Valid() && BlurKernelOk(kernelSize) && IsConstant(img, v)
    requires kernelSize > 1 ==> KernelSum(kernel, kernelSize, kernelSize) == 1.0
    ensures GaussianBlurred(img, kernelSize, kernel) == img
  {
    if kernelSize > 1 {
      var r := JavaHalf(kernelSize);
      OddKernelRadius(kernelSize);
      var out := GaussianBlurred(img, kernelSize, kernel);
      forall j | 0 <= j < |img.pixels|
        ensures out.pixels[j] == img.pixels[j]
      {
        IndexOfCoords(img, j);
        ConvolveRowsOfConstant(img, v, j % img.width, j / img.width, r, kernel, r + 1);
        ScaledSumFactor(kernel, v as real, 2 * r + 1, 2 * r + 1);
      }
    }
  }

  /** The inner kernel loop: adds row ky of the convolution around (x, y) to sum. */
  method ConvolveRowLoop(img: Image, x: int, y: int, radius: int, kernel: Kernel, ky: int, sum0: real)
    returns (sum: real)
    requires 0 <= radius
    requires img.Valid() && 0 <= x < img.width && 0 <= y < img.height
    ensures sum == sum0 + ConvolveRow(img, x, y, radius, kernel, ky, radius + 1)
  {
    sum := sum0;
    var kx := -radius;
    while kx <= radius
      invariant -radius <= kx <= radius + 1
      invariant sum == sum0 + ConvolveRow(img, x, y, radius, kernel, ky, kx)
    {
      var px := Clamp(x + kx, 0, img.width - 1);
      var py := Clamp(y + ky, 0, img.height - 1);
      var pixel := img.pixels[Index(img, px, py)];
      assert pixel == Sample(img, x, y, kx, ky);
      sum := sum + (pixel as real) * kernel(ky + radius, kx + radius);
      kx := kx + 1;
    }
  }

  /** The two kernel loops around (x, y), accumulating `sum` in the loops' order. */
  method Convolve(img: Image, x: int, y: int, radius: int, kernel: Kernel) returns (sum: real)
    requires 0 <= radius
    requires img.Valid() && 0 <= x < img.width && 0 <= y < img.height
    ensures sum == ConvolveRows(img, x, y, radius, kernel, radius + 1)
  {
    sum := 0.0;
    var ky := -radius;
    while ky <= radius
      invariant -radius <= ky <= radius + 1
      invariant sum == ConvolveRows(img, x, y, radius, kernel, ky)
    {
      sum := ConvolveRowLoop(img, x, y, radius, kernel, ky, sum);
      ky := ky + 1;
    }
  }

  /** ImageUtils.applyGaussianBlur, with the kernel supplied by the caller. */
  method ApplyGaussianBlur(img: Image, kernelSize: int, kernel: Kernel) returns (out: Image)
    requires img.Valid() && BlurKernelOk(kernelSize)
    ensures out == GaussianBlurred(img, kernelSize, kernel)
  {
    if kernelSize <= 1 {
      return img;
    }
    var w, h := img.width, img.height;
    var radius := JavaHalf(kernelSize);
    var outputPixels := new int[w * h];
    var y, i := 0, 0;
    while y < h
      invariant 0 <= y <= h && i == y * w && i <= w * h
      invariant forall j :: 0 <= j < i ==> outputPixels[j] == GaussianAt(img, radius, kernel, j)
    {
      RowMajorEnd(y, w, h);
      var x := 0;
      while x < w
        invariant 0 <= x <= w && i == y * w + x && y * w + w <= w * h
        invariant forall j :: 0 <= j < i ==> outputPixels[j] == GaussianAt(img, radius, kernel, j)
      {
        var sum := Convolve(img, x, y, radius, kernel);
        GaussianIndex(img, radius, kernel, x, y);
        outputPixels[i] := Clamp(Truncate(sum), 0, 255);
        x, i := x + 1, i + 1;
      }
      y := y + 1;
    }
    var spec := GaussianBlurred(img, kernelSize, kernel);
    assert i == |spec.pixels|;
    assert forall j :: 0 <= j < i ==> outputPixels[j] == spec.pixels[j];
    out := Image(w, h, outputPixels[..]);
  }

  lemma GaussianIndex(img: Image, r: int, kernel: Kernel, x: int, y: int)
    requires 0 <= r
    requires img.Valid() && 0 <= x < img.width && 0 <= y < img.height
    ensures 0 <= y * img.width + x < |img.pixels|
    ensures GaussianAt(img, r, kernel, y * img.width + x)
         == Clamp(Truncate(ConvolveRows(img, x, y, r, kernel, r + 1)), 0, 255)
  {
    RowMajor(x, y, img.width, img.height);
  }

  // =====================================================================
  // Output format

  /**
   * getFormatFromPath: the lower-cased text after the last '.', provided
   * that dot is neither the first nor the last character; otherwise "png".
   */
  function FormatFromPath(path: string): (r: string)
    ensures r == "png" || exists k :: 0 < k < |path| - 1 && path[k] == '.' && '.' !in path[k + 1..]
                                      && r == ToLower(path[k + 1..])
  {
    var dot := LastIndexOfChar(path, '.');
    if dot > 0 && dot < |path| - 1 then
      var ext := path[dot + 1..];
      assert forall i :: 0 <= i < |ext| ==> ext[i] == path[dot + 1 + i];
      ToLower(ext)
    else "png"
  }

  /** A non-empty stem, a dot and a dot-free non-empty extension give the lower-cased extension. */
  lemma FormatIsLowerExtension(stem: string, ext: string)
    requires |stem| > 0 && |ext| > 0 && '.' !in ext
    ensures FormatFromPath(stem + "." + ext) == ToLower(ext)
  {
    var path := stem + "." + ext;
    var dot := LastIndexOfChar(path, '.');
    assert path[|stem|] == '.';
    assert dot == |stem|;
    assert path[dot + 1..] == ext;
  }

  /** A path without a dot, or ending in one, or whose only dot is its first char, is saved as PNG. */
  lemma FormatDefaultsToPng(path: string)
    requires '.' !in path || (|path| > 0 && (path[|path| - 1] == '.' || (path[0] == '.' && '.' !in path[1..])))
    ensures FormatFromPath(path) == "png"
  {
  }
}
