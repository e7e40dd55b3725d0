/**
 * 8-bit single-channel images as the image code sees them after
 * `getPixels`: a width, a height and row-major samples, each an unsigned
 * byte (`b & 0xFF`). Neighbourhood reads replicate the border by clamping
 * both coordinates into the image.
 */
module Raster {

  datatype Image = Image(width: nat, height: nat, pixels: seq<int>)
  {
    predicate Valid()
    {
      |pixels| == width * height && IsByteSamples(pixels)
    }
  }

  predicate IsByteSamples(s: seq<int>)
  {
    forall i :: 0 <= i < |s| ==> 0 <= s[i] <= 255
  }

  /** Only black (0) and white (255) samples. */
  predicate IsBinary(s: seq<int>)
  {
    forall i :: 0 <= i < |s| ==> s[i] == 0 || s[i] == 255
  }

  /** The morphology operators count a sample as white from 128 up. */
  predicate IsWhite(v: int)
  {
    v >= 128
  }

  /** ImageUtils.clamp: Math.max(min, Math.min(max, value)). */
  function Clamp(value: int, min: int, max: int): (r: int)
    ensures min <= max ==> min <= r <= max
    ensures min <= value <= max ==> r == value
    ensures value < min ==> r == min
    ensures min <= max < value ==> r == max
  {
    if max < value then (if min < max then max else min)
    else if min < value then value
    else min
  }

  /** The row-major position of (x, y) lies inside the sample sequence and decodes back. */
  lemma RowMajor(x: int, y: int, w: int, h: int)
    requires 0 <= x < w && 0 <= y < h
    ensures 0 <= y * w + x < w * h
    ensures (y * w + x) / w == y && (y * w + x) % w == x
  {
    assert y * w <= (h - 1) * w by {
      assert (h - 1) * w - y * w == (h - 1 - y) * w;
    }
    assert 0 <= y * w;
    LemmaDivModUnique(y * w + x, w, y, x);
  }

  lemma LemmaDivModUnique(n: int, w: int, q: int, r: int)
    requires 0 <= r < w && n == q * w + r
    ensures n / w == q && n % w == r
  {
    var q', r' := n / w, n % w;
    MulDistinct(q, q', w);
    assert q * w + r == q' * w + r';
    if q != q' {
      MulSeparation(q, q', w);
    }
  }

  lemma MulDistinct(a: int, b: int, w: int)
    ensures a * w - b * w == (a - b) * w
  {
  }

  /** Two distinct multiples of w are at least w apart. */
  lemma MulSeparation(a: int, b: int, w: int)
    requires a != b && w > 0
    ensures a * w - b * w >= w || b * w - a * w >= w
  {
    MulDistinct(a, b, w);
    MulDistinct(b, a, w);
    if a > b {
      MulAtLeastOne(a - b, w);
    } else {
      MulAtLeastOne(b - a, w);
    }
  }

  lemma MulAtLeastOne(d: int, w: int)
    requires d >= 1 && w > 0
    ensures d * w >= w
  {
    assert d * w == (d - 1) * w + w;
    MulNonNegative(d - 1, w);
  }

  lemma MulNonNegative(a: int, b: int)
    requires a >= 0 && b >= 0
    ensures a * b >= 0
  {
  }

  /** Every position of a w-by-h row-major sequence decodes to a column below w and a row below h. */
  lemma Coords(j: int, w: int, h: int)
    requires 0 <= h && 0 <= j < w * h
    ensures w > 0 && 0 <= j % w < w && 0 <= j / w < h
    ensures j == (j / w) * w + j % w
  {
    if w <= 0 {
      MulNonNegative(-w, h);
    }
    if j / w >= h {
      MulDistinct(j / w, h, w);
      MulNonNegative(j / w - h, w);
    }
  }

  /** Position of (x, y) in the samples of img. */
  function Index(img: Image, x: int, y: int): (i: nat)
    requires img.Valid() && 0 <= x < img.width && 0 <= y < img.height
    ensures i < |img.pixels|
  {
    RowMajor(x, y, img.width, img.height);
    y * img.width + x
  }

  function At(img: Image, x: int, y: int): (v: int)
    requires img.Valid() && 0 <= x < img.width && 0 <= y < img.height
    ensures 0 <= v <= 255
  {
    img.pixels[Index(img, x, y)]
  }

  /**
   * The sample the neighbourhood loops read for offset (kx, ky) around
   * (x, y): `inputPixels[py * width + px] & 0xFF` with px, py clamped.
   * The clamps keep the index inside 0 .. w*h-1.
   */
  function Sample(img: Image, x: int, y: int, kx: int, ky: int): (v: int)
    requires img.Valid() && 0 <= x < img.width && 0 <= y < img.height
    ensures 0 <= v <= 255
    ensures v == At(img, Clamp(x + kx, 0, img.width - 1), Clamp(y + ky, 0, img.height - 1))
  {
    At(img, Clamp(x + kx, 0, img.width - 1), Clamp(y + ky, 0, img.height - 1))
  }

  lemma SampleCentre(img: Image, x: int, y: int)
    requires img.Valid() && 0 <= x < img.width && 0 <= y < img.height
    ensures Sample(img, x, y, 0, 0) == At(img, x, y)
  {
  }

  /**
   * Border replication is symmetric enough for morphology: whatever clamped
   * neighbour q an offset k within radius r reaches from p, some offset
   * within radius r leads from q back to p.
   */
  lemma ClampReachBack(p: int, k: int, r: int, n: int) returns (j: int)
    requires 0 <= p < n && -r <= k <= r
    ensures -r <= j <= r
    ensures Clamp(Clamp(p + k, 0, n - 1) + j, 0, n - 1) == p
  {
    var q := Clamp(p + k, 0, n - 1);
    j := p - q;
  }

  /** Positions of an image read back as (x, y) pairs. */
  lemma IndexOfCoords(img: Image, j: int)
    requires img.Valid() && 0 <= j < |img.pixels|
    ensures img.width > 0 && 0 <= j % img.width < img.width && 0 <= j / img.width < img.height
    ensures Index(img, j % img.width, j / img.width) == j
  {
    Coords(j, img.width, img.height);
  }

  /** After a full row the index has advanced by one width, and after the last row every sample has been written. */
  lemma RowMajorEnd(y: int, w: int, h: int)
    requires 0 <= y < h && 0 <= w
    ensures (y + 1) * w == y * w + w
    ensures (y + 1) * w <= w * h
    ensures y + 1 == h ==> (y + 1) * w == w * h
  {
    MulNonNegative(h - y - 1, w);
    assert w * h - (y + 1) * w == (h - y - 1) * w;
  }
}
