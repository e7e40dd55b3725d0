/**
 * Otsu's method as OtsuBinarizer.calculateOtsuThreshold computes it: a
 * 256-bin histogram, then for each t the weight and intensity sum of the
 * background class 0 .. t, and the first t whose between-class variance is
 * the largest strictly positive one (0 when none is positive).
 *
 * Doubles are modelled as exact reals. The int products `i * histogram[i]`
 * and `wB * wF` wrap at 32 bits as in Java; for `wB * wF` that already
 * happens once both classes hold 65536 samples.
 */
module Otsu {
  import opened JavaLang
  import opened Raster
  import Threshold

  // ---------------------------------------------------------------------
  // Histogram.

  /** Number of samples equal to v. */
  function Count(s: seq<int>, v: int): (n: nat)
    ensures n <= |s|
  {
    if |s| == 0 then 0
    else Count(s[..|s| - 1], v) + (if s[|s| - 1] == v then 1 else 0)
  }

  /** The 256 bins `histogram[pixel & 0xFF]++` fills. */
  function Histogram(s: seq<int>): (h: seq<int>)
    ensures |h| == 256
    ensures forall v :: 0 <= v < 256 ==> 0 <= h[v] <= |s|
  {
    seq(256, v requires 0 <= v < 256 => Count(s, v))
  }

  /** Appending one sample adds one to its bin and changes no other bin. */
  lemma HistogramAppend(s: seq<int>, p: int)
    requires 0 <= p < 256
    ensures Histogram(s + [p]) == Histogram(s)[p := Histogram(s)[p] + 1]
  {
    assert (s + [p])[..|s|] == s;
  }

  lemma {:induction false} CountAbsent(s: seq<int>, v: int)
    requires v !in s
    ensures Count(s, v) == 0
  {
    if |s| > 0 {
      assert s == s[..|s| - 1] + [s[|s| - 1]];
      CountAbsent(s[..|s| - 1], v);
    }
  }

  lemma {:induction false} CountPresent(s: seq<int>, v: int)
    requires v in s
    ensures Count(s, v) > 0
  {
    if s[|s| - 1] != v {
      assert s == s[..|s| - 1] + [s[|s| - 1]];
      CountPresent(s[..|s| - 1], v);
    }
  }

  /** Number of samples below n. */
  function Below(s: seq<int>, n: int): (c: nat)
    ensures c <= |s|
  {
    if |s| == 0 then 0
    else Below(s[..|s| - 1], n) + (if s[|s| - 1] < n then 1 else 0)
  }

  lemma {:induction false} BelowStep(s: seq<int>, n: int)
    ensures Below(s, n + 1) == Below(s, n) + Count(s, n)
  {
    if |s| > 0 {
      BelowStep(s[..|s| - 1], n);
    }
  }

  lemma {:induction false} BelowBounds(s: seq<int>)
    requires IsByteSamples(s)
    ensures Below(s, 0) == 0 && Below(s, 256) == |s|
  {
    if |s| > 0 {
      BelowBounds(s[..|s| - 1]);
    }
  }

  /** Sum of the first n entries of h: the background weight wB once bin n-1 is added. */
  function Weight(h: seq<int>, n: int): int
    requires 0 <= n <= |h|
  {
    if n == 0 then 0 else Weight(h, n - 1) + h[n - 1]
  }

  /** Sum over the first n bins of `i * histogram[i]`, each product wrapped to 32 bits. */
  function WeightedSum(h: seq<int>, n: int): int
    requires 0 <= n <= |h|
  {
    if n == 0 then 0 else WeightedSum(h, n - 1) + Wrap32((n - 1) * h[n - 1])
  }

  lemma {:induction false} WeightOfHistogram(s: seq<int>, n: int)
    requires IsByteSamples(s) && 0 <= n <= 256
    ensures Weight(Histogram(s), n) == Below(s, n)
  {
    if n == 0 {
      BelowBounds(s);
    } else {
      WeightOfHistogram(s, n - 1);
      BelowStep(s, n - 1);
    }
  }

  /** The bins of the histogram of a byte image add up to its number of samples. */
  lemma HistogramTotal(s: seq<int>)
    requires IsByteSamples(s)
    ensures Weight(Histogram(s), 256) == |s|
  {
    WeightOfHistogram(s, 256);
    BelowBounds(s);
  }

  predicate NonNegative(h: seq<int>)
  {
    forall i :: 0 <= i < |h| ==> h[i] >= 0
  }

  lemma {:induction false} WeightMonotone(h: seq<int>, m: int, n: int)
    requires NonNegative(h) && 0 <= m <= n <= |h|
    ensures 0 <= Weight(h, m) <= Weight(h, n)
    decreases n, m
  {
    if n > m {
      WeightMonotone(h, m, n - 1);
    } else if m > 0 {
      WeightMonotone(h, 0, m);
    }
  }

  // ---------------------------------------------------------------------
  // Between-class variance and the threshold it selects.

  /** `wB * wF * (mB - mF) * (mB - mF)` with the given value for the product wB * wF. */
  function BetweenClassVariance(weightProduct: int, wB: int, wF: int, sumB: real, sum: real): real
    requires wB > 0 && wF > 0
  {
    var mB := sumB / (wB as real);
    var mF := (sum - sumB) / (wF as real);
    (weightProduct as real) * (mB - mF) * (mB - mF)
  }

  lemma NonNegativeTimesSquare(a: real, d: real)
    requires a >= 0.0
    ensures a * d * d >= 0.0
  {
    assert a * d * d == a * (d * d);
  }

  /** t splits the samples into two non-empty classes 0 .. t and t+1 .. 255. */
  predicate IsCandidate(h: seq<int>, total: int, t: int)
    requires |h| == 256 && 0 <= t < 256
  {
    0 < Weight(h, t + 1) < total
  }

  /** The between-class variance of split t in exact arithmetic: never negative. */
  function ExactVariance(h: seq<int>, total: int, t: int): (v: real)
    requires |h| == 256 && 0 <= t < 256 && IsCandidate(h, total, t)
    ensures v >= 0.0
  {
    var wB := Weight(h, t + 1);
    var wF := total - wB;
    var d := WeightedSum(h, t + 1) as real / (wB as real) - (WeightedSum(h, 256) as real - WeightedSum(h, t + 1) as real) / (wF as real);
    MulNonNegative(wB, wF);
    NonNegativeTimesSquare((wB * wF) as real, d);
    BetweenClassVariance(wB * wF, wB, wF, WeightedSum(h, t + 1) as real, WeightedSum(h, 256) as real)
  }

  /**
   * The between-class variance of split t as calculateOtsuThreshold
   * computes it: `wB * wF` is an int product and wraps before it is widened
   * to double. It is the exact variance whenever that product fits in an int.
   */
  function Variance(h: seq<int>, total: int, t: int): (v: real)
    requires |h| == 256 && 0 <= t < 256 && IsCandidate(h, total, t)
    ensures InIntRange(Weight(h, t + 1) * (total - Weight(h, t + 1))) ==> v == ExactVariance(h, total, t)
  {
    var wB := Weight(h, t + 1);
    var wF := total - wB;
    BetweenClassVariance(Wrap32(wB * wF), wB, wF, WeightedSum(h, t + 1) as real, WeightedSum(h, 256) as real)
  }

  function Candidates(h: seq<int>, total: int): (c: seq<bool>)
    requires |h| == 256
    ensures |c| == 256
  {
    seq(256, t requires 0 <= t < 256 => IsCandidate(h, total, t))
  }

  /** The variance of each split; a split that is not a candidate scores 0. */
  function Scores(h: seq<int>, total: int): (r: seq<real>)
    requires |h| == 256
    ensures |r| == 256
  {
    seq(256, t requires 0 <= t < 256 => if IsCandidate(h, total, t) then Variance(h, total, t) else 0.0)
  }

  function ExactScores(h: seq<int>, total: int): (r: seq<real>)
    requires |h| == 256
    ensures |r| == 256
  {
    seq(256, t requires 0 <= t < 256 => if IsCandidate(h, total, t) then ExactVariance(h, total, t) else 0.0)
  }

  /**
   * Where a scan that keeps the first strictly larger score, starting from
   * threshold 0 and best score 0, settles: 0 when no candidate scores above
   * 0, otherwise the first candidate with the highest score.
   */
  predicate IsFirstArgMax(cand: seq<bool>, score: seq<real>, T: int)
    requires |cand| == |score|
  {
    if forall t :: 0 <= t < |cand| && cand[t] ==> score[t] <= 0.0 then T == 0
    else
      0 <= T < |cand| && cand[T] &&
      (forall t :: 0 <= t < |cand| && cand[t] ==> score[t] <= score[T]) &&
      (forall t :: 0 <= t < T && cand[t] ==> score[t] < score[T])
  }

  /** The threshold calculateOtsuThreshold returns for histogram h of `total` samples. */
  predicate IsOtsuThreshold(h: seq<int>, total: int, T: int)
    requires |h| == 256
  {
    IsFirstArgMax(Candidates(h, total), Scores(h, total), T)
  }

  /** The selection rule determines the threshold: there is exactly one. */
  lemma FirstArgMaxUnique(cand: seq<bool>, score: seq<real>, T1: int, T2: int)
    requires |cand| == |score|
    requires IsFirstArgMax(cand, score, T1) && IsFirstArgMax(cand, score, T2)
    ensures T1 == T2
  {
  }

  /** When some candidate scores above 0, the threshold is a candidate with a positive score. */
  lemma FirstArgMaxPositive(cand: seq<bool>, score: seq<real>, T: int, t: int)
    requires |cand| == |score| && IsFirstArgMax(cand, score, T)
    requires 0 <= t < |cand| && cand[t] && score[t] > 0.0
    ensures 0 <= T < |cand| && cand[T] && score[T] >= score[t]
  {
  }

  /** When no candidate scores above 0, the threshold is 0. */
  lemma FirstArgMaxNone(cand: seq<bool>, score: seq<real>, T: int)
    requires |cand| == |score| && IsFirstArgMax(cand, score, T)
    requires forall t :: 0 <= t < |cand| && cand[t] ==> score[t] <= 0.0
    ensures T == 0
  {
  }

  /** Every candidate before the threshold scores strictly lower. */
  lemma FirstArgMaxStrict(cand: seq<bool>, score: seq<real>, T: int, t: int)
    requires |cand| == |score| && IsFirstArgMax(cand, score, T)
    requires 0 <= t < T && cand[t]
    ensures score[t] < score[T]
  {
  }

  /** The Otsu threshold is a byte value, and a split with two non-empty classes unless it is 0. */
  lemma OtsuThresholdRange(h: seq<int>, total: int, T: int)
    requires |h| == 256 && IsOtsuThreshold(h, total, T)
    ensures 0 <= T < 256
    ensures T != 0 ==> IsCandidate(h, total, T) && Variance(h, total, T) > 0.0
  {
    var cand, score := Candidates(h, total), Scores(h, total);
    if !(forall t :: 0 <= t < 256 && cand[t] ==> score[t] <= 0.0) {
      var t :| 0 <= t < 256 && cand[t] && score[t] > 0.0;
      assert score[t] <= score[T];
    }
  }

  // ---------------------------------------------------------------------
  // calculateOtsuThreshold.

  /**
   * OtsuBinarizer.calculateOtsuThreshold: the histogram, the total
   * intensity, then the scan over t.
   */
  method CalculateOtsuThreshold(img: Image) returns (threshold: int)
    requires img.Valid() && |img.pixels| <= INT_MAX
    ensures IsOtsuThreshold(Histogram(img.pixels), |img.pixels|, threshold)
  {
    var pixels := img.pixels;
    var histogram := new int[256](_ => 0);
    assert histogram[..] == Histogram(pixels[..0]);
    var i := 0;
    while i < |pixels|
      invariant 0 <= i <= |pixels|
      invariant histogram[..] == Histogram(pixels[..i])
    {
      HistogramAppend(pixels[..i], pixels[i]);
      assert pixels[..i + 1] == pixels[..i] + [pixels[i]];
      histogram[pixels[i]] := histogram[pixels[i]] + 1;
      i := i + 1;
    }
    assert pixels[..i] == pixels;
    ghost var h := Histogram(pixels);
    HistogramTotal(pixels);
    var total := |pixels|;

    var sum: real := 0.0;
    var b := 0;
    while b < 256
      invariant 0 <= b <= 256
      invariant sum == WeightedSum(h, b) as real
    {
      sum := sum + (Wrap32(b * histogram[b]) as real);
      b := b + 1;
    }

    threshold := ScanThresholds(histogram, h, total, sum);
  }

  /** Once the background holds every sample, no later split is a candidate. */
  lemma NoCandidateAfterFull(h: seq<int>, total: int, t: int)
    requires |h| == 256 && NonNegative(h) && 0 <= t < 256 && Weight(h, t + 1) == total
    ensures forall c :: t <= c < 256 ==> !Candidates(h, total)[c]
  {
    forall c | t <= c < 256
      ensures !Candidates(h, total)[c]
    {
      WeightMonotone(h, t + 1, c + 1);
    }
  }

  /** The class means and `wB * wF * (mB - mF) * (mB - mF)`, the weight product taken in int. */
  method SplitVariance(wB: int, wF: int, sumB: real, sum: real) returns (variance: real)
    requires wB > 0 && wF > 0
    ensures variance == BetweenClassVariance(Wrap32(wB * wF), wB, wF, sumB, sum)
  {
    var mB := sumB / (wB as real);
    var mF := (sum - sumB) / (wF as real);
    var weightProduct := Wrap32(wB * wF);
    variance := (weightProduct as real) * (mB - mF) * (mB - mF);
  }

  /** The score of a split with two non-empty classes, from its running weight and sum. */
  lemma ScoreOfSplit(h: seq<int>, total: int, t: int, wB: int, sumB: real, sum: real)
    requires |h| == 256 && 0 <= t < 256
    requires wB == Weight(h, t + 1) && 0 < wB < total
    requires sumB == WeightedSum(h, t + 1) as real && sum == WeightedSum(h, 256) as real
    ensures Candidates(h, total)[t]
    ensures Scores(h, total)[t] == BetweenClassVariance(Wrap32(wB * (total - wB)), wB, total - wB, sumB, sum)
  {
    assert IsCandidate(h, total, t);
  }

  /** A scan that saw every candidate and kept the first best one found the Otsu threshold. */
  lemma ScanResult(h: seq<int>, total: int, threshold: int, maxVariance: real)
    requires |h| == 256
    requires 0.0 <= maxVariance
    requires forall c :: 0 <= c < 256 && Candidates(h, total)[c] ==> Scores(h, total)[c] <= maxVariance
    requires maxVariance == 0.0 ==> threshold == 0
    requires maxVariance > 0.0 ==> 0 <= threshold < 256 && Candidates(h, total)[threshold] && Scores(h, total)[threshold] == maxVariance
    requires maxVariance > 0.0 ==> forall c :: 0 <= c < threshold && Candidates(h, total)[c] ==> Scores(h, total)[c] < maxVariance
    ensures IsOtsuThreshold(h, total, threshold)
  {
  }

  /**
   * The scan over t of calculateOtsuThreshold: splits with an empty
   * background are skipped, the scan stops at the first split with an empty
   * foreground, and only a strictly larger variance replaces the best.
   */
  method ScanThresholds(histogram: array<int>, ghost h: seq<int>, total: int, sum: real)
    returns (threshold: int)
    requires histogram[..] == h && |h| == 256 && NonNegative(h) && Weight(h, 256) == total
    requires sum == WeightedSum(h, 256) as real
    ensures IsOtsuThreshold(h, total, threshold)
  {
    ghost var cand, score := Candidates(h, total), Scores(h, total);
    var sumB: real := 0.0;
    var wB := 0;
    var maxVariance: real := 0.0;
    threshold := 0;
    var t := 0;
    while t < 256
      invariant 0 <= t <= 256
      invariant wB == Weight(h, t) && sumB == WeightedSum(h, t) as real
      invariant 0.0 <= maxVariance
      invariant forall c :: 0 <= c < t && cand[c] ==> score[c] <= maxVariance
      invariant maxVariance == 0.0 ==> threshold == 0
      invariant maxVariance > 0.0 ==> 0 <= threshold < t && cand[threshold] && score[threshold] == maxVariance
      invariant maxVariance > 0.0 ==> forall c :: 0 <= c < threshold && cand[c] ==> score[c] < maxVariance
    {
      wB := wB + histogram[t];
      WeightMonotone(h, t, t + 1);
      if wB != 0 {
        var wF := total - wB;
        if wF == 0 {
          NoCandidateAfterFull(h, total, t);
          break;
        }
        WeightMonotone(h, t + 1, 256);
        sumB := sumB + (Wrap32(t * histogram[t]) as real);
        var variance := SplitVariance(wB, wF, sumB, sum);
        ScoreOfSplit(h, total, t, wB, sumB, sum);
        if variance > maxVariance {
          maxVariance := variance;
          threshold := t;
        }
      }
      t := t + 1;
    }
    ScanResult(h, total, threshold, maxVariance);
  }

  // ---------------------------------------------------------------------
  // What the threshold is, and what applying it with `pixel >= threshold` gives.

  /** A split whose own bin is empty sees the same two classes as the split before it. */
  lemma EmptyBinSameSplit(h: seq<int>, total: int, t: int)
    requires |h| == 256 && 0 < t < 256 && h[t] == 0 && IsCandidate(h, total, t)
    ensures IsCandidate(h, total, t - 1)
    ensures Scores(h, total)[t - 1] == Scores(h, total)[t]
  {
    assert Wrap32(t * h[t]) == 0;
  }

  /**
   * When some split has a positive variance, the threshold is a grey level
   * that occurs in the image: a split at an empty bin ties with the split
   * before it and loses the tie.
   */
  lemma OtsuWinnerOccurs(h: seq<int>, total: int, T: int)
    requires |h| == 256 && NonNegative(h) && IsOtsuThreshold(h, total, T)
    ensures T == 0 || h[T] > 0
    ensures (exists t :: 0 <= t < 256 && Candidates(h, total)[t] && Scores(h, total)[t] > 0.0) ==> h[T] > 0
  {
    var cand, score := Candidates(h, total), Scores(h, total);
    if exists t :: 0 <= t < 256 && cand[t] && score[t] > 0.0 {
      var t :| 0 <= t < 256 && cand[t] && score[t] > 0.0;
      FirstArgMaxPositive(cand, score, T, t);
      if T == 0 {
        assert Weight(h, 1) == h[0];
      } else if h[T] == 0 {
        EmptyBinSameSplit(h, total, T);
        FirstArgMaxStrict(cand, score, T, T - 1);
      }
    } else {
      FirstArgMaxNone(cand, score, T);
    }
  }

  /** A grey level with a non-empty bin occurs among the samples. */
  lemma OccursOfCount(s: seq<int>, v: int) returns (i: int)
    requires Count(s, v) > 0
    ensures 0 <= i < |s| && s[i] == v
  {
    if v !in s {
      CountAbsent(s, v);
    }
    i :| 0 <= i < |s| && s[i] == v;
  }

  /**
   * Applied with `pixel >= threshold`, the Otsu threshold leaves at least
   * one white sample in every non-empty image: either it is 0, or it is a
   * grey level of the image.
   */
  lemma OtsuHasWhite(img: Image, T: int)
    requires img.Valid() && |img.pixels| > 0
    requires IsOtsuThreshold(Histogram(img.pixels), |img.pixels|, T)
    ensures exists i :: 0 <= i < |img.pixels| && Threshold.Thresholded(img, T).pixels[i] == 255
  {
    var h := Histogram(img.pixels);
    OtsuWinnerOccurs(h, |img.pixels|, T);
    OtsuThresholdRange(h, |img.pixels|, T);
    if T == 0 {
      assert Threshold.Thresholded(img, T).pixels[0] == 255;
    } else {
      var i := OccursOfCount(img.pixels, T);
      assert Threshold.Thresholded(img, T).pixels[i] == 255;
    }
  }

  lemma {:induction false} BelowUniform(s: seq<int>, v: int, n: int)
    requires forall i :: 0 <= i < |s| ==> s[i] == v
    ensures Below(s, n) == if v < n then |s| else 0
  {
    if |s| > 0 {
      BelowUniform(s[..|s| - 1], v, n);
    }
  }

  /**
   * A uniform image has no split with two non-empty classes, so the
   * threshold stays 0 and every sample turns white.
   */
  lemma OtsuUniform(img: Image, v: int)
    requires img.Valid() && forall i :: 0 <= i < |img.pixels| ==> img.pixels[i] == v
    ensures IsOtsuThreshold(Histogram(img.pixels), |img.pixels|, 0)
    ensures forall i :: 0 <= i < |img.pixels| ==> Threshold.Thresholded(img, 0).pixels[i] == 255
  {
    var s := img.pixels;
    forall t | 0 <= t < 256
      ensures !Candidates(Histogram(s), |s|)[t]
    {
      WeightOfHistogram(s, t + 1);
      BelowUniform(s, v, t + 1);
    }
  }

  // ---------------------------------------------------------------------
  // Images with exactly two grey levels.

  /** Only bins a and b are occupied, both of them. */
  predicate IsTwoLevel(h: seq<int>, a: int, b: int)
  {
    |h| == 256 && 0 <= a < b < 256 && h[a] > 0 && h[b] > 0 &&
    forall v :: 0 <= v < 256 && v != a && v != b ==> h[v] == 0
  }

  lemma {:induction false} TwoLevelWeight(h: seq<int>, a: int, b: int, n: int)
    requires IsTwoLevel(h, a, b) && 0 <= n <= 256
    ensures Weight(h, n) == if n <= a then 0 else if n <= b then h[a] else h[a] + h[b]
    ensures WeightedSum(h, n) ==
      if n <= a then 0 else if n <= b then Wrap32(a * h[a]) else Wrap32(a * h[a]) + Wrap32(b * h[b])
  {
    if n > 0 {
      TwoLevelWeight(h, a, b, n - 1);
    }
  }

  /** The candidates of a two-level histogram are exactly the splits a .. b-1. */
  lemma TwoLevelCandidates(h: seq<int>, a: int, b: int, t: int)
    requires IsTwoLevel(h, a, b) && 0 <= t < 256
    ensures IsCandidate(h, h[a] + h[b], t) <==> a <= t < b
  {
    TwoLevelWeight(h, a, b, t + 1);
  }

  /** All candidates of a two-level histogram see the same two classes, so they score the same. */
  lemma TwoLevelSameSplit(h: seq<int>, a: int, b: int, t: int)
    requires IsTwoLevel(h, a, b) && a <= t < b
    ensures IsCandidate(h, h[a] + h[b], t) && IsCandidate(h, h[a] + h[b], a)
    ensures Variance(h, h[a] + h[b], t) == Variance(h, h[a] + h[b], a)
    ensures ExactVariance(h, h[a] + h[b], t) == ExactVariance(h, h[a] + h[b], a)
  {
    TwoLevelWeight(h, a, b, t + 1);
    TwoLevelWeight(h, a, b, a + 1);
  }

  /** The histogram of an image holding exactly the levels a < b is two-level, and its two bins hold every sample. */
  lemma TwoLevelHistogramOfImage(s: seq<int>, a: int, b: int)
    requires IsByteSamples(s) && 0 <= a < b <= 255 && a in s && b in s
    requires forall i :: 0 <= i < |s| ==> s[i] == a || s[i] == b
    ensures IsTwoLevel(Histogram(s), a, b)
    ensures Histogram(s)[a] + Histogram(s)[b] == |s|
  {
    var h := Histogram(s);
    CountPresent(s, a);
    CountPresent(s, b);
    forall v | 0 <= v < 256 && v != a && v != b
      ensures h[v] == 0
    {
      CountAbsent(s, v);
    }
    HistogramTotal(s);
    TwoLevelWeight(h, a, b, 256);
  }

  /** On a two-level histogram the threshold is at most the darker level a. */
  lemma TwoLevelThresholdAtMostLow(h: seq<int>, a: int, b: int, T: int)
    requires IsTwoLevel(h, a, b) && IsOtsuThreshold(h, h[a] + h[b], T)
    ensures 0 <= T <= a
  {
    var total := h[a] + h[b];
    var cand, score := Candidates(h, total), Scores(h, total);
    OtsuThresholdRange(h, total, T);
    if T > a {
      TwoLevelCandidates(h, a, b, T);
      TwoLevelSameSplit(h, a, b, T);
      assert cand[a] && score[a] == score[T];
      FirstArgMaxStrict(cand, score, T, a);
    }
  }

  /**
   * An image with exactly two grey levels comes out entirely white: the
   * threshold is at most the darker level, and applyThreshold whitens every
   * sample at or above it.
   */
  lemma OtsuTwoLevelAllWhite(img: Image, a: int, b: int, T: int)
    requires img.Valid() && 0 <= a < b <= 255 && a in img.pixels && b in img.pixels
    requires forall i :: 0 <= i < |img.pixels| ==> img.pixels[i] == a || img.pixels[i] == b
    requires IsOtsuThreshold(Histogram(img.pixels), |img.pixels|, T)
    ensures forall i :: 0 <= i < |img.pixels| ==> Threshold.Thresholded(img, T).pixels[i] == 255
  {
    TwoLevelHistogramOfImage(img.pixels, a, b);
    TwoLevelThresholdAtMostLow(Histogram(img.pixels), a, b, T);
  }

  lemma MeanOfOneLevel(v: int, c: int)
    requires c > 0
    ensures ((v * c) as real) / (c as real) == v as real
  {
    assert (v * c) as real == (v as real) * (c as real);
  }

  lemma PositiveTimesSquare(p: real, d: real)
    requires p > 0.0 && d != 0.0
    ensures p * d * d > 0.0
  {
    assert p * d * d == p * (d * d);
  }

  /** Two classes holding the single levels a and b, with a != b, are a positive distance apart. */
  lemma TwoMeansVariance(wB: int, wF: int, a: int, b: int, sumB: real, sum: real)
    requires wB > 0 && wF > 0 && a != b
    requires sumB == (a * wB) as real && sum - sumB == (b * wF) as real
    ensures BetweenClassVariance(wB * wF, wB, wF, sumB, sum) > 0.0
  {
    MeanOfOneLevel(a, wB);
    MeanOfOneLevel(b, wF);
    MulAtLeastOne(wB, wF);
    PositiveTimesSquare((wB * wF) as real, (a as real) - (b as real));
  }

  /** With no wrap-around in the intensity sums, the split at a has a positive exact variance. */
  lemma TwoLevelVariancePositive(h: seq<int>, a: int, b: int)
    requires IsTwoLevel(h, a, b)
    requires InIntRange(a * h[a]) && InIntRange(b * h[b])
    ensures IsCandidate(h, h[a] + h[b], a) && ExactVariance(h, h[a] + h[b], a) > 0.0
  {
    TwoLevelWeight(h, a, b, a + 1);
    TwoLevelWeight(h, a, b, 256);
    var wB, wF := h[a], h[b];
    var sumB, sum := a * h[a], a * h[a] + b * h[b];
    assert Weight(h, a + 1) == wB && WeightedSum(h, a + 1) == sumB && WeightedSum(h, 256) == sum;
    TwoMeansVariance(wB, wF, a, b, sumB as real, sum as real);
  }

  /**
   * Selecting by exact variance, a two-level histogram (levels a < b, no
   * wrap-around in the intensity sums) gets threshold a: every split
   * a .. b-1 scores the same, positively, and the first one is kept.
   */
  lemma ExactTwoLevelThreshold(h: seq<int>, a: int, b: int)
    requires IsTwoLevel(h, a, b)
    requires InIntRange(a * h[a]) && InIntRange(b * h[b])
    ensures IsFirstArgMax(Candidates(h, h[a] + h[b]), ExactScores(h, h[a] + h[b]), a)
  {
    var total := h[a] + h[b];
    var cand, score := Candidates(h, total), ExactScores(h, total);
    TwoLevelVariancePositive(h, a, b);
    forall t | 0 <= t < 256
      ensures cand[t] <==> a <= t < b
      ensures cand[t] ==> score[t] == score[a]
    {
      TwoLevelCandidates(h, a, b, t);
      if a <= t < b {
        TwoLevelSameSplit(h, a, b, t);
      }
    }
    assert cand[a] && score[a] > 0.0;
  }

  lemma ByteProductFits(v: int, c: int, n: int)
    requires 0 <= v <= 255 && 0 <= c <= n && 255 * n <= INT_MAX
    ensures InIntRange(v * c)
  {
    MulNonNegative(v, c);
    MulNonNegative(255 - v, c);
    MulNonNegative(255, n - c);
  }

  lemma SmallProductFits(x: int, y: int, n: int)
    requires 0 <= x <= n && 0 <= y <= n && n <= 46340
    ensures InIntRange(x * y)
  {
    MulNonNegative(x, y);
    MulNonNegative(n - x, y);
    MulNonNegative(n, n - y);
  }

  /**
   * An image holding exactly the levels a < b with at most 46340 samples
   * (so that no int product wraps) gets exactly threshold a.
   */
  lemma OtsuTwoLevelImage(img: Image, a: int, b: int)
    requires img.Valid() && 0 <= a < b <= 255 && a in img.pixels && b in img.pixels
    requires forall i :: 0 <= i < |img.pixels| ==> img.pixels[i] == a || img.pixels[i] == b
    requires |img.pixels| <= 46340
    ensures IsOtsuThreshold(Histogram(img.pixels), |img.pixels|, a)
  {
    var s := img.pixels;
    var h := Histogram(s);
    TwoLevelHistogramOfImage(s, a, b);
    ByteProductFits(a, h[a], |s|);
    ByteProductFits(b, h[b], |s|);
    SmallProductFits(h[a], h[b], |s|);
    ExactTwoLevelThreshold(h, a, b);
    var total := |s|;
    assert Scores(h, total) == ExactScores(h, total) by {
      forall t | 0 <= t < 256
        ensures Scores(h, total)[t] == ExactScores(h, total)[t]
      {
        if Candidates(h, total)[t] {
          TwoLevelCandidates(h, a, b, t);
          TwoLevelWeight(h, a, b, t + 1);
        }
      }
    }
  }

  // ---------------------------------------------------------------------
  // The int product wB * wF.

  /** 65536 samples of level 10 and 65536 of level 200: for example a 512 x 256 image, half and half. */
  function OverflowHistogram(): (h: seq<int>)
    ensures IsTwoLevel(h, 10, 200) && h[10] == 65536 && h[200] == 65536
  {
    seq(256, v requires 0 <= v < 256 => if v == 10 || v == 200 then 65536 else 0)
  }

  /**
   * Every split of this histogram has wB = wF = 65536, whose int product
   * 2^32 wraps to 0: no variance is positive and the threshold is 0, where
   * the exact variances would select 10.
   */
  lemma OtsuWeightProductWraps()
    ensures IsOtsuThreshold(OverflowHistogram(), 131072, 0)
    ensures IsFirstArgMax(Candidates(OverflowHistogram(), 131072), ExactScores(OverflowHistogram(), 131072), 10)
  {
    var h := OverflowHistogram();
    var cand, score := Candidates(h, 131072), Scores(h, 131072);
    TwoLevelWeight(h, 10, 200, 11);
    assert Wrap32(65536 * 65536) == 0;
    forall t | 0 <= t < 256 && cand[t]
      ensures score[t] <= 0.0
    {
      TwoLevelCandidates(h, 10, 200, t);
      TwoLevelSameSplit(h, 10, 200, t);
    }
    ExactTwoLevelThreshold(h, 10, 200);
  }
}
