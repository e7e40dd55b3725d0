/**
 * The binarizer strategies, the factory that picks one from a configuration,
 * and the stage order every strategy runs: grayscale, optional blur,
 * thresholding, optional opening, optional closing.
 *
 * Images are grayscale sample grids here, one sample per pixel, and each
 * stage's result is the grid its loops compute. The Gaussian weights for
 * the configured blur size are a parameter.
 */
module Binarizers {
  import opened Common
  import opened JavaLang
  import opened Raster
  import opened BinarizeConfiguration
  import opened ImageUtils
  import Threshold
  import Otsu
  import Adaptive

  /** The Binarizer implementations. */
  datatype Binarizer = GlobalBinarizer | OtsuBinarizer | AdaptiveMeanBinarizer | OpenCVBinarizer

  /** getName of each implementation. */
  function Name(b: Binarizer): string
  {
    match b
    case GlobalBinarizer => "Global"
    case OtsuBinarizer => "Otsu"
    case AdaptiveMeanBinarizer => "AdaptiveMean"
    case OpenCVBinarizer => "OpenCV"
  }

  const OPENCV_UNAVAILABLE :=
    "OpenCV binarizer requested but not available. Please add OpenCV dependency to your project."
  const OPENCV_FLAG_OFF :=
    "OpenCV algorithm selected but useOpenCV flag is false. Set config.setUseOpenCV(true) to use OpenCV."
  const OPENCV_NOT_IMPLEMENTED :=
    "OpenCV binarizer is not yet fully implemented. Use pure Java implementations (OtsuBinarizer, AdaptiveMeanBinarizer) instead."

  // ---------------------------------------------------------------------
  // Factory.

  /**
   * BinarizerFactory.createBinarizer. `openCVPresent` says whether the OpenCV
   * classes are on the class path; without them the OpenCVBinarizer
   * constructor fails and the factory rethrows that as IllegalArgument.
   */
  function CreateBinarizer(s: Settings, openCVPresent: bool): (r: Result<Binarizer, JavaException>)
    ensures r.Err? ==> r.error.IllegalArgument?
    ensures r.Ok? ==> (r.value == OpenCVBinarizer <==> s.useOpenCV)
  {
    if s.useOpenCV then
      if openCVPresent then Ok(OpenCVBinarizer) else Err(IllegalArgument(OPENCV_UNAVAILABLE))
    else
      match s.algorithm
      case GLOBAL => Ok(GlobalBinarizer)
      case OTSU => Ok(OtsuBinarizer)
      case ADAPTIVE_MEAN => Ok(AdaptiveMeanBinarizer)
      case ADAPTIVE_GAUSSIAN => Ok(AdaptiveMeanBinarizer)
      case OPENCV => Err(IllegalArgument(OPENCV_FLAG_OFF))
  }

  /** BinarizerFactory.createDefaultBinarizer. */
  function CreateDefaultBinarizer(): (b: Binarizer)
    ensures Name(b) == "Otsu"
  {
    OtsuBinarizer
  }

  /** The OpenCV flag is looked at first: with it set, the algorithm does not matter. */
  lemma OpenCVFlagOverridesAlgorithm(s: Settings, a: Algorithm, openCVPresent: bool)
    requires s.useOpenCV
    ensures CreateBinarizer(s.(algorithm := a), openCVPresent) == CreateBinarizer(s, openCVPresent)
    ensures CreateBinarizer(s, openCVPresent).Ok? <==> openCVPresent
  {
  }

  /**
   * Without the flag, every algorithm but OPENCV yields a pure Java binarizer,
   * the one its name says, with both adaptive variants sharing the mean one.
   */
  lemma FactoryDispatch(s: Settings, openCVPresent: bool)
    requires !s.useOpenCV
    ensures CreateBinarizer(s, openCVPresent).Ok? <==> s.algorithm != OPENCV
    ensures s.algorithm == GLOBAL ==> CreateBinarizer(s, openCVPresent) == Ok(GlobalBinarizer)
    ensures s.algorithm == OTSU ==> CreateBinarizer(s, openCVPresent) == Ok(OtsuBinarizer)
    ensures s.algorithm in {ADAPTIVE_MEAN, ADAPTIVE_GAUSSIAN} ==>
              CreateBinarizer(s, openCVPresent) == Ok(AdaptiveMeanBinarizer)
  {
  }

  /** A new configuration, and both presets, give a pure Java binarizer whether or not OpenCV is present. */
  lemma PresetsGiveJavaBinarizers(openCVPresent: bool)
    ensures CreateBinarizer(Defaults(), openCVPresent) == Ok(OtsuBinarizer)
    ensures CreateBinarizer(Defaults().(algorithm := OTSU, blurKernelSize := 3, useMedianBlur := false),
                            openCVPresent) == Ok(OtsuBinarizer)
    ensures CreateBinarizer(Defaults().(algorithm := ADAPTIVE_MEAN, blockSize := 11, c := 2.0, blurKernelSize := 3),
                            openCVPresent) == Ok(AdaptiveMeanBinarizer)
  {
  }

  // ---------------------------------------------------------------------
  // The stages, as functions of the settings.

  /** A configuration the setters produced has a blur size the blur filters accept. */
  lemma ValidBlurKernel(s: Settings)
    requires ValidSettings(s)
    ensures BlurKernelOk(s.blurKernelSize)
  {
  }

  /** The blur stage: nothing unless blurKernelSize > 0, then median or Gaussian. */
  function Blurred(img: Image, s: Settings, kernel: Kernel): (out: Image)
    requires img.Valid() && ValidSettings(s)
    ensures out.Valid() && out.width == img.width && out.height == img.height
    ensures s.blurKernelSize <= 1 ==> out == img
  {
    ValidBlurKernel(s);
    if s.blurKernelSize > 0 then
      if s.useMedianBlur then MedianBlurred(img, s.blurKernelSize)
      else GaussianBlurred(img, s.blurKernelSize, kernel)
    else img
  }

  /** The morphology stage: opening if enabled, then closing if enabled. */
  function Morphed(img: Image, s: Settings): (out: Image)
    requires img.Valid()
    ensures out.Valid() && out.width == img.width && out.height == img.height
    ensures IsBinary(img.pixels) ==> IsBinary(out.pixels)
  {
    var afterOpening := if s.useMorphologicalOpening then Opened(img, s.morphKernelSize) else img;
    if s.useMorphologicalClosing then Closed(afterOpening, s.morphKernelSize) else afterOpening
  }

  /** GlobalBinarizer.binarize. */
  function GlobalBinarized(img: Image, s: Settings, kernel: Kernel): (out: Image)
    requires img.Valid() && ValidSettings(s)
    ensures out.Valid() && out.width == img.width && out.height == img.height
    ensures IsBinary(out.pixels)
  {
    Morphed(Threshold.Thresholded(Blurred(img, s, kernel), s.threshold), s)
  }

  /** OtsuBinarizer.binarize once the threshold of the blurred image is known. */
  function OtsuBinarized(img: Image, s: Settings, kernel: Kernel, threshold: int): (out: Image)
    requires img.Valid() && ValidSettings(s)
    ensures out.Valid() && out.width == img.width && out.height == img.height
    ensures IsBinary(out.pixels)
  {
    Morphed(Threshold.Thresholded(Blurred(img, s, kernel), threshold), s)
  }

  /** The threshold OtsuBinarizer.binarize computes: the one of the blurred image. */
  predicate IsPipelineOtsuThreshold(img: Image, s: Settings, kernel: Kernel, threshold: int)
    requires img.Valid() && ValidSettings(s)
  {
    var blurred := Blurred(img, s, kernel);
    Otsu.IsOtsuThreshold(Otsu.Histogram(blurred.pixels), |blurred.pixels|, threshold)
  }

  /**
   * AdaptiveMeanBinarizer.binarize, for the block sizes it completes on:
   * blockSize / 2 >= -1, or an image without samples.
   */
  function AdaptiveBinarized(img: Image, s: Settings, kernel: Kernel): (out: Image)
    requires img.Valid() && ValidSettings(s) && (JavaHalf(s.blockSize) >= -1 || |img.pixels| == 0)
    ensures out.Valid() && out.width == img.width && out.height == img.height
    ensures IsBinary(out.pixels)
  {
    Morphed(Adaptive.AdaptiveThresholded(Blurred(img, s, kernel), s.blockSize, s.c), s)
  }

  // ---------------------------------------------------------------------
  // Properties of the pipeline.

  /** With opening alone, every white output pixel was white after thresholding. */
  lemma OpeningOnlyAddsNoWhite(binary: Image, s: Settings)
    requires binary.Valid() && IsBinary(binary.pixels)
    requires s.useMorphologicalOpening && !s.useMorphologicalClosing
    ensures forall j :: 0 <= j < |binary.pixels| && Morphed(binary, s).pixels[j] == 255
                        ==> binary.pixels[j] == 255
  {
    OpeningAddsNoWhite(binary, s.morphKernelSize);
  }

  /** With closing alone, every pixel white after thresholding stays white. */
  lemma ClosingOnlyRemovesNoWhite(binary: Image, s: Settings)
    requires binary.Valid() && IsBinary(binary.pixels)
    requires !s.useMorphologicalOpening && s.useMorphologicalClosing
    ensures forall j :: 0 <= j < |binary.pixels| && binary.pixels[j] == 255
                        ==> Morphed(binary, s).pixels[j] == 255
  {
    ClosingRemovesNoWhite(binary, s.morphKernelSize);
  }

  /** Without blur and morphology, an image of only 0 and 255 survives a global cut in 1..255. */
  lemma GlobalKeepsBinaryImage(img: Image, s: Settings, kernel: Kernel)
    requires img.Valid() && ValidSettings(s) && IsBinary(img.pixels) && 1 <= s.threshold <= 255
    requires s.blurKernelSize <= 1 && !s.useMorphologicalOpening && !s.useMorphologicalClosing
    ensures GlobalBinarized(img, s, kernel) == img
  {
    Threshold.ThresholdKeepsBinary(img, s.threshold);
  }

  /** Without morphology, Otsu always leaves some pixel of a non-empty image white. */
  lemma OtsuPipelineHasWhite(img: Image, s: Settings, kernel: Kernel, threshold: int)
    requires img.Valid() && ValidSettings(s) && |img.pixels| > 0
    requires !s.useMorphologicalOpening && !s.useMorphologicalClosing
    requires IsPipelineOtsuThreshold(img, s, kernel, threshold)
    ensures exists j :: 0 <= j < |img.pixels| && OtsuBinarized(img, s, kernel, threshold).pixels[j] == 255
  {
    var blurred := Blurred(img, s, kernel);
    Otsu.OtsuHasWhite(blurred, threshold);
    var j :| 0 <= j < |blurred.pixels| && Threshold.Thresholded(blurred, threshold).pixels[j] == 255;
    assert OtsuBinarized(img, s, kernel, threshold) == Threshold.Thresholded(blurred, threshold);
  }

  /** Without blur and morphology, an image of exactly two grey levels comes out all white. */
  lemma OtsuPipelineTwoLevelAllWhite(img: Image, s: Settings, kernel: Kernel, a: int, b: int, threshold: int)
    requires img.Valid() && ValidSettings(s) && 0 <= a < b <= 255 && a in img.pixels && b in img.pixels
    requires forall i :: 0 <= i < |img.pixels| ==> img.pixels[i] == a || img.pixels[i] == b
    requires s.blurKernelSize <= 1 && !s.useMorphologicalOpening && !s.useMorphologicalClosing
    requires IsPipelineOtsuThreshold(img, s, kernel, threshold)
    ensures forall j :: 0 <= j < |img.pixels| ==> OtsuBinarized(img, s, kernel, threshold).pixels[j] == 255
  {
    Otsu.OtsuTwoLevelAllWhite(img, a, b, threshold);
  }

  /** Without an effective blur, getThreshold reports the threshold binarize uses. */
  lemma GetThresholdMatchesUnblurred(img: Image, s: Settings, kernel: Kernel, t1: int, t2: int)
    requires img.Valid() && ValidSettings(s) && s.blurKernelSize <= 1
    requires IsPipelineOtsuThreshold(img, s, kernel, t1)
    requires Otsu.IsOtsuThreshold(Otsu.Histogram(img.pixels), |img.pixels|, t2)
    ensures t1 == t2
  {
    var h := Otsu.Histogram(img.pixels);
    Otsu.FirstArgMaxUnique(Otsu.Candidates(h, |img.pixels|), Otsu.Scores(h, |img.pixels|), t1, t2);
  }

  /** On a constant image with C >= 0 and no blur or morphology, adaptive mean outputs all white. */
  lemma AdaptivePipelineUniform(img: Image, s: Settings, kernel: Kernel, v: int)
    requires img.Valid() && ValidSettings(s) && JavaHalf(s.blockSize) >= -1 && s.c >= 0.0
    requires forall i :: 0 <= i < |img.pixels| ==> img.pixels[i] == v
    requires s.blurKernelSize <= 1 && !s.useMorphologicalOpening && !s.useMorphologicalClosing
    ensures forall j :: 0 <= j < |img.pixels| ==> AdaptiveBinarized(img, s, kernel).pixels[j] == 255
  {
    Adaptive.AdaptiveUniform(img, s.blockSize, s.c, v);
  }

  // ---------------------------------------------------------------------
  // The stages as the binarizers run them.

  /** The shared blur stage of every binarize. */
  method BlurStage(img: Image, config: BinarizeConfig, kernel: Kernel) returns (gray: Image)
    requires img.Valid() && config.Valid()
    ensures gray == Blurred(img, config.Value(), kernel)
  {
    gray := img;
    if config.blurKernelSize > 0 {
      ValidBlurKernel(config.Value());
      if config.useMedianBlur {
        gray := ApplyMedianBlur(gray, config.blurKernelSize);
      } else {
        gray := ApplyGaussianBlur(gray, config.blurKernelSize, kernel);
      }
    }
  }

  /** The shared morphology stage of every binarize. */
  method MorphologyStage(binary: Image, config: BinarizeConfig) returns (out: Image)
    requires binary.Valid()
    ensures out == Morphed(binary, config.Value())
  {
    out := binary;
    if config.useMorphologicalOpening {
      out := Open(out, config.morphKernelSize);
    }
    if config.useMorphologicalClosing {
      out := Close(out, config.morphKernelSize);
    }
  }

  /** GlobalBinarizer.binarize. */
  method GlobalBinarize(img: Image, config: BinarizeConfig, kernel: Kernel) returns (out: Image)
    requires img.Valid() && config.Valid()
    ensures out == GlobalBinarized(img, config.Value(), kernel)
  {
    var gray := BlurStage(img, config, kernel);
    var binary := Threshold.ApplyThreshold(gray, config.threshold);
    out := MorphologyStage(binary, config);
  }

  /** OtsuBinarizer.binarize: the threshold is computed on the blurred image. */
  method OtsuBinarize(img: Image, config: BinarizeConfig, kernel: Kernel) returns (out: Image)
    requires img.Valid() && config.Valid() && |img.pixels| <= INT_MAX
    ensures exists t :: IsPipelineOtsuThreshold(img, config.Value(), kernel, t)
                        && out == OtsuBinarized(img, config.Value(), kernel, t)
  {
    var gray := BlurStage(img, config, kernel);
    var threshold := Otsu.CalculateOtsuThreshold(gray);
    var binary := Threshold.ApplyThreshold(gray, threshold);
    out := MorphologyStage(binary, config);
    assert IsPipelineOtsuThreshold(img, config.Value(), kernel, threshold);
  }

  /** OtsuBinarizer.getThreshold: the threshold of the image without blurring. */
  method GetThreshold(img: Image) returns (threshold: int)
    requires img.Valid() && |img.pixels| <= INT_MAX
    ensures Otsu.IsOtsuThreshold(Otsu.Histogram(img.pixels), |img.pixels|, threshold)
    ensures 0 <= threshold < 256
  {
    threshold := Otsu.CalculateOtsuThreshold(img);
    Otsu.OtsuThresholdRange(Otsu.Histogram(img.pixels), |img.pixels|, threshold);
  }

  /**
   * AdaptiveMeanBinarizer.binarize: blockSize and C pass through unchanged, and
   * a block size below -3 on an image with samples ends in the index error of
   * the threshold stage.
   */
  method AdaptiveBinarize(img: Image, config: BinarizeConfig, kernel: Kernel)
    returns (r: Result<Image, JavaException>)
    requires img.Valid() && config.Valid()
    ensures r.Err? <==> JavaHalf(config.blockSize) < -1 && |img.pixels| > 0
    ensures r.Err? ==> r.error == IndexOutOfBounds
    ensures r.Ok? ==> r.value == AdaptiveBinarized(img, config.Value(), kernel)
  {
    var gray := BlurStage(img, config, kernel);
    var binary := Adaptive.ApplyAdaptiveThreshold(gray, config.blockSize, config.c);
    if binary.Err? {
      return Err(binary.error);
    }
    var out := MorphologyStage(binary.value, config);
    r := Ok(out);
  }

  /** Binarizer.binarize on whichever implementation the factory returned. */
  method Binarize(b: Binarizer, img: Image, config: BinarizeConfig, kernel: Kernel)
    returns (r: Result<Image, JavaException>)
    requires img.Valid() && config.Valid() && |img.pixels| <= INT_MAX
    ensures r.Ok? <==> b != OpenCVBinarizer &&
                       !(b == AdaptiveMeanBinarizer && JavaHalf(config.blockSize) < -1 && |img.pixels| > 0)
    ensures r.Err? ==> r.error == if b == OpenCVBinarizer then UnsupportedOperation(OPENCV_NOT_IMPLEMENTED)
                                  else IndexOutOfBounds
    ensures r.Ok? ==> r.value.Valid() && IsBinary(r.value.pixels)
                      && r.value.width == img.width && r.value.height == img.height
    ensures b == GlobalBinarizer ==> r == Ok(GlobalBinarized(img, config.Value(), kernel))
    ensures b == OtsuBinarizer ==> exists t :: IsPipelineOtsuThreshold(img, config.Value(), kernel, t)
                                               && r == Ok(OtsuBinarized(img, config.Value(), kernel, t))
    ensures b == AdaptiveMeanBinarizer && r.Ok? ==> r == Ok(AdaptiveBinarized(img, config.Value(), kernel))
  {
    match b
    case GlobalBinarizer =>
      var out := GlobalBinarize(img, config, kernel);
      r := Ok(out);
    case OtsuBinarizer =>
      var out := OtsuBinarize(img, config, kernel);
      r := Ok(out);
    case AdaptiveMeanBinarizer =>
      r := AdaptiveBinarize(img, config, kernel);
    case OpenCVBinarizer =>
      r := Err(UnsupportedOperation(OPENCV_NOT_IMPLEMENTED));
  }
}
