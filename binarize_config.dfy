// The binarization configuration: an algorithm choice and the parameters of
// every stage, changed through validating fluent setters.

module BinarizeConfiguration {
  import opened Common
  import opened JavaLang

  /** The algorithms a configuration can select. */
  datatype Algorithm = GLOBAL | OTSU | ADAPTIVE_MEAN | ADAPTIVE_GAUSSIAN | OPENCV

  /** The value of every field of a configuration. */
  datatype Settings = Settings(
    algorithm: Algorithm,
    threshold: int,
    blockSize: int,
    c: real,
    blurKernelSize: int,
    useMedianBlur: bool,
    useMorphologicalOpening: bool,
    useMorphologicalClosing: bool,
    morphKernelSize: int,
    useOpenCV: bool)

  /** The field initialisers of a new configuration. */
  function Defaults(): (s: Settings)
    ensures s.algorithm == OTSU && s.threshold == 128 && s.blockSize == 11 && s.c == 2.0
    ensures s.blurKernelSize == 0 && s.morphKernelSize == 3
    ensures !s.useMedianBlur && !s.useMorphologicalOpening && !s.useMorphologicalClosing && !s.useOpenCV
  {
    Settings(OTSU, 128, 11, 2.0, 0, false, false, false, 3, false)
  }

  /** setBlockSize accepts exactly the values whose Java remainder by 2 is not 0. */
  predicate BlockSizeAccepted(blockSize: int)
  {
    JavaIsOdd(blockSize)
  }

  /** setBlurKernelSize rejects exactly the positive even values. */
  predicate BlurKernelSizeAccepted(blurKernelSize: int)
  {
    !(blurKernelSize > 0 && !JavaIsOdd(blurKernelSize))
  }

  /** What the setters keep true of every configuration. */
  predicate ValidSettings(s: Settings)
  {
    BlockSizeAccepted(s.blockSize) && BlurKernelSizeAccepted(s.blurKernelSize)
  }

  const BLOCK_SIZE_MESSAGE := "Block size must be odd"
  const BLUR_KERNEL_SIZE_MESSAGE := "Blur kernel size must be odd"

  /** The block sizes the setter accepts: every odd value, negative ones included. */
  lemma BlockSizeAcceptedIffOdd(blockSize: int)
    ensures BlockSizeAccepted(blockSize) <==> blockSize % 2 == 1
    ensures BlockSizeAccepted(-1) && BlockSizeAccepted(-3) && !BlockSizeAccepted(0) && !BlockSizeAccepted(-2)
  {
    JavaIsOddIffOdd(blockSize);
  }

  /** The blur sizes the setter accepts: zero, every negative value and every positive odd one. */
  lemma BlurKernelSizeAcceptedIff(blurKernelSize: int)
    ensures BlurKernelSizeAccepted(blurKernelSize) <==> blurKernelSize <= 0 || blurKernelSize % 2 == 1
  {
    JavaIsOddIffOdd(blurKernelSize);
  }

  /** The defaults satisfy the setters' rules. */
  lemma DefaultsValid()
    ensures ValidSettings(Defaults())
  {
    JavaIsOddIffOdd(11);
  }

  class BinarizeConfig {
    var algorithm: Algorithm
    var threshold: int
    var blockSize: int
    var c: real
    var blurKernelSize: int
    var useMedianBlur: bool
    var useMorphologicalOpening: bool
    var useMorphologicalClosing: bool
    var morphKernelSize: int
    var useOpenCV: bool

    /** All fields as one value. */
    function Value(): Settings
      reads this
    {
      Settings(algorithm, threshold, blockSize, c, blurKernelSize, useMedianBlur,
               useMorphologicalOpening, useMorphologicalClosing, morphKernelSize, useOpenCV)
    }

    predicate Valid()
      reads this
    {
      ValidSettings(Value())
    }

    constructor()
      ensures Value() == Defaults() && Valid()
    {
      algorithm := OTSU;
      threshold := 128;
      blockSize := 11;
      c := 2.0;
      blurKernelSize := 0;
      useMedianBlur := false;
      useMorphologicalOpening := false;
      useMorphologicalClosing := false;
      morphKernelSize := 3;
      useOpenCV := false;
      new;
      DefaultsValid();
    }

    method SetAlgorithm(a: Algorithm) returns (self: BinarizeConfig)
      modifies this
      ensures self == this && Value() == old(Value()).(algorithm := a)
      ensures old(Valid()) ==> Valid()
    {
      algorithm := a;
      self := this;
    }

    method SetThreshold(t: int) returns (self: BinarizeConfig)
      modifies this
      ensures self == this && Value() == old(Value()).(threshold := t)
      ensures old(Valid()) ==> Valid()
    {
      threshold := t;
      self := this;
    }

    /** Rejects an even block size, leaving every field as it was. */
    method SetBlockSize(b: int) returns (r: Result<BinarizeConfig, JavaException>)
      modifies this
      ensures BlockSizeAccepted(b) ==> r == Ok(this) && Value() == old(Value()).(blockSize := b)
      ensures !BlockSizeAccepted(b) ==>
                r == Err(IllegalArgument(BLOCK_SIZE_MESSAGE)) && Value() == old(Value())
      ensures old(Valid()) ==> Valid()
    {
      if b - 2 * JavaHalf(b) == 0 {
        return Err(IllegalArgument(BLOCK_SIZE_MESSAGE));
      }
      blockSize := b;
      r := Ok(this);
    }

    method SetC(value: real) returns (self: BinarizeConfig)
      modifies this
      ensures self == this && Value() == old(Value()).(c := value)
      ensures old(Valid()) ==> Valid()
    {
      c := value;
      self := this;
    }

    /** Rejects a positive even blur size, leaving every field as it was. */
    method SetBlurKernelSize(k: int) returns (r: Result<BinarizeConfig, JavaException>)
      modifies this
      ensures BlurKernelSizeAccepted(k) ==> r == Ok(this) && Value() == old(Value()).(blurKernelSize := k)
      ensures !BlurKernelSizeAccepted(k) ==>
                r == Err(IllegalArgument(BLUR_KERNEL_SIZE_MESSAGE)) && Value() == old(Value())
      ensures old(Valid()) ==> Valid()
    {
      if k > 0 && k - 2 * JavaHalf(k) == 0 {
        return Err(IllegalArgument(BLUR_KERNEL_SIZE_MESSAGE));
      }
      blurKernelSize := k;
      r := Ok(this);
    }

    method SetUseMedianBlur(b: bool) returns (self: BinarizeConfig)
      modifies this
      ensures self == this && Value() == old(Value()).(useMedianBlur := b)
      ensures old(Valid()) ==> Valid()
    {
      useMedianBlur := b;
      self := this;
    }

    method SetUseMorphologicalOpening(b: bool) returns (self: BinarizeConfig)
      modifies this
      ensures self == this && Value() == old(Value()).(useMorphologicalOpening := b)
      ensures old(Valid()) ==> Valid()
    {
      useMorphologicalOpening := b;
      self := this;
    }

    method SetUseMorphologicalClosing(b: bool) returns (self: BinarizeConfig)
      modifies this
      ensures self == this && Value() == old(Value()).(useMorphologicalClosing := b)
      ensures old(Valid()) ==> Valid()
    {
      useMorphologicalClosing := b;
      self := this;
    }

    method SetMorphKernelSize(k: int) returns (self: BinarizeConfig)
      modifies this
      ensures self == this && Value() == old(Value()).(morphKernelSize := k)
      ensures old(Valid()) ==> Valid()
    {
      morphKernelSize := k;
      self := this;
    }

    method SetUseOpenCV(b: bool) returns (self: BinarizeConfig)
      modifies this
      ensures self == this && Value() == old(Value()).(useOpenCV := b)
      ensures old(Valid()) ==> Valid()
    {
      useOpenCV := b;
      self := this;
    }
  }

  /** The preset for OCR: Otsu after a 3x3 Gaussian blur. */
  method ForOCR() returns (config: BinarizeConfig)
    ensures fresh(config) && config.Valid()
    ensures config.Value() == Defaults().(algorithm := OTSU, blurKernelSize := 3, useMedianBlur := false)
  {
    config := new BinarizeConfig();
    var _ := config.SetAlgorithm(OTSU);
    JavaIsOddIffOdd(3);
    var _ := config.SetBlurKernelSize(3);
    var _ := config.SetUseMedianBlur(false);
  }

  /** The preset for unevenly lit images: adaptive mean over 11x11 windows after a 3x3 blur. */
  method ForUnevenLighting() returns (config: BinarizeConfig)
    ensures fresh(config) && config.Valid()
    ensures config.Value()
         == Defaults().(algorithm := ADAPTIVE_MEAN, blockSize := 11, c := 2.0, blurKernelSize := 3)
  {
    config := new BinarizeConfig();
    var _ := config.SetAlgorithm(ADAPTIVE_MEAN);
    JavaIsOddIffOdd(11);
    var _ := config.SetBlockSize(11);
    var _ := config.SetC(2.0);
    JavaIsOddIffOdd(3);
    var _ := config.SetBlurKernelSize(3);
  }
}
