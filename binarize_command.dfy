/**
 * The command-line front end of the binarizer: the argument-count and
 * --help rules of main and the option loop of parseConfig.
 *
 * Double.parseDouble is a parameter (`parseDouble`, None where Java throws
 * NumberFormatException); printing, timing, image files and System.exit
 * become the outcome values below.
 */
module BinarizeCommand {
  import opened Common
  import opened JavaLang
  import opened BinarizeConfiguration
  import Binarizers

  /** How parseConfig ends. */
  datatype Outcome =
    | Parsed(settings: Settings)     // the loop ran to the end
    | HelpRequested                  // --help: usage printed, System.exit(0)
    | Thrown(error: JavaException)   // a value failed to parse or a setter refused it

  /** One iteration of the option loop: where the scan goes on, or how it stops. */
  datatype Step = Next(index: nat, settings: Settings) | Stop(outcome: Outcome)

  /** The enum constant names, as Algorithm.name() spells them. */
  function AlgorithmName(a: Algorithm): string
  {
    match a
    case GLOBAL => "GLOBAL"
    case OTSU => "OTSU"
    case ADAPTIVE_MEAN => "ADAPTIVE_MEAN"
    case ADAPTIVE_GAUSSIAN => "ADAPTIVE_GAUSSIAN"
    case OPENCV => "OPENCV"
  }

  /** Algorithm.valueOf: an exact, case-sensitive match of a constant name. */
  function AlgorithmValueOf(name: string): (r: Result<Algorithm, JavaException>)
    ensures r.Err? ==> r.error.IllegalArgument?
  {
    if name == "GLOBAL" then Ok(GLOBAL)
    else if name == "OTSU" then Ok(OTSU)
    else if name == "ADAPTIVE_MEAN" then Ok(ADAPTIVE_MEAN)
    else if name == "ADAPTIVE_GAUSSIAN" then Ok(ADAPTIVE_GAUSSIAN)
    else if name == "OPENCV" then Ok(OPENCV)
    else Err(IllegalArgument("No enum constant com.workassistant.image.BinarizeConfig.Algorithm." + name))
  }

  /** valueOf accepts exactly the constant names, each giving its own constant back. */
  lemma AlgorithmValueOfName(a: Algorithm, name: string)
    ensures AlgorithmValueOf(AlgorithmName(a)) == Ok(a)
    ensures AlgorithmValueOf(name).Ok? ==> AlgorithmName(AlgorithmValueOf(name).value) == name
  {
  }

  /** The options that take a value from the next argument. */
  predicate IsValueOption(arg: string)
  {
    arg in {"--algorithm", "--threshold", "--block-size", "--c", "--blur", "--morph-kernel"}
  }

  /** The options parseConfig recognises. */
  predicate IsKnownOption(arg: string)
  {
    IsValueOption(arg) || arg in {"--median-blur", "--morph-open", "--morph-close", "--opencv", "--help"}
  }

  /** The body of parseConfig's loop for the argument at index i. */
  function ParseStep(args: seq<string>, i: nat, s: Settings, parseDouble: string -> Option<real>): (r: Step)
    requires i < |args|
    ensures r.Next? ==> i < r.index <= |args|
    ensures r.Next? && ValidSettings(s) ==> ValidSettings(r.settings)
  {
    var arg := args[i];
    var hasValue := i + 1 < |args|;
    if arg == "--algorithm" && hasValue then
      match AlgorithmValueOf(args[i + 1])
      case Ok(a) => Next(i + 2, s.(algorithm := a))
      case Err(e) => Stop(Thrown(e))
    else if arg == "--threshold" && hasValue then
      match ParseInt(args[i + 1])
      case Some(n) => Next(i + 2, s.(threshold := n))
      case None => Stop(Thrown(NumberFormat(args[i + 1])))
    else if arg == "--block-size" && hasValue then
      match ParseInt(args[i + 1])
      case Some(n) =>
        if BlockSizeAccepted(n) then Next(i + 2, s.(blockSize := n))
        else Stop(Thrown(IllegalArgument(BLOCK_SIZE_MESSAGE)))
      case None => Stop(Thrown(NumberFormat(args[i + 1])))
    else if arg == "--c" && hasValue then
      match parseDouble(args[i + 1])
      case Some(c) => Next(i + 2, s.(c := c))
      case None => Stop(Thrown(NumberFormat(args[i + 1])))
    else if arg == "--blur" && hasValue then
      match ParseInt(args[i + 1])
      case Some(n) =>
        if BlurKernelSizeAccepted(n) then Next(i + 2, s.(blurKernelSize := n))
        else Stop(Thrown(IllegalArgument(BLUR_KERNEL_SIZE_MESSAGE)))
      case None => Stop(Thrown(NumberFormat(args[i + 1])))
    else if arg == "--median-blur" then Next(i + 1, s.(useMedianBlur := true))
    else if arg == "--morph-open" then Next(i + 1, s.(useMorphologicalOpening := true))
    else if arg == "--morph-close" then Next(i + 1, s.(useMorphologicalClosing := true))
    else if arg == "--morph-kernel" && hasValue then
      match ParseInt(args[i + 1])
      case Some(n) => Next(i + 2, s.(morphKernelSize := n))
      case None => Stop(Thrown(NumberFormat(args[i + 1])))
    else if arg == "--opencv" then Next(i + 1, s.(useOpenCV := true))
    else if arg == "--help" then Stop(HelpRequested)
    else Next(i + 1, s)
  }

  /** The option loop from index i with the settings s built so far. */
  function ParseFrom(args: seq<string>, i: nat, s: Settings, parseDouble: string -> Option<real>): Outcome
    decreases |args| - i
  {
    if i >= |args| then Parsed(s)
    else
      match ParseStep(args, i, s, parseDouble)
      case Next(j, next) => ParseFrom(args, j, next, parseDouble)
      case Stop(outcome) => outcome
  }

  /** parseConfig: scans from index 2 with a new configuration. */
  function ParseConfigOf(args: seq<string>, parseDouble: string -> Option<real>): Outcome
  {
    ParseFrom(args, 2, Defaults(), parseDouble)
  }

  /** parseConfig, updating a configuration object through its setters. */
  method ParseConfig(args: seq<string>, parseDouble: string -> Option<real>)
    returns (config: BinarizeConfig, outcome: Outcome)
    ensures fresh(config)
    ensures outcome == ParseConfigOf(args, parseDouble)
    ensures outcome.Parsed? ==> config.Value() == outcome.settings && config.Valid()
  {
    config := new BinarizeConfig();
    var i := 2;
    while i < |args|
      invariant 2 <= i
      invariant config.Valid()
      invariant ParseFrom(args, i, config.Value(), parseDouble) == ParseConfigOf(args, parseDouble)
      decreases |args| - i
    {
      ghost var before := config.Value();
      ghost var step := ParseStep(args, i, before, parseDouble);
      var arg := args[i];
      if arg == "--algorithm" && i + 1 < |args| {
        i := i + 1;
        var a := AlgorithmValueOf(args[i]);
        if a.Err? {
          return config, Thrown(a.error);
        }
        var _ := config.SetAlgorithm(a.value);
      } else if arg == "--threshold" && i + 1 < |args| {
        i := i + 1;
        var n := ParseInt(args[i]);
        if n.None? {
          return config, Thrown(NumberFormat(args[i]));
        }
        var _ := config.SetThreshold(n.value);
      } else if arg == "--block-size" && i + 1 < |args| {
        i := i + 1;
        var n := ParseInt(args[i]);
        if n.None? {
          return config, Thrown(NumberFormat(args[i]));
        }
        var r := config.SetBlockSize(n.value);
        if r.Err? {
          return config, Thrown(r.error);
        }
      } else if arg == "--c" && i + 1 < |args| {
        i := i + 1;
        var c := parseDouble(args[i]);
        if c.None? {
          return config, Thrown(NumberFormat(args[i]));
        }
        var _ := config.SetC(c.value);
      } else if arg == "--blur" && i + 1 < |args| {
        i := i + 1;
        var n := ParseInt(args[i]);
        if n.None? {
          return config, Thrown(NumberFormat(args[i]));
        }
        var r := config.SetBlurKernelSize(n.value);
        if r.Err? {
          return config, Thrown(r.error);
        }
      } else if arg == "--median-blur" {
        var _ := config.SetUseMedianBlur(true);
      } else if arg == "--morph-open" {
        var _ := config.SetUseMorphologicalOpening(true);
      } else if arg == "--morph-close" {
        var _ := config.SetUseMorphologicalClosing(true);
      } else if arg == "--morph-kernel" && i + 1 < |args| {
        i := i + 1;
        var n := ParseInt(args[i]);
        if n.None? {
          return config, Thrown(NumberFormat(args[i]));
        }
        var _ := config.SetMorphKernelSize(n.value);
      } else if arg == "--opencv" {
        var _ := config.SetUseOpenCV(true);
      } else if arg == "--help" {
        return config, HelpRequested;
      }
      i := i + 1;
      assert step == Next(i, config.Value());
    }
    outcome := Parsed(config.Value());
  }

  // ---------------------------------------------------------------------
  // Properties of the option loop.

  /** Every configuration parseConfig returns passes the setters' checks. */
  lemma {:induction false} ParseFromKeepsValid(args: seq<string>, i: nat, s: Settings,
                                               parseDouble: string -> Option<real>)
    requires ValidSettings(s)
    ensures ParseFrom(args, i, s, parseDouble).Parsed? ==> ValidSettings(ParseFrom(args, i, s, parseDouble).settings)
    decreases |args| - i
  {
    if i < |args| {
      var step := ParseStep(args, i, s, parseDouble);
      if step.Next? {
        ParseFromKeepsValid(args, step.index, step.settings, parseDouble);
      }
    }
  }

  /** An argument that is no option, or is the value of none, is skipped without effect. */
  lemma UnknownArgumentIgnored(args: seq<string>, i: nat, s: Settings, parseDouble: string -> Option<real>)
    requires i < |args| && !IsKnownOption(args[i])
    ensures ParseStep(args, i, s, parseDouble) == Next(i + 1, s)
  {
  }

  /** A value option in the last position has no value to take and is skipped. */
  lemma TrailingValueOptionIgnored(args: seq<string>, s: Settings, parseDouble: string -> Option<real>)
    requires |args| > 2 && IsValueOption(args[|args| - 1])
    ensures ParseFrom(args, |args| - 1, s, parseDouble) == Parsed(s)
  {
    assert ParseStep(args, |args| - 1, s, parseDouble) == Next(|args|, s);
  }

  /** A value option consumes the next argument, which is never read as an option. */
  lemma ValueIsConsumed(args: seq<string>, i: nat, s: Settings, parseDouble: string -> Option<real>)
    requires i + 1 < |args| && IsValueOption(args[i])
    ensures ParseStep(args, i, s, parseDouble).Next? ==> ParseStep(args, i, s, parseDouble).index == i + 2
  {
  }

  /** One --threshold step: the value is parsed and stored, and the scan moves past it. */
  lemma ThresholdStep(args: seq<string>, i: nat, s: Settings, parseDouble: string -> Option<real>)
    requires i + 1 < |args| && args[i] == "--threshold" && ParseInt(args[i + 1]).Some?
    ensures ParseStep(args, i, s, parseDouble) == Next(i + 2, s.(threshold := ParseInt(args[i + 1]).value))
  {
  }

  /** A repeated --threshold keeps only its last value. */
  lemma RepeatedThresholdLastWins(args: seq<string>, i: nat, s: Settings, parseDouble: string -> Option<real>)
    requires i + 4 <= |args| && args[i] == "--threshold" && args[i + 2] == "--threshold"
    requires ParseInt(args[i + 1]).Some? && ParseInt(args[i + 3]).Some?
    ensures ParseFrom(args, i, s, parseDouble)
         == ParseFrom(args, i + 4, s.(threshold := ParseInt(args[i + 3]).value), parseDouble)
  {
    var first := s.(threshold := ParseInt(args[i + 1]).value);
    ThresholdStep(args, i, s, parseDouble);
    ThresholdStep(args, i + 2, first, parseDouble);
    assert first.(threshold := ParseInt(args[i + 3]).value) == s.(threshold := ParseInt(args[i + 3]).value);
  }

  /** Without options the configuration is a new one. */
  lemma NoOptionsGiveDefaults(args: seq<string>, parseDouble: string -> Option<real>)
    requires |args| <= 2
    ensures ParseConfigOf(args, parseDouble) == Parsed(Defaults())
  {
  }

  /** --opencv alone sets the OpenCV flag and nothing else. */
  lemma OpenCVOptionSetsOnlyFlag(input: string, output: string, parseDouble: string -> Option<real>)
    ensures ParseConfigOf([input, output, "--opencv"], parseDouble) == Parsed(Defaults().(useOpenCV := true))
  {
    var args := [input, output, "--opencv"];
    assert ParseStep(args, 2, Defaults(), parseDouble) == Next(3, Defaults().(useOpenCV := true));
    assert ParseFrom(args, 3, Defaults().(useOpenCV := true), parseDouble) == Parsed(Defaults().(useOpenCV := true));
  }

  /** --help right after the paths asks for usage and exit code 0. */
  lemma HelpFirstExits(args: seq<string>, parseDouble: string -> Option<real>)
    requires |args| > 2 && args[2] == "--help"
    ensures ParseConfigOf(args, parseDouble) == HelpRequested
  {
  }

  /** An even block size before --help throws, so --help is never reached. */
  lemma EvenBlockSizeBeatsHelp(input: string, output: string, parseDouble: string -> Option<real>)
    ensures ParseConfigOf([input, output, "--block-size", "4", "--help"], parseDouble)
         == Thrown(IllegalArgument(BLOCK_SIZE_MESSAGE))
  {
    var args := [input, output, "--block-size", "4", "--help"];
    assert ParseInt("4") == Some(4) by {
      assert IntToString(4) == "4";
      ParseIntOfIntToString(4);
    }
    BlockSizeAcceptedIffOdd(4);
    assert ParseStep(args, 2, Defaults(), parseDouble) == Stop(Thrown(IllegalArgument(BLOCK_SIZE_MESSAGE)));
  }

  // ---------------------------------------------------------------------
  // main.

  /** How main ends, apart from reading, binarizing and writing the images. */
  datatype CommandResult =
    | UsageExit(code: int)                   // usage printed, System.exit(code)
    | Uncaught(error: JavaException)         // thrown by parseConfig, before the try
    | ErrorExit(error: JavaException)        // "Error: " and the message, System.exit(1)
    | Proceed(inputPath: string, outputPath: string, settings: Settings, binarizer: Binarizers.Binarizer)

  /** BinarizeCommand.main up to the choice of binarizer. */
  function Command(args: seq<string>, parseDouble: string -> Option<real>, openCVPresent: bool): (r: CommandResult)
    ensures |args| < 2 <==> r == UsageExit(1)
    ensures r.Proceed? ==> r.inputPath == args[0] && r.outputPath == args[1]
  {
    if |args| < 2 then UsageExit(1)
    else
      match ParseConfigOf(args, parseDouble)
      case HelpRequested => UsageExit(0)
      case Thrown(e) => Uncaught(e)
      case Parsed(s) =>
        match Binarizers.CreateBinarizer(s, openCVPresent)
        case Err(e) => ErrorExit(e)
        case Ok(b) => Proceed(args[0], args[1], s, b)
  }

  /** A value the configuration rejects escapes the "Error:" handler. */
  lemma RejectedValueIsUncaught(args: seq<string>, parseDouble: string -> Option<real>, openCVPresent: bool)
    requires |args| >= 2 && ParseConfigOf(args, parseDouble).Thrown?
    ensures Command(args, parseDouble, openCVPresent) == Uncaught(ParseConfigOf(args, parseDouble).error)
  {
  }

  /** Only the factory's refusal is caught before the images are touched. */
  lemma FactoryErrorIsCaught(args: seq<string>, parseDouble: string -> Option<real>)
    requires |args| == 3 && args[2] == "--opencv"
    ensures Command(args, parseDouble, false) == ErrorExit(IllegalArgument(Binarizers.OPENCV_UNAVAILABLE))
  {
    OpenCVOptionSetsOnlyFlag(args[0], args[1], parseDouble);
    assert args == [args[0], args[1], "--opencv"];
  }

  /** Every binarizer main proceeds with was built from valid settings. */
  lemma ProceedsWithValidSettings(args: seq<string>, parseDouble: string -> Option<real>, openCVPresent: bool)
    requires Command(args, parseDouble, openCVPresent).Proceed?
    ensures ValidSettings(Command(args, parseDouble, openCVPresent).settings)
  {
    DefaultsValid();
    ParseFromKeepsValid(args, 2, Defaults(), parseDouble);
  }
}
