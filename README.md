# WorkAssistant image binarization and chat rules, modelled in Dafny

WorkAssistant is a Java chat workspace. It has an AI assistant, a clipboard
and OCR pipeline, and a small image-binarization engine with a command-line
front end. This project models the core of it in Dafny and proves what the
code promises.

**The binarization engine.** Images are 8-bit grey samples in row-major
order. The engine runs a fixed pipeline:
- an optional median or Gaussian blur;
- one of three thresholding strategies:
  - Global: a fixed cut;
  - Otsu: a histogram scan for the largest between-class variance;
  - Adaptive mean: window means read from a summed-area table;
- an optional morphological opening, then an optional closing.

Around the engine sit:
- `BinarizeConfig`, with validating fluent setters and two presets;
- `BinarizerFactory`, which picks a strategy;
- the option parser of `BinarizeCommand`.

The loops of the source are methods proved against specification functions:
- `ImageUtils`: median, Gaussian, erode and dilate;
- Otsu: the histogram and the threshold scan;
- adaptive mean: the integral table and the threshold pass;
- the shared `applyThreshold`.

Lemmas then state what those functions guarantee:
- binary output;
- sizes preserved;
- erosion inside the white input, dilation around it;
- opening adds no white pixel and closing removes none;
- the Otsu selection rule and its consequences;
- the summed-area-table identity;
- the setter rules.

**The chat side.** These parts are modelled as they are written:
- the in-memory `ChatService` store;
- the `Channel` and `ClipboardData` lists;
- the SVG classifiers and dimension reader;
- the JPEG marker search and keyword filter of `OCRService`;
- the rules inside `ChatController`:
  - channel creation with '#';
  - the assistant trigger and routing;
  - the search-result markdown;
  - the personalised user list;
  - summary titles and keywords;
  - clipboard titles;
- the request assembly and response mapping of `OllamaService`;
- the lookup rules of `SystemMessageConfig` and `AppConfig`.

Java's `null` becomes `Option`, a thrown exception becomes `Result.Err`, and
the 32-bit int and truncating `/` are written out where they matter
(`Wrap32`, `JavaHalf`). Inputs the code receives from the outside become
parameters:
- the current time;
- random UUIDs;
- the environment variable;
- the parsed JSON;
- the OCR engine's outcome;
- `Double.parseDouble`;
- UTF-8 decoding;
- "is a CJK character".

## Model

| member | source | states |
|---|---|---|
| Raster.Clamp | src/main/java/com/workassistant/image/ImageUtils.java:328-330 | The result lies in [min, max] whenever min <= max; a value already in range is returned unchanged; below range gives min, above gives max. |
| Raster.Sample | src/main/java/com/workassistant/image/ImageUtils.java:72-74 | A neighbourhood read with both coordinates clamped is the sample at the clamped position, so the index never leaves the image; the value is a byte 0..255. |
| Raster.ClampReachBack | src/main/java/com/workassistant/image/ImageUtils.java:147-149 | Border replication is reversible within the radius: from any clamped neighbour q of p some offset within the radius leads back to p (what makes opening and closing monotone). |
| Sorting.Sort | src/main/java/com/workassistant/image/ImageUtils.java:120 | `Arrays.sort` on the filled window: the result is ascending and a permutation (same multiset) of the input. |
| JavaLang.Wrap32 | src/main/java/com/workassistant/image/impl/OtsuBinarizer.java:105 | Java's int product: the result is in the int range, congruent to the exact value modulo 2^32, and equal to it when that fits. |
| JavaLang.JavaHalf | src/main/java/com/workassistant/image/ImageUtils.java:137 | Java's `kernelSize / 2` truncates toward zero: for a >= 0 the result q has a-1 <= 2q <= a, for a < 0 a <= 2q <= a+1. |
| JavaLang.JavaIsOddIffOdd | src/main/java/com/workassistant/image/BinarizeConfig.java:62 | Java's `b % 2 == 0` test, whose remainder keeps the dividend's sign, fails exactly for the odd values, negatives included. |
| JavaLang.ParseIntOfIntToString | src/main/java/com/workassistant/config/AppConfig.java:51 | Integer.parseInt reads back every int that Integer.toString writes. |
| JavaLang.ParseInt | src/main/java/com/workassistant/config/AppConfig.java:51 | Integer.parseInt only ever returns values in the int range. |
| JavaLang.Trim | src/main/java/com/workassistant/controller/ChatController.java:198 | `trim()` leaves a string that is empty or starts and ends with a char above U+0020. |
| JavaLang.TrimOfTrimmed | src/main/java/com/workassistant/controller/ChatController.java:198 | A string that starts and ends with a visible char is its own trim. |
| JavaLang.BlankIffAllTrimmable | src/main/java/com/workassistant/service/OCRService.java:226 | `trim().isEmpty()` holds exactly when every char is at or below U+0020. |
| JavaLang.ToLower | src/main/java/com/workassistant/image/ImageUtils.java:335 | `toLowerCase()` keeps the length and maps each char on its own. |
| JavaLang.ToLowerAppend | src/main/java/com/workassistant/image/ImageUtils.java:335 | Lower-casing distributes over concatenation. |
| JavaLang.IndexOfFrom | src/main/java/com/workassistant/util/SVGConverter.java:210 | `indexOf(pattern, from)` is the first occurrence at or after `from`, or -1 exactly when there is none. |
| JavaLang.ContainsIffOccurs | src/main/java/com/workassistant/util/SVGConverter.java:77 | `contains` holds exactly when the pattern occurs somewhere. |
| JavaLang.LastIndexOfChar | src/main/java/com/workassistant/image/ImageUtils.java:333 | `lastIndexOf(c)` is the last index holding c, or -1 when none does. |
| JavaLang.ReplaceCharRemovesIt | src/main/java/com/workassistant/config/SystemMessageConfig.java:99 | Replacing a char by text that lacks it leaves no occurrence of it. |
| JavaLang.ReplaceKeepsAbsentChar | src/main/java/com/workassistant/config/SystemMessageConfig.java:99 | `replace` never brings in a char that neither the input nor the replacement holds. |
| JavaLang.Words | src/main/java/com/workassistant/service/OCRService.java:231-234 | The pieces of `split("\\s+")` are non-empty and hold no whitespace char. |
| Sorting.SortConstant | src/main/java/com/workassistant/image/ImageUtils.java:120 | Sorting a window of one repeated value leaves that value everywhere. |
| Sorting.SortedElementsFromInput | src/main/java/com/workassistant/image/ImageUtils.java:120 | Every element of the sorted window is one of its samples. |
| ImageUtils.Eroded | src/main/java/com/workassistant/image/ImageUtils.java:132-161 | Erosion keeps the width and height and outputs only 0 and 255. |
| ImageUtils.Dilated | src/main/java/com/workassistant/image/ImageUtils.java:166-195 | Dilation keeps the width and height and outputs only 0 and 255. |
| ImageUtils.Opened | src/main/java/com/workassistant/image/ImageUtils.java:201-203 | Opening (dilate after erode) keeps the size and outputs only 0 and 255. |
| ImageUtils.Closed | src/main/java/com/workassistant/image/ImageUtils.java:209-211 | Closing (erode after dilate) keeps the size and outputs only 0 and 255. |
| ImageUtils.ErodedPixel | src/main/java/com/workassistant/image/ImageUtils.java:143-155 | An eroded pixel is 255 exactly when every clamped neighbour within radius kernelSize/2 is at least 128, else 0. |
| ImageUtils.DilatedPixel | src/main/java/com/workassistant/image/ImageUtils.java:177-189 | A dilated pixel is 255 exactly when some clamped neighbour within radius kernelSize/2 is at least 128, else 0. |
| ImageUtils.ErosionShrinks | src/main/java/com/workassistant/image/ImageUtils.java:137-155 | When the window holds the pixel itself (kernelSize >= -1), every pixel erosion makes white was white (>= 128) in the input. |
| ImageUtils.DilationGrows | src/main/java/com/workassistant/image/ImageUtils.java:171-189 | When the window holds the pixel itself, every white input pixel is white after dilation. |
| ImageUtils.OpeningAddsNoWhite | src/main/java/com/workassistant/image/ImageUtils.java:201-203 | On the grids the erode and dilate loops compute, for every kernel size, opening never whitens a pixel that was below 128. |
| ImageUtils.ClosingRemovesNoWhite | src/main/java/com/workassistant/image/ImageUtils.java:209-211 | On the grids the erode and dilate loops compute, for every kernel size, closing never blackens a pixel that was 128 or above. |
| ImageUtils.AllWhiteScan | src/main/java/com/workassistant/image/ImageUtils.java:143-153 | The early-exit window loops of erode report exactly whether the whole clamped window is white. |
| ImageUtils.AnyWhiteScan | src/main/java/com/workassistant/image/ImageUtils.java:177-187 | The early-exit window loops of dilate report exactly whether some pixel of the clamped window is white. |
| ImageUtils.Erode | src/main/java/com/workassistant/image/ImageUtils.java:132-161 | The row-by-row loop fills the output to exactly the erosion specification. |
| ImageUtils.Dilate | src/main/java/com/workassistant/image/ImageUtils.java:166-195 | The row-by-row loop fills the output to exactly the dilation specification. |
| ImageUtils.Open | src/main/java/com/workassistant/image/ImageUtils.java:201-203 | `open` computes the opening specification. |
| ImageUtils.Close | src/main/java/com/workassistant/image/ImageUtils.java:209-211 | `close` computes the closing specification. |
| ImageUtils.MedianBlurred | src/main/java/com/workassistant/image/ImageUtils.java:94-127 | Median blur keeps the size and returns the input itself when kernelSize <= 1. |
| ImageUtils.MedianWithinWindow | src/main/java/com/workassistant/image/ImageUtils.java:120-121 | Element idx/2 of the sorted window is one of the window's samples. |
| ImageUtils.MedianBetweenExtremes | src/main/java/com/workassistant/image/ImageUtils.java:120-121 | The median lies between any lower and upper bound of the window's samples, so between its minimum and maximum. |
| ImageUtils.MedianBlurKeepsConstant | src/main/java/com/workassistant/image/ImageUtils.java:103-121 | Median blur leaves a constant image unchanged for every kernel size it can run with. |
| ImageUtils.FillWindow | src/main/java/com/workassistant/image/ImageUtils.java:110-118 | The window loops fill exactly (2r+1)^2 = k*k slots with the clamped neighbourhood, row by row. |
| ImageUtils.MedianPixel | src/main/java/com/workassistant/image/ImageUtils.java:110-121 | One output sample is the middle element of the sorted clamped window. |
| ImageUtils.ApplyMedianBlur | src/main/java/com/workassistant/image/ImageUtils.java:94-127 | The loops compute exactly the median-blur specification, including the kernelSize <= 1 no-op. |
| ImageUtils.GaussianBlurred | src/main/java/com/workassistant/image/ImageUtils.java:49-85 | Gaussian blur keeps the size and returns the input itself when kernelSize <= 1. |
| ImageUtils.Truncate | src/main/java/com/workassistant/image/ImageUtils.java:79 | The `(int)` cast truncates toward zero: the result is the integer next to the value on the side of zero. |
| ImageUtils.GaussianIndex | src/main/java/com/workassistant/image/ImageUtils.java:66-81 | Each output sample is the clamped-border convolution, truncated and clamped into 0..255. |
| ImageUtils.GaussianBlurKeepsConstant | src/main/java/com/workassistant/image/ImageUtils.java:66-81 | In exact arithmetic, a kernel whose entries sum to 1 leaves a constant image unchanged. |
| ImageUtils.Convolve | src/main/java/com/workassistant/image/ImageUtils.java:68-77 | The two kernel loops accumulate the convolution sum in the loops' order. |
| ImageUtils.ApplyGaussianBlur | src/main/java/com/workassistant/image/ImageUtils.java:49-85 | The loops compute exactly the Gaussian-blur specification for the kernel given. |
| ImageUtils.FormatIsLowerExtension | src/main/java/com/workassistant/image/ImageUtils.java:332-336 | A path "stem.ext" with a non-empty stem and a dot-free non-empty ext is saved in format lower-case(ext). |
| ImageUtils.FormatDefaultsToPng | src/main/java/com/workassistant/image/ImageUtils.java:332-338 | A path with no dot, ending in a dot, or whose only dot is its first char is saved as "png". |
| ImageUtils.FormatFromPath | src/main/java/com/workassistant/image/ImageUtils.java:332-338 | The format is "png" or the lower-cased, dot-free, non-empty text after a dot that is not the first char. |
| Threshold.Thresholded | src/main/java/com/workassistant/image/impl/OtsuBinarizer.java:119-134 | The output keeps the size and is binary, and a sample is white exactly when it is at least the threshold. |
| Threshold.ApplyThreshold | src/main/java/com/workassistant/image/impl/GlobalBinarizer.java:64-79 | The loop computes exactly the thresholded image (the same method in both binarizers). |
| Threshold.ThresholdAtMostZeroAllWhite | src/main/java/com/workassistant/image/impl/GlobalBinarizer.java:74 | The threshold is never range-checked: a threshold <= 0 makes every sample white. |
| Threshold.ThresholdAbove255AllBlack | src/main/java/com/workassistant/image/impl/GlobalBinarizer.java:74 | A threshold above 255 makes every sample black. |
| Threshold.ThresholdMonotone | src/main/java/com/workassistant/image/impl/GlobalBinarizer.java:72-75 | Raising the threshold never turns a black sample white. |
| Threshold.ThresholdKeepsBinary | src/main/java/com/workassistant/image/impl/GlobalBinarizer.java:72-75 | An image of only 0 and 255 is reproduced exactly by any threshold in 1..255. |
| Otsu.Histogram | src/main/java/com/workassistant/image/impl/OtsuBinarizer.java:70-75 | The histogram has 256 bins, each between 0 and the sample count. |
| Otsu.HistogramTotal | src/main/java/com/workassistant/image/impl/OtsuBinarizer.java:70-77 | The bins of a byte image's histogram add up to its number of samples. |
| Otsu.Variance | src/main/java/com/workassistant/image/impl/OtsuBinarizer.java:101-105 | The variance of a split, with `wB * wF` as a wrapped int product, equals the exact between-class variance whenever that product fits in an int. |
| Otsu.FirstArgMaxUnique | src/main/java/com/workassistant/image/impl/OtsuBinarizer.java:107-110 | The selection rule (first strictly larger score, starting from 0) determines exactly one threshold. |
| Otsu.OtsuThresholdRange | src/main/java/com/workassistant/image/impl/OtsuBinarizer.java:89-113 | The threshold is in 0..255, and unless it is 0 it is a split with two non-empty classes and a positive variance. |
| Otsu.CalculateOtsuThreshold | src/main/java/com/workassistant/image/impl/OtsuBinarizer.java:68-114 | The histogram loop, the intensity sum and the scan return the threshold the selection rule defines. |
| Otsu.ScanThresholds | src/main/java/com/workassistant/image/impl/OtsuBinarizer.java:85-111 | The scan skips splits with an empty background, stops at the first with an empty foreground, and keeps the first strictly best variance. |
| Otsu.OtsuWinnerOccurs | src/main/java/com/workassistant/image/impl/OtsuBinarizer.java:92-111 | When some split has positive variance, the threshold is a grey level that occurs in the image. |
| Otsu.OtsuHasWhite | src/main/java/com/workassistant/image/impl/OtsuBinarizer.java:129 | With `pixel >= threshold`, the Otsu threshold leaves at least one white sample in every non-empty image. |
| Otsu.OtsuUniform | src/main/java/com/workassistant/image/impl/OtsuBinarizer.java:92-111 | A uniform image has no candidate split: the threshold stays 0 and every sample turns white. |
| Otsu.OtsuTwoLevelAllWhite | src/main/java/com/workassistant/image/impl/OtsuBinarizer.java:92-111 | An image of exactly two grey levels a < b gets a threshold at most a, so it comes out entirely white. |
| Otsu.OtsuTwoLevelImage | src/main/java/com/workassistant/image/impl/OtsuBinarizer.java:92-111 | Such an image with at most 46340 samples (no int product wraps) gets exactly threshold a. |
| Otsu.OtsuWeightProductWraps | src/main/java/com/workassistant/image/impl/OtsuBinarizer.java:105 | For 65536 samples of level 10 and 65536 of level 200, `wB * wF` wraps to 0: the threshold is 0 where the exact variances would select 10. |
| Adaptive.BuildIntegralImage | src/main/java/com/workassistant/image/impl/AdaptiveMeanBinarizer.java:107-120 | The table is (h+1) x (w+1); row 0 and column 0 are 0; entry [y][x] is the sum of the samples above row y and left of column x. |
| Adaptive.BoxFromIntegral | src/main/java/com/workassistant/image/impl/AdaptiveMeanBinarizer.java:126-134 | Inclusion-exclusion: the sum of any rectangle is four reads of the summed-area table. |
| Adaptive.IntegralSumIsBox | src/main/java/com/workassistant/image/impl/AdaptiveMeanBinarizer.java:126-134 | `getIntegralSum(x1, y1, x2, y2)` is the sum over the inclusive rectangle for in-range corners. |
| Adaptive.WindowStart | src/main/java/com/workassistant/image/impl/AdaptiveMeanBinarizer.java:83-84 | For r >= 0 the window starts inside the image at or before the pixel; for r = -1 it starts one past it. Either way it is p - r, or 0 when that is negative. |
| Adaptive.WindowEnd | src/main/java/com/workassistant/image/impl/AdaptiveMeanBinarizer.java:85-86 | For r >= 0 the window ends inside the image at or after the pixel; for r = -1 it ends one before it. Either way it is p + r, or n - 1 when that is beyond. |
| Adaptive.WindowCount | src/main/java/com/workassistant/image/impl/AdaptiveMeanBinarizer.java:89 | The sample count of a window is at least 1, so the mean is defined; corners crossed by one on both axes (radius -1) count (-1) * (-1) = 1. |
| Adaptive.AdaptiveThresholded | src/main/java/com/workassistant/image/impl/AdaptiveMeanBinarizer.java:65-101 | For every block size Java completes on (blockSize / 2 >= -1, or no samples) the adaptive output keeps the size and is binary. |
| Adaptive.AdaptivePixel | src/main/java/com/workassistant/image/impl/AdaptiveMeanBinarizer.java:83-95 | One output sample, read through the integral table, is white exactly when the sample is at least the window mean minus C, for radius -1 as well. |
| Adaptive.ApplyAdaptiveThreshold | src/main/java/com/workassistant/image/impl/AdaptiveMeanBinarizer.java:65-101 | Throws ArrayIndexOutOfBoundsException exactly when blockSize / 2 <= -2 and the image has samples; otherwise the integral table and the nested loop compute exactly the adaptive specification. |
| Adaptive.AdaptiveUniform | src/main/java/com/workassistant/image/impl/AdaptiveMeanBinarizer.java:89-95 | On a uniform image every window mean is the sample itself: all white for C >= 0, all black for C < 0 (radius -1 included). |
| Adaptive.AdaptiveExtremeC | src/main/java/com/workassistant/image/impl/AdaptiveMeanBinarizer.java:89-95 | C >= 255 makes every sample white and C < -255 makes every sample black (radius -1 included). |
| Adaptive.IntegralSumOfCrossedWindow | src/main/java/com/workassistant/image/impl/AdaptiveMeanBinarizer.java:126-134 | For radius -1 the corners are (x + 1, y + 1) and (x - 1, y - 1), and the four table reads cancel to the sample at (x, y). |
| Adaptive.AdaptiveSingleSample | src/main/java/com/workassistant/image/impl/AdaptiveMeanBinarizer.java:78-95 | For blockSize -3 .. 1 every window holds one sample, so the output is all white for C >= 0 and all black for C < 0. |
| Adaptive.AdaptiveMinusThreeIsOne | src/main/java/com/workassistant/image/impl/AdaptiveMeanBinarizer.java:78-95 | blockSize -3, which setBlockSize accepts, thresholds exactly like blockSize 1. |
| Adaptive.AdaptiveLargeBlockIsGlobal | src/main/java/com/workassistant/image/impl/AdaptiveMeanBinarizer.java:78-95 | When blockSize/2 >= max(w, h) - 1, every window is the whole image: one cut at the image mean minus C. |
| BinarizeConfiguration.Defaults | src/main/java/com/workassistant/image/BinarizeConfig.java:25-34 | A new configuration is OTSU, threshold 128, blockSize 11, C 2.0, blur 0, morph kernel 3, every flag false. |
| BinarizeConfiguration.BlockSizeAcceptedIffOdd | src/main/java/com/workassistant/image/BinarizeConfig.java:61-67 | setBlockSize accepts exactly the odd values, negatives such as -1 and -3 included, and rejects 0 and -2. |
| BinarizeConfiguration.BlurKernelSizeAcceptedIff | src/main/java/com/workassistant/image/BinarizeConfig.java:82-88 | setBlurKernelSize accepts exactly zero, the negatives and the positive odd values. |
| BinarizeConfiguration.DefaultsValid | src/main/java/com/workassistant/image/BinarizeConfig.java:25-36 | The defaults satisfy the setters' rules. |
| BinarizeConfiguration.BinarizeConfig.constructor | src/main/java/com/workassistant/image/BinarizeConfig.java:36 | A new configuration holds the defaults. |
| BinarizeConfiguration.BinarizeConfig.SetAlgorithm | src/main/java/com/workassistant/image/BinarizeConfig.java:43-46 | Stores the algorithm, changes no other field, returns this. |
| BinarizeConfiguration.BinarizeConfig.SetThreshold | src/main/java/com/workassistant/image/BinarizeConfig.java:52-55 | Stores the threshold unconditionally, changes no other field, returns this. |
| BinarizeConfiguration.BinarizeConfig.SetBlockSize | src/main/java/com/workassistant/image/BinarizeConfig.java:61-67 | An odd value is stored and this returned; an even one throws IllegalArgumentException and leaves every field as it was. |
| BinarizeConfiguration.BinarizeConfig.SetC | src/main/java/com/workassistant/image/BinarizeConfig.java:73-76 | Stores C, changes no other field, returns this. |
| BinarizeConfiguration.BinarizeConfig.SetBlurKernelSize | src/main/java/com/workassistant/image/BinarizeConfig.java:82-88 | A positive even value throws IllegalArgumentException and changes nothing; any other is stored and this returned. |
| BinarizeConfiguration.BinarizeConfig.SetUseMedianBlur | src/main/java/com/workassistant/image/BinarizeConfig.java:94-97 | Stores the flag, changes no other field, returns this. |
| BinarizeConfiguration.BinarizeConfig.SetUseMorphologicalOpening | src/main/java/com/workassistant/image/BinarizeConfig.java:103-106 | Stores the flag, changes no other field, returns this. |
| BinarizeConfiguration.BinarizeConfig.SetUseMorphologicalClosing | src/main/java/com/workassistant/image/BinarizeConfig.java:112-115 | Stores the flag, changes no other field, returns this. |
| BinarizeConfiguration.BinarizeConfig.SetMorphKernelSize | src/main/java/com/workassistant/image/BinarizeConfig.java:121-124 | Stores the size unconditionally, changes no other field, returns this. |
| BinarizeConfiguration.BinarizeConfig.SetUseOpenCV | src/main/java/com/workassistant/image/BinarizeConfig.java:130-133 | Stores the flag, changes no other field, returns this. |
| BinarizeConfiguration.ForOCR | src/main/java/com/workassistant/image/BinarizeConfig.java:139-148 | The OCR preset is the defaults with OTSU, blur 3 and Gaussian (not median) blur. |
| BinarizeConfiguration.ForUnevenLighting | src/main/java/com/workassistant/image/BinarizeConfig.java:150-156 | The uneven-lighting preset is the defaults with ADAPTIVE_MEAN, blockSize 11, C 2.0 and blur 3. |
| Binarizers.CreateBinarizer | src/main/java/com/workassistant/image/BinarizerFactory.java:19-48 | Every failure is an IllegalArgumentException, and an OpenCV binarizer comes back exactly when the flag is set. |
| Binarizers.CreateDefaultBinarizer | src/main/java/com/workassistant/image/BinarizerFactory.java:53-55 | The default binarizer is Otsu. |
| Binarizers.OpenCVFlagOverridesAlgorithm | src/main/java/com/workassistant/image/BinarizerFactory.java:20-30 | With the flag set the algorithm does not matter, and the result is an error exactly when OpenCV is absent. |
| Binarizers.FactoryDispatch | src/main/java/com/workassistant/image/BinarizerFactory.java:32-47 | Without the flag: GLOBAL gives Global, OTSU gives Otsu, both adaptive values give AdaptiveMean, and only OPENCV fails. |
| Binarizers.PresetsGiveJavaBinarizers | src/main/java/com/workassistant/image/BinarizeConfig.java:139-156 | A new configuration and both presets yield a pure Java binarizer whether or not OpenCV is present. |
| Binarizers.Blurred | src/main/java/com/workassistant/image/impl/GlobalBinarizer.java:21-28 | The blur stage keeps the size and does nothing unless blurKernelSize > 1. |
| Binarizers.Morphed | src/main/java/com/workassistant/image/impl/GlobalBinarizer.java:34-39 | Opening then closing keep the size and keep a binary image binary. |
| Binarizers.GlobalBinarized | src/main/java/com/workassistant/image/impl/GlobalBinarizer.java:17-42 | The Global pipeline's output keeps the size and is binary whatever the blur and morphology flags. |
| Binarizers.OtsuBinarized | src/main/java/com/workassistant/image/impl/OtsuBinarizer.java:17-45 | The Otsu pipeline's output keeps the size and is binary. |
| Binarizers.AdaptiveBinarized | src/main/java/com/workassistant/image/impl/AdaptiveMeanBinarizer.java:17-42 | For every block size Java completes on, the adaptive pipeline's output keeps the size and is binary. |
| Binarizers.OpeningOnlyAddsNoWhite | src/main/java/com/workassistant/image/impl/GlobalBinarizer.java:34-36 | On the computed grids, with opening alone, every white output pixel was white after thresholding. |
| Binarizers.ClosingOnlyRemovesNoWhite | src/main/java/com/workassistant/image/impl/GlobalBinarizer.java:37-39 | On the computed grids, with closing alone, every pixel white after thresholding stays white. |
| Binarizers.GlobalKeepsBinaryImage | src/main/java/com/workassistant/image/impl/GlobalBinarizer.java:17-42 | Without blur and morphology, an image of only 0 and 255 survives Global with a threshold in 1..255. |
| Binarizers.OtsuPipelineHasWhite | src/main/java/com/workassistant/image/impl/OtsuBinarizer.java:17-45 | Without morphology, Otsu leaves some pixel of a non-empty image white. |
| Binarizers.OtsuPipelineTwoLevelAllWhite | src/main/java/com/workassistant/image/impl/OtsuBinarizer.java:17-45 | Without blur and morphology, an image of exactly two grey levels comes out all white. |
| Binarizers.GetThresholdMatchesUnblurred | src/main/java/com/workassistant/image/impl/OtsuBinarizer.java:140-143 | getThreshold works on the unblurred image, so it reports the threshold binarize uses only when no blur takes effect. |
| Binarizers.AdaptivePipelineUniform | src/main/java/com/workassistant/image/impl/AdaptiveMeanBinarizer.java:17-42 | A constant image with C >= 0 and no blur or morphology comes out all white, for any block size with blockSize / 2 >= -1. |
| Binarizers.BlurStage | src/main/java/com/workassistant/image/impl/OtsuBinarizer.java:22-28 | The shared blur stage computes the blur specification from the configuration's fields. |
| Binarizers.MorphologyStage | src/main/java/com/workassistant/image/impl/OtsuBinarizer.java:37-42 | The shared morphology stage computes opening-then-closing from the configuration's flags. |
| Binarizers.GlobalBinarize | src/main/java/com/workassistant/image/impl/GlobalBinarizer.java:17-42 | GlobalBinarizer.binarize computes the Global pipeline. |
| Binarizers.OtsuBinarize | src/main/java/com/workassistant/image/impl/OtsuBinarizer.java:17-45 | OtsuBinarizer.binarize thresholds at the Otsu threshold of the blurred image. |
| Binarizers.GetThreshold | src/main/java/com/workassistant/image/impl/OtsuBinarizer.java:140-143 | getThreshold returns the Otsu threshold of the image, a value in 0..255. |
| Binarizers.AdaptiveBinarize | src/main/java/com/workassistant/image/impl/AdaptiveMeanBinarizer.java:17-42 | AdaptiveMeanBinarizer.binarize computes the adaptive pipeline with blockSize and C unchanged, and throws ArrayIndexOutOfBoundsException exactly when blockSize / 2 <= -2 and the image has samples. |
| Binarizers.Binarize | src/main/java/com/workassistant/image/BinarizerFactory.java:19-47 | Global computes the Global pipeline, Otsu the Otsu pipeline at the Otsu threshold of the blurred image, AdaptiveMean the adaptive pipeline or its index error, each result binary and of the input's size; OpenCV throws UnsupportedOperationException. |
| BinarizeCommand.AlgorithmValueOf | src/main/java/com/workassistant/cli/BinarizeCommand.java:81 | `Algorithm.valueOf` either returns a constant or throws IllegalArgumentException. |
| BinarizeCommand.AlgorithmValueOfName | src/main/java/com/workassistant/cli/BinarizeCommand.java:81 | valueOf accepts exactly the constant names, case-sensitively, each giving its own constant back. |
| BinarizeCommand.ParseStep | src/main/java/com/workassistant/cli/BinarizeCommand.java:78-104 | One loop iteration moves the index forward, and settings that pass the setters' checks still pass them afterwards. |
| BinarizeCommand.ParseConfig | src/main/java/com/workassistant/cli/BinarizeCommand.java:74-107 | The loop from index 2 through the setters ends as the option-loop function says, and a parsed configuration holds those settings and is valid. |
| BinarizeCommand.ParseFromKeepsValid | src/main/java/com/workassistant/cli/BinarizeCommand.java:74-107 | Every configuration parseConfig returns passes the setters' checks. |
| BinarizeCommand.UnknownArgumentIgnored | src/main/java/com/workassistant/cli/BinarizeCommand.java:80-103 | An argument that is no recognised option is skipped without effect. |
| BinarizeCommand.TrailingValueOptionIgnored | src/main/java/com/workassistant/cli/BinarizeCommand.java:80-97 | A value option in the last position fails the `i + 1 < args.length` guard and is ignored. |
| BinarizeCommand.ValueIsConsumed | src/main/java/com/workassistant/cli/BinarizeCommand.java:80-97 | A value option moves the scan two places on, so its value is never read as an option. |
| BinarizeCommand.ThresholdStep | src/main/java/com/workassistant/cli/BinarizeCommand.java:82-83 | A `--threshold` followed by an int literal stores that int and moves the scan past the value. |
| BinarizeCommand.RepeatedThresholdLastWins | src/main/java/com/workassistant/cli/BinarizeCommand.java:82-83 | Two `--threshold` options in a row leave only the second value. |
| BinarizeCommand.NoOptionsGiveDefaults | src/main/java/com/workassistant/cli/BinarizeCommand.java:75 | Without options the configuration equals a new one. |
| BinarizeCommand.OpenCVOptionSetsOnlyFlag | src/main/java/com/workassistant/cli/BinarizeCommand.java:98-99 | `--opencv` alone sets useOpenCV and nothing else. |
| BinarizeCommand.HelpFirstExits | src/main/java/com/workassistant/cli/BinarizeCommand.java:100-103 | `--help` right after the two paths ends with usage and exit code 0. |
| BinarizeCommand.EvenBlockSizeBeatsHelp | src/main/java/com/workassistant/cli/BinarizeCommand.java:84-85 | An even `--block-size` before `--help` throws first, so `--help` is never reached. |
| BinarizeCommand.Command | src/main/java/com/workassistant/cli/BinarizeCommand.java:23-42 | Fewer than two arguments is exactly the usage exit with code 1; otherwise args[0] and args[1] are the input and output paths. |
| BinarizeCommand.RejectedValueIsUncaught | src/main/java/com/workassistant/cli/BinarizeCommand.java:33-35 | A value the configuration rejects throws inside parseConfig, outside the try, so it escapes the "Error:" handler. |
| BinarizeCommand.FactoryErrorIsCaught | src/main/java/com/workassistant/cli/BinarizeCommand.java:42 | Asking for OpenCV when it is absent is caught by the handler as the factory's IllegalArgumentException. |
| BinarizeCommand.ProceedsWithValidSettings | src/main/java/com/workassistant/cli/BinarizeCommand.java:33-42 | Every binarizer main goes on with was built from settings that pass the setters' checks. |
| ChatModel.NewUser | src/main/java/com/workassistant/model/User.java:17-22 | A new user carries its id and nickname and is online. |
| ChatModel.Channel.constructor | src/main/java/com/workassistant/model/Channel.java:22-29 | A new channel has the given fields, the creation time, and no members. |
| ChatModel.Channel.SetMembers | src/main/java/com/workassistant/model/Channel.java:75-77 | setMembers installs the list unchanged, duplicates and all, and touches no other field. |
| ChatModel.Channel.AddMember | src/main/java/com/workassistant/model/Channel.java:79-83 | addMember appends the user at the end only if absent; the other fields are unchanged. |
| Lists.AppendIfAbsent | src/main/java/com/workassistant/model/Channel.java:79-83 | The element is present afterwards, nothing else is added, the old list is a prefix, the length grows by one exactly when it was absent, and no duplicate is introduced. |
| Lists.AppendIfAbsentIdempotent | src/main/java/com/workassistant/model/ClipboardData.java:84-91 | Adding the same element twice is the same as adding it once. |
| ChatModel.ClipboardImage.Empty | src/main/java/com/workassistant/model/ClipboardData.java:50-52 | The no-argument constructor leaves an empty, non-null keyword list. |
| ChatModel.ClipboardImage.constructor | src/main/java/com/workassistant/model/ClipboardData.java:54-58 | A null keyword list becomes an empty one. |
| ChatModel.ClipboardImage.SetKeywords | src/main/java/com/workassistant/model/ClipboardData.java:80-82 | setKeywords installs the list as given, null included. |
| ChatModel.ClipboardImage.AddKeyword | src/main/java/com/workassistant/model/ClipboardData.java:84-91 | addKeyword creates a missing list, then appends the keyword only if absent. |
| ChatModel.ClipboardData.Empty | src/main/java/com/workassistant/model/ClipboardData.java:13-15 | The no-argument constructor leaves no text and an empty, non-null image list. |
| ChatModel.ClipboardData.constructor | src/main/java/com/workassistant/model/ClipboardData.java:17-20 | A null image list becomes an empty one. |
| ChatModel.ClipboardData.SetImages | src/main/java/com/workassistant/model/ClipboardData.java:34-36 | setImages installs the list as given, null included. |
| ChatModel.ClipboardData.AddImage | src/main/java/com/workassistant/model/ClipboardData.java:38-43 | addImage creates a missing list, then appends, growing it by exactly one. |
| ChatServices.PrivateChannelId | src/main/java/com/workassistant/service/ChatService.java:42 | A private channel id is the 8-char prefix "private-" followed by exactly the user id. |
| ChatServices.PrivateChannelIdInjective | src/main/java/com/workassistant/service/ChatService.java:42 | Distinct users get distinct private channels, and none of them is "general". |
| ChatServices.AIMessage | src/main/java/com/workassistant/service/ChatService.java:128-130 | The assistant's message is from "ai-eking" / "eking", of type AI, with the given channel and content. |
| ChatServices.OnlineUsers | src/main/java/com/workassistant/service/ChatService.java:70-74 | getOnlineUsers lists exactly the stored users whose online flag is set. |
| ChatServices.SetOnlineListed | src/main/java/com/workassistant/service/ChatService.java:76-81 | After setUserOnline(id, b) that user is listed online exactly when b, and every other user is listed as before. |
| ChatServices.LastMessages | src/main/java/com/workassistant/service/ChatService.java:144-151 | The whole list when it has at most `limit` entries, else its last `limit` in order; a negative limit fails: IndexOutOfBoundsException when `size - limit` wraps below zero, IllegalArgumentException otherwise. |
| ChatServices.LastMessagesBounds | src/main/java/com/workassistant/service/ChatService.java:144-151 | A limit at least the length returns the whole list; limit 0 returns nothing; Integer.MIN_VALUE throws IndexOutOfBoundsException. |
| ChatServices.ChatService.constructor | src/main/java/com/workassistant/service/ChatService.java:21-26 | The initial store is one non-private "general" channel with no members and an empty message list, and no users. |
| ChatServices.ChatService.CreateUser | src/main/java/com/workassistant/service/ChatService.java:36-60 | Stores the user, adds the private channel with the user as only member, and seeds its list with exactly the assistant's welcome; other channels are unchanged. |
| ChatServices.ChatService.NewPrivateChannel | src/main/java/com/workassistant/service/ChatService.java:42-45 | The private channel is a fresh private channel "private-"+id, named "AI Assistant (Private)", created by and holding only its owner. |
| ChatServices.ChatService.SetUserOnline | src/main/java/com/workassistant/service/ChatService.java:76-81 | Changes only that user's flag, and nothing at all for an unknown id. |
| ChatServices.ChatService.CreateChannel | src/main/java/com/workassistant/service/ChatService.java:84-90 | Adds one new non-private channel with an empty list and touches nothing else. |
| ChatServices.ChatService.UserChannels | src/main/java/com/workassistant/service/ChatService.java:100-104 | getUserChannels returns only stored channels. |
| ChatServices.ChatService.PrivateChannelVisibility | src/main/java/com/workassistant/service/ChatService.java:100-104 | A user sees its own private channel and never a private channel of someone else that does not list it. |
| ChatServices.ChatService.Post | src/main/java/com/workassistant/service/ChatService.java:120-123 | A message is appended exactly when its channel has a list; users and channels are unchanged. |
| ChatServices.ChatService.SendMessage | src/main/java/com/workassistant/service/ChatService.java:111-126 | An unknown user gets null and nothing changes; otherwise a USER message under the user's nickname, appended when the channel has a list. |
| ChatServices.ChatService.SendAIMessage | src/main/java/com/workassistant/service/ChatService.java:128-138 | Always returns the assistant's message, appended exactly when the channel has a list. |
| ChatServices.ChatService.ChannelMessages | src/main/java/com/workassistant/service/ChatService.java:140-142 | An unknown channel gives an empty list; in a valid service every message returned belongs to the channel asked for. |
| ChatServices.ChatService.ChannelMessagesLimited | src/main/java/com/workassistant/service/ChatService.java:144-151 | A suffix of the channel's list; for limit >= 0 it succeeds with at most `limit` messages, for a negative limit it fails. |
| SvgConverter.TrimKeepsPrefix | src/main/java/com/workassistant/util/SVGConverter.java:52 | Trimming keeps a prefix that starts and ends with a visible char. |
| SvgConverter.IsSvgMimeType | src/main/java/com/workassistant/util/SVGConverter.java:47-57 | A MIME type is SVG only if, lower-cased and trimmed, it starts with image/svg+xml or text/svg. |
| SvgConverter.IsSvgContent | src/main/java/com/workassistant/util/SVGConverter.java:66-83 | SVG content needs non-empty content and a MIME type, and non-empty content with an SVG MIME type is always SVG. |
| SvgConverter.SvgMimeTypeWithParameters | src/main/java/com/workassistant/util/SVGConverter.java:47-57 | "image/svg+xml;" followed by any parameters is an SVG MIME type. |
| SvgConverter.XmlContentWithSvgTag | src/main/java/com/workassistant/util/SVGConverter.java:66-83 | Non-empty content holding "<svg" under a MIME type that mentions "xml" is recognised as SVG. |
| SvgConverter.KeepNumberChars | src/main/java/com/workassistant/util/SVGConverter.java:252 | The kept chars are only digits and dots, and no more than the input's. |
| SvgConverter.TruncatedDecimal | src/main/java/com/workassistant/util/SVGConverter.java:257 | `(int) Double.parseDouble` of a digit string is its value, capped at Integer.MAX_VALUE; any result lies in 0..MAX_VALUE. |
| SvgConverter.TruncatedDecimalDropsFraction | src/main/java/com/workassistant/util/SVGConverter.java:257 | A decimal with a fraction is cut to its whole part. |
| SvgConverter.DimensionValue | src/main/java/com/workassistant/util/SVGConverter.java:235-262 | The value is -1 or a non-negative int, and -1 when the tag lacks `attribute="`. |
| SvgConverter.DimensionValueReadsNumber | src/main/java/com/workassistant/util/SVGConverter.java:237-258 | When the first `attribute="` is followed by digits and a quote, the value is those digits' number, capped at Integer.MAX_VALUE. |
| SvgConverter.SvgDimensions | src/main/java/com/workassistant/util/SVGConverter.java:195-230 | Both dimensions are always positive ints. |
| SvgConverter.NoSvgTagGivesDefaults | src/main/java/com/workassistant/util/SVGConverter.java:204-208 | Content with no "<svg" in any case gets 800 x 600. |
| SvgConverter.SvgDimensionsOfRootTag | src/main/java/com/workassistant/util/SVGConverter.java:204-225 | When the root tag's width and height hold plain positive numbers, the size is exactly those numbers. |
| SvgConverter.ConvertTextError | src/main/java/com/workassistant/util/SVGConverter.java:107-114 | The string overload proceeds exactly for non-blank content and a positive size, and otherwise throws IllegalArgumentException. |
| SvgConverter.ExtractedSizeAccepted | src/main/java/com/workassistant/util/SVGConverter.java:107-114 | The size read from any content is a size the converter accepts. |
| SvgConverter.ConvertErrorsByOverload | src/main/java/com/workassistant/util/SVGConverter.java:162-182 | An empty stream is rejected as empty bytes, and a blank decoded text as empty content. |
| OcrService.FirstFrom | src/main/java/com/workassistant/service/OCRService.java:163-172 | The first occurrence of the pattern at or after `from`, or -1 when there is none. |
| OcrService.Last | src/main/java/com/workassistant/service/OCRService.java:175-184 | The last occurrence of the pattern, or -1 exactly when it does not occur. |
| OcrService.IndexOf | src/main/java/com/workassistant/service/OCRService.java:163-172 | The labelled-continue scan returns the first occurrence of the pattern, or -1. |
| OcrService.LastIndexOf | src/main/java/com/workassistant/service/OCRService.java:175-184 | The downward scan returns the last occurrence of the pattern, or -1. |
| OcrService.JpegSliceMarkers | src/main/java/com/workassistant/service/OCRService.java:121-124 | The cut copy is a contiguous piece of the input that starts with FF D8 and ends with FF D9; it is absent exactly when there is no SOI or every EOI lies at or before the first SOI. |
| OcrService.TrimToJpegMarkers | src/main/java/com/workassistant/service/OCRService.java:121-124 | The two searches and `copyOfRange(start, end + 2)` compute the cut copy. |
| OcrService.ExtractText | src/main/java/com/workassistant/service/OCRService.java:78-159 | "" when Tesseract is unavailable or the name has a vector suffix; any text returned starts and ends with a visible char. |
| OcrService.ExtractTextEarlyReturns | src/main/java/com/workassistant/service/OCRService.java:78-159 | "" when unavailable, for names ending ".SVG" or ".svgz" (the suffix test ignores case), and for errors other than the JPEG metadata one; any text returned is trimmed. |
| OcrService.Filtered | src/main/java/com/workassistant/service/OCRService.java:245-256 | The kept words are exactly the words that pass the length and stop-word filters. |
| OcrService.Distinct | src/main/java/com/workassistant/service/OCRService.java:257 | `distinct()` keeps every element once and nothing else. |
| OcrService.DistinctKeepsOrder | src/main/java/com/workassistant/service/OCRService.java:257 | `distinct()` keeps the order of first occurrences. |
| OcrService.Take | src/main/java/com/workassistant/service/OCRService.java:258 | `limit(n)` is a prefix of at most n elements, all of a shorter list. |
| OcrService.KeywordsFromText | src/main/java/com/workassistant/service/OCRService.java:225-260 | None for null or blank text; otherwise at most 20 distinct keywords, each passing the three filters. |
| OcrService.KeywordsProperties | src/main/java/com/workassistant/service/OCRService.java:244-259 | Keywords pass every filter, are distinct, at most 20, in first-occurrence order; fewer than 20 means every passing word is there. |
| OcrService.NoTextNoKeywords | src/main/java/com/workassistant/service/OCRService.java:208-228 | Null or blank text gives no keywords, and so does an unavailable service. |
| OcrService.KeepWordRules | src/main/java/com/workassistant/service/OCRService.java:246-256 | A two-char word with a CJK char always passes, a Latin word of at most three chars never does, a stop word never does whatever its case. |
| OcrService.StopWordLengths | src/main/java/com/workassistant/service/OCRService.java:237-242 | Every stop word has three or four chars, so only the four-char ones are not already removed by the length filter. |
| OcrService.CapitalisedStopWordDropped | src/main/java/com/workassistant/service/OCRService.java:256 | "That" is dropped: the stop-word test lower-cases first. |
| OllamaServices.MessageArray.Add | src/main/java/com/workassistant/service/OllamaService.java:304 | `add` appends one message at the end. |
| OllamaServices.MessageArray.InsertFirst | src/main/java/com/workassistant/service/OllamaService.java:519 | `insert(0, m)` puts m first and shifts the rest unchanged. |
| OllamaServices.WithSystemMessage | src/main/java/com/workassistant/service/OllamaService.java:498-522 | The list is unchanged when disabled or already led by a system message; otherwise one system message is put first. |
| OllamaServices.WithSystemMessageShape | src/main/java/com/workassistant/service/OllamaService.java:498-522 | Prepending keeps the original messages, in order, after at most one new one, and when enabled the list then starts with a system message. |
| OllamaServices.WithSystemMessageIdempotent | src/main/java/com/workassistant/service/OllamaService.java:505-510 | Prepending twice is prepending once. |
| OllamaServices.ToolsField | src/main/java/com/workassistant/service/OllamaService.java:334-341 | "tools" is set exactly when toolsJson is non-empty and parses, to the parsed node. |
| OllamaServices.ToolResultMessages | src/main/java/com/workassistant/service/OllamaService.java:316-328 | At most one tool message is added. |
| OllamaServices.ContinuationHistory | src/main/java/com/workassistant/service/OllamaService.java:295-331 | The history holds 2 to 4 messages, among them the user message (instruction + prompt) and the assistant's tool-call message. |
| OllamaServices.ContinuationHistoryOrder | src/main/java/com/workassistant/service/OllamaService.java:295-331 | The history is [system?], user (instruction + prompt), assistant ("" + tool_calls), then a tool message exactly when the first call names a function, carrying tool_call_id exactly when the call has an id. |
| OllamaServices.FunctionCallRoundTrip | src/main/java/com/workassistant/service/OllamaService.java:459-462 | A non-empty tool-call array is reported with the marker the controller recognises (ChatController.java:287), and stripping it and trimming (ChatController.java:526) gives the array's JSON back. |
| OllamaServices.ResponseText | src/main/java/com/workassistant/service/OllamaService.java:451-484 | A message with a non-empty tool-call array gives "FUNCTION_CALL: " + its JSON; anything else gives the message content or the raw body. |
| OllamaServices.ResponseTextFallbacks | src/main/java/com/workassistant/service/OllamaService.java:451-484 | Without tool calls the text is the message content; without that, or on a parse failure, the raw body. |
| OllamaServices.ContinuationResponseText | src/main/java/com/workassistant/service/OllamaService.java:362-386 | The continuation gives the message content when there is one, and otherwise the raw body. |
| OllamaServices.ContinuationIgnoresToolCalls | src/main/java/com/workassistant/service/OllamaService.java:368-378 | The continuation's mapping agrees with generateChatWithTools except on a message with tool calls, where it returns the content (or body) instead of the FUNCTION_CALL marker. |
| OllamaServices.OllamaService.PrependDefaultSystemMessage | src/main/java/com/workassistant/service/OllamaService.java:498-522 | The array becomes the system-message list the configuration asks for. |
| OllamaServices.OllamaService.ContinuationRequest | src/main/java/com/workassistant/service/OllamaService.java:278-341 | The request has the model, stream false, the continuation history and the tools field. |
| OllamaServices.OllamaService.ChatWithToolsRequest | src/main/java/com/workassistant/service/OllamaService.java:402-430 | The request has the model, stream false, the optional system message then the user prompt, and the tools field. |
| SystemMessages.LoadedMessage | src/main/java/com/workassistant/config/SystemMessageConfig.java:41-77 | A non-blank env value wins (kept untrimmed), then the file's "message" field, then the built-in text. |
| SystemMessages.DisabledOnlyByEmptyFileMessage | src/main/java/com/workassistant/config/SystemMessageConfig.java:41-77 | The message is empty exactly when no usable env value exists and the file's "message" is "". |
| SystemMessages.BlankEnvIgnored | src/main/java/com/workassistant/config/SystemMessageConfig.java:44 | A blank env value counts as no value. |
| SystemMessages.FileFallbacks | src/main/java/com/workassistant/config/SystemMessageConfig.java:53-74 | A missing or unreadable file, or one without "message", gives the built-in text. |
| SystemMessages.SystemMessageConfig.constructor | src/main/java/com/workassistant/config/SystemMessageConfig.java:26-28 | The constructor stores the message loadConfiguration settles on. |
| SystemMessages.SystemMessageConfig.LoadConfiguration | src/main/java/com/workassistant/config/SystemMessageConfig.java:41-77 | The field is assigned once, by priority. |
| SystemMessages.SystemMessageConfig.DefaultSystemMessage | src/main/java/com/workassistant/config/SystemMessageConfig.java:83-92 | getDefaultSystemMessage is non-null exactly when isEnabled, and then it is the stored message. |
| SystemMessages.SystemMessageConfig.IsEnabled | src/main/java/com/workassistant/config/SystemMessageConfig.java:90-92 | Enabled exactly when a message is stored and it is non-empty. |
| SystemMessages.LoadedConfigEnabled | src/main/java/com/workassistant/config/SystemMessageConfig.java:83-92 | A loaded configuration is enabled unless the file's message is empty. |
| SystemMessages.TruncateForLog | src/main/java/com/workassistant/config/SystemMessageConfig.java:97-104 | "null" for null; otherwise a prefix of at most 30 chars of the single-line form, all of it when that fits. |
| SystemMessages.TruncateForLogIsOneLine | src/main/java/com/workassistant/config/SystemMessageConfig.java:99 | The log preview holds no line feed and no carriage return. |
| AppConfiguration.AppConfig.GetProperty | src/main/java/com/workassistant/config/AppConfig.java:37-39 | The stored value exactly when the key is present, else null. |
| AppConfiguration.AppConfig.GetPropertyOr | src/main/java/com/workassistant/config/AppConfig.java:41-43 | The default exactly when the key is absent, else the stored value. |
| AppConfiguration.AppConfig.GetIntProperty | src/main/java/com/workassistant/config/AppConfig.java:45-55 | The default when the key is absent or the value is no int literal, else the parsed value. |
| AppConfiguration.AppConfig.ServerPort | src/main/java/com/workassistant/config/AppConfig.java:58-60 | An int: 8080 when server.port is unset or not an int literal, else the parsed value. |
| AppConfiguration.AppConfig.ZentaoUrl | src/main/java/com/workassistant/config/AppConfig.java:63-65 | null exactly when zentao.url is unset, else its value. |
| AppConfiguration.AppConfig.ZentaoAccount | src/main/java/com/workassistant/config/AppConfig.java:67-69 | null exactly when zentao.account is unset, else its value. |
| AppConfiguration.AppConfig.ZentaoPassword | src/main/java/com/workassistant/config/AppConfig.java:71-73 | null exactly when zentao.password is unset, else its value. |
| AppConfiguration.AppConfig.OllamaUrl | src/main/java/com/workassistant/config/AppConfig.java:76-78 | null exactly when ollama.url is unset, else its value. |
| AppConfiguration.AppConfig.OllamaModel | src/main/java/com/workassistant/config/AppConfig.java:80-82 | The value of ollama.model, "llama2" when unset. |
| AppConfiguration.AppConfig.OllamaTimeout | src/main/java/com/workassistant/config/AppConfig.java:84-86 | An int: 120000 when ollama.timeout is unset or not an int literal, else the parsed value. |
| AppConfiguration.AppConfig.CorsEnabled | src/main/java/com/workassistant/config/AppConfig.java:89-91 | On when cors.enabled is unset; otherwise on exactly when its value is "true" in any case. |
| AppConfiguration.AppConfig.CorsOrigins | src/main/java/com/workassistant/config/AppConfig.java:93-95 | The value of cors.origins, "*" when unset. |
| AppConfiguration.GetPropertyOverloadsAgree | src/main/java/com/workassistant/config/AppConfig.java:37-43 | The defaulting overload is the plain one with null replaced by the default, so it returns the default exactly when the key is absent or stores that very value. |
| AppConfiguration.IntPropertyRoundTrip | src/main/java/com/workassistant/config/AppConfig.java:45-55 | An int property written by Integer.toString reads back as that int. |
| AppConfiguration.MalformedIntPropertyFallsBack | src/main/java/com/workassistant/config/AppConfig.java:50-53 | A value with a char that is neither a digit nor a leading sign falls back to the default. |
| AppConfiguration.EmptyConfigDefaults | src/main/java/com/workassistant/config/AppConfig.java:58-95 | With no properties: port 8080, timeout 120000, model "llama2", origins "*", CORS enabled, URLs null. |
| AppConfiguration.CorsEnabledRule | src/main/java/com/workassistant/config/AppConfig.java:89-91 | CORS is on when the key is absent, else exactly when the value is "true" in any case. |
| AppConfiguration.CorsEnabledSpellings | src/main/java/com/workassistant/config/AppConfig.java:89-91 | "TRUE" and "True" enable CORS; "yes", "1" and null do not. |
| ChatRules.SendDecisionRules | src/main/java/com/workassistant/controller/ChatController.java:192-212 | Rejected exactly when a field is missing or the content is blank; a channel is created exactly when the trimmed content is '#' plus something non-blank, named by that remainder; anything else is posted trimmed. |
| ChatRules.SendDecision | src/main/java/com/workassistant/controller/ChatController.java:192-212 | A channel name created, or a content posted, is non-empty and starts and ends with a visible char. |
| ChatRules.BareHashIsPosted | src/main/java/com/workassistant/controller/ChatController.java:198-212 | Content trimming to a bare "#" is posted as an ordinary message. |
| ChatRules.HashNameCreatesChannel | src/main/java/com/workassistant/controller/ChatController.java:198-201 | Content trimming to "#name" creates channel "name". |
| ChatRules.MentionTriggersAI | src/main/java/com/workassistant/controller/ChatController.java:224 | A mention of "@eking" anywhere triggers the assistant in any channel. |
| ChatRules.TriggersAI | src/main/java/com/workassistant/controller/ChatController.java:224 | A private channel always triggers the assistant; without an '@' in a public or missing channel it stays silent. |
| ChatRules.Prompt | src/main/java/com/workassistant/controller/ChatController.java:258-262 | The prompt is never empty and starts and ends with a visible char. |
| ChatRules.PromptRules | src/main/java/com/workassistant/controller/ChatController.java:258-262 | A bare mention becomes the greeting; text without '@' is only trimmed. |
| ChatRules.MisdecodedSearchWordsNeverMatch | src/main/java/com/workassistant/controller/ChatController.java:273-274 | The two non-English search words, as the file spells them, start with an upper-case letter and can never occur in a lower-cased prompt. |
| ChatRules.RouteByEnglishWords | src/main/java/com/workassistant/controller/ChatController.java:265-280 | Search exactly when the lower-cased prompt holds "search", "find" or "look for"; summary exactly when it holds a summary word and none of those. |
| ChatRules.CapitalisedSearchRoutesToSearch | src/main/java/com/workassistant/controller/ChatController.java:270-278 | "Search" in any case routes to search, even next to "summary". |
| ChatRules.RouteOf | src/main/java/com/workassistant/controller/ChatController.java:264-281 | Search exactly when a search word occurs; summary exactly when a summary word occurs and no search word; chat otherwise. |
| ChatRules.HeadingTitle | src/main/java/com/workassistant/controller/ChatController.java:370-378 | A response "# title\n body" gives that title and the trimmed body as content. |
| ChatRules.HeadingLine | src/main/java/com/workassistant/controller/ChatController.java:370-374 | The first line of "# title\n..." is the heading line, already trimmed, and starts with '#'. |
| ChatRules.LineFeedsOnlyKeepDefaultTitle | src/main/java/com/workassistant/controller/ChatController.java:365-371 | A response of only line feeds splits into no lines, so the title stays "AI Summary". |
| ChatRules.FallbackKeywords | src/main/java/com/workassistant/controller/ChatController.java:395-403 | Every title word longer than 3 chars contributes its keyword, lower-cased and reduced to [a-z0-9] (so possibly short or empty); no keyword holds another char, and there are no more keywords than words. |
| ChatRules.ShortWordsGiveNoKeywords | src/main/java/com/workassistant/controller/ChatController.java:397-401 | Words of at most three chars contribute no keyword. |
| ChatRules.PunctuationWordGivesEmptyKeyword | src/main/java/com/workassistant/controller/ChatController.java:400 | "----" yields the empty keyword. |
| ChatRules.ParseSummaryResponse | src/main/java/com/workassistant/controller/ChatController.java:363-407 | Title and content come from the first line; explicit keywords win; otherwise the fallback gives at most one per title word. |
| ChatRules.Snippet | src/main/java/com/workassistant/controller/ChatController.java:495-498 | Content of at most 300 chars is kept; longer content becomes its first 300 chars plus "...". |
| ChatRules.FormatSearchResults | src/main/java/com/workassistant/controller/ChatController.java:483-516 | The StringBuilder loop with its counter produces exactly the header followed by the numbered entries. |
| ChatRules.AppendEntryShape | src/main/java/com/workassistant/controller/ChatController.java:492-511 | An entry extends the text, and ends with "---" exactly when it is not the last. |
| ChatRules.ResultsTextKeepsHeader | src/main/java/com/workassistant/controller/ChatController.java:484-513 | The text after any number of entries still begins with the header. |
| ChatRules.SearchResultsHeader | src/main/java/com/workassistant/controller/ChatController.java:485-488 | The text starts with the header; the noun is "summary" exactly for one result; with no results the text is the header, ending in "---". |
| ChatRules.SearchResultsSeparators | src/main/java/com/workassistant/controller/ChatController.java:509-511 | Every entry but the last is followed by "---", and a non-empty list does not end with one. |
| ChatRules.SearchResultsText | src/main/java/com/workassistant/controller/ChatController.java:483-516 | With results, the text ends with the last entry's "*Created: ...*" line and its blank line. |
| ChatRules.FirstIndexWithId | src/main/java/com/workassistant/controller/ChatController.java:729-731 | `findFirst`: the first index whose user has the id, or -1 when none has. |
| ChatRules.OtherEntries | src/main/java/com/workassistant/controller/ChatController.java:747-760 | The rest are entries of non-matching users, unmarked, never more than the input. |
| ChatRules.OtherEntriesAllDiffer | src/main/java/com/workassistant/controller/ChatController.java:747-760 | When no user matches, the rest are every user, unmarked, position by position in input order. |
| ChatRules.OtherEntriesComplete | src/main/java/com/workassistant/controller/ChatController.java:747-760 | Every user whose id differs has its entry among the rest. |
| ChatRules.CurrentUserEntry | src/main/java/com/workassistant/controller/ChatController.java:729-745 | The `findFirst` pass yields the first matching user's entry, marked current, or nothing. |
| ChatRules.CollectOtherEntries | src/main/java/com/workassistant/controller/ChatController.java:747-760 | The filter-and-forEach pass yields exactly the entries of the other users. |
| ChatRules.BuildPersonalizedUserList | src/main/java/com/workassistant/controller/ChatController.java:725-763 | The two passes build exactly the personalised list. |
| ChatRules.PersonalizedUserList | src/main/java/com/workassistant/controller/ChatController.java:725-763 | An entry is marked current exactly when its id is the current user's, and only the first entry can be. |
| ChatRules.PersonalizedUserListProperties | src/main/java/com/workassistant/controller/ChatController.java:725-763 | The first matching user, if any, comes first and is the only entry marked current; every other user appears; the list is never longer than the input. |
| ChatRules.OtherEntriesSkipsMatch | src/main/java/com/workassistant/controller/ChatController.java:748 | A matching user has no entry among the rest. |
| ChatRules.NoCurrentUserKeepsOrder | src/main/java/com/workassistant/controller/ChatController.java:747-760 | With nobody matching, the list is every user, unmarked, in order. |
| ChatRules.TitleFromCleaned | src/main/java/com/workassistant/controller/ChatController.java:1107-1112 | The title is 1..100 chars: a short one unchanged, a long one its first 97 plus "...", an empty one "Clipboard Content". |
| ChatRules.ClipboardTitle | src/main/java/com/workassistant/controller/ChatController.java:1099-1116 | The title is 1..100 chars, and "Clipboard Content" when the model call threw. |
| ChatRules.TitleFromCleanedIdempotent | src/main/java/com/workassistant/controller/ChatController.java:1107-1112 | A produced title passes through the rule unchanged. |

## Left out

- The AWT and ImageIO plumbing of ImageUtils is not modelled: `toGrayscale`, `toBinaryImage`, `getPixels`/`setPixels`, `loadImage` and `saveImage`. Images are grey sample grids with one sample per pixel, and each operation's result is the grid its loops compute.
- ImageUtils.Eroded: like ImageUtils.Dilated, ImageUtils.Opened, ImageUtils.Closed, ImageUtils.OpeningAddsNoWhite, ImageUtils.ClosingRemovesNoWhite, Binarizers.Morphed, Binarizers.OpeningOnlyAddsNoWhite and Binarizers.ClosingOnlyRemovesNoWhite, it states the per-pixel result the erode and dilate loops compute (ImageUtils.java:141-157, 175-191). Java writes that result into a `TYPE_BYTE_BINARY` image (ImageUtils.java:135, 169), a packed raster of one bit per pixel, and `setPixels` copies the unpacked bytes into it without conversion (ImageUtils.java:159, 193, 285). For a non-uniform image of width 2 or more the image Java returns therefore differs from the computed grid: eroding then dilating the 16x1 row [255, 0 x 15] with kernel 1 comes back all white. The model does not capture this packing.
- ChatModel.Channel.SetMembers: stores a copy of the given sequence. Java keeps the caller's list by reference (Channel.java:75-77), so a later `addMember` also changes the caller's list, and `null` is accepted; aliasing and null are not modelled.
- The Gaussian kernel (`generateGaussianKernel`, `Math.exp`) is a parameter. Doubles are exact reals, so results near ties may differ from IEEE arithmetic.
- ImageUtils.GaussianBlurKeepsConstant: holds in exact arithmetic only; rounding of the double sum is not modelled.
- ImageUtils.GaussianBlurred: an even kernel size above 1 is excluded by its requires (`BlurKernelOk`). Java would read `kernel[ky + radius][kx + radius]` at index k of a k-entry row (ImageUtils.java:62,75) and throw ArrayIndexOutOfBoundsException. The setters never store such a size.
- ImageUtils.MedianBlurred: an even kernel size above 1 is excluded by its requires (`BlurKernelOk`). Java would overrun the k*k window buffer there.
- Adaptive.AdaptiveThresholded: is defined where Java completes. For blockSize <= -5 (radius <= -2) on an image with samples, Java throws ArrayIndexOutOfBoundsException at the first sample; that outcome is stated by ApplyAdaptiveThreshold, AdaptiveBinarize and Binarize.
- Otsu: `sum` and `sumB` wrap each `i * histogram[i]` product to 32 bits as Java does. Products of int values are written out with `Wrap32`. Double rounding of the variance is not modelled.
- The OpenCV binarizer is modelled only as the factory's error (class absent) and as an UnsupportedOperationException from binarize. Reflective loading is not modelled.
- BinarizeCommand.main: printing, timing, image I/O and `System.exit` become outcome values; `Double.parseDouble` is a parameter.
- ChatController's handlers, WebSocket sessions, broadcasts, executor and scheduling are not modelled. Neither are the HTTP calls of OllamaService, ZentaoService and ElasticsearchService, the other controllers, or the application routing.
- ChatRules.ParseSummaryResponse: the "Keywords:" regular expression is a parameter (`explicitKeywords`). So are the three cleanup `replaceAll` calls of the clipboard title (`cleanup`) and the prompt text sent for the title.
- ChatRules.MisdecodedSearchWordsNeverMatch: the two non-English search words are modelled as the characters the source file holds after a wrong decoding. Read that way, they never match, so routing depends on the English words only.
- Tesseract OCR, ImageIO re-encoding and temp files in OCRService are parameters (`OcrCall`, `Recovery`). So are Batik transcoding, Base64 and UTF-8 decoding in SVGConverter.
- `TextUtils.containsCJKCharacters` and `TextUtils.PUNCTUATION_PATTERN` are parameters (TextUtils is not part of this model).
- `String.split("\\s+")` is modelled by `Words`, which drops the empty leading piece.
- ChatServices.ChatService.UserChannels: its ensures only says the result is a set of stored channels. The visibility rule is its body, and PrivateChannelVisibility states the consequences.
- SvgConverter.SvgDimensions: its ensures only bounds the result. The size read from a tag is stated by SvgDimensionsOfRootTag and NoSvgTagGivesDefaults.
- SvgConverter.TruncatedDecimal: reads the decimal exactly, while `Double.parseDouble` first rounds it to the nearest double. A string with more significant digits than a double holds can differ: "4.99999999999999999" parses to 5.0, so Java gives 5 where the model gives 4. Exponent forms are not modelled either (the input has only digits and dots).
- SvgConverter.TruncatedDecimalDropsFraction: holds for the exact decimal. When the fraction is so close to 1 that the nearest double is whole + 1, Java gives whole + 1.
- Jackson JSON nodes become records of the fields the code sets; `readTree` is a parameter. `LocalDateTime` values and their formatting are opaque timestamps.
- JavaLang.ParseInt: accepts ASCII digits only. `Integer.parseInt` reads any Unicode decimal digit through `Character.digit`, such as Arabic-Indic or full-width digits; the model rejects those.
- AppConfiguration.MalformedIntPropertyFallsBack: "digit" means an ASCII digit here. A value of Unicode decimal digits that Java parses falls back to the default in the model. The same holds for AppConfiguration.AppConfig.GetIntProperty and the CLI's `--threshold` and `--block-size`.
- Java strings are UTF-16 code-unit sequences and Dafny's are char sequences. `ToLower` covers ASCII and Latin-1 only.
- The singletons (`getInstance`) and the concurrent maps' thread safety are not modelled.
- `properties.load` in AppConfig is not modelled; the loaded pairs are a map.
- Members the source calls but does not define are not modelled: `ChatService.isNicknameExists`, `removeUser` and `sendClipboardMessage`, among others.
