/**
 * OCRService around the OCR engine: the byte-pattern searches used to cut a
 * damaged JPEG down to its SOI..EOI markers, the early returns and retry
 * decision of extractText, and the keyword filter over recognised text.
 * The engine, image decoding and temp files are foreign; their outcomes
 * are parameters. "Is a CJK character" and the punctuation pattern are
 * predicates the caller supplies.
 */
module OcrService {
  import opened Common
  import opened JavaLang
  import opened Lists

  // ---------------------------------------------------------------------
  // Byte-pattern search.

  /** The bytes of `pattern` occur in `data` starting at index i. */
  predicate BytesAt(data: seq<bv8>, pattern: seq<bv8>, i: int)
  {
    0 <= i && i + |pattern| <= |data| && data[i..i + |pattern|] == pattern
  }

  /** The first occurrence of `pattern` at or after `from`, or -1. */
  function FirstFrom(data: seq<bv8>, pattern: seq<bv8>, from: nat): (r: int)
    ensures r == -1 || (from <= r && BytesAt(data, pattern, r))
    ensures r == -1 ==> forall i :: from <= i ==> !BytesAt(data, pattern, i)
    ensures r != -1 ==> forall i :: from <= i < r ==> !BytesAt(data, pattern, i)
    decreases |data| - from
  {
    if from + |pattern| > |data| then -1
    else if data[from..from + |pattern|] == pattern then from
    else FirstFrom(data, pattern, from + 1)
  }

  /** The last occurrence of `pattern` at or before `upTo`, or -1. */
  function LastUpTo(data: seq<bv8>, pattern: seq<bv8>, upTo: int): (r: int)
    requires upTo <= |data| - |pattern|
    ensures r == -1 || (r <= upTo && BytesAt(data, pattern, r))
    ensures r == -1 ==> forall i :: i <= upTo ==> !BytesAt(data, pattern, i)
    ensures r != -1 ==> forall i :: r < i <= upTo ==> !BytesAt(data, pattern, i)
    decreases upTo + 1
  {
    if upTo < 0 then -1
    else if data[upTo..upTo + |pattern|] == pattern then upTo
    else LastUpTo(data, pattern, upTo - 1)
  }

  /** The last occurrence of `pattern` anywhere in `data`, or -1. */
  function Last(data: seq<bv8>, pattern: seq<bv8>): (r: int)
    ensures r == -1 <==> forall i :: !BytesAt(data, pattern, i)
    ensures r != -1 ==> BytesAt(data, pattern, r) && forall i :: r < i ==> !BytesAt(data, pattern, i)
  {
    LastUpTo(data, pattern, |data| - |pattern|)
  }

  /**
   * indexOf(byte[], byte[]): scans the start positions upward and returns
   * the first where every byte of the pattern matches.
   */
  method IndexOf(data: array<bv8>, pattern: array<bv8>) returns (r: int)
    ensures r == FirstFrom(data[..], pattern[..], 0)
  {
    var i := 0;
    while i < data.Length - pattern.Length + 1
      invariant 0 <= i
      invariant forall k :: 0 <= k < i ==> !BytesAt(data[..], pattern[..], k)
    {
      var j := 0;
      var matched := true;
      while j < pattern.Length
        invariant 0 <= j <= pattern.Length && matched
        invariant forall m :: 0 <= m < j ==> data[i + m] == pattern[m]
      {
        if data[i + j] != pattern[j] {
          assert data[..][i..i + pattern.Length][j] != pattern[..][j];
          matched := false;
          break;
        }
        j := j + 1;
      }
      if matched {
        assert data[..][i..i + pattern.Length] == pattern[..];
        assert BytesAt(data[..], pattern[..], i);
        return i;
      }
      i := i + 1;
    }
    return -1;
  }

  /** lastIndexOf(byte[], byte[]): the same scan, from the last start position downward. */
  method LastIndexOf(data: array<bv8>, pattern: array<bv8>) returns (r: int)
    ensures r == Last(data[..], pattern[..])
  {
    var i := data.Length - pattern.Length;
    while i >= 0
      invariant i <= data.Length - pattern.Length
      invariant forall k :: i < k ==> !BytesAt(data[..], pattern[..], k)
      decreases i + 1
    {
      var j := 0;
      var matched := true;
      while j < pattern.Length
        invariant 0 <= j <= pattern.Length && matched
        invariant forall m :: 0 <= m < j ==> data[i + m] == pattern[m]
      {
        if data[i + j] != pattern[j] {
          assert data[..][i..i + pattern.Length][j] != pattern[..][j];
          matched := false;
          break;
        }
        j := j + 1;
      }
      if matched {
        assert data[..][i..i + pattern.Length] == pattern[..];
        assert BytesAt(data[..], pattern[..], i);
        return i;
      }
      i := i - 1;
    }
    return -1;
  }

  // ---------------------------------------------------------------------
  // Cutting a JPEG down to its markers.

  /** Start Of Image and End Of Image markers of ITU-T T.81. */
  const SOI: seq<bv8> := [0xFF, 0xD8]
  const EOI: seq<bv8> := [0xFF, 0xD9]

  /**
   * The copy taken from the first SOI through the last EOI, when there is
   * an SOI and the last EOI lies after it.
   */
  function JpegSlice(bytes: seq<bv8>): Option<seq<bv8>>
  {
    var start := FirstFrom(bytes, SOI, 0);
    var end := Last(bytes, EOI);
    if start >= 0 && end > start then Some(bytes[start..end + 2]) else None
  }

  /**
   * The cut copy is a contiguous piece of the input that begins with SOI and
   * ends with EOI; there is none exactly when no SOI exists or every EOI
   * lies at or before the first SOI.
   */
  lemma JpegSliceMarkers(bytes: seq<bv8>)
    ensures var r := JpegSlice(bytes);
            r.Some? ==> |r.value| >= 4 && r.value[..2] == SOI && r.value[|r.value| - 2..] == EOI &&
                        exists lo, hi :: 0 <= lo <= hi <= |bytes| && r.value == bytes[lo..hi]
    ensures JpegSlice(bytes).None? <==>
              (forall i :: !BytesAt(bytes, SOI, i)) ||
              (forall i :: FirstFrom(bytes, SOI, 0) < i ==> !BytesAt(bytes, EOI, i))
  {
    var start := FirstFrom(bytes, SOI, 0);
    var end := Last(bytes, EOI);
    if start >= 0 && end > start {
      JpegSliceBetweenMarkers(bytes, start, end);
    }
  }

  /** The piece from a SOI to a later EOI starts with SOI and ends with EOI. */
  lemma JpegSliceBetweenMarkers(bytes: seq<bv8>, start: nat, end: nat)
    requires start < end && BytesAt(bytes, SOI, start) && BytesAt(bytes, EOI, end)
    ensures var r := bytes[start..end + 2];
            |r| >= 4 && r[..2] == SOI && r[|r| - 2..] == EOI
  {
    var r := bytes[start..end + 2];
    assert bytes[start..start + 2] == SOI;
    assert bytes[end..end + 2] == EOI;
    assert bytes[start + 1] == 0xD8;
    assert bytes[end] == 0xFF;
    assert end != start + 1;
    assert r[..2] == bytes[start..start + 2];
    assert r[|r| - 2..] == bytes[end..end + 2];
  }

  /** The trimming step of extractText's recovery: both searches, then copyOfRange. */
  method TrimToJpegMarkers(bytes: array<bv8>) returns (trimmed: Option<seq<bv8>>)
    ensures trimmed == JpegSlice(bytes[..])
  {
    var soi := new bv8[2] [0xFF, 0xD8];
    var eoi := new bv8[2] [0xFF, 0xD9];
    assert soi[..] == SOI && eoi[..] == EOI;
    var start := IndexOf(bytes, soi);
    var end := LastIndexOf(bytes, eoi);
    assert start == FirstFrom(bytes[..], SOI, 0) && end == Last(bytes[..], EOI);
    if start >= 0 && end > start {
      trimmed := Some(bytes[start..end + 2]);
    } else {
      trimmed := None;
    }
  }

  // ---------------------------------------------------------------------
  // extractText.

  /** What a call of the OCR engine did: returned text (maybe null), or threw. */
  datatype OcrCall = Returned(text: Option<string>) | Threw(cause: Option<Cause>)

  /** The cause of a thrown OCR error: whether it is an IIOException, and its message. */
  datatype Cause = Cause(isImageIOError: bool, message: Option<string>)

  /**
   * The recovery path after a JPEG metadata error: the file re-read and
   * decoded (as-is or cut to its markers), re-encoded and read again, with
   * the text the engine returned; or NotRecovered when any step failed.
   */
  datatype Recovery = Recovered(text: Option<string>) | NotRecovered

  /** The file name, lower-cased, ends with one of the vector suffixes. */
  predicate IsVectorFileName(name: string)
  {
    var lower := ToLower(name);
    EndsWith(lower, ".svg") || EndsWith(lower, ".svg+xml") || EndsWith(lower, ".svgz")
  }

  /** A cause that an IIOException whose message mentions "jfif app0", in any case, gave. */
  predicate IsJpegMetadataError(cause: Option<Cause>)
  {
    cause.Some? && cause.value.isImageIOError && cause.value.message.Some? &&
    Contains(ToLower(cause.value.message.value), "jfif app0")
  }

  /** `text != null ? text.trim() : ""`. */
  function TrimmedOrEmpty(text: Option<string>): (r: string)
    ensures |r| > 0 ==> !IsTrimmable(r[0]) && !IsTrimmable(r[|r| - 1])
  {
    if text.None? then "" else Trim(text.value)
  }

  /** extractText(File). */
  function ExtractText(available: bool, fileName: string, first: OcrCall, recovery: Recovery): (text: string)
    ensures !available || IsVectorFileName(fileName) ==> text == ""
    ensures |text| > 0 ==> !IsTrimmable(text[0]) && !IsTrimmable(text[|text| - 1])
  {
    if !available then ""
    else if IsVectorFileName(fileName) then ""
    else
      match first
      case Returned(t) => TrimmedOrEmpty(t)
      case Threw(cause) =>
        if IsJpegMetadataError(cause) && recovery.Recovered? then TrimmedOrEmpty(recovery.text) else ""
  }

  /** extractText(BufferedImage): no file name check and no recovery. */
  function ExtractImageText(available: bool, first: OcrCall): (text: string)
  {
    if !available then ""
    else
      match first
      case Returned(t) => TrimmedOrEmpty(t)
      case Threw(_) => ""
  }

  /**
   * extractText returns "" when the service is unavailable, for vector files
   * whatever the case of their suffix, and when the error is not a JPEG
   * metadata error; its text is always trimmed.
   */
  lemma ExtractTextEarlyReturns(available: bool, fileName: string, first: OcrCall, recovery: Recovery, stem: string)
    ensures !available ==> ExtractText(available, fileName, first, recovery) == ""
    ensures ExtractText(available, stem + ".SVG", first, recovery) == ""
    ensures ExtractText(available, stem + ".svgz", first, recovery) == ""
    ensures first.Threw? && !IsJpegMetadataError(first.cause) ==> ExtractText(available, fileName, first, recovery) == ""
    ensures var t := ExtractText(available, fileName, first, recovery);
            |t| > 0 ==> !IsTrimmable(t[0]) && !IsTrimmable(t[|t| - 1])
  {
    ToLowerAppend(stem, ".SVG");
    ToLowerAppend(stem, ".svgz");
    var upper := ToLower(stem) + ToLower(".SVG");
    assert ToLower(".SVG") == ".svg";
    assert upper[|upper| - 4..] == ".svg";
    var z := ToLower(stem) + ToLower(".svgz");
    assert ToLower(".svgz") == ".svgz";
    assert z[|z| - 5..] == ".svgz";
  }

  // ---------------------------------------------------------------------
  // Keywords.

  const STOP_WORDS: seq<string> := [
    "the", "and", "for", "are", "but", "not", "you", "all", "can", "her",
    "was", "one", "our", "out", "day", "get", "has", "him", "his", "how",
    "man", "new", "now", "old", "see", "two", "way", "who", "boy", "did",
    "its", "let", "put", "say", "she", "too", "use", "that", "this", "with"
  ]

  const MAX_KEYWORDS := 20

  predicate ContainsCjk(word: string, isCjk: char -> bool)
  {
    exists i :: 0 <= i < |word| && isCjk(word[i])
  }

  /** The three filters of extractKeywordsFromText, in order. */
  predicate KeepWord(word: string, isCjk: char -> bool)
  {
    |word| > 0 &&
    (if ContainsCjk(word, isCjk) then |word| >= 2 else |word| > 3) &&
    ToLower(word) !in STOP_WORDS
  }

  /** The words that pass the filters, in order. */
  function Filtered(words: seq<string>, isCjk: char -> bool): (r: seq<string>)
    ensures forall w :: w in r <==> w in words && KeepWord(w, isCjk)
  {
    if |words| == 0 then []
    else
      var rest := Filtered(words[..|words| - 1], isCjk);
      var w := words[|words| - 1];
      assert words == words[..|words| - 1] + [w];
      if KeepWord(w, isCjk) then rest + [w] else rest
  }

  /** The index of the first occurrence of x in s. */
  function FirstIndex(s: seq<string>, x: string): (r: nat)
    requires x in s
    ensures r < |s| && s[r] == x && forall k :: 0 <= k < r ==> s[k] != x
  {
    if s[0] == x then 0 else 1 + FirstIndex(s[1..], x)
  }

  /** Stream.distinct(): the first occurrence of each element, in order. */
  function Distinct(s: seq<string>): (r: seq<string>)
    ensures NoDuplicates(r)
    ensures forall x :: x in r <==> x in s
  {
    if |s| == 0 then []
    else
      assert s == s[..|s| - 1] + [s[|s| - 1]];
      AppendIfAbsent(Distinct(s[..|s| - 1]), s[|s| - 1])
  }

  /** Appending an element moves no earlier first occurrence. */
  lemma FirstIndexOfExtension(init: seq<string>, x: string, y: string)
    requires y in init
    ensures FirstIndex(init + [x], y) == FirstIndex(init, y)
  {
    var k := FirstIndex(init, y);
    assert (init + [x])[k] == y;
  }

  /** Distinct keeps the order of first occurrences. */
  lemma {:induction false} DistinctKeepsOrder(s: seq<string>, i: int, j: int)
    requires 0 <= i < j < |Distinct(s)|
    ensures FirstIndex(s, Distinct(s)[i]) < FirstIndex(s, Distinct(s)[j])
  {
    var init := s[..|s| - 1];
    var x := s[|s| - 1];
    assert s == init + [x];
    var d := Distinct(init);
    var r := Distinct(s);
    assert r == AppendIfAbsent(d, x);
    assert r[i] == d[i] && d[i] in d;
    FirstIndexOfExtension(init, x, d[i]);
    if j < |d| {
      assert r[j] == d[j] && d[j] in d;
      FirstIndexOfExtension(init, x, d[j]);
      DistinctKeepsOrder(init, i, j);
    } else {
      assert x !in init && r[j] == x;
      assert FirstIndex(s, x) == |init|;
    }
  }

  /** Stream.limit(n). */
  function Take(s: seq<string>, n: nat): (r: seq<string>)
    ensures |r| <= n && |r| <= |s| && r == s[..|r|]
    ensures |s| <= n ==> r == s
  {
    if |s| <= n then s else s[..n]
  }

  /** The filter chain over the split words. */
  function KeywordsOf(words: seq<string>, isCjk: char -> bool): seq<string>
  {
    Take(Distinct(Filtered(words, isCjk)), MAX_KEYWORDS)
  }

  /** `replaceAll(PUNCTUATION_PATTERN, " ")` with the pattern as a char predicate. */
  function SpacePunctuation(text: string, isPunctuation: char -> bool): (r: string)
    ensures |r| == |text|
  {
    seq(|text|, i requires 0 <= i < |text| => if isPunctuation(text[i]) then ' ' else text[i])
  }

  /** extractKeywordsFromText: none for null or blank text, else the filter chain over the words. */
  function KeywordsFromText(text: Option<string>, isPunctuation: char -> bool, isCjk: char -> bool): (r: seq<string>)
    ensures text.None? || IsBlank(text.value) ==> r == []
    ensures |r| <= MAX_KEYWORDS && NoDuplicates(r)
    ensures forall w :: w in r ==> KeepWord(w, isCjk)
  {
    if text.None? || IsBlank(text.value) then []
    else
      var words := Words(Trim(SpacePunctuation(text.value, isPunctuation)));
      KeywordsProperties(words, isCjk);
      KeywordsOf(words, isCjk)
  }

  /**
   * The keywords are words of the text that pass every filter, distinct, at
   * most 20, in order of first occurrence; fewer than 20 means every word
   * that passes is there.
   */
  lemma KeywordsProperties(words: seq<string>, isCjk: char -> bool)
    ensures var r := KeywordsOf(words, isCjk);
            |r| <= MAX_KEYWORDS && NoDuplicates(r) &&
            (forall w :: w in r ==> w in words && KeepWord(w, isCjk)) &&
            (|r| < MAX_KEYWORDS ==> forall w :: w in words && KeepWord(w, isCjk) ==> w in r)
    ensures var r := KeywordsOf(words, isCjk);
            var passing := Filtered(words, isCjk);
            forall i, j :: 0 <= i < j < |r| ==> FirstIndex(passing, r[i]) < FirstIndex(passing, r[j])
  {
    var passing := Filtered(words, isCjk);
    var d := Distinct(passing);
    var r := Take(d, MAX_KEYWORDS);
    forall i, j | 0 <= i < j < |r|
      ensures FirstIndex(passing, r[i]) < FirstIndex(passing, r[j])
    {
      DistinctKeepsOrder(passing, i, j);
    }
    forall w | w in r
      ensures w in d
    {
      var k :| 0 <= k < |r| && r[k] == w;
      assert d[k] == w;
    }
  }

  /** Null or blank text gives no keywords, and so does an unavailable service. */
  lemma NoTextNoKeywords(text: Option<string>, isPunctuation: char -> bool, isCjk: char -> bool,
                         fileName: string, first: OcrCall, recovery: Recovery)
    ensures text.None? || IsBlank(text.value) ==> KeywordsFromText(text, isPunctuation, isCjk) == []
    ensures KeywordsFromText(Some(ExtractText(false, fileName, first, recovery)), isPunctuation, isCjk) == []
  {
  }

  /** Every stop word has three or four characters. */
  lemma StopWordLengths()
    ensures forall w :: w in STOP_WORDS ==> 3 <= |w| <= 4
  {
  }

  /**
   * A two-character word holding a CJK character always survives the filter;
   * a Latin word of at most three characters never does; a stop word is
   * dropped whatever its case.
   */
  lemma KeepWordRules(word: string, isCjk: char -> bool)
    ensures ContainsCjk(word, isCjk) && |word| == 2 ==> KeepWord(word, isCjk)
    ensures !ContainsCjk(word, isCjk) && |word| <= 3 ==> !KeepWord(word, isCjk)
    ensures ToLower(word) in STOP_WORDS ==> !KeepWord(word, isCjk)
  {
    StopWordLengths();
  }

  /** "That" is a stop word once lower-cased. */
  lemma CapitalisedStopWordDropped(isCjk: char -> bool)
    ensures !KeepWord("That", isCjk)
  {
    assert ToLower("That") == "that";
    assert STOP_WORDS[37] == "that";
  }
}
