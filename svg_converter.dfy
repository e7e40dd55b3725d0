/**
 * SVGConverter's string classifiers, the width/height reader for the root
 * <svg> tag, and the argument checks of the convertSVGToPNG overloads.
 * The rasterisation itself (Batik) and the Base64 data URI are not modelled;
 * UTF-8 decoding of a byte array is a parameter.
 */
module SvgConverter {
  import opened Common
  import opened JavaLang

  const SVG_MIME_TYPE := "image/svg+xml"
  const TEXT_SVG_MIME_TYPE := "text/svg"
  const SVG_NAMESPACE_ATTRIBUTE := "xmlns=\"http://www.w3.org/2000/svg\""
  const DEFAULT_WIDTH := 800
  const DEFAULT_HEIGHT := 600

  // ---------------------------------------------------------------------
  // Classifiers.

  /** isSVGMimeType: lower-cased and trimmed, one of the two SVG types, alone or followed by ';'. */
  predicate IsSvgMimeType(mimeType: Option<string>)
    ensures IsSvgMimeType(mimeType) ==>
      mimeType.Some? && (StartsWith(Trim(ToLower(mimeType.value)), SVG_MIME_TYPE)
                         || StartsWith(Trim(ToLower(mimeType.value)), TEXT_SVG_MIME_TYPE))
  {
    match mimeType
    case None => false
    case Some(m) =>
      |m| > 0 &&
      var normalized := Trim(ToLower(m));
      StartsWithShorter(normalized, SVG_MIME_TYPE, ";");
      StartsWithShorter(normalized, TEXT_SVG_MIME_TYPE, ";");
      normalized == SVG_MIME_TYPE || normalized == TEXT_SVG_MIME_TYPE ||
      StartsWith(normalized, SVG_MIME_TYPE + ";") || StartsWith(normalized, TEXT_SVG_MIME_TYPE + ";")
  }

  /** isSVGContent: an SVG MIME type, or an XML one whose content mentions <svg or the SVG namespace. */
  predicate IsSvgContent(content: Option<string>, mimeType: Option<string>)
    ensures IsSvgContent(content, mimeType) ==> content.Some? && |content.value| > 0 && mimeType.Some?
    ensures content.Some? && |content.value| > 0 && IsSvgMimeType(mimeType) ==> IsSvgContent(content, mimeType)
  {
    match content
    case None => false
    case Some(c) =>
      |c| > 0 &&
      (IsSvgMimeType(mimeType) ||
       (mimeType.Some? && Contains(ToLower(mimeType.value), "xml") &&
        var normalized := ToLower(Trim(c));
        Contains(normalized, "<svg") || Contains(normalized, SVG_NAMESPACE_ATTRIBUTE)))
  }

  /** Trimming keeps a prefix that starts and ends with a visible char. */
  lemma TrimKeepsPrefix(p: string, q: string)
    requires |p| > 0 && !IsTrimmable(p[0]) && !IsTrimmable(p[|p| - 1])
    ensures StartsWith(Trim(p + q), p)
  {
    var s := p + q;
    assert TrimStart(s) == s;
    var r := TrimEnd(s);
    assert s[|p| - 1] == p[|p| - 1];
    assert |r| >= |p|;
    assert r[..|p|] == s[..|p|] == p;
  }

  /** A MIME type of image/svg+xml with parameters, however they are written, is SVG. */
  lemma SvgMimeTypeWithParameters(parameters: string)
    ensures IsSvgMimeType(Some(SVG_MIME_TYPE + ";" + parameters))
  {
    var p := SVG_MIME_TYPE + ";";
    ToLowerAppend(p, parameters);
    assert ToLower(p) == p;
    TrimKeepsPrefix(p, ToLower(parameters));
    assert SVG_MIME_TYPE + ";" + parameters == p + parameters;
  }

  /** An occurrence inside [lo, hi) is an occurrence in the slice s[lo..hi]. */
  lemma SliceKeepsOccurrence(s: string, pattern: string, i: int, lo: int, hi: int)
    requires OccursAt(s, pattern, i) && 0 <= lo <= i && i + |pattern| <= hi <= |s|
    ensures OccursAt(s[lo..hi], pattern, i - lo)
  {
    var t := s[lo..hi];
    assert forall k :: i - lo <= k < i - lo + |pattern| ==> t[k] == s[lo + k];
    assert t[i - lo..i - lo + |pattern|] == s[i..i + |pattern|];
  }

  /** Trim(s) is the slice between the leading and the trailing trimmable chars. */
  lemma TrimIsSlice(s: string) returns (lo: int, hi: int)
    ensures 0 <= lo <= hi <= |s| && Trim(s) == s[lo..hi]
    ensures forall k :: 0 <= k < lo ==> IsTrimmable(s[k])
    ensures forall k :: hi <= k < |s| ==> IsTrimmable(s[k])
  {
    var front := TrimStart(s);
    lo := |s| - |front|;
    var t := TrimEnd(front);
    hi := lo + |t|;
    forall k | hi <= k < |s|
      ensures IsTrimmable(s[k])
    {
      assert s[k] == front[k - lo];
    }
  }

  /** Trimming keeps every occurrence of a pattern that starts and ends with a visible char. */
  lemma TrimKeepsOccurrence(s: string, pattern: string, i: int) returns (j: int)
    requires OccursAt(s, pattern, i) && |pattern| > 0
    requires !IsTrimmable(pattern[0]) && !IsTrimmable(pattern[|pattern| - 1])
    ensures OccursAt(Trim(s), pattern, j)
  {
    var lo, hi := TrimIsSlice(s);
    assert s[i] == pattern[0];
    assert s[i + |pattern| - 1] == pattern[|pattern| - 1];
    SliceKeepsOccurrence(s, pattern, i, lo, hi);
    j := i - lo;
  }

  /** Lower-casing keeps every occurrence of an already lower-case pattern. */
  lemma ToLowerKeepsOccurrence(s: string, pattern: string, j: int)
    requires OccursAt(s, pattern, j) && ToLower(pattern) == pattern
    ensures OccursAt(ToLower(s), pattern, j)
  {
    assert forall k :: 0 <= k < |pattern| ==> ToLower(s)[j + k] == LowerChar(s[j + k]) == LowerChar(pattern[k]) == pattern[k];
    assert ToLower(s)[j..j + |pattern|] == pattern;
  }

  /** XML content that holds an <svg tag is recognised as SVG. */
  lemma XmlContentWithSvgTag(content: string, mimeType: string, i: int)
    requires OccursAt(content, "<svg", i) && Contains(ToLower(mimeType), "xml")
    ensures IsSvgContent(Some(content), Some(mimeType))
  {
    var j := TrimKeepsOccurrence(content, "<svg", i);
    ToLowerKeepsOccurrence(Trim(content), "<svg", j);
    ContainsIffOccurs(ToLower(Trim(content)), "<svg");
  }

  // ---------------------------------------------------------------------
  // Dimensions.

  /** The chars `replaceAll("[^0-9.]", "")` keeps. */
  function KeepNumberChars(s: string): (r: string)
    ensures forall k :: 0 <= k < |r| ==> IsDigit(r[k]) || r[k] == '.'
    ensures |r| <= |s|
  {
    if |s| == 0 then ""
    else (if IsDigit(s[0]) || s[0] == '.' then [s[0]] else "") + KeepNumberChars(s[1..])
  }

  /** The part of v before its first '.'. */
  function BeforeDot(v: string): (w: string)
    ensures |w| <= |v| && w == v[..|w|] && '.' !in w
    ensures |w| < |v| ==> v[|w|] == '.'
  {
    if |v| == 0 || v[0] == '.' then "" else [v[0]] + BeforeDot(v[1..])
  }

  lemma {:induction false} BeforeDotOfDigits(v: string)
    requires AllDigits(v)
    ensures BeforeDot(v) == v
  {
    if |v| > 0 {
      BeforeDotOfDigits(v[1..]);
      assert [v[0]] + v[1..] == v;
    }
  }

  lemma {:induction false} BeforeDotStopsAtDot(whole: string, rest: string)
    requires '.' !in whole
    ensures BeforeDot(whole + "." + rest) == whole
  {
    if |whole| > 0 {
      BeforeDotStopsAtDot(whole[1..], rest);
      assert (whole + "." + rest)[1..] == whole[1..] + "." + rest;
      assert [whole[0]] + whole[1..] == whole;
    }
  }

  /**
   * `(int) Double.parseDouble(v)` for a string of digits and dots: one
   * optional dot with a digit on at least one side, truncated toward zero
   * and capped at Integer.MAX_VALUE as the double-to-int cast does; None
   * where parseDouble throws.
   */
  function TruncatedDecimal(v: string): (r: Option<int>)
    requires forall k :: 0 <= k < |v| ==> IsDigit(v[k]) || v[k] == '.'
    ensures r.Some? ==> 0 <= r.value <= INT_MAX
    ensures AllDigits(v) && |v| > 0 ==> r == Some(if DigitsValue(v) > INT_MAX then INT_MAX else DigitsValue(v))
  {
    assert AllDigits(v) ==> BeforeDot(v) == v by {
      if AllDigits(v) {
        BeforeDotOfDigits(v);
      }
    }
    var whole := BeforeDot(v);
    var fraction := if |whole| == |v| then "" else v[|whole| + 1..];
    if '.' in fraction || (|whole| == 0 && |fraction| == 0) then None
    else
      assert AllDigits(whole) by {
        assert forall k :: 0 <= k < |whole| ==> whole[k] == v[k];
      }
      var value := if |whole| == 0 then 0 else DigitsValue(whole);
      Some(if value > INT_MAX then INT_MAX else value)
  }

  /** The number in a quoted attribute value: its digits and dots, truncated; -1 when none or unparsable. */
  function NumberValue(quoted: string): (r: int)
    ensures r == -1 || 0 <= r <= INT_MAX
  {
    var value := KeepNumberChars(quoted);
    if |value| == 0 then -1
    else
      match TruncatedDecimal(value)
      case None => -1
      case Some(n) => n
  }

  /**
   * extractDimensionValue: the number in the value of the first
   * case-sensitive `attribute="` in the tag; -1 when the attribute or its
   * closing quote is missing or the number does not parse.
   */
  function DimensionValue(tag: string, attribute: string): (r: int)
    ensures r == -1 || 0 <= r <= INT_MAX
    ensures !Contains(tag, attribute + "=\"") ==> r == -1
  {
    var pattern := attribute + "=\"";
    var found := IndexOf(tag, pattern);
    if found == -1 then -1 else QuotedNumber(tag, found, pattern)
  }

  /**
   * The number in the text after `pattern`, found at `found`, up to the next
   * double quote; -1 when there is no quote.
   */
  function QuotedNumber(tag: string, found: nat, pattern: string): (r: int)
    ensures r == -1 || 0 <= r <= INT_MAX
  {
    var start := found + |pattern|;
    var end := IndexOfFrom(tag, "\"", start);
    if end == -1 then -1 else NumberValue(tag[start..end])
  }

  /**
   * extractSVGDimensions: [width, height] from the root <svg ...> tag when
   * both are positive, else [800, 600]. The tag is located in the lower-cased
   * text and cut from the original, so the attribute names stay case-sensitive.
   */
  function SvgDimensions(content: Option<string>): (r: seq<int>)
    ensures |r| == 2 && 0 < r[0] <= INT_MAX && 0 < r[1] <= INT_MAX
  {
    var defaults := [DEFAULT_WIDTH, DEFAULT_HEIGHT];
    match content
    case None => defaults
    case Some(c) =>
      if |c| == 0 then defaults
      else
        var normalized := ToLower(c);
        var svgStart := IndexOf(normalized, "<svg");
        if svgStart == -1 then defaults
        else
          var svgEnd := IndexOfFrom(normalized, ">", svgStart);
          if svgEnd == -1 then defaults
          else
            var tag := c[svgStart..svgEnd];
            var width := DimensionValue(tag, "width");
            var height := DimensionValue(tag, "height");
            if width > 0 && height > 0 then [width, height] else defaults
  }

  /** The first occurrence is the one at j when none starts earlier. */
  lemma IndexOfFromFinds(s: string, pattern: string, from: nat, j: int)
    requires from <= j && OccursAt(s, pattern, j)
    requires forall k :: from <= k < j ==> !OccursAt(s, pattern, k)
    ensures IndexOfFrom(s, pattern, from) == j
  {
  }

  lemma {:induction false} KeepNumberCharsKeepsDigits(s: string)
    requires AllDigits(s)
    ensures KeepNumberChars(s) == s
  {
    if |s| > 0 {
      KeepNumberCharsKeepsDigits(s[1..]);
      assert [s[0]] + s[1..] == s;
    }
  }

  /** A one-char pattern occurs exactly where that char is. */
  lemma CharOccurs(s: string, c: char, k: int)
    requires 0 <= k < |s|
    ensures OccursAt(s, [c], k) <==> s[k] == c
  {
    assert s[k..k + 1] == [s[k]];
  }

  /** A decimal with a fraction is cut to its whole part. */
  lemma TruncatedDecimalDropsFraction(whole: string, fraction: string)
    requires AllDigits(whole) && AllDigits(fraction) && |whole| > 0
    ensures var n := DigitsValue(whole);
            TruncatedDecimal(whole + "." + fraction) == Some(if n > INT_MAX then INT_MAX else n)
  {
    var v := whole + "." + fraction;
    assert '.' !in whole by {
      assert forall k :: 0 <= k < |whole| ==> IsDigit(whole[k]);
    }
    BeforeDotStopsAtDot(whole, fraction);
    assert v[|whole| + 1..] == fraction;
    assert '.' !in fraction by {
      assert forall k :: 0 <= k < |fraction| ==> IsDigit(fraction[k]);
    }
  }

  /** The closing quote after a run of digits is the first quote from its start. */
  lemma QuoteAfterDigits(tag: string, found: nat, pattern: string, digits: string)
    requires AllDigits(digits) && OccursAt(tag, digits + "\"", found + |pattern|)
    ensures QuotedNumber(tag, found, pattern) == NumberValue(digits)
  {
    var start := found + |pattern|;
    var end := start + |digits|;
    var closing := digits + "\"";
    assert tag[start..end + 1] == closing;
    forall k | start <= k < end
      ensures !OccursAt(tag, "\"", k)
    {
      assert tag[k] == closing[k - start] == digits[k - start];
      CharOccurs(tag, '"', k);
    }
    assert tag[end] == closing[|digits|];
    CharOccurs(tag, '"', end);
    IndexOfFromFinds(tag, "\"", start, end);
    assert tag[start..end] == closing[..|digits|];
    assert tag[start..end] == digits;
  }

  /** A plain run of digits is read as its value, capped at Integer.MAX_VALUE. */
  lemma NumberValueOfDigits(digits: string)
    requires AllDigits(digits) && |digits| > 0
    ensures var n := DigitsValue(digits);
            NumberValue(digits) == (if n > INT_MAX then INT_MAX else n)
  {
    KeepNumberCharsKeepsDigits(digits);
  }

  /**
   * When the first `attribute="` is at `at` and a quoted run of digits
   * follows it, that run is the value, capped at Integer.MAX_VALUE.
   */
  lemma DimensionValueReadsNumber(tag: string, attribute: string, at: int, digits: string)
    requires IndexOf(tag, attribute + "=\"") == at >= 0
    requires AllDigits(digits) && |digits| > 0
    requires OccursAt(tag, digits + "\"", at + |attribute| + 2)
    ensures var n := DigitsValue(digits);
            DimensionValue(tag, attribute) == (if n > INT_MAX then INT_MAX else n)
  {
    var pattern := attribute + "=\"";
    assert |pattern| == |attribute| + 2;
    QuoteAfterDigits(tag, at, pattern, digits);
    NumberValueOfDigits(digits);
  }

  /** Content whose lower-cased text holds no "<svg" gets the default 800 x 600. */
  lemma NoSvgTagGivesDefaults(content: string)
    requires forall i :: !OccursAt(ToLower(content), "<svg", i)
    ensures SvgDimensions(Some(content)) == [DEFAULT_WIDTH, DEFAULT_HEIGHT]
  {
  }

  /**
   * When the root tag's width and height attributes hold plain positive
   * numbers w and h (within the int range), the size is exactly [w, h].
   */
  lemma SvgDimensionsOfRootTag(content: string, start: int, end: int, w: string, h: string, wAt: int, hAt: int)
    requires IndexOf(ToLower(content), "<svg") == start >= 0
    requires IndexOfFrom(ToLower(content), ">", start) == end >= 0
    requires AllDigits(w) && |w| > 0 && 0 < DigitsValue(w) <= INT_MAX
    requires AllDigits(h) && |h| > 0 && 0 < DigitsValue(h) <= INT_MAX
    requires IndexOf(content[start..end], "width=\"") == wAt >= 0
    requires OccursAt(content[start..end], w + "\"", wAt + 7)
    requires IndexOf(content[start..end], "height=\"") == hAt >= 0
    requires OccursAt(content[start..end], h + "\"", hAt + 8)
    ensures SvgDimensions(Some(content)) == [DigitsValue(w), DigitsValue(h)]
  {
    var tag := content[start..end];
    assert "width" + "=\"" == "width=\"";
    assert "height" + "=\"" == "height=\"";
    DimensionValueReadsNumber(tag, "width", wAt, w);
    DimensionValueReadsNumber(tag, "height", hAt, h);
  }

  // ---------------------------------------------------------------------
  // Argument checks of convertSVGToPNG.

  const CONTENT_EMPTY := "SVG content cannot be null or empty"
  const SIZE_NOT_POSITIVE := "Width and height must be positive values"
  const BYTES_EMPTY := "SVG bytes cannot be null or empty"
  const STREAM_NULL := "SVG input stream cannot be null"

  /** convertSVGToPNG(String, int, int): the exception thrown before transcoding, if any. */
  function ConvertTextError(svgContent: Option<string>, width: int, height: int): (e: Option<JavaException>)
    ensures e.None? <==> svgContent.Some? && !IsBlank(svgContent.value) && width > 0 && height > 0
    ensures e.Some? ==> e.value.IllegalArgument?
  {
    if svgContent.None? || IsBlank(svgContent.value) then Some(IllegalArgument(CONTENT_EMPTY))
    else if width <= 0 || height <= 0 then Some(IllegalArgument(SIZE_NOT_POSITIVE))
    else None
  }

  /** convertSVGToPNG(String): the default 800 x 600 size. */
  function ConvertDefaultError(svgContent: Option<string>): Option<JavaException>
  {
    ConvertTextError(svgContent, DEFAULT_WIDTH, DEFAULT_HEIGHT)
  }

  /** convertSVGToPNG(byte[]): rejects null or empty arrays, then decodes the bytes as UTF-8. */
  function ConvertBytesError(svgBytes: Option<seq<bv8>>, decodeUtf8: seq<bv8> -> string): Option<JavaException>
  {
    if svgBytes.None? || |svgBytes.value| == 0 then Some(IllegalArgument(BYTES_EMPTY))
    else ConvertDefaultError(Some(decodeUtf8(svgBytes.value)))
  }

  /** convertSVGToPNG(InputStream): rejects null, then reads every byte. */
  function ConvertStreamError(streamBytes: Option<seq<bv8>>, decodeUtf8: seq<bv8> -> string): Option<JavaException>
  {
    if streamBytes.None? then Some(IllegalArgument(STREAM_NULL))
    else ConvertBytesError(streamBytes, decodeUtf8)
  }

  /** The dimensions read from any content are always a size the converter accepts. */
  lemma ExtractedSizeAccepted(content: string)
    requires !IsBlank(content)
    ensures var size := SvgDimensions(Some(content));
            ConvertTextError(Some(content), size[0], size[1]).None?
  {
  }

  /** An empty stream is reported as empty bytes; a blank decoded text as empty content. */
  lemma ConvertErrorsByOverload(decodeUtf8: seq<bv8> -> string, bytes: seq<bv8>)
    ensures ConvertStreamError(Some([]), decodeUtf8) == Some(IllegalArgument(BYTES_EMPTY))
    ensures |bytes| > 0 && IsBlank(decodeUtf8(bytes)) ==>
              ConvertStreamError(Some(bytes), decodeUtf8) == Some(IllegalArgument(CONTENT_EMPTY))
  {
  }
}
