/**
 * The parts of java.lang the modelled code relies on: 32-bit int arithmetic,
 * truncating division, Integer.parseInt / Integer.toString and the String
 * methods trim, toLowerCase, startsWith, endsWith, indexOf, contains and
 * replace.
 */
module JavaLang {
  import opened Common

  const INT_MIN: int := -2147483648
  const INT_MAX: int := 2147483647
  const TWO_TO_32: int := 4294967296

  predicate InIntRange(x: int)
  {
    INT_MIN <= x <= INT_MAX
  }

  /** The value Java's 32-bit int arithmetic yields for the exact result x. */
  function Wrap32(x: int): (r: int)
    ensures InIntRange(r)
    ensures (r - x) % TWO_TO_32 == 0
    ensures InIntRange(x) ==> r == x
  {
    var m := x % TWO_TO_32;
    if m > INT_MAX then m - TWO_TO_32 else m
  }

  /** Java's `a / 2` on int: the quotient is truncated toward zero. */
  function JavaHalf(a: int): (q: int)
    ensures 0 <= a ==> 0 <= q && a - 1 <= 2 * q <= a
    ensures a < 0 ==> q <= 0 && a <= 2 * q <= a + 1
  {
    if a >= 0 then a / 2 else -((-a) / 2)
  }

  /** Java's `a % 2 != 0`: the remainder takes the sign of the dividend, so this is "a is odd". */
  predicate JavaIsOdd(a: int)
  {
    a - 2 * JavaHalf(a) != 0
  }

  lemma JavaIsOddIffOdd(a: int)
    ensures JavaIsOdd(a) <==> a % 2 == 1
  {
  }

  // ---------------------------------------------------------------------
  // Decimal digits: Integer.parseInt and Integer.toString.

  predicate IsDigit(c: char)
  {
    '0' <= c <= '9'
  }

  predicate AllDigits(s: string)
  {
    forall i :: 0 <= i < |s| ==> IsDigit(s[i])
  }

  function DigitValue(c: char): nat
    requires IsDigit(c)
  {
    (c as int) - ('0' as int)
  }

  function DigitChar(d: nat): (c: char)
    requires d < 10
    ensures IsDigit(c) && DigitValue(c) == d
  {
    (('0' as int) + d) as char
  }

  /** The number a string of decimal digits denotes. */
  function DigitsValue(s: string): nat
    requires AllDigits(s)
  {
    if |s| == 0 then 0 else DigitsValue(s[..|s| - 1]) * 10 + DigitValue(s[|s| - 1])
  }

  /** Integer.toString for a non-negative value. */
  function NatToString(n: nat): (s: string)
    ensures 1 <= |s| && AllDigits(s)
  {
    if n < 10 then [DigitChar(n)] else NatToString(n / 10) + [DigitChar(n % 10)]
  }

  /** Integer.toString / string concatenation of an int. */
  function IntToString(n: int): (s: string)
  {
    if n < 0 then "-" + NatToString(-n) else NatToString(n)
  }

  /**
   * Integer.parseInt(s): an optional '+' or '-' sign, then at least one
   * decimal digit, and a value inside the int range; anything else throws
   * NumberFormatException (None).
   */
  function ParseInt(s: string): (r: Option<int>)
    ensures r.Some? ==> InIntRange(r.value)
  {
    if |s| == 0 then None
    else
      var body := if s[0] == '-' || s[0] == '+' then s[1..] else s;
      if |body| == 0 || !AllDigits(body) then None
      else
        var v: int := if s[0] == '-' then -(DigitsValue(body) as int) else DigitsValue(body);
        if InIntRange(v) then Some(v) else None
  }

  lemma {:induction false} DigitsValueOfNatToString(n: nat)
    ensures DigitsValue(NatToString(n)) == n
    decreases n
  {
    if n >= 10 {
      var s := NatToString(n / 10) + [DigitChar(n % 10)];
      assert s[..|s| - 1] == NatToString(n / 10);
      DigitsValueOfNatToString(n / 10);
    }
  }

  /** Integer.parseInt reads back every int Integer.toString writes. */
  lemma ParseIntOfIntToString(n: int)
    requires InIntRange(n)
    ensures ParseInt(IntToString(n)) == Some(n)
  {
    if n < 0 {
      var digits := NatToString(-n);
      var s := "-" + digits;
      assert s == IntToString(n);
      assert s[0] == '-' && s[1..] == digits;
      DigitsValueOfNatToString(-n);
      assert DigitsValue(digits) == -n;
    } else {
      var s := NatToString(n);
      assert IsDigit(s[0]);
      DigitsValueOfNatToString(n);
      assert DigitsValue(s) == n;
    }
  }

  // ---------------------------------------------------------------------
  // String methods.

  /** String.trim() removes every leading and trailing char at or below U+0020. */
  predicate IsTrimmable(c: char)
  {
    c <= ' '
  }

  function TrimStart(s: string): (r: string)
    ensures |r| <= |s| && r == s[|s| - |r|..]
    ensures |r| > 0 ==> !IsTrimmable(r[0])
    ensures forall i :: 0 <= i < |s| - |r| ==> IsTrimmable(s[i])
  {
    if |s| > 0 && IsTrimmable(s[0]) then TrimStart(s[1..]) else s
  }

  function TrimEnd(s: string): (r: string)
    ensures |r| <= |s| && r == s[..|r|]
    ensures |r| > 0 ==> !IsTrimmable(r[|r| - 1])
    ensures forall i :: |r| <= i < |s| ==> IsTrimmable(s[i])
  {
    if |s| > 0 && IsTrimmable(s[|s| - 1]) then TrimEnd(s[..|s| - 1]) else s
  }

  /** String.trim(). */
  function Trim(s: string): (r: string)
    ensures |r| > 0 ==> !IsTrimmable(r[0]) && !IsTrimmable(r[|r| - 1])
  {
    var a := TrimStart(s);
    var r := TrimEnd(a);
    r
  }

  /** A string that starts and ends with a visible char is its own trim. */
  lemma TrimOfTrimmed(s: string)
    requires |s| > 0 && !IsTrimmable(s[0]) && !IsTrimmable(s[|s| - 1])
    ensures Trim(s) == s
  {
    assert TrimStart(s) == s;
  }

  /** `s.trim().isEmpty()`: the string holds only chars at or below U+0020. */
  predicate IsBlank(s: string)
  {
    Trim(s) == ""
  }

  /** A string that is not blank trims to a non-empty string with visible ends. */
  lemma NonBlankTrimsVisible(s: string)
    requires !IsBlank(s)
    ensures var t := Trim(s); |t| > 0 && !IsTrimmable(t[0]) && !IsTrimmable(t[|t| - 1])
  {
    assert Trim(s) != [];
  }

  lemma BlankIffAllTrimmable(s: string)
    ensures IsBlank(s) <==> forall i :: 0 <= i < |s| ==> IsTrimmable(s[i])
  {
    var a := TrimStart(s);
    if IsBlank(s) && |s| > 0 {
      forall i | 0 <= i < |s|
        ensures IsTrimmable(s[i])
      {
      }
    }
  }

  /** Character.toLowerCase for the ASCII and Latin-1 upper-case letters. */
  function LowerChar(c: char): (d: char)
  {
    if 'A' <= c <= 'Z' then (c as int + 32) as char
    else if 'À' <= c <= 'Þ' && c != '×' then (c as int + 32) as char
    else c
  }

  /** String.toLowerCase(), char by char. */
  function ToLower(s: string): (r: string)
    ensures |r| == |s|
    ensures forall i :: 0 <= i < |s| ==> r[i] == LowerChar(s[i])
  {
    seq(|s|, i requires 0 <= i < |s| => LowerChar(s[i]))
  }

  /** Lower-casing works char by char, so it distributes over concatenation. */
  lemma ToLowerAppend(a: string, b: string)
    ensures ToLower(a + b) == ToLower(a) + ToLower(b)
  {
    assert forall i :: 0 <= i < |a + b| ==> ToLower(a + b)[i] == (ToLower(a) + ToLower(b))[i];
  }

  predicate StartsWith(s: string, prefix: string)
  {
    |prefix| <= |s| && s[..|prefix|] == prefix
  }

  /** A string equal to p, or starting with p + q, starts with p. */
  lemma StartsWithShorter(s: string, p: string, q: string)
    ensures s == p || StartsWith(s, p + q) ==> StartsWith(s, p)
  {
    if StartsWith(s, p + q) {
      assert s[..|p|] == s[..|p + q|][..|p|];
    }
  }

  predicate EndsWith(s: string, suffix: string)
  {
    |suffix| <= |s| && s[|s| - |suffix|..] == suffix
  }

  /** `pattern` occurs in `s` starting at index i. */
  predicate OccursAt(s: string, pattern: string, i: int)
  {
    0 <= i && i + |pattern| <= |s| && s[i..i + |pattern|] == pattern
  }

  /** String.indexOf(pattern, from) for 0 <= from: the first occurrence at or after from, or -1. */
  function IndexOfFrom(s: string, pattern: string, from: nat): (r: int)
    ensures r == -1 || (from <= r && OccursAt(s, pattern, r))
    ensures r == -1 ==> forall i :: from <= i ==> !OccursAt(s, pattern, i)
    ensures r != -1 ==> forall i :: from <= i < r ==> !OccursAt(s, pattern, i)
    decreases |s| - from
  {
    if from + |pattern| > |s| then -1
    else if s[from..from + |pattern|] == pattern then from
    else IndexOfFrom(s, pattern, from + 1)
  }

  function IndexOf(s: string, pattern: string): int
  {
    IndexOfFrom(s, pattern, 0)
  }

  /** String.contains. */
  predicate Contains(s: string, pattern: string)
  {
    IndexOf(s, pattern) >= 0
  }

  lemma ContainsIffOccurs(s: string, pattern: string)
    ensures Contains(s, pattern) <==> exists i :: OccursAt(s, pattern, i)
  {
    if exists i :: OccursAt(s, pattern, i) {
      var i :| OccursAt(s, pattern, i);
      assert 0 <= i;
    }
  }

  /** String.lastIndexOf(c): the last index holding c, or -1. */
  function LastIndexOfChar(s: string, c: char): (r: int)
    ensures -1 <= r < |s|
    ensures r >= 0 ==> s[r] == c
    ensures forall i :: r < i < |s| ==> s[i] != c
  {
    if |s| == 0 then -1
    else if s[|s| - 1] == c then |s| - 1
    else LastIndexOfChar(s[..|s| - 1], c)
  }

  /**
   * String.replace(target, replacement) for a non-empty target: every
   * occurrence, scanning left to right without overlap, is replaced.
   */
  function Replace(s: string, target: string, replacement: string): string
    requires |target| > 0
  {
    if |s| == 0 then ""
    else if StartsWith(s, target) then replacement + Replace(s[|target|..], target, replacement)
    else [s[0]] + Replace(s[1..], target, replacement)
  }

  /** Replacing one char by a different one leaves no occurrence of it. */
  lemma {:induction false} ReplaceCharRemovesIt(s: string, c: char, d: string)
    requires c !in d
    ensures c !in Replace(s, [c], d)
    decreases |s|
  {
    if |s| > 0 {
      if StartsWith(s, [c]) {
        ReplaceCharRemovesIt(s[1..], c, d);
      } else {
        assert s[0] != c by { assert s[..1] == [s[0]]; }
        ReplaceCharRemovesIt(s[1..], c, d);
      }
    }
  }

  /** Replace never brings in a char that neither the input nor the replacement holds. */
  lemma {:induction false} ReplaceKeepsAbsentChar(s: string, target: string, replacement: string, c: char)
    requires |target| > 0 && c !in s && c !in replacement
    ensures c !in Replace(s, target, replacement)
    decreases |s|
  {
    if |s| > 0 {
      if StartsWith(s, target) {
        assert forall i :: 0 <= i < |s[|target|..]| ==> s[|target|..][i] == s[i + |target|];
        ReplaceKeepsAbsentChar(s[|target|..], target, replacement, c);
      } else {
        assert forall i :: 0 <= i < |s[1..]| ==> s[1..][i] == s[i + 1];
        ReplaceKeepsAbsentChar(s[1..], target, replacement, c);
      }
    }
  }

  /** Replace changes nothing in a string that never holds the target's first char. */
  lemma {:induction false} ReplaceWithoutTargetHead(s: string, target: string, replacement: string)
    requires |target| > 0 && target[0] !in s
    ensures Replace(s, target, replacement) == s
    decreases |s|
  {
    if |s| > 0 {
      assert !StartsWith(s, target) by { assert s[0] != target[0]; }
      assert forall i :: 0 <= i < |s[1..]| ==> s[1..][i] == s[i + 1];
      ReplaceWithoutTargetHead(s[1..], target, replacement);
    }
  }

  /** Whitespace as the regular expression class \s matches it. */
  predicate IsRegexSpace(c: char)
  {
    c == ' ' || c == '\t' || c == '\n' || c == '\U{000B}' || c == '\U{000C}' || c == '\r'
  }

  /** The longest prefix holding no \s char. */
  function WordPrefix(s: string): (w: string)
    ensures |w| <= |s| && w == s[..|w|]
    ensures forall i :: 0 <= i < |w| ==> !IsRegexSpace(w[i])
    ensures |w| < |s| ==> IsRegexSpace(s[|w|])
  {
    if |s| == 0 || IsRegexSpace(s[0]) then "" else [s[0]] + WordPrefix(s[1..])
  }

  /**
   * The non-empty pieces of `s.split("\\s+")`: the maximal runs of non-\s
   * chars, in order. (Java may add one leading empty piece; callers here
   * drop empty pieces.)
   */
  function Words(s: string): (ws: seq<string>)
    ensures forall k :: 0 <= k < |ws| ==> |ws[k]| > 0
    ensures forall k, i :: 0 <= k < |ws| && 0 <= i < |ws[k]| ==> !IsRegexSpace(ws[k][i])
    decreases |s|
  {
    if |s| == 0 then []
    else if IsRegexSpace(s[0]) then Words(s[1..])
    else
      var w := WordPrefix(s);
      [w] + Words(s[|w|..])
  }
}
