/**
 * Decimal text of .NET integers: what `Int32.ToString()` and `Int64.ToString()`
 * print, and what `Int32.Parse` / `Convert.ToInt32(string)` accept under
 * `NumberStyles.Integer` with the invariant culture's signs.
 */
module Decimal {
  import opened Wrappers

  const MinInt32: int := -0x8000_0000
  const MaxInt32: int := 0x7FFF_FFFF
  const MinInt64: int := -0x8000_0000_0000_0000
  const MaxInt64: int := 0x7FFF_FFFF_FFFF_FFFF

  predicate InInt32(n: int) { MinInt32 <= n <= MaxInt32 }
  predicate InInt64(n: int) { MinInt64 <= n <= MaxInt64 }

  /** System.Int32 and System.Int64. */
  type int32 = n: int | MinInt32 <= n <= MaxInt32
  type int64 = n: int | MinInt64 <= n <= MaxInt64

  /** The .NET exceptions a numeric conversion can throw. */
  datatype Exception = FormatException | OverflowException | InvalidCastException

  predicate IsDigit(c: char) { '0' <= c <= '9' }

  /** The characters NumberStyles.AllowLeadingWhite/AllowTrailingWhite skip: U+0009 to U+000D and U+0020. */
  predicate IsWhite(c: char) { c == ' ' || '\t' <= c <= '\r' }

  predicate IsSign(c: char) { c == '-' || c == '+' }

  /** A non-empty run of decimal digits. */
  predicate IsDigits(s: string) { |s| > 0 && forall i :: 0 <= i < |s| ==> IsDigit(s[i]) }

  function DigitValue(c: char): (d: nat)
    requires IsDigit(c)
    ensures d < 10
  {
    c as int - '0' as int
  }

  function DigitChar(d: nat): (c: char)
    requires d < 10
    ensures IsDigit(c) && DigitValue(c) == d
  {
    ('0' as int + d) as char
  }

  /** The number a string of digits denotes, most significant digit first. */
  function DigitsValue(s: string): nat
    requires forall i :: 0 <= i < |s| ==> IsDigit(s[i])
  {
    if s == [] then 0 else DigitsValue(s[..|s| - 1]) * 10 + DigitValue(s[|s| - 1])
  }

  /** The shortest decimal digits of n: never a leading zero unless n is zero. */
  function Digits(n: nat): (s: string)
    ensures IsDigits(s)
    ensures s[0] == '0' ==> n == 0
    decreases n
  {
    if n < 10 then [DigitChar(n)] else Digits(n / 10) + [DigitChar(n % 10)]
  }

  lemma {:induction false} DigitsValueOfDigits(n: nat)
    ensures DigitsValue(Digits(n)) == n
    decreases n
  {
    if n >= 10 {
      var s := Digits(n / 10);
      DigitsValueOfDigits(n / 10);
      assert (s + [DigitChar(n % 10)])[..|s|] == s;
    }
  }

  /** `ToString()` of an Int32 or Int64: a '-' for negatives, then the digits. */
  function ToDecimal(n: int): (s: string)
    ensures |s| > 0
    ensures s[0] == '-' <==> n < 0
    ensures forall i :: 0 <= i < |s| ==> IsDigit(s[i]) || (i == 0 && s[i] == '-')
  {
    if n < 0 then "-" + Digits(-n) else Digits(n)
  }

  /** An optional sign followed by digits, of any magnitude; None when s is not of that form. */
  function ParseInteger(s: string): Option<int>
  {
    if |s| > 0 && IsSign(s[0]) then
      if IsDigits(s[1..]) then Some(if s[0] == '-' then -(DigitsValue(s[1..]) as int) else DigitsValue(s[1..]))
      else None
    else if IsDigits(s) then Some(DigitsValue(s))
    else None
  }

  lemma {:induction false} ParseIntegerOfDecimal(n: int)
    ensures ParseInteger(ToDecimal(n)) == Some(n)
  {
    if n < 0 {
      var d := Digits(-n);
      assert ("-" + d)[1..] == d;
      DigitsValueOfDigits(-n);
    } else {
      DigitsValueOfDigits(n);
    }
  }

  /** A character that is not a digit, other than a sign in first place, makes the text no integer. */
  lemma ParseIntegerRejects(s: string, i: nat)
    requires i < |s| && !IsDigit(s[i]) && (i > 0 || !IsSign(s[i]))
    ensures ParseInteger(s) == None
  {
    if |s| > 0 && IsSign(s[0]) {
      assert s[1..][i - 1] == s[i];
    }
  }

  /** s without its leading white space. */
  function TrimStart(s: string): string
  {
    if |s| > 0 && IsWhite(s[0]) then TrimStart(s[1..]) else s
  }

  /** s without its trailing white space. */
  function TrimEnd(s: string): string
  {
    if |s| > 0 && IsWhite(s[|s| - 1]) then TrimEnd(s[..|s| - 1]) else s
  }

  /** s with the white space at both ends removed, as NumberStyles.Integer allows. */
  function Trim(s: string): string
  {
    TrimEnd(TrimStart(s))
  }

  /** TrimStart removes a prefix of white space and nothing else, up to a character that is not white space. */
  lemma {:induction false} TrimStartShape(s: string)
    ensures |TrimStart(s)| <= |s| && TrimStart(s) == s[|s| - |TrimStart(s)|..]
    ensures forall i :: 0 <= i < |s| - |TrimStart(s)| ==> IsWhite(s[i])
    ensures |TrimStart(s)| > 0 ==> !IsWhite(TrimStart(s)[0])
    decreases |s|
  {
    if |s| > 0 && IsWhite(s[0]) {
      TrimStartShape(s[1..]);
    }
  }

  /** TrimEnd removes a suffix of white space and nothing else, back to a character that is not white space. */
  lemma {:induction false} TrimEndShape(s: string)
    ensures |TrimEnd(s)| <= |s| && TrimEnd(s) == s[..|TrimEnd(s)|]
    ensures forall i :: |TrimEnd(s)| <= i < |s| ==> IsWhite(s[i])
    ensures |TrimEnd(s)| > 0 ==> !IsWhite(TrimEnd(s)[|TrimEnd(s)| - 1])
    decreases |s|
  {
    if |s| > 0 && IsWhite(s[|s| - 1]) {
      TrimEndShape(s[..|s| - 1]);
    }
  }

  /** Trimming keeps every character that is not white space. */
  lemma TrimKeeps(s: string, i: nat)
    requires i < |s| && !IsWhite(s[i])
    ensures exists j :: 0 <= j < |Trim(s)| && Trim(s)[j] == s[i]
  {
    var a := TrimStart(s);
    TrimStartShape(s);
    var off := |s| - |a|;
    assert i >= off;
    assert a[i - off] == s[i];
    var t := TrimEnd(a);
    TrimEndShape(a);
    assert i - off < |t|;
    assert t[i - off] == s[i];
    assert Trim(s) == t;
  }

  lemma TrimUntouched(s: string)
    requires |s| > 0 && !IsWhite(s[0]) && !IsWhite(s[|s| - 1])
    ensures Trim(s) == s
  {
  }

  lemma TrimBlank(s: string)
    requires forall i :: 0 <= i < |s| ==> IsWhite(s[i])
    ensures Trim(s) == ""
  {
    TrimStartSkips(s, "");
    assert s + "" == s;
  }

  /**
   * `Int32.Parse(s)`, and `Convert.ToInt32(s)` for a non-null string: white space
   * around an optional sign and at least one digit; a string of that form whose
   * value does not fit in 32 bits overflows, anything else is a format error.
   */
  function ParseInt32(s: string): (r: Result<int32, Exception>)
  {
    match ParseInteger(Trim(s))
    case None => Failure(FormatException)
    case Some(v) => if InInt32(v) then Success(v) else Failure(OverflowException)
  }

  /** Print, then parse, gives back every Int32. */
  lemma ParseInt32OfDecimal(n: int32)
    ensures ParseInt32(ToDecimal(n)) == Success(n)
  {
    var s := ToDecimal(n);
    TrimUntouched(s);
    ParseIntegerOfDecimal(n);
  }

  /** The decimal text of a number outside the Int32 range overflows rather than wrapping or clamping. */
  lemma ParseInt32Overflows(n: int)
    requires !InInt32(n)
    ensures ParseInt32(ToDecimal(n)) == Failure(OverflowException)
  {
    var s := ToDecimal(n);
    TrimUntouched(s);
    ParseIntegerOfDecimal(n);
  }

  /** A character that is neither a digit, white space nor a sign makes the string a format error. */
  lemma ParseInt32RejectsForeign(s: string, i: nat)
    requires i < |s| && !IsDigit(s[i]) && !IsWhite(s[i]) && !IsSign(s[i])
    ensures ParseInt32(s) == Failure(FormatException)
  {
    TrimKeeps(s, i);
    var j :| 0 <= j < |Trim(s)| && Trim(s)[j] == s[i];
    ParseIntegerRejects(Trim(s), j);
  }

  /** The empty string and a string of white space alone are format errors. */
  lemma ParseInt32RejectsBlank(s: string)
    requires forall i :: 0 <= i < |s| ==> IsWhite(s[i])
    ensures ParseInt32(s) == Failure(FormatException)
  {
    TrimBlank(s);
  }

  lemma {:induction false} TrimStartSkips(white: string, s: string)
    requires forall i :: 0 <= i < |white| ==> IsWhite(white[i])
    ensures TrimStart(white + s) == TrimStart(s)
    decreases |white|
  {
    if white == [] {
      assert white + s == s;
    } else {
      assert (white + s)[1..] == white[1..] + s;
      TrimStartSkips(white[1..], s);
    }
  }

  lemma {:induction false} TrimEndSkips(s: string, white: string)
    requires forall i :: 0 <= i < |white| ==> IsWhite(white[i])
    ensures TrimEnd(s + white) == TrimEnd(s)
    decreases |white|
  {
    if white == [] {
      assert s + white == s;
    } else {
      var n := |white| - 1;
      assert (s + white)[..|s + white| - 1] == s + white[..n];
      TrimEndSkips(s, white[..n]);
    }
  }

  /** White space around a literal is skipped. */
  lemma ParseInt32IgnoresPadding(before: string, s: string, after: string)
    requires forall i :: 0 <= i < |before| ==> IsWhite(before[i])
    requires forall i :: 0 <= i < |after| ==> IsWhite(after[i])
    requires |s| > 0 && !IsWhite(s[0]) && !IsWhite(s[|s| - 1])
    ensures ParseInt32(before + s + after) == ParseInt32(s)
  {
    assert before + s + after == before + (s + after);
    TrimStartSkips(before, s + after);
    assert TrimStart(s + after) == s + after;
    TrimEndSkips(s, after);
    assert Trim(before + s + after) == s;
    TrimUntouched(s);
  }

  /** Leading zeros do not change the value of a digit string. */
  lemma {:induction false} LeadingZeros(zeros: string, d: string)
    requires forall i :: 0 <= i < |zeros| ==> zeros[i] == '0'
    requires forall i :: 0 <= i < |d| ==> IsDigit(d[i])
    ensures DigitsValue(zeros + d) == DigitsValue(d)
    decreases |zeros| + |d|
  {
    if d == [] {
      assert zeros + d == zeros;
      if zeros != [] {
        LeadingZeros(zeros[..|zeros| - 1], []);
        assert zeros[..|zeros| - 1] + [] == zeros[..|zeros| - 1];
      }
    } else {
      var n := |d| - 1;
      assert (zeros + d)[..|zeros + d| - 1] == zeros + d[..n];
      LeadingZeros(zeros, d[..n]);
    }
  }

  /** A '+' sign and leading zeros are accepted in front of the digits of a non-negative Int32. */
  lemma ParseInt32PlusAndZeros(zeros: string, n: int32)
    requires n >= 0
    requires forall i :: 0 <= i < |zeros| ==> zeros[i] == '0'
    ensures ParseInt32("+" + zeros + ToDecimal(n)) == Success(n)
  {
    var d := Digits(n);
    var s := "+" + zeros + d;
    assert s[1..] == zeros + d;
    TrimUntouched(s);
    LeadingZeros(zeros, d);
    DigitsValueOfDigits(n);
  }

  lemma ParseInt32AcceptsExamples()
    ensures ParseInt32("42") == Success(42)
    ensures ParseInt32(" -7\t") == Success(-7)
    ensures ParseInt32("+0012") == Success(12)
  {
    assert ToDecimal(42) == "42" by { assert Digits(42) == Digits(4) + [DigitChar(2)]; }
    ParseInt32OfDecimal(42);
    assert ToDecimal(-7) == "-7";
    ParseInt32OfDecimal(-7);
    assert " -7\t" == " " + "-7" + "\t";
    ParseInt32IgnoresPadding(" ", "-7", "\t");
    assert ToDecimal(12) == "12" by { assert Digits(12) == Digits(1) + [DigitChar(2)]; }
    assert "+0012" == "+" + "00" + ToDecimal(12);
    ParseInt32PlusAndZeros("00", 12);
  }

  /** Both ends of the Int32 range parse; one past the top overflows. */
  lemma ParseInt32RangeExamples()
    ensures ParseInt32(ToDecimal(MinInt32)) == Success(MinInt32)
    ensures ParseInt32(ToDecimal(MaxInt32)) == Success(MaxInt32)
    ensures ParseInt32(ToDecimal(MaxInt32 + 1)) == Failure(OverflowException)
  {
    ParseInt32OfDecimal(MinInt32);
    ParseInt32OfDecimal(MaxInt32);
    ParseInt32Overflows(MaxInt32 + 1);
  }

  lemma ParseInt32RejectsExamples()
    ensures ParseInt32("abc") == Failure(FormatException)
    ensures ParseInt32("4 2") == Failure(FormatException)
    ensures ParseInt32("") == Failure(FormatException)
  {
    ParseInt32RejectsForeign("abc", 0);
    ParseInt32RejectsInnerWhite("4", "2");
    ParseInt32RejectsBlank("");
  }

  /** White space between two digit runs is a format error, not a separator. */
  lemma ParseInt32RejectsInnerWhite(a: string, b: string)
    requires IsDigits(a) && IsDigits(b)
    ensures ParseInt32(a + " " + b) == Failure(FormatException)
  {
    var s := a + " " + b;
    TrimUntouched(s);
    ParseIntegerRejects(s, |a|);
  }
}
