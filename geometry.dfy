/**
 * The geometry string of `-g WxH`: `searchChar`, the C library's `atoi` that
 * `parseGeometry` relies on, and `parseGeometry` itself.
 *
 * Strings are the characters of a C string before its terminating NUL.
 */
module Geometry {
  import opened Wrappers
  import opened Shapes

  /** The separator between the width and the height. Only a lower-case 'x' counts. */
  const Separator := 'x'

  // ---------------------------------------------------------------------------
  // searchChar
  // ---------------------------------------------------------------------------

  /** The index of the first position of `s` that holds `key`, or -1 when none does. */
  function FirstIndex(s: string, key: char): (r: int)
    ensures -1 <= r < |s|
    ensures r == -1 <==> key !in s
    ensures 0 <= r ==> s[r] == key && key !in s[..r]
  {
    if |s| == 0 then -1
    else if s[0] == key then 0
    else
      var t := FirstIndex(s[1..], key);
      assert s == [s[0]] + s[1..];
      if t == -1 then -1
      else
        assert s[..t + 1] == [s[0]] + s[1..][..t];
        t + 1
  }

  /** A position holding `key` with no earlier one is the first index of `key`. */
  lemma FirstIndexUnique(s: string, key: char, i: int)
    requires 0 <= i < |s| && s[i] == key && key !in s[..i]
    ensures FirstIndex(s, key) == i
  {
    assert s[i] in s;
  }

  /** `searchChar`: a scan from the left that returns at the first match. */
  method SearchChar(str: string, key: char) returns (r: int)
    ensures r == FirstIndex(str, key)
  {
    for i := 0 to |str|
      invariant key !in str[..i]
    {
      if str[i] == key {
        FirstIndexUnique(str, key, i);
        return i;
      }
      assert str[..i + 1] == str[..i] + [str[i]];
    }
    assert str[..|str|] == str;
    return -1;
  }

  // ---------------------------------------------------------------------------
  // atoi
  // ---------------------------------------------------------------------------

  /** The characters C's `isspace` accepts in the default locale. */
  predicate IsSpace(c: char) {
    c == ' ' || c == '\t' || c == '\n' || c == '\U{000B}' || c == '\U{000C}' || c == '\r'
  }

  predicate IsDigit(c: char) {
    '0' <= c <= '9'
  }

  predicate AllDigits(d: string) {
    forall k :: 0 <= k < |d| ==> IsDigit(d[k])
  }

  function DigitValue(c: char): nat
    requires IsDigit(c)
  {
    c as int - '0' as int
  }

  /** `s` without its leading white space. */
  function SkipSpaces(s: string): (t: string)
    ensures |t| <= |s| && t == s[|s| - |t|..]
    ensures t == [] || !IsSpace(t[0])
  {
    if |s| > 0 && IsSpace(s[0]) then SkipSpaces(s[1..]) else s
  }

  /** The longest prefix of `s` that consists of decimal digits. */
  function LeadingDigits(s: string): (d: string)
    ensures |d| <= |s| && d == s[..|d|]
    ensures AllDigits(d)
    ensures |d| < |s| ==> !IsDigit(s[|d|])
  {
    if |s| == 0 || !IsDigit(s[0]) then []
    else
      var rest := LeadingDigits(s[1..]);
      assert s[..1 + |rest|] == [s[0]] + s[1..][..|rest|];
      [s[0]] + rest
  }

  /** The value of a string of decimal digits written most significant first. */
  function DigitsValue(d: string): nat
    requires AllDigits(d)
  {
    if |d| == 0 then 0 else 10 * DigitsValue(d[..|d| - 1]) + DigitValue(d[|d| - 1])
  }

  /**
   * C's `atoi`: leading white space is skipped, one optional sign is read,
   * then as many decimal digits as follow; whatever comes after is ignored,
   * and no digits at all give 0.
   */
  function Atoi(s: string): int {
    var t := SkipSpaces(s);
    if |t| > 0 && t[0] == '-' then 0 - DigitsValue(LeadingDigits(t[1..]))
    else if |t| > 0 && t[0] == '+' then DigitsValue(LeadingDigits(t[1..]))
    else DigitsValue(LeadingDigits(t))
  }

  function DigitChar(n: nat): (c: char)
    requires n < 10
    ensures IsDigit(c) && DigitValue(c) == n
  {
    ('0' as int + n) as char
  }

  /** The decimal rendering of `n`, without a sign and without leading zeros. */
  function Decimal(n: nat): (s: string)
    ensures |s| > 0 && AllDigits(s)
    ensures Separator !in s
  {
    if n < 10 then [DigitChar(n)] else Decimal(n / 10) + [DigitChar(n % 10)]
  }

  lemma {:induction false} DigitsValueOfDecimal(n: nat)
    ensures DigitsValue(Decimal(n)) == n
  {
    if n >= 10 {
      var d := Decimal(n);
      assert d[..|d| - 1] == Decimal(n / 10);
      DigitsValueOfDecimal(n / 10);
    }
  }

  /** The digits of `d + rest` end where `d` ends, when `rest` does not start with a digit. */
  lemma {:induction false} LeadingDigitsStop(d: string, rest: string)
    requires AllDigits(d)
    requires rest == [] || !IsDigit(rest[0])
    ensures LeadingDigits(d + rest) == d
  {
    if |d| > 0 {
      assert (d + rest)[1..] == d[1..] + rest;
      LeadingDigitsStop(d[1..], rest);
    }
  }

  /** A string that starts with a digit is read by `atoi` as its leading digits. */
  lemma AtoiOfUnsigned(s: string)
    requires |s| > 0 && IsDigit(s[0])
    ensures Atoi(s) == DigitsValue(LeadingDigits(s))
  {
    assert !IsSpace(s[0]);
    assert SkipSpaces(s) == s;
  }

  /** `atoi` reads back a decimal rendering, and ignores whatever non-digit text follows it. */
  lemma AtoiOfDecimal(n: nat, rest: string)
    requires rest == [] || !IsDigit(rest[0])
    ensures Atoi(Decimal(n) + rest) == n
  {
    var d := Decimal(n);
    assert (d + rest)[0] == d[0];
    AtoiOfUnsigned(d + rest);
    LeadingDigitsStop(d, rest);
    DigitsValueOfDecimal(n);
  }

  predicate AllSpaces(ws: string) {
    forall k :: 0 <= k < |ws| ==> IsSpace(ws[k])
  }

  /** White space in front of a string that does not start with white space is skipped, and no more. */
  lemma {:induction false} SkipSpacesOfPrefix(ws: string, t: string)
    requires AllSpaces(ws)
    requires t == [] || !IsSpace(t[0])
    ensures SkipSpaces(ws + t) == t
  {
    if |ws| > 0 {
      assert (ws + t)[1..] == ws[1..] + t;
      SkipSpacesOfPrefix(ws[1..], t);
    }
  }

  /** Leading white space does not change what `atoi` reads. */
  lemma AtoiAfterSpaces(ws: string, t: string)
    requires AllSpaces(ws)
    requires t == [] || !IsSpace(t[0])
    ensures Atoi(ws + t) == Atoi(t)
  {
    assert SkipSpaces(ws + t) == SkipSpaces(t) by {
      SkipSpacesOfPrefix(ws, t);
      assert SkipSpaces(t) == t;
    }
  }

  /** `atoi` reads a sign followed by digits, ignoring non-digit text after them. */
  lemma AtoiOfSignedDigits(sign: char, d: string, rest: string)
    requires sign == '-' || sign == '+'
    requires AllDigits(d)
    requires rest == [] || !IsDigit(rest[0])
    ensures Atoi([sign] + d + rest) == if sign == '-' then 0 - DigitsValue(d) else DigitsValue(d)
  {
    var t := [sign] + d + rest;
    assert t[0] == sign;
    assert t[1..] == d + rest;
    LeadingDigitsStop(d, rest);
    AtoiOfSignStart(t);
  }

  /** After a sign, `atoi` reads the digits that follow it. */
  lemma AtoiOfSignStart(t: string)
    requires |t| > 0 && (t[0] == '-' || t[0] == '+')
    ensures Atoi(t) == if t[0] == '-' then 0 - DigitsValue(LeadingDigits(t[1..]))
                       else DigitsValue(LeadingDigits(t[1..]))
  {
    assert SkipSpaces(t) == t;
  }

  /** `atoi` of white space, a decimal number and text that does not continue it: the number. */
  lemma AtoiOfSpacedNumber(ws: string, n: nat, rest: string)
    requires AllSpaces(ws)
    requires rest == [] || !IsDigit(rest[0])
    ensures Atoi(ws + Decimal(n) + rest) == n
  {
    var t := Decimal(n) + rest;
    assert ws + Decimal(n) + rest == ws + t;
    assert Atoi(t) == n by {
      AtoiOfDecimal(n, rest);
    }
    assert !IsSpace(t[0]) by {
      assert t[0] == Decimal(n)[0];
    }
    AtoiAfterSpaces(ws, t);
  }

  /**
   * `atoi` of white space, a sign, a decimal number and text that does not
   * continue it: the number, negated after a '-'.
   */
  lemma AtoiOfSpacedSigned(ws: string, sign: char, n: nat, rest: string)
    requires AllSpaces(ws) && (sign == '-' || sign == '+')
    requires rest == [] || !IsDigit(rest[0])
    ensures Atoi(ws + [sign] + Decimal(n) + rest) == if sign == '-' then 0 - n else n
  {
    AtoiOfSpacedSignedDigits(ws, sign, Decimal(n), rest);
    DigitsValueOfDecimal(n);
  }

  /** `AtoiOfSpacedSigned` for any string of digits. */
  lemma AtoiOfSpacedSignedDigits(ws: string, sign: char, d: string, rest: string)
    requires AllSpaces(ws) && (sign == '-' || sign == '+') && AllDigits(d)
    requires rest == [] || !IsDigit(rest[0])
    ensures Atoi(ws + [sign] + d + rest) == if sign == '-' then 0 - DigitsValue(d) else DigitsValue(d)
  {
    var t := [sign] + d + rest;
    assert ws + [sign] + d + rest == ws + t;
    AtoiOfSignedDigits(sign, d, rest);
    assert t[0] == sign;
    AtoiAfterSpaces(ws, t);
  }

  /** Text that starts with neither white space, a sign nor a digit is read as 0. */
  lemma AtoiOfNoDigits(ws: string, rest: string)
    requires AllSpaces(ws)
    requires rest == [] || (!IsSpace(rest[0]) && !IsDigit(rest[0]) && rest[0] != '-' && rest[0] != '+')
    ensures Atoi(ws + rest) == 0
  {
    SkipSpacesOfPrefix(ws, rest);
  }

  /** " -12" is read as -12: the space is skipped and the sign negates. */
  lemma AtoiExampleNegative()
    ensures Atoi(" -12") == -12
  {
    assert Decimal(12) == "12" by {
      assert Decimal(1) == "1";
    }
    assert " -12" == " " + ['-'] + Decimal(12) + "";
    AtoiOfSpacedSigned(" ", '-', 12, "");
  }

  /** "+7x" is read as 7: the plus sign is accepted and atoi stops at the 'x'. */
  lemma AtoiExamplePlus()
    ensures Atoi("+7x") == 7
  {
    assert "+7x" == "" + ['+'] + Decimal(7) + "x";
    AtoiOfSpacedSigned("", '+', 7, "x");
  }

  /** "abc" has no digits and is read as 0. */
  lemma AtoiExampleNoDigits()
    ensures Atoi("abc") == 0
  {
    assert "abc" == "" + "abc";
    AtoiOfNoDigits("", "abc");
  }

  // ---------------------------------------------------------------------------
  // parseGeometry
  // ---------------------------------------------------------------------------

  /**
   * What `parseGeometry` computes: None (the program prints "Incorrect geometry string!"
   * and exits 1) when the first 'x' is missing or is the first character; otherwise the
   * `atoi` of the text before the first 'x' and of the text after it.
   */
  function Parse(g: string): Option<Size> {
    var d := FirstIndex(g, Separator);
    if d < 1 then None else Some(Size(Atoi(g[..d]), Atoi(g[d + 1..])))
  }

  /** `parseGeometry`: find the separator, copy both sides into buffers, convert each. */
  method ParseGeometry(geometryString: string) returns (r: Option<Size>)
    ensures r == Parse(geometryString)
  {
    var dloc := SearchChar(geometryString, Separator);
    if dloc < 1 {
      return None;
    }
    var xstr := new char[dloc];
    var ystr := new char[|geometryString| - dloc - 1];
    for i := 0 to |geometryString|
      invariant forall j :: 0 <= j < i && j < dloc ==> xstr[j] == geometryString[j]
      invariant forall j :: dloc < j < i ==> ystr[j - dloc - 1] == geometryString[j]
    {
      if i < dloc {
        xstr[i] := geometryString[i];
      } else if i > dloc {
        ystr[i - dloc - 1] := geometryString[i];
      }
    }
    assert xstr[..] == geometryString[..dloc];
    assert ystr[..] == geometryString[dloc + 1..];
    r := Some(Size(Atoi(xstr[..]), Atoi(ystr[..])));
  }

  /** Parsing fails exactly when there is no 'x' or the first character is an 'x'. */
  lemma ParseFailsIff(g: string)
    ensures Parse(g) == None <==> Separator !in g || (|g| > 0 && g[0] == Separator)
  {
    if |g| > 0 && g[0] == Separator {
      FirstIndexUnique(g, Separator, 0);
    }
  }

  /** Otherwise the width is read before the first 'x' and the height after it. */
  lemma ParseSplitsAtFirstSeparator(g: string, d: int)
    requires 0 < d < |g| && g[d] == Separator && Separator !in g[..d]
    ensures Parse(g) == Some(Size(Atoi(g[..d]), Atoi(g[d + 1..])))
  {
    FirstIndexUnique(g, Separator, d);
  }

  /** A decimal width before the first 'x' is read back, whatever follows the 'x'. */
  lemma ParseDecimalWidth(width: nat, rest: string)
    ensures Parse(Decimal(width) + [Separator] + rest) == Some(Size(width, Atoi(rest)))
  {
    var w := Decimal(width);
    var g := w + [Separator] + rest;
    assert g[..|w|] == w;
    assert g[|w| + 1..] == rest;
    ParseSplitsAtFirstSeparator(g, |w|);
    AtoiOfDecimalAlone(width);
  }

  /** Writing a size as `<width>x<height>` and parsing it gives the size back. */
  lemma ParseRoundTrip(width: nat, height: nat)
    ensures Parse(Decimal(width) + [Separator] + Decimal(height)) == Some(Size(width, height))
  {
    ParseDecimalWidth(width, Decimal(height));
    AtoiOfDecimalAlone(height);
  }

  /** `atoi` reads a decimal numeral back. */
  lemma AtoiOfDecimalAlone(n: nat)
    ensures Atoi(Decimal(n)) == n
  {
    AtoiOfDecimal(n, []);
    assert Decimal(n) + [] == Decimal(n);
  }

  /** `atoi` stops at an 'x'. */
  lemma AtoiStopsAtSeparator(n: nat, tail: string)
    ensures Atoi(Decimal(n) + [Separator] + tail) == n
  {
    assert Decimal(n) + [Separator] + tail == Decimal(n) + ([Separator] + tail);
    AtoiOfDecimal(n, [Separator] + tail);
  }

  /** Everything after the first 'x' goes to the height, which `atoi` cuts at the next 'x'. */
  lemma ParseLaterSeparatorsGoToHeight(width: nat, height: nat, tail: string)
    ensures Parse(Decimal(width) + [Separator] + (Decimal(height) + [Separator] + tail))
         == Some(Size(width, height))
  {
    ParseDecimalWidth(width, Decimal(height) + [Separator] + tail);
    AtoiStopsAtSeparator(height, tail);
  }

  lemma DecimalExamples()
    ensures Decimal(1) == "1" && Decimal(2) == "2"
    ensures Decimal(800) == "800" && Decimal(600) == "600"
    ensures Decimal(960) == "960" && Decimal(540) == "540"
  {
    assert Decimal(8) == "8" && Decimal(80) == "80";
    assert Decimal(6) == "6" && Decimal(60) == "60";
    assert Decimal(9) == "9" && Decimal(96) == "96";
    assert Decimal(5) == "5" && Decimal(54) == "54";
  }

  lemma ExampleStrings()
    ensures "800" + [Separator] + "600" == "800x600"
    ensures "1" + [Separator] + ("2" + [Separator] + "3") == "1x2x3"
    ensures "960" + [Separator] + "540" == "960x540"
    ensures "800" + [Separator] + "" == "800x"
  {
  }

  /** "800x600" is 800 by 600. */
  lemma ParseExampleFull()
    ensures Parse("800x600") == Some(Size(800, 600))
  {
    ExampleStrings();
    DecimalExamples();
    ParseRoundTrip(800, 600);
  }

  /** "960x540" is 960 by 540. */
  lemma ParseExampleHalfHd()
    ensures Parse("960x540") == Some(Size(960, 540))
  {
    ExampleStrings();
    DecimalExamples();
    ParseRoundTrip(960, 540);
  }

  /** "800x" is not rejected: it gives height 0, the `atoi` of nothing. */
  lemma ParseExampleNoHeight()
    ensures Parse("800x") == Some(Size(800, 0))
  {
    assert Parse(Decimal(800) + [Separator] + "") == Some(Size(800, Atoi(""))) by {
      ParseDecimalWidth(800, "");
    }
    assert Decimal(800) + [Separator] + "" == "800x" by {
      DecimalExamples();
      ExampleStrings();
    }
    assert Atoi("") == 0;
  }

  /** "1x2x3" is 1 by 2: the height's text "2x3" is cut by `atoi` at the second 'x'. */
  lemma ParseExampleTwoSeparators()
    ensures Parse("1x2x3") == Some(Size(1, 2))
  {
    ExampleStrings();
    DecimalExamples();
    ParseLaterSeparatorsGoToHeight(1, 2, "3");
  }

  /** An upper-case 'X' is not a separator, and an 'x' in front is rejected. */
  lemma ParseExamplesRejected()
    ensures Parse("800X600") == None
    ensures Parse("x600") == None
  {
    ParseFailsIff("800X600");
    ParseFailsIff("x600");
  }
}
