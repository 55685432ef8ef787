/** Decimal text for integers: Python's `str(n)` and the `int(text)` parser.

    `int(text)` is modelled as: surrounding whitespace is ignored, then an optional
    `+` or `-` sign and at least one ASCII digit. Python also accepts underscores
    between digits and non-ASCII digits; those spellings are not modelled. */
module Numbers {
  import opened Wrappers
  import Text

  predicate IsDigit(c: char) {
    '0' <= c <= '9'
  }

  predicate AllDigits(s: string) {
    forall i :: 0 <= i < |s| ==> IsDigit(s[i])
  }

  function DigitChar(d: nat): (c: char)
    requires d < 10
    ensures IsDigit(c)
  {
    ('0' as int + d) as char
  }

  function DigitValue(c: char): (d: nat)
    requires IsDigit(c)
    ensures d < 10
  {
    c as int - '0' as int
  }

  /** The value of a string of decimal digits, most significant first. */
  function DigitsValue(s: string): nat
    requires AllDigits(s)
  {
    if |s| == 0 then 0 else DigitsValue(s[..|s| - 1]) * 10 + DigitValue(s[|s| - 1])
  }

  /** Python's `str(n)` for `n >= 0`: canonical decimal digits, no leading zero. */
  function NatToString(n: nat): (s: string)
    ensures |s| > 0 && AllDigits(s)
    ensures s[0] == '0' ==> n == 0 && s == "0"
  {
    if n < 10 then [DigitChar(n)] else NatToString(n / 10) + [DigitChar(n % 10)]
  }

  lemma {:induction false} NatToStringValue(n: nat)
    ensures DigitsValue(NatToString(n)) == n
  {
    if n >= 10 {
      var s := NatToString(n);
      NatToStringValue(n / 10);
      assert s[..|s| - 1] == NatToString(n / 10);
    }
  }

  /** Python's `str(i)` for any integer. */
  function IntToString(i: int): (s: string)
    ensures |s| > 0 && !Text.IsSpace(s[0]) && !Text.IsSpace(s[|s| - 1])
  {
    if i < 0 then "-" + NatToString(-i) else NatToString(i)
  }

  /** Python's `int(text)` on text that has already been stripped: an optional sign
      followed by one or more digits; anything else raises, modelled as None. */
  function ParseInt(s: string): (r: Option<int>)
    ensures r.Some? ==> |s| > 0 && !Text.IsSpace(s[0])
  {
    if |s| > 0 && (s[0] == '-' || s[0] == '+') then
      var body := s[1..];
      if |body| > 0 && AllDigits(body) then
        Some(if s[0] == '-' then -(DigitsValue(body) as int) else DigitsValue(body))
      else None
    else if |s| > 0 && AllDigits(s) then Some(DigitsValue(s))
    else None
  }

  /** Parsing the decimal text of any integer gives that integer back. */
  lemma {:induction false} IntToStringParses(i: int)
    ensures ParseInt(IntToString(i)) == Some(i)
  {
    var s := IntToString(i);
    if i < 0 {
      var digits := NatToString(-i);
      NatToStringValue(-i);
      assert s == "-" + digits;
      assert s[0] == '-' && s[1..] == digits;
    } else {
      NatToStringValue(i);
      assert IsDigit(s[0]);
    }
  }

  /** Distinct integers have distinct decimal texts. */
  lemma IntToStringInjective(i: int, j: int)
    ensures IntToString(i) == IntToString(j) ==> i == j
  {
    IntToStringParses(i);
    IntToStringParses(j);
  }

  predicate AllZeros(z: string) {
    forall i :: 0 <= i < |z| ==> z[i] == '0'
  }

  lemma {:induction false} ZerosValue(z: string)
    requires AllZeros(z)
    ensures AllDigits(z) && DigitsValue(z) == 0
    decreases |z|
  {
    if |z| > 0 {
      ZerosValue(z[..|z| - 1]);
    }
  }

  /** Leading zeros do not change the value of a digit string. */
  lemma {:induction false} ZeroPaddedValue(z: string, s: string)
    requires AllZeros(z) && AllDigits(s)
    ensures AllDigits(z + s) && DigitsValue(z + s) == DigitsValue(s)
    decreases |s|
  {
    ZerosValue(z);
    if |s| == 0 {
      assert z + s == z;
    } else {
      var t := z + s;
      assert t[..|t| - 1] == z + s[..|s| - 1];
      ZeroPaddedValue(z, s[..|s| - 1]);
    }
  }

  /** Zero-padded decimal text parses to the same number. */
  lemma ZeroPaddedParses(z: string, n: nat)
    requires AllZeros(z)
    ensures ParseInt(z + NatToString(n)) == Some(n)
  {
    var s := NatToString(n);
    NatToStringValue(n);
    ZeroPaddedValue(z, s);
    var t := z + s;
    assert t[0] == '0' || t[0] == s[0];
    assert IsDigit(t[0]);
  }

  /** Python's `int(text)` on a `str`: strip, then parse. */
  function PyIntOfText(s: string): Option<int>
  {
    ParseInt(Text.Strip(s))
  }

  /** The decimal text of an integer, with any surrounding whitespace, parses back. */
  lemma PyIntOfTextRoundTrip(a: string, i: int, b: string)
    requires Text.AllSpace(a) && Text.AllSpace(b)
    ensures PyIntOfText(a + IntToString(i) + b) == Some(i)
  {
    Text.StripIgnoresSurroundingSpace(a, IntToString(i), b);
    IntToStringParses(i);
  }

  /** A blank text never parses. */
  lemma BlankNeverParses(s: string)
    requires Text.IsBlank(s)
    ensures PyIntOfText(s) == None
  {
  }
}
