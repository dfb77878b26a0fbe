/**
 * Integers as JavaScript writes and reads them: `${n}` for an integer, and
 * `Number(s)` for a string, restricted to the integer results the model needs.
 */
module Numbers {
  import opened Wrappers
  import Text

  predicate IsDigit(c: char) {
    '0' <= c <= '9'
  }

  predicate AllDigits(s: string) {
    forall i :: 0 <= i < |s| ==> IsDigit(s[i])
  }

  function DigitChar(d: int): char
    requires 0 <= d < 10
  {
    ('0' as int + d) as char
  }

  function DigitValue(c: char): int
    requires IsDigit(c)
  {
    c as int - '0' as int
  }

  /** The decimal digits of `n`, most significant first, without leading zeros. */
  function NatDigits(n: nat): (r: string)
    ensures |r| >= 1 && AllDigits(r)
    ensures r[0] == '0' ==> n == 0
    decreases n
  {
    if n < 10 then [DigitChar(n)] else NatDigits(n / 10) + [DigitChar(n % 10)]
  }

  /** The value of a string of decimal digits. */
  function DigitsValue(s: string): nat
    requires AllDigits(s)
  {
    if s == [] then 0 else 10 * DigitsValue(s[..|s| - 1]) + DigitValue(s[|s| - 1])
  }

  lemma {:induction false} DigitsRoundTrip(n: nat)
    ensures DigitsValue(NatDigits(n)) == n
    decreases n
  {
    if n >= 10 {
      var s := NatDigits(n);
      assert s[..|s| - 1] == NatDigits(n / 10);
      DigitsRoundTrip(n / 10);
    }
  }

  /** `${n}`: the text JavaScript renders for the integer `n`, as long as `|n| < 1e21`
      (beyond that JavaScript switches to exponent form). */
  function IntText(n: int): (r: string)
    ensures r != [] && r[|r| - 1] != '-'
  {
    if n < 0 then "-" + NatDigits(-n) else NatDigits(n)
  }

  /** An optionally signed run of decimal digits, read as an integer; None for any other text. */
  function ParseInteger(s: string): (r: Option<int>)
    ensures r.Some? ==> s != [] && (IsDigit(s[0]) || s[0] == '-' || s[0] == '+') && IsDigit(s[|s| - 1])
  {
    if s == [] then None
    else if s[0] == '-' || s[0] == '+' then
      var body := s[1..];
      if body != [] && AllDigits(body) then
        assert IsDigit(body[|body| - 1]);
        var magnitude: int := DigitsValue(body);
        Some(if s[0] == '-' then -magnitude else magnitude)
      else None
    else if AllDigits(s) then Some(DigitsValue(s))
    else None
  }

  /** Every optionally signed, non-empty run of digits reads as its value, with
      the sign applied: leading zeros and a `+` change nothing. */
  lemma ParseSignedDigits(d: string)
    requires d != [] && AllDigits(d)
    ensures ParseInteger(d) == Some(DigitsValue(d))
    ensures ParseInteger("+" + d) == Some(DigitsValue(d))
    ensures ParseInteger("-" + d) == Some(-(DigitsValue(d) as int))
  {
    assert IsDigit(d[0]);
    var plus, minus := "+" + d, "-" + d;
    assert plus[0] == '+' && plus[1..] == d;
    assert minus[0] == '-' && minus[1..] == d;
  }

  /** Leading zeros do not change the value of a run of digits. */
  lemma {:induction false} LeadingZeroValue(d: string)
    requires AllDigits(d)
    ensures AllDigits("0" + d) && DigitsValue("0" + d) == DigitsValue(d)
    decreases |d|
  {
    var z := "0" + d;
    assert AllDigits(z) by {
      forall i | 0 <= i < |z| ensures IsDigit(z[i]) {
        if i > 0 { assert z[i] == d[i - 1]; }
      }
    }
    if d != [] {
      var init := d[..|d| - 1];
      assert z[..|z| - 1] == "0" + init;
      assert z[|z| - 1] == d[|d| - 1];
      LeadingZeroValue(init);
    }
  }

  /** Reading back the text of an integer gives the integer. */
  lemma IntTextRoundTrip(n: int)
    ensures ParseInteger(IntText(n)) == Some(n)
  {
    if n < 0 {
      var digits := NatDigits(-n);
      var s := "-" + digits;
      assert s[0] == '-' && s[1..] == digits;
      DigitsRoundTrip(-n);
      var magnitude: int := DigitsValue(digits);
      assert ParseInteger(s) == Some(-magnitude);
    } else {
      var s := NatDigits(n);
      assert IsDigit(s[0]) && AllDigits(s);
      DigitsRoundTrip(n);
      assert ParseInteger(s) == Some(DigitsValue(s));
    }
  }

  /** The result of `Number(...)`: an integer, or NaN. */
  datatype NumberValue = Int(n: int) | NaN

  /** `Number(s)` for a string: surrounding whitespace is ignored, blank text is 0,
      signed decimal integer text is its value, and any other text is NaN. */
  function ToNumber(s: string): (r: NumberValue)
    ensures Text.AllWhitespace(s) ==> r == Int(0)
    ensures r.NaN? ==> !Text.AllWhitespace(s)
    ensures !Text.AllWhitespace(s) ==>
      && (r.NaN? <==> ParseInteger(Text.Trim(s)).None?)
      && (r.Int? ==> ParseInteger(Text.Trim(s)) == Some(r.n))
  {
    var t := Text.Trim(s);
    Text.TrimEmptyIff(s);
    if t == [] then Int(0)
    else
      match ParseInteger(t)
      case Some(n) => Int(n)
      case None => NaN
  }

  /** `Number(`${n}`) === n`: rendering an integer and reading it back is the identity. */
  lemma ToNumberOfIntText(n: int)
    ensures ToNumber(IntText(n)) == Int(n)
  {
    var s := IntText(n);
    assert s[0] == '-' || IsDigit(s[0]);
    assert IsDigit(s[|s| - 1]);
    Text.TrimOfTrimmed(s);
    IntTextRoundTrip(n);
  }

  /** Surrounding whitespace never matters: `Number(s)` and `Number(s.trim())` agree. */
  lemma ToNumberIgnoresTrim(s: string)
    ensures ToNumber(Text.Trim(s)) == ToNumber(s)
  {
    Text.TrimIdempotent(s);
    Text.TrimEmptyIff(s);
    Text.TrimEmptyIff(Text.Trim(s));
  }

  /** Digit text, with or without a sign, is a number: its value with the sign applied. */
  lemma ToNumberOfSignedDigits(d: string)
    requires d != [] && AllDigits(d)
    ensures ToNumber(d) == Int(DigitsValue(d))
    ensures ToNumber("+" + d) == Int(DigitsValue(d))
    ensures ToNumber("-" + d) == Int(-(DigitsValue(d) as int))
  {
    ParseSignedDigits(d);
    assert IsDigit(d[0]) && IsDigit(d[|d| - 1]);
    Text.TrimOfTrimmed(d);
    var plus, minus := "+" + d, "-" + d;
    assert plus[|plus| - 1] == d[|d| - 1] && minus[|minus| - 1] == d[|d| - 1];
    Text.TrimOfTrimmed(plus);
    Text.TrimOfTrimmed(minus);
    Text.TrimEmptyIff(d);
    Text.TrimEmptyIff(plus);
    Text.TrimEmptyIff(minus);
  }

  /** `Number("0" + d) === Number(d)`: a leading zero is read past. */
  lemma ToNumberLeadingZeros(d: string)
    requires d != [] && AllDigits(d)
    ensures ToNumber("0" + d) == ToNumber(d)
  {
    LeadingZeroValue(d);
    ToNumberOfSignedDigits("0" + d);
    ToNumberOfSignedDigits(d);
  }
}
