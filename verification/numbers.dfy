/** JavaScript's string-to-number conversions as the program uses them:
    `Number(s)` (the whole trimmed string must be a numeral, the empty string
    is 0) and `parseFloat(s)` (the longest numeral prefix after leading white
    space). NaN is `None`. Numerals are decimal: optional sign, digits, an
    optional fraction. */
module Numbers {
  import opened Wrappers
  import opened Strings

  /** The value of `intPart.frac`. */
  function DecimalValue(intPart: string, frac: string): (v: real)
    requires AllDigits(intPart) && AllDigits(frac)
    ensures v >= 0.0
    ensures |frac| == 0 ==> v == DigitsValue(intPart) as real
  {
    DigitsValue(intPart) as real + DigitsValue(frac) as real / Pow10(|frac|) as real
  }

  /** The position of the first `c` in `s`, or `|s|` when there is none. */
  function FindChar(s: string, c: char): (k: nat)
    ensures k <= |s|
    ensures c !in s[..k]
    ensures k < |s| ==> s[k] == c
    decreases |s|
  {
    if |s| == 0 then 0
    else if s[0] == c then 0
    else
      var k := FindChar(s[1..], c);
      assert s[..k + 1] == [s[0]] + s[1..][..k];
      k + 1
  }

  /** An unsigned numeral `digits`, `digits.`, `.digits` or `digits.digits`
      (at least one digit in all). */
  function ParseUnsigned(s: string): (r: Option<real>)
    ensures r.Some? ==> r.value >= 0.0
    ensures AllDigits(s) && |s| > 0 ==> r == Some(DigitsValue(s) as real)
  {
    var k := FindChar(s, '.');
    var intPart := s[..k];
    var frac := if k < |s| then s[k + 1..] else "";
    assert AllDigits(s) ==> k == |s| && intPart == s;
    if AllDigits(intPart) && AllDigits(frac) && |intPart| + |frac| > 0 then
      Some(DecimalValue(intPart, frac))
    else None
  }

  /** A numeral with an optional leading `+` or `-`. */
  function ParseSigned(s: string): (r: Option<real>)
    ensures r.Some? && |s| > 0 && s[0] == '-' ==> r.value <= 0.0
    ensures r.Some? && (|s| == 0 || s[0] != '-') ==> r.value >= 0.0
    ensures AllDigits(s) && |s| > 0 ==> r == Some(DigitsValue(s) as real)
  {
    if |s| > 0 && s[0] == '-' then
      match ParseUnsigned(s[1..])
      case Some(v) => Some(-v)
      case None => None
    else if |s| > 0 && s[0] == '+' then ParseUnsigned(s[1..])
    else ParseUnsigned(s)
  }

  /** `Number(s)`: white space around the numeral is ignored and a blank
      string is 0. */
  function ToNumber(s: string): (r: Option<real>)
    ensures AllWhitespace(s) ==> r == Some(0.0)
  {
    TrimEmpty(s);
    var t := Trim(s);
    if |t| == 0 then Some(0.0) else ParseSigned(t)
  }

  predicate IsNumeral(s: string) {
    ParseSigned(s).Some?
  }

  /** The length of the longest prefix of `t`, at most `n` long, that
      satisfies `p`; 0 if none does. */
  function LongestPrefix(t: string, n: nat, p: string -> bool): (k: nat)
    requires n <= |t|
    ensures k <= n
    ensures k > 0 ==> p(t[..k])
    ensures forall m :: k < m <= n ==> !p(t[..m])
    decreases n
  {
    if n == 0 then 0
    else if p(t[..n]) then n
    else LongestPrefix(t, n - 1, p)
  }

  /** `parseFloat(s)`: the longest numeral after leading white space. */
  function ParseFloat(s: string): (r: Option<real>)
    ensures r.Some? <==> LongestPrefix(TrimStart(s), |TrimStart(s)|, IsNumeral) > 0
  {
    var t := TrimStart(s);
    var k := LongestPrefix(t, |t|, IsNumeral);
    if k == 0 then None else ParseSigned(t[..k])
  }

  /** `x || 0` on a parsed number: NaN and 0 both give 0. */
  function OrZero(x: Option<real>): (r: real)
    ensures x.Some? ==> r == x.value
    ensures x.None? ==> r == 0.0
  {
    x.GetOr(0.0)
  }

  /** ToIntegerOrInfinity on a finite value: truncation toward zero. */
  function Trunc(x: real): (r: int)
    ensures x >= 0.0 ==> r as real <= x < r as real + 1.0
    ensures x < 0.0 ==> r as real - 1.0 < x <= r as real
  {
    if x >= 0.0 then x.Floor else -((-x).Floor)
  }

  lemma TruncOfInt(n: int)
    ensures Trunc(n as real) == n
  {
  }

  /** A digit string holds no white space, so `trim` leaves it alone. */
  lemma TrimDigits(s: string)
    requires AllDigits(s)
    ensures TrimStart(s) == s && Trim(s) == s
  {
    if |s| > 0 {
      DigitNotWhitespace(s[0]);
      DigitNotWhitespace(s[|s| - 1]);
    }
  }

  lemma DigitNotWhitespace(c: char)
    requires IsDigit(c)
    ensures !IsJsWhitespace(c)
  {
  }

  /** `Number` reads a non-empty digit string as its decimal value. */
  lemma ToNumberDigits(s: string)
    requires AllDigits(s) && |s| > 0
    ensures ToNumber(s) == Some(DigitsValue(s) as real)
  {
    TrimDigits(s);
  }

  /** On a numeral with nothing around it, `parseFloat` and `Number` agree:
      the whole string is the longest numeral prefix. */
  lemma ParseFloatAgreesWithNumber(s: string)
    requires ParseSigned(s).Some?
    requires |s| > 0 && !IsJsWhitespace(s[0]) && !IsJsWhitespace(s[|s| - 1])
    ensures ParseFloat(s) == ToNumber(s) == ParseSigned(s)
  {
    assert TrimStart(s) == s;
    assert TrimEnd(s) == s;
    assert s[..|s|] == s;
  }
}
