/** Decimal rendering of integers, as JavaScript's template literal
    `${number}` writes an integer-valued number, and its inverse. */
module Decimal {
  import opened Common

  function DigitChar(d: int): (c: char)
    requires 0 <= d < 10
    ensures '0' <= c <= '9'
  {
    ('0' as int + d) as char
  }

  function DigitValue(c: char): (d: Option<int>)
    ensures d.Some? <==> '0' <= c <= '9'
    ensures d.Some? ==> 0 <= d.value < 10
  {
    if '0' <= c <= '9' then Some(c as int - '0' as int) else None
  }

  /** The shortest decimal digit string of a non-negative integer. */
  function Digits(n: nat): (s: string)
    ensures |s| > 0
    ensures forall i :: 0 <= i < |s| ==> '0' <= s[i] <= '9'
    decreases n
  {
    if n < 10 then [DigitChar(n)] else Digits(n / 10) + [DigitChar(n % 10)]
  }

  /** `${n}` for an integer `n`: a minus sign for negatives, then the digits. */
  function ToDecimal(n: int): (s: string)
  {
    if n < 0 then "-" + Digits(-n) else Digits(n)
  }

  /** Value of a non-empty run of decimal digits. */
  function ParseDigits(s: string): (r: Option<nat>)
    decreases |s|
  {
    if |s| == 0 then None
    else
      match (if |s| == 1 then Some(0) else ParseDigits(s[..|s| - 1]), DigitValue(s[|s| - 1]))
      case (Some(high), Some(low)) => Some(high * 10 + low)
      case _ => None
  }

  /** Inverse of `ToDecimal`: an optional minus sign followed by digits. */
  function ParseDecimal(s: string): (r: Option<int>)
  {
    if |s| > 0 && s[0] == '-' then
      match ParseDigits(s[1..])
      case Some(v) => Some(-(v as int))
      case None => None
    else
      match ParseDigits(s)
      case Some(v) => Some(v as int)
      case None => None
  }

  lemma {:induction false} ParseDigitsRoundTrip(n: nat)
    ensures ParseDigits(Digits(n)) == Some(n)
    decreases n
  {
    var s := Digits(n);
    if n < 10 {
      assert s == [DigitChar(n)];
    } else {
      ParseDigitsRoundTrip(n / 10);
      assert s[..|s| - 1] == Digits(n / 10);
      assert DigitValue(s[|s| - 1]) == Some(n % 10);
    }
  }

  /** Parsing the rendering of an integer gives the integer back, so two
      different numbers never render alike. */
  lemma ParseToDecimal(n: int)
    ensures ParseDecimal(ToDecimal(n)) == Some(n)
  {
    if n < 0 {
      ParseDigitsRoundTrip(-n);
      assert ToDecimal(n)[1..] == Digits(-n);
    } else {
      ParseDigitsRoundTrip(n);
    }
  }

  /** The rendering contains only a sign and digits; in particular no `:`. */
  lemma ToDecimalHasNoColon(n: int)
    ensures forall i :: 0 <= i < |ToDecimal(n)| ==> ToDecimal(n)[i] != ':'
    ensures |ToDecimal(n)| > 0
  {
  }
}
