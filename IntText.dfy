/**
  Swift's `Int.description`, the decimal rendering that becomes the title of
  a year in the month/year picker, together with the reading of such a
  rendering back into a number.
 */
module IntText {
  import opened Wrappers

  predicate IsDigit(c: char) {
    '0' <= c <= '9'
  }

  function DigitChar(d: int): (c: char)
    requires 0 <= d <= 9
  {
    (d + '0' as int) as char
  }

  function DigitValue(c: char): int {
    c as int - '0' as int
  }

  predicate AllDigits(s: string) {
    forall i :: 0 <= i < |s| ==> IsDigit(s[i])
  }

  /** The decimal digits of `n`, most significant first, without leading zeros. */
  function NatDescription(n: nat): (s: string)
    ensures |s| >= 1 && AllDigits(s)
    ensures |s| > 1 ==> s[0] != '0'
  {
    if n < 10 then [DigitChar(n)] else NatDescription(n / 10) + [DigitChar(n % 10)]
  }

  /** `Int.description`: the digits of the magnitude, preceded by '-' when negative. */
  function Description(i: int): (d: string)
    ensures |d| >= 1 && (d[0] == '-' <==> i < 0)
    ensures i < 0 ==> |d| >= 2 && AllDigits(d[1..])
    ensures i >= 0 ==> AllDigits(d)
  {
    if i < 0 then "-" + NatDescription(-i) else NatDescription(i)
  }

  /** The value of a string of decimal digits. */
  function DigitsValue(s: string): nat
    requires AllDigits(s)
  {
    if s == [] then 0 else DigitsValue(s[..|s| - 1]) * 10 + DigitValue(s[|s| - 1])
  }

  /** Reads a decimal rendering back: an optional '-' followed by at least one digit. */
  function Parse(s: string): Option<int> {
    if |s| >= 2 && s[0] == '-' && AllDigits(s[1..]) then Some(-(DigitsValue(s[1..]) as int))
    else if |s| >= 1 && AllDigits(s) then Some(DigitsValue(s))
    else None
  }

  lemma {:induction false} NatDescriptionValue(n: nat)
    ensures DigitsValue(NatDescription(n)) == n
  {
    if n >= 10 {
      var s := NatDescription(n);
      assert s[..|s| - 1] == NatDescription(n / 10);
      NatDescriptionValue(n / 10);
    }
  }

  /** Reading the rendering of a number gives the number back. */
  lemma DescriptionRoundTrip(i: int)
    ensures Parse(Description(i)) == Some(i)
  {
    var s := Description(i);
    if i < 0 {
      var t := NatDescription(-i);
      assert s == "-" + t;
      assert s[1..] == t;
      NatDescriptionValue(-i);
      assert Parse(s) == Some(-(DigitsValue(t) as int));
    } else {
      assert s == NatDescription(i);
      assert IsDigit(s[0]);
      NatDescriptionValue(i);
      assert Parse(s) == Some(DigitsValue(s) as int);
    }
  }

  /** Different numbers have different renderings. */
  lemma DescriptionInjective(a: int, b: int)
    ensures Description(a) == Description(b) <==> a == b
  {
    DescriptionRoundTrip(a);
    DescriptionRoundTrip(b);
  }
}
