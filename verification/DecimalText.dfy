/** Decimal rendering of integers and its inverse, as the cursors and tokens use them. */
module DecimalText {
  import opened Common

  predicate IsDigit(c: char) { '0' <= c <= '9' }

  function DigitChar(d: nat): (c: char)
    requires d < 10
    ensures IsDigit(c)
  {
    ('0' as int + d) as char
  }

  function DigitValue(c: char): (d: nat)
    requires IsDigit(c)
    ensures d < 10
  {
    c as int - '0' as int
  }

  predicate AllDigits(s: string) { forall i :: 0 <= i < |s| ==> IsDigit(s[i]) }

  function Digits(n: nat): (s: string)
    ensures s != [] && AllDigits(s)
  {
    if n < 10 then [DigitChar(n)] else Digits(n / 10) + [DigitChar(n % 10)]
  }

  function DigitsValue(s: string): nat
    requires AllDigits(s)
  {
    if s == [] then 0 else DigitsValue(s[..|s| - 1]) * 10 + DigitValue(s[|s| - 1])
  }

  function Show(n: int): (s: string)
    ensures s != [] && forall i :: 0 <= i < |s| ==> IsDigit(s[i]) || s[i] == '-'
  {
    if n < 0 then "-" + Digits(-n) else Digits(n)
  }

  function Read(s: string): Option<int> {
    if s == [] then None
    else if s[0] == '-' then
      if 1 < |s| && AllDigits(s[1..]) then Some(0 - DigitsValue(s[1..])) else None
    else if AllDigits(s) then Some(DigitsValue(s)) else None
  }

  lemma {:induction false} DigitsRoundTrip(n: nat)
    ensures DigitsValue(Digits(n)) == n
  {
    if n >= 10 {
      DigitsRoundTrip(n / 10);
      assert Digits(n)[..|Digits(n)| - 1] == Digits(n / 10);
    } else {
      assert Digits(n)[..0] == [];
    }
  }

  lemma ReadShow(n: int)
    ensures Read(Show(n)) == Some(n)
  {
    if n < 0 {
      DigitsRoundTrip(-n);
      assert Show(n)[1..] == Digits(-n);
    } else {
      DigitsRoundTrip(n);
    }
  }

  /** What counts as a number: digits, or a minus sign and digits. */
  lemma ReadIff(s: string)
    ensures Read(s).Some? <==>
      || (s != "" && forall i :: 0 <= i < |s| ==> '0' <= s[i] <= '9')
      || (|s| >= 2 && s[0] == '-' && forall i :: 1 <= i < |s| ==> '0' <= s[i] <= '9')
  {
    if |s| >= 1 { assert forall i :: 1 <= i < |s| ==> s[1..][i - 1] == s[i]; }
  }

  /** Most significant digit first, with a minus sign in front of negative numbers. */
  lemma ShowExamples()
    ensures Show(0) == "0" && Show(1974) == "1974" && Show(-1205) == "-1205" && Show(368) == "368"
  {
    assert Digits(19) == "19";
    assert Digits(197) == "197";
    assert Digits(12) == "12";
    assert Digits(120) == "120";
    assert Digits(36) == "36";
  }

  // ----- Zero padding -----

  function Pow10(k: nat): (p: nat)
    ensures p > 0
  {
    if k == 0 then 1 else 10 * Pow10(k - 1)
  }

  /** The decimal digits of `n`, padded with zeros on the left to at least `width` characters. */
  function ZeroFill(n: nat, width: nat): (s: string)
    ensures AllDigits(s) && |s| >= width
  {
    var d := Digits(n);
    if |d| >= width then d else seq(width - |d|, _ => '0') + d
  }

  lemma {:induction false} DigitsFit(n: nat, width: nat)
    requires 0 < width && n < Pow10(width)
    ensures |Digits(n)| <= width
  {
    if n >= 10 {
      assert n / 10 < Pow10(width - 1);
      DigitsFit(n / 10, width - 1);
    }
  }

  /** A number below 10^width fills exactly `width` characters. */
  lemma ZeroFillWidth(n: nat, width: nat)
    requires 0 < width && n < Pow10(width)
    ensures |ZeroFill(n, width)| == width
  {
    DigitsFit(n, width);
  }

  lemma {:induction false} LeadingZeros(k: nat, s: string)
    requires AllDigits(s)
    ensures AllDigits(seq(k, _ => '0') + s)
    ensures DigitsValue(seq(k, _ => '0') + s) == DigitsValue(s)
    decreases |s|, k
  {
    var z := seq(k, _ => '0');
    if s == [] {
      if k > 0 {
        assert (z + s)[..k - 1] == seq(k - 1, _ => '0') + [];
        LeadingZeros(k - 1, []);
      } else {
        assert z + s == [];
      }
    } else {
      assert (z + s)[..|z + s| - 1] == z + s[..|s| - 1];
      LeadingZeros(k, s[..|s| - 1]);
    }
  }

  /** Padding keeps the number, so distinct numbers have distinct codes. */
  lemma ZeroFillValue(n: nat, width: nat)
    ensures DigitsValue(ZeroFill(n, width)) == n
  {
    DigitsRoundTrip(n);
    if |Digits(n)| < width { LeadingZeros(width - |Digits(n)|, Digits(n)); }
  }
}
