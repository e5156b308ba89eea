/**
 * Decimal rendering of integers: the digits, the `%0Nd` zero-padded field of
 * C's printf (which Swift's `String(format:)` follows), and the parse back.
 */
module Text {

  import opened Wrappers

  predicate IsDigit(c: char) {
    '0' <= c <= '9'
  }

  predicate AllDigits(s: string) {
    forall i :: 0 <= i < |s| ==> IsDigit(s[i])
  }

  function DigitChar(d: nat): (c: char)
    requires d < 10
    ensures IsDigit(c)
  {
    ('0' as int + d) as char
  }

  function DigitValue(c: char): (d: nat)
    requires IsDigit(c)
    ensures d < 10
  {
    c as int - '0' as int
  }

  /** The decimal digits of n, without leading zeros. */
  function Digits(n: nat): (s: string)
    ensures 1 <= |s| && AllDigits(s)
    decreases n
  {
    if n < 10 then [DigitChar(n)] else Digits(n / 10) + [DigitChar(n % 10)]
  }

  function Zeros(k: nat): (s: string)
    ensures |s| == k && AllDigits(s)
  {
    seq(k, _ => '0')
  }

  /** The number a string of digits denotes. */
  function Value(s: string): nat
    requires AllDigits(s)
    decreases |s|
  {
    if s == [] then 0 else Value(s[..|s| - 1]) * 10 + DigitValue(s[|s| - 1])
  }

  function Pow10(k: nat): nat {
    if k == 0 then 1 else 10 * Pow10(k - 1)
  }

  /** n zero-padded on the left to at least `width` digits. */
  function PadNat(n: nat, width: nat): (s: string)
    ensures AllDigits(s)
  {
    var ds := Digits(n);
    if |ds| < width then Zeros(width - |ds|) + ds else ds
  }

  /**
   * printf's `%0<width>d`: the sign, if any, comes first and counts towards
   * the width, and zeros fill the rest.
   */
  function FormatInt(n: int, width: nat): (s: string)
    ensures |s| >= 1
    ensures n >= 0 <==> AllDigits(s)
    ensures forall i :: 0 < i < |s| ==> IsDigit(s[i])
    ensures IsDigit(s[0]) || s[0] == '-'
  {
    if n >= 0 then PadNat(n, width)
    else
      var s := "-" + PadNat(-n, if width > 0 then width - 1 else 0);
      assert !IsDigit(s[0]);
      s
  }

  predicate IsNumeral(s: string) {
    if |s| > 0 && s[0] == '-' then AllDigits(s[1..]) else AllDigits(s)
  }

  function ParseInt(s: string): int
    requires IsNumeral(s)
  {
    if |s| > 0 && s[0] == '-' then -(Value(s[1..]) as int) else Value(s)
  }

  lemma {:induction false} ValueOfDigits(n: nat)
    ensures Value(Digits(n)) == n
    decreases n
  {
    if n >= 10 {
      var s := Digits(n);
      assert s[..|s| - 1] == Digits(n / 10);
      ValueOfDigits(n / 10);
    }
  }

  lemma {:induction false} ValueOfZeros(k: nat, s: string)
    requires AllDigits(s)
    ensures Value(Zeros(k) + s) == Value(s)
    decreases |s|, k
  {
    if s == [] {
      assert Zeros(k) + s == Zeros(k);
      if k > 0 {
        assert Zeros(k)[..k - 1] == Zeros(k - 1);
        ValueOfZeros(k - 1, []);
        assert Zeros(k - 1) + [] == Zeros(k - 1);
      }
    } else {
      var t := Zeros(k) + s;
      assert t[..|t| - 1] == Zeros(k) + s[..|s| - 1];
      ValueOfZeros(k, s[..|s| - 1]);
    }
  }

  lemma ValueOfPadNat(n: nat, width: nat)
    ensures Value(PadNat(n, width)) == n
  {
    ValueOfDigits(n);
    var ds := Digits(n);
    if |ds| < width {
      ValueOfZeros(width - |ds|, ds);
    }
  }

  /** Formatting with `%0Nd` loses nothing: the numeral parses back to the number. */
  lemma ParseFormatInt(n: int, width: nat)
    ensures IsNumeral(FormatInt(n, width)) && ParseInt(FormatInt(n, width)) == n
  {
    var s := FormatInt(n, width);
    if n >= 0 {
      ValueOfPadNat(n, width);
      assert !(|s| > 0 && s[0] == '-');
    } else {
      var w := if width > 0 then width - 1 else 0;
      ValueOfPadNat(-n, w);
      assert s[1..] == PadNat(-n, w);
    }
  }

  /** The `%0Nd` field of a number is injective for a fixed width. */
  lemma FormatIntInjective(a: int, b: int, width: nat)
    ensures FormatInt(a, width) == FormatInt(b, width) <==> a == b
  {
    ParseFormatInt(a, width);
    ParseFormatInt(b, width);
  }

  /** A number has at most k digits exactly when it is below 10^k. */
  lemma {:induction false} DigitsLength(n: nat, k: nat)
    requires k >= 1
    ensures |Digits(n)| <= k <==> n < Pow10(k)
    decreases n
  {
    if n >= 10 {
      if k == 1 {
        assert |Digits(n)| == |Digits(n / 10)| + 1;
      } else {
        DigitsLength(n / 10, k - 1);
        assert n == 10 * (n / 10) + n % 10;
      }
    } else {
      PowAtLeastTen(k);
    }
  }

  lemma {:induction false} PowAtLeastTen(k: nat)
    requires k >= 1
    ensures Pow10(k) >= 10
  {
    if k > 1 {
      PowAtLeastTen(k - 1);
    }
  }

  /** A `%0Nd` field of a non-negative number is exactly `width` digits when the number fits. */
  lemma FormatIntWidth(n: int, width: nat)
    requires width >= 1
    ensures |FormatInt(n, width)| == width && AllDigits(FormatInt(n, width)) <==> 0 <= n < Pow10(width)
  {
    if n >= 0 {
      DigitsLength(n, width);
    }
  }

  /**
   * Swift's `String(format:)` restricted to the conversion the core uses,
   * `%0<w>d` with a one-digit width; any other character is copied. None
   * when a conversion has no argument left or is one this model does not
   * cover.
   */
  function Printf(format: string, args: seq<int>): Option<string>
    decreases |format|
  {
    if format == [] then Some([])
    else if format[0] != '%' then
      match Printf(format[1..], args)
      case None => None
      case Some(rest) => Some([format[0]] + rest)
    else if |format| >= 4 && format[1] == '0' && IsDigit(format[2]) && format[3] == 'd' && args != [] then
      match Printf(format[4..], args[1..])
      case None => None
      case Some(rest) => Some(FormatInt(args[0], DigitValue(format[2])) + rest)
    else None
  }
}
