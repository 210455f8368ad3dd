/**
 * Decimal text of integers as Rust's formatting machinery produces it:
 * `n.to_string()` and the zero-padded `{:0w}` form (the sign, when there is
 * one, counts towards the width and the zeros go after it), and the value of
 * a string of digits, which is what a fixed-width parser reads back.
 */
module Decimal {

  predicate IsDigit(c: char) {
    '0' <= c <= '9'
  }

  predicate AllDigits(s: string) {
    forall i | 0 <= i < |s| :: IsDigit(s[i])
  }

  function DigitChar(v: int): (c: char)
    requires 0 <= v < 10
    ensures IsDigit(c) && DigitValue(c) == v
  {
    (48 + v) as char
  }

  function DigitValue(c: char): int
    requires IsDigit(c)
  {
    c as int - 48
  }

  function Pow10(k: nat): (p: nat)
    ensures p >= 1
  {
    if k == 0 then 1 else 10 * Pow10(k - 1)
  }

  /** The number a string of digits denotes (leading zeros allowed). */
  function Value(s: string): (v: nat)
    requires AllDigits(s)
    ensures v < Pow10(|s|)
  {
    if s == [] then 0 else 10 * Value(s[..|s| - 1]) + DigitValue(s[|s| - 1])
  }

  /** `n.to_string()` for a non-negative `n`: its digits, without leading zeros. */
  function Digits(n: nat): (s: string)
    ensures 1 <= |s| && AllDigits(s) && Value(s) == n
    ensures |s| == 1 || s[0] != '0'
  {
    if n < 10 then [DigitChar(n)]
    else
      var prefix := Digits(n / 10);
      var s := prefix + [DigitChar(n % 10)];
      assert s[..|s| - 1] == prefix;
      s
  }

  /** Zeros added on the left up to `width` characters. */
  function PadLeft(s: string, width: nat): (r: string)
    requires AllDigits(s)
    ensures |r| == if |s| >= width then |s| else width
    ensures |s| >= width ==> r == s
    ensures AllDigits(r) && Value(r) == Value(s)
    decreases width - |s|
  {
    if |s| >= width then s
    else
      LeadingZero(s);
      PadLeft(['0'] + s, width)
  }

  /**
   * `format!("{:0width$}", n)`: the decimal text of `n`, zero-padded to at
   * least `width` characters, a minus sign first when `n` is negative.
   */
  function Formatted(n: int, width: nat): (s: string)
    ensures |s| >= width && |s| >= 1
    ensures n >= 0 ==> AllDigits(s) && Value(s) == n
    ensures n < 0 ==> s[0] == '-' && AllDigits(s[1..]) && Value(s[1..]) == -n
    ensures n >= 0 ==> |s| == width || s == Digits(n)
    ensures n < 0 ==> |s| == width || s == "-" + Digits(-n)
  {
    if n >= 0 then PadLeft(Digits(n), width)
    else
      var body := PadLeft(Digits(-n), if width > 0 then width - 1 else 0);
      assert ("-" + body)[1..] == body;
      "-" + body
  }

  /** A leading zero does not change the value. */
  lemma {:induction false} LeadingZero(s: string)
    requires AllDigits(s)
    ensures AllDigits(['0'] + s) && Value(['0'] + s) == Value(s)
    decreases |s|
  {
    var z := ['0'] + s;
    if s != [] {
      assert z[..|z| - 1] == ['0'] + s[..|s| - 1];
      LeadingZero(s[..|s| - 1]);
    }
  }

  /** A number below 10^w has at most w digits. */
  lemma {:induction false} DigitsLength(n: nat, w: nat)
    requires 1 <= w && n < Pow10(w)
    ensures |Digits(n)| <= w
    decreases w
  {
    if n >= 10 {
      DigitsLength(n / 10, w - 1);
    }
  }

  /** Strings of digits of one length are equal exactly when their values are. */
  lemma {:induction false} ValueInjective(s: string, t: string)
    requires AllDigits(s) && AllDigits(t) && |s| == |t| && Value(s) == Value(t)
    ensures s == t
    decreases |s|
  {
    if s != [] {
      var n := |s| - 1;
      var a, b := Value(s[..n]), Value(t[..n]);
      assert 10 * a + DigitValue(s[n]) == 10 * b + DigitValue(t[n]);
      assert DigitValue(s[n]) == DigitValue(t[n]) && a == b;
      ValueInjective(s[..n], t[..n]);
      assert s == s[..n] + [s[n]] && t == t[..n] + [t[n]];
    }
  }

  /** Zero-padded formatting to a width `w` that `n` fits in gives exactly `w` digits. */
  lemma FormattedFits(n: nat, w: nat)
    requires 1 <= w && n < Pow10(w)
    ensures |Formatted(n, w)| == w && AllDigits(Formatted(n, w))
  {
    DigitsLength(n, w);
  }

  /** Formatting to a width is one-to-one: distinct numbers never print alike. */
  lemma FormattedInjective(a: int, b: int, width: nat)
    requires Formatted(a, width) == Formatted(b, width)
    ensures a == b
  {
  }

  /** A fixed-width field of digits is reproduced by formatting its value to that width. */
  lemma FormattedValue(s: string)
    requires 1 <= |s| && AllDigits(s)
    ensures Formatted(Value(s), |s|) == s
  {
    FormattedFits(Value(s), |s|);
    ValueInjective(Formatted(Value(s), |s|), s);
  }
}
