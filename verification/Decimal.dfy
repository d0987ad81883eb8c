/** Decimal numerals, as the source's formatting macros print them. */
module Decimal {

  function Digit(d: nat): char
    requires d < 10
  {
    '0' + d as char
  }

  /** The shortest numeral of `n` (`{n}`). */
  function Digits(n: nat): (s: string)
    ensures s != []
    ensures forall i :: 0 <= i < |s| ==> '0' <= s[i] <= '9'
  {
    if n < 10 then [Digit(n)] else Digits(n / 10) + [Digit(n % 10)]
  }

  /** What a numeral denotes; the reading back that makes `Digits` injective. */
  function Value(s: string): nat
    requires forall i :: 0 <= i < |s| ==> '0' <= s[i] <= '9'
  {
    if s == [] then 0 else 10 * Value(s[..|s| - 1]) + (s[|s| - 1] - '0') as nat
  }

  lemma {:induction false} ValueOfDigits(n: nat)
    ensures Value(Digits(n)) == n
  {
    if n >= 10 {
      ValueOfDigits(n / 10);
      assert Digits(n)[..|Digits(n)| - 1] == Digits(n / 10);
    }
  }

  lemma DigitsInjective(m: nat, n: nat)
    requires Digits(m) == Digits(n)
    ensures m == n
  {
    ValueOfDigits(m);
    ValueOfDigits(n);
  }

  function Power10(k: nat): (p: nat)
    ensures p >= 1
  {
    if k == 0 then 1 else 10 * Power10(k - 1)
  }

  lemma {:induction false} PowersMultiply(a: nat, b: nat)
    ensures Power10(a + b) == Power10(a) * Power10(b)
  {
    if a > 0 {
      PowersMultiply(a - 1, b);
      assert 10 * (Power10(a - 1) * Power10(b)) == 10 * Power10(a - 1) * Power10(b);
    }
  }

  /** A number below `10^k` takes at most `k` digits. */
  lemma {:induction false} DigitsLength(n: nat, k: nat)
    requires k >= 1 && n < Power10(k)
    ensures |Digits(n)| <= k
  {
    if n >= 10 {
      assert n / 10 < Power10(k - 1);
      DigitsLength(n / 10, k - 1);
    }
  }

  /** A number from `10^k` on takes more than `k` digits. */
  lemma {:induction false} DigitsLengthFrom(n: nat, k: nat)
    requires n >= Power10(k)
    ensures |Digits(n)| > k
  {
    if k > 0 {
      assert n / 10 >= Power10(k - 1);
      DigitsLengthFrom(n / 10, k - 1);
    }
  }

  /** `{n:0width}`: zero-padded on the left, never truncated. */
  function Pad(n: nat, width: nat): (s: string)
    ensures |s| >= width
    ensures forall i :: 0 <= i < |s| ==> '0' <= s[i] <= '9'
  {
    var s := Digits(n);
    if |s| >= width then s else seq(width - |s|, _ => '0') + s
  }

  lemma {:induction false} ValueOfLeadingZeros(k: nat, s: string)
    requires forall i :: 0 <= i < |s| ==> '0' <= s[i] <= '9'
    ensures Value(seq(k, _ => '0') + s) == Value(s)
    decreases k + |s|
  {
    var zeros := seq(k, _ => '0');
    var all := zeros + s;
    if s == [] {
      if k > 0 {
        assert all[..|all| - 1] == seq(k - 1, _ => '0') + [];
        ValueOfLeadingZeros(k - 1, []);
      }
    } else {
      assert all[..|all| - 1] == zeros + s[..|s| - 1];
      ValueOfLeadingZeros(k, s[..|s| - 1]);
    }
  }

  /** Padding keeps the number, and keeps to the width when the number fits. */
  lemma PadExact(n: nat, width: nat)
    requires width >= 1 && n < Power10(width)
    ensures |Pad(n, width)| == width
    ensures Value(Pad(n, width)) == n
  {
    DigitsLength(n, width);
    ValueOfDigits(n);
    if |Digits(n)| < width {
      ValueOfLeadingZeros(width - |Digits(n)|, Digits(n));
    }
  }
}
