/**
 * Decimal digit strings: how a JavaScript number becomes text in a template
 * literal (`${n}` for a natural number), how `slice(-k)` keeps its last digits,
 * and how `Number(s)` reads a digit string back.
 */
module Decimal {

  predicate IsDigit(c: char) {
    '0' <= c <= '9'
  }

  predicate AllDigits(s: string) {
    forall i :: 0 <= i < |s| ==> IsDigit(s[i])
  }

  function DigitChar(d: nat): (c: char)
    requires d < 10
    ensures IsDigit(c) && c as int - '0' as int == d
  {
    ('0' as int + d) as char
  }

  function DigitValue(c: char): (d: nat)
    requires IsDigit(c)
    ensures d < 10 && DigitChar(d) == c
  {
    c as int - '0' as int
  }

  /** The decimal text of `n`, without leading zeros. */
  function DecimalString(n: nat): (s: string)
    ensures |s| >= 1 && AllDigits(s)
    ensures n < 10 <==> |s| == 1
    decreases n
  {
    if n < 10 then [DigitChar(n)] else DecimalString(n / 10) + [DigitChar(n % 10)]
  }

  /** `Number(s)` for a string of decimal digits; leading zeros are allowed and "" reads as 0. */
  function DigitsValue(s: string): nat
    requires AllDigits(s)
  {
    if s == [] then 0 else DigitsValue(s[..|s| - 1]) * 10 + DigitValue(s[|s| - 1])
  }

  function Pow10(k: nat): (p: nat)
    ensures p >= 1
    ensures k >= 1 ==> p >= 10
  {
    if k == 0 then 1 else 10 * Pow10(k - 1)
  }

  /** The last `k` characters of `s`, or all of `s` when it is shorter: `s.slice(-k)` for `k >= 1`. */
  function Suffix(s: string, k: nat): (r: string)
    ensures |r| <= k && |r| <= |s|
    ensures AllDigits(s) ==> AllDigits(r)
  {
    if |s| <= k then s else s[|s| - k..]
  }

  lemma DigitsValueSnoc(s: string, c: char)
    requires AllDigits(s) && IsDigit(c)
    ensures AllDigits(s + [c])
    ensures DigitsValue(s + [c]) == DigitsValue(s) * 10 + DigitValue(c)
  {
    assert (s + [c])[..|s|] == s;
  }

  /** Reading back the decimal text of `n` gives `n`. */
  lemma {:induction false} DecimalRoundTrip(n: nat)
    ensures DigitsValue(DecimalString(n)) == n
    decreases n
  {
    if n >= 10 {
      DecimalRoundTrip(n / 10);
      DigitsValueSnoc(DecimalString(n / 10), DigitChar(n % 10));
    }
  }

  /** Distinct numbers have distinct decimal texts. */
  lemma DecimalStringInjective(m: nat, n: nat)
    requires DecimalString(m) == DecimalString(n)
    ensures m == n
  {
    DecimalRoundTrip(m);
    DecimalRoundTrip(n);
  }

  lemma DivModFacts(n: int, d: int)
    requires d > 0
    ensures n == d * (n / d) + n % d && 0 <= n % d < d
  {
  }

  lemma MulAtLeast(d: int, e: int)
    requires d > 0 && e > 0
    ensures d * e >= d
  {
    assert d * e == d * (e - 1) + d;
  }

  lemma SmallMultipleIsZero(d: int, e: int, x: int)
    requires d > 0 && d * e == x && -d < x < d
    ensures e == 0
  {
    if e > 0 {
      MulAtLeast(d, e);
    } else if e < 0 {
      MulAtLeast(d, -e);
    }
  }

  /** Euclidean division has one quotient and one remainder. */
  lemma ModUnique(n: int, d: int, q: int, r: int)
    requires d > 0 && 0 <= r < d && n == d * q + r
    ensures n % d == r && n / d == q
  {
    DivModFacts(n, d);
    var q', r' := n / d, n % d;
    assert d * (q - q') == r' - r by {
      assert d * (q - q') == d * q - d * q';
    }
    SmallMultipleIsZero(d, q - q', r' - r);
  }

  lemma ModTenTimes(n: nat, m: nat)
    requires m >= 1
    ensures n % (10 * m) == (n / 10 % m) * 10 + n % 10
  {
    var q, r := n / 10, n % 10;
    var a, b := q / m, q % m;
    assert q == m * a + b;
    assert n == (10 * m) * a + (b * 10 + r) by {
      assert n == 10 * q + r;
      assert 10 * q == 10 * (m * a) + 10 * b;
    }
    assert 0 <= b * 10 + r < 10 * m by {
      assert b <= m - 1;
      assert b * 10 <= (m - 1) * 10;
    }
    ModUnique(n, 10 * m, a, b * 10 + r);
  }

  lemma SuffixSnoc(s: string, c: char, k: nat)
    requires k >= 1
    ensures Suffix(s + [c], k) == Suffix(s, k - 1) + [c]
  {
  }

  /** A single digit is its own last `k >= 1` digits. */
  lemma LastDigitsOfDigit(n: nat, k: nat)
    requires n < 10 && k >= 1
    ensures DigitsValue(Suffix(DecimalString(n), k)) == n % Pow10(k)
  {
    assert Suffix(DecimalString(n), k) == DecimalString(n);
    DecimalRoundTrip(n);
    ModUnique(n, Pow10(k), 0, n);
  }

  /** The last `k` digits of `n` are the last `k - 1` digits of `n / 10` followed by `n % 10`. */
  lemma LastDigitsStep(n: nat, k: nat)
    requires n >= 10 && k >= 1
    requires DigitsValue(Suffix(DecimalString(n / 10), k - 1)) == n / 10 % Pow10(k - 1)
    ensures DigitsValue(Suffix(DecimalString(n), k)) == n % Pow10(k)
  {
    var p, c := DecimalString(n / 10), DigitChar(n % 10);
    var m := Pow10(k - 1);
    assert DecimalString(n) == p + [c];
    SuffixSnoc(p, c, k);
    DigitsValueSnoc(Suffix(p, k - 1), c);
    ModTenTimes(n, m);
  }

  /** The last `k` decimal digits of `n`, read back as a number, are `n` modulo `10^k`. */
  lemma {:induction false} LastDigitsValue(n: nat, k: nat)
    ensures DigitsValue(Suffix(DecimalString(n), k)) == n % Pow10(k)
    decreases n
  {
    if k == 0 {
      assert Suffix(DecimalString(n), k) == [];
    } else if n < 10 {
      LastDigitsOfDigit(n, k);
    } else {
      LastDigitsValue(n / 10, k - 1);
      LastDigitsStep(n, k);
    }
  }
}
