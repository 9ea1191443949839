/** Integer arithmetic the way the host languages do it.
    Go's `/` and `%` truncate toward zero, JavaScript's `Math.round` rounds
    half-way cases up, and `fmt.Sprintf("%d")` prints decimal digits; Dafny's
    own `/` and `%` are Euclidean, so each is written out here. */
module Numeric {

  /** Go integer division by a positive divisor: the quotient is truncated
      toward zero, so it never overshoots the dividend in magnitude. */
  function GoDiv(a: int, b: int): (q: int)
    requires b > 0
    ensures a >= 0 ==> q * b <= a < q * b + b
    ensures a < 0 ==> q * b - b < a <= q * b
  {
    if a >= 0 then a / b else -((-a) / b)
  }

  /** Go remainder by a positive divisor: it carries the sign of the dividend. */
  function GoMod(a: int, b: int): (r: int)
    requires b > 0
    ensures a == GoDiv(a, b) * b + r
    ensures a >= 0 ==> 0 <= r < b
    ensures a < 0 ==> -b < r <= 0
  {
    a - GoDiv(a, b) * b
  }

  /** Go integer division by any non-zero divisor: truncated toward zero,
      so the sign of the divisor only flips the sign of the quotient. */
  function GoQuot(a: int, b: int): (q: int)
    requires b != 0
    ensures b > 0 ==> q == GoDiv(a, b)
    ensures b < 0 ==> q == -GoDiv(a, -b)
  {
    if b > 0 then GoDiv(a, b) else -GoDiv(a, -b)
  }

  /** JavaScript `Math.round(p / q)` for q > 0: the nearest integer, half-way
      cases rounded toward +infinity (exact rational arithmetic). */
  function RoundDiv(p: int, q: int): (r: int)
    requires q > 0
    ensures 2 * q * r - q <= 2 * p < 2 * q * r + q
  {
    (2 * p + q) / (2 * q)
  }

  /** One more copy of `a`. */
  lemma MulSucc(n: int, a: int)
    ensures (n + 1) * a == n * a + a
  {
  }

  /** Multiplying by a natural number keeps the order. */
  lemma MulMonotone(n: nat, a: int, b: int)
    requires a <= b
    ensures n * a <= n * b
  {
  }

  /** If n*lo <= s <= n*hi then the floor of s/n lies in [lo, hi]. */
  lemma QuotientBetween(n: int, s: int, q: int, lo: int, hi: int)
    requires n >= 1
    requires q * n <= s < q * n + n
    requires n * lo <= s <= n * hi
    ensures lo <= q <= hi
  {
    if q > hi {
      assert n * (hi + 1) == n * hi + n;
      assert q * n == n * q;
      MulMonotone(n, hi + 1, q);
    }
    if q < lo {
      assert n * (q + 1) == n * q + n;
      assert q * n == n * q;
      MulMonotone(n, q + 1, lo);
    }
  }

  function Max(a: int, b: int): int { if a >= b then a else b }

  function Min(a: int, b: int): int { if a <= b then a else b }

  // ---------------------------------------------------------------------
  // Decimal text, as printed by `%d`
  // ---------------------------------------------------------------------

  function DigitChar(d: int): (c: char)
    requires 0 <= d < 10
    ensures '0' <= c <= '9'
  {
    "0123456789"[d]
  }

  function DigitValue(c: char): (d: int)
    requires '0' <= c <= '9'
    ensures 0 <= d < 10
    ensures DigitChar(d) == c
  {
    (c as int) - ('0' as int)
  }

  predicate IsDigits(s: string) {
    forall i :: 0 <= i < |s| ==> '0' <= s[i] <= '9'
  }

  /** Decimal digits of a natural number, most significant first, no leading zero. */
  function NatToString(n: nat): (s: string)
    ensures |s| >= 1 && IsDigits(s)
    ensures |s| > 1 ==> s[0] != '0'
  {
    if n < 10 then [DigitChar(n)] else NatToString(n / 10) + [DigitChar(n % 10)]
  }

  /** The value of a string of decimal digits. */
  function ParseDigits(s: string): (n: nat)
    requires IsDigits(s)
  {
    if s == [] then 0 else ParseDigits(s[..|s| - 1]) * 10 + DigitValue(s[|s| - 1])
  }

  /** Reading back the printed digits gives the number: `%d` loses nothing. */
  lemma {:induction false} ParseNatToString(n: nat)
    ensures ParseDigits(NatToString(n)) == n
  {
    var s := NatToString(n);
    if n < 10 {
      assert s[..0] == [];
    } else {
      ParseNatToString(n / 10);
      assert s[..|s| - 1] == NatToString(n / 10);
    }
  }

  /** `%d` of a signed integer. */
  function IntToString(i: int): (s: string)
    ensures |s| >= 1 && (s[0] == '-' || '0' <= s[0] <= '9')
    ensures i >= 0 ==> IsDigits(s) && ParseDigits(s) == i
    ensures i < 0 ==> |s| >= 2 && s[0] == '-' && IsDigits(s[1..]) && ParseDigits(s[1..]) == -i
  {
    ParseNatToString(if i >= 0 then i else -i);
    if i >= 0 then NatToString(i) else "-" + NatToString(-i)
  }
}
