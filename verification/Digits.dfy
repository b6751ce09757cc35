/** Quotients and remainders of quotients and remainders. */
module Digits {
  import opened Bits

  lemma Below(a: nat, b: nat, r: nat, s: nat)
    requires r < b && s < a
    ensures a * r + s < a * b
  {
    var k := b - r - 1;
    MulGrows(a, k);
    assert a * b == a * r + a * k + a by {
      assert b == r + k + 1;
    }
  }

  lemma MulMonotone(a: nat, k: nat, q: nat)
    requires k <= q
    ensures a * k <= a * q
  {
    MulGrows(a, q - k);
    assert a * q == a * k + a * (q - k);
  }

  lemma Distribute(a: nat, b: nat, q: nat, r: nat)
    ensures a * (b * q + r) == (a * b) * q + a * r
  {
  }

  lemma Decompose(x: nat, a: nat, b: nat)
    requires a > 0 && b > 0
    ensures x == (a * b) * (x / a / b) + (a * (x / a % b) + x % a)
  {
    assert x / a == b * (x / a / b) + x / a % b;
    Distribute(a, b, x / a / b, x / a % b);
  }

  /** The two lowest digits of `x`, in mixed radix `a`, `b`. */
  lemma TwoDigits(x: nat, a: nat, b: nat)
    requires a > 0 && b > 0
    ensures a * b > 0
    ensures x / (a * b) == x / a / b
    ensures x % (a * b) == a * (x / a % b) + x % a
  {
    Decompose(x, a, b);
    Below(a, b, 0, 0);
    Below(a, b, x / a % b, x % a);
    ModIs(x, a * b, x / a / b, a * (x / a % b) + x % a);
  }

  /** Reducing modulo `a * b` keeps the digit above `a`. */
  lemma ModKeepsDigit(x: nat, a: nat, b: nat)
    requires a > 0 && b > 0
    ensures a * b > 0
    ensures x % (a * b) / a == x / a % b
    ensures x % (a * b) % a == x % a
  {
    TwoDigits(x, a, b);
    ModIs(x % (a * b), a, x / a % b, x % a);
  }

  lemma QuotientIsZero(x: nat, d: nat)
    requires d > 0
    ensures x / d == 0 <==> x < d
  {
    if x < d {
      ModIs(x, d, 0, x);
    }
  }

  lemma SameQuotient(x: nat, y: nat, a: nat, b: nat)
    requires a > 0 && b > 0 && x / a == y / a
    ensures x >= a * b <==> y >= a * b
  {
    TwoDigits(x, a, b);
    TwoDigits(y, a, b);
    QuotientIsZero(x, a * b);
    QuotientIsZero(y, a * b);
  }

  /** A number written out of its digits has them. */
  lemma DigitsOf(low: nat, v: nat, high: nat, a: nat, b: nat)
    requires low < a && v < b
    ensures var w := low + a * (v + b * high);
      w >= 0 && w % a == low && w / a == v + b * high && w / a % b == v && w / a / b == high
  {
    MulGrows(b, high);
    var top := v + b * high;
    MulGrows(a, top);
    ModIs(low + a * top, a, top, low);
    ModIs(top, b, high, v);
  }

  /** Changing the middle digit changes the number by the difference, in place. */
  lemma ChangeDigit(x: nat, a: nat, b: nat, q: nat, r: nat, s: nat, v: nat)
    requires x == (a * b) * q + (a * r + s)
    ensures x - r * a + v * a == s + a * (v + b * q)
  {
    Distribute(a, b, q, v);
  }
}
