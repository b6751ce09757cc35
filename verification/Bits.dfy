/** Bit operations on 64-bit words, written as the numbers they are.

    A word is a number below 2^64, so address arithmetic is ordinary arithmetic; the bitwise
    operators are defined bit by bit and related to division and remainder once, here. */
module Bits {

  const U64_LIMIT: nat := 0x1_0000_0000_0000_0000

  type Word = w: int | 0 <= w < U64_LIMIT

  type U8 = x: int | 0 <= x < 0x100
  type U16 = x: int | 0 <= x < 0x1_0000
  type U32 = x: int | 0 <= x < 0x1_0000_0000

  function Pow2(n: nat): (p: nat)
    ensures p > 0
  {
    if n == 0 then 1 else 2 * Pow2(n - 1)
  }

  /** `x & y` */
  function And(x: nat, y: nat): (r: nat)
    ensures r <= x && r <= y
  {
    if x == 0 || y == 0 then 0
    else 2 * And(x / 2, y / 2) + (if x % 2 == 1 && y % 2 == 1 then 1 else 0)
  }

  /** `x | y` */
  function Or(x: nat, y: nat): (r: nat)
    ensures x <= r && y <= r && r <= x + y
  {
    if x == 0 then y
    else if y == 0 then x
    else 2 * Or(x / 2, y / 2) + (if x % 2 == 1 || y % 2 == 1 then 1 else 0)
  }

  /** Bits `hi..=lo` of `value`, right-aligned. */
  function ExtractBits(value: nat, hi: nat, lo: nat): (field: nat)
    requires lo <= hi < 64
  {
    var width := hi - lo + 1;
    var mask := if width >= 64 then U64_LIMIT - 1 else Pow2(width) - 1;
    And(value / Pow2(lo), mask)
  }

  // ---- masks are remainders ----

  lemma {:induction false} AndLowMask(x: nat, n: nat)
    ensures And(x, Pow2(n) - 1) == x % Pow2(n)
  {
    if n > 0 {
      AndLowMask(x / 2, n - 1);
      ModTwice(x, Pow2(n - 1));
    }
  }

  /** The lowest bit, then the rest. */
  lemma ModTwice(x: nat, p: nat)
    requires p > 0
    ensures x % (2 * p) == 2 * (x / 2 % p) + x % 2
  {
    var q, r := x / 2 / p, x / 2 % p;
    assert x / 2 == p * q + r;
    assert x == (2 * p) * q + (2 * r + x % 2);
    ModIs(x, 2 * p, q, 2 * r + x % 2);
  }

  lemma ModIs(x: nat, d: nat, q: nat, r: nat)
    requires d > 0 && r < d && x == d * q + r
    ensures x / d == q && x % d == r
  {
    var k := q - x / d;
    assert x == d * (x / d) + x % d;
    assert d * k == d * q - d * (x / d);
    if k != 0 {
      MultipleIsFar(d, k);
    }
  }

  lemma MultipleIsFar(d: nat, k: int)
    requires k != 0
    ensures d * k >= d || d * k + d <= 0
  {
    if k > 0 {
      MulGrows(d, k - 1);
      assert d * k == d * (k - 1) + d;
    } else {
      MulGrows(d, -k - 1);
      assert d * k + d == -(d * (-k - 1));
    }
  }

  lemma MulGrows(d: nat, k: nat)
    ensures d * k >= 0
  {
  }

  /** A mask covering bits `lo..hi` keeps what lies below `hi` and not below `lo`. */
  lemma {:induction false} AndFieldMask(x: nat, lo: nat, hi: nat)
    requires lo <= hi
    ensures Pow2(lo) <= Pow2(hi)
    ensures And(x, Pow2(hi) - Pow2(lo)) == x % Pow2(hi) - x % Pow2(lo)
  {
    hide And;
    if lo == 0 {
      AndLowMask(x, hi);
    } else {
      AndFieldMask(x / 2, lo - 1, hi - 1);
      DoubledMask(x, Pow2(hi - 1), Pow2(lo - 1));
    }
  }

  lemma DoubledMask(x: nat, h: nat, l: nat)
    requires 0 < l <= h && And(x / 2, h - l) == x / 2 % h - x / 2 % l
    ensures And(x, 2 * h - 2 * l) == x % (2 * h) - x % (2 * l)
  {
    hide And;
    var a, b := x % (2 * h), x % (2 * l);
    assert a - b == 2 * And(x / 2, h - l) by {
      ModTwice(x, h);
      ModTwice(x, l);
    }
    AndDouble(x, h - l);
    assert 2 * h - 2 * l == 2 * (h - l);
  }

  lemma AndDouble(x: nat, m: nat)
    ensures And(x, 2 * m) == 2 * And(x / 2, m)
  {
    var d := 2 * m;
    assert d / 2 == m && d % 2 == 0;
  }

  /** Joining words that share no bit is addition. */
  lemma {:induction false} OrIsAdd(x: nat, y: nat)
    requires And(x, y) == 0
    ensures Or(x, y) == x + y
  {
    if x != 0 && y != 0 {
      OrIsAdd(x / 2, y / 2);
    }
  }

  lemma {:induction false} AlignedDisjoint(x: nat, y: nat, n: nat)
    requires x % Pow2(n) == 0 && y < Pow2(n)
    ensures And(x, y) == 0
  {
    if n > 0 {
      ModTwice(x, Pow2(n - 1));
      AlignedDisjoint(x / 2, y / 2, n - 1);
    }
  }

  /** Setting one bit that is clear adds its weight; setting it again changes nothing. */
  lemma {:induction false} OrBit(x: nat, n: nat)
    ensures Or(x, Pow2(n)) == if x / Pow2(n) % 2 == 1 then x else x + Pow2(n)
  {
    if n == 0 {
      assert Pow2(0) == 1 && x / 1 == x;
      assert Or(x / 2, 0) == x / 2;
    } else if x == 0 {
      DivTwice(0, Pow2(n - 1));
    } else {
      var h, p := x / 2, Pow2(n - 1);
      OrBit(h, n - 1);
      DivTwice(x, p);
      assert Or(x, 2 * p) == 2 * Or(h, p) + x % 2;
    }
  }

  lemma {:induction false} AndBit(x: nat, n: nat)
    ensures And(x, Pow2(n)) == if x / Pow2(n) % 2 == 1 then Pow2(n) else 0
  {
    hide And;
    if n == 0 {
      assert Pow2(0) == 1 && x / 1 == x;
      AndHalf(x, 1);
    } else if x == 0 {
      DivTwice(0, Pow2(n - 1));
    } else {
      var h, p := x / 2, Pow2(n - 1);
      AndBit(h, n - 1);
      DivTwice(x, p);
      AndDouble(x, p);
    }
  }

  lemma DivTwice(x: nat, p: nat)
    requires p > 0
    ensures x / (2 * p) == x / 2 / p
  {
    var q, r := x / 2 / p, x / 2 % p;
    assert x == (2 * p) * q + (2 * r + x % 2);
    ModIs(x, 2 * p, q, 2 * r + x % 2);
  }

  /** Masking splits over words that share no bit. */
  lemma {:induction false} AndOverSum(x: nat, y: nat, m: nat)
    requires And(x, y) == 0
    ensures And(x + y, m) == And(x, m) + And(y, m)
  {
    if x != 0 && y != 0 && m != 0 {
      assert (x + y) / 2 == x / 2 + y / 2;
      AndOverSum(x / 2, y / 2, m / 2);
    }
  }

  lemma {:induction false} AndCommutes(x: nat, y: nat)
    ensures And(x, y) == And(y, x)
  {
    if x != 0 && y != 0 {
      AndCommutes(x / 2, y / 2);
    }
  }

  /** The lowest bit and the rest of a bitwise result. */
  lemma AndHalf(x: nat, y: nat)
    ensures And(x, y) / 2 == And(x / 2, y / 2)
    ensures And(x, y) % 2 == if x % 2 == 1 && y % 2 == 1 then 1 else 0
  {
  }

  lemma OrHalf(x: nat, y: nat)
    ensures Or(x, y) / 2 == Or(x / 2, y / 2)
    ensures Or(x, y) % 2 == if x % 2 == 1 || y % 2 == 1 then 1 else 0
  {
  }

  lemma {:induction false} AndOverOr(x: nat, m: nat, n: nat)
    ensures And(x, Or(m, n)) == Or(And(x, m), And(x, n))
  {
    if x != 0 {
      AndHalf(x, Or(m, n)); OrHalf(m, n);
      OrHalf(And(x, m), And(x, n)); AndHalf(x, m); AndHalf(x, n);
      AndOverOr(x / 2, m / 2, n / 2);
    }
  }

  lemma {:induction false} OrBelow(x: nat, y: nat, n: nat)
    requires x < Pow2(n) && y < Pow2(n)
    ensures Or(x, y) < Pow2(n)
  {
    if n > 0 && x != 0 && y != 0 {
      OrBelow(x / 2, y / 2, n - 1);
    }
  }

  lemma {:induction false} OrCommutes(x: nat, y: nat)
    ensures Or(x, y) == Or(y, x)
  {
    if x != 0 && y != 0 {
      OrCommutes(x / 2, y / 2);
    }
  }

  lemma {:induction false} AndAssociates(x: nat, y: nat, z: nat)
    ensures And(And(x, y), z) == And(x, And(y, z))
  {
    if x != 0 {
      AndHalf(And(x, y), z); AndHalf(x, y);
      AndHalf(x, And(y, z)); AndHalf(y, z);
      AndAssociates(x / 2, y / 2, z / 2);
    }
  }

  lemma {:induction false} OrAssociates(x: nat, y: nat, z: nat)
    ensures Or(x, Or(y, z)) == Or(Or(x, y), z)
  {
    if x != 0 {
      OrHalf(x, Or(y, z)); OrHalf(y, z);
      OrHalf(Or(x, y), z); OrHalf(x, y);
      OrAssociates(x / 2, y / 2, z / 2);
    }
  }

  lemma {:induction false} AndSelf(x: nat)
    ensures And(x, x) == x
  {
    if x != 0 {
      AndSelf(x / 2);
    }
  }

  /** A word joined with some of its own low bits is itself. */
  lemma {:induction false} OrOwnLowBits(x: nat, n: nat)
    ensures Or(x, x % Pow2(n)) == x
  {
    if n == 0 {
      assert Pow2(0) == 1 && x % 1 == 0;
    } else {
      var low := x / 2 % Pow2(n - 1);
      OrOwnLowBits(x / 2, n - 1);
      OrDouble(x, low, x % 2);
      ModTwice(x, Pow2(n - 1));
    }
  }

  lemma OrDouble(x: nat, low: nat, b: nat)
    requires b == x % 2 && Or(x / 2, low) == x / 2
    ensures Or(x, 2 * low + b) == x
  {
    assert (2 * low + b) / 2 == low && (2 * low + b) % 2 == b;
    if x == 0 {
      assert Or(0, low) == low;
    }
  }

  lemma {:induction false} OrKeepsMasked(x: nat, y: nat, m: nat)
    requires And(y, m) == 0
    ensures And(Or(x, y), m) == And(x, m)
  {
    if x == 0 {
    } else if y == 0 || m == 0 {
    } else {
      OrKeepsMasked(x / 2, y / 2, m / 2);
    }
  }

  lemma {:induction false} AndPowers(n: nat, k: nat)
    ensures And(Pow2(n), Pow2(k)) == if n == k then Pow2(n) else 0
  {
    if n == 0 || k == 0 {
      AndLowBit(Pow2(n), Pow2(k));
    } else {
      AndPowers(n - 1, k - 1);
    }
  }

  lemma AndLowBit(x: nat, y: nat)
    ensures And(1, y) == y % 2 && And(x, 1) == x % 2
  {
  }

  lemma {:induction false} OrThenSelf(x: nat, y: nat)
    ensures And(Or(x, y), y) == y
  {
    if x == 0 {
      AndSelf(y);
    } else if y != 0 {
      OrThenSelf(x / 2, y / 2);
    }
  }

  /** Setting a bit sets that bit and no other. */
  lemma SetThenTest(x: nat, n: nat, k: nat)
    ensures And(Or(x, Pow2(n)), Pow2(k)) != 0 <==> n == k || And(x, Pow2(k)) != 0
  {
    hide And, Or, Pow2;
    AndPowers(n, k);
    if n == k {
      OrThenSelf(x, Pow2(n));
    } else {
      OrKeepsMasked(x, Pow2(n), Pow2(k));
    }
  }

  lemma Powers()
    ensures Pow2(0) == 1 && Pow2(1) == 2 && Pow2(2) == 4 && Pow2(3) == 8 && Pow2(4) == 0x10 && Pow2(5) == 0x20
    ensures Pow2(6) == 0x40 && Pow2(7) == 0x80 && Pow2(8) == 0x100 && Pow2(9) == 0x200 && Pow2(10) == 0x400
    ensures Pow2(12) == 0x1000 && Pow2(21) == 0x20_0000
    ensures Pow2(30) == 0x4000_0000 && Pow2(39) == 0x80_0000_0000 && Pow2(48) == 0x1_0000_0000_0000
    ensures Pow2(52) == 0x10_0000_0000_0000 && Pow2(57) == 0x200_0000_0000_0000
    ensures Pow2(63) == 0x8000_0000_0000_0000
  {
    assert Pow2(12) == 0x1000;
    assert Pow2(21) == 0x20_0000;
    assert Pow2(30) == 0x4000_0000;
    assert Pow2(39) == 0x80_0000_0000;
    assert Pow2(48) == 0x1_0000_0000_0000;
    assert Pow2(52) == 0x10_0000_0000_0000;
    assert Pow2(57) == 0x200_0000_0000_0000;
  }

  // ---- the same facts with the powers spelled out, for the constants in the code ----

  lemma LowMask(x: nat, n: nat, p: nat)
    requires p == Pow2(n)
    ensures And(x, p - 1) == x % p
  {
    AndLowMask(x, n);
  }

  lemma FieldMask(x: nat, lo: nat, hi: nat, l: nat, h: nat)
    requires lo <= hi && l == Pow2(lo) && h == Pow2(hi)
    ensures l <= h && And(x, h - l) == x % h - x % l
  {
    AndFieldMask(x, lo, hi);
  }

  lemma AlignedOr(x: nat, y: nat, n: nat, p: nat)
    requires p == Pow2(n) && x % p == 0 && y < p
    ensures Or(x, y) == x + y
  {
    AlignedDisjoint(x, y, n);
    OrIsAdd(x, y);
  }

  lemma TestBit(x: nat, n: nat, p: nat)
    requires p == Pow2(n)
    ensures And(x, p) != 0 <==> x / p % 2 == 1
  {
    AndBit(x, n);
  }

  lemma SetBit(x: nat, n: nat, p: nat)
    requires p == Pow2(n)
    ensures Or(x, p) == if x / p % 2 == 1 then x else x + p
  {
    OrBit(x, n);
  }

  // ---- one bit ----

  predicate Bit(x: nat, k: nat) {
    x / Pow2(k) % 2 == 1
  }

  lemma BitStep(x: nat, k: nat)
    ensures Bit(x, 0) <==> x % 2 == 1
    ensures Bit(x, k + 1) <==> Bit(x / 2, k)
  {
    assert Pow2(0) == 1 && Pow2(k + 1) == 2 * Pow2(k);
    DivTwice(x, Pow2(k));
  }

  lemma {:induction false} AndBits(x: nat, y: nat, k: nat)
    ensures Bit(And(x, y), k) <==> Bit(x, k) && Bit(y, k)
  {
    hide And, Bit;
    AndHalf(x, y);
    var j := if k == 0 then 0 else k - 1;
    BitStep(And(x, y), j);
    BitStep(x, j);
    BitStep(y, j);
    if k > 0 {
      AndBits(x / 2, y / 2, k - 1);
    }
  }

  lemma {:induction false} OrBits(x: nat, y: nat, k: nat)
    ensures Bit(Or(x, y), k) <==> Bit(x, k) || Bit(y, k)
  {
    hide Or, Bit;
    OrHalf(x, y);
    var j := if k == 0 then 0 else k - 1;
    BitStep(Or(x, y), j);
    BitStep(x, j);
    BitStep(y, j);
    if k > 0 {
      OrBits(x / 2, y / 2, k - 1);
    }
  }

  lemma BitOfPower(n: nat, k: nat)
    ensures Bit(Pow2(n), k) <==> n == k
  {
    hide And, Pow2;
    AndPowers(n, k);
    AndBit(Pow2(n), k);
  }

  /** The bits of a number that gains a leading one. */
  lemma BitOfSum(x: nat, n: nat, p: nat, k: nat)
    requires p == Pow2(n) && x < p
    ensures Bit(x + p, k) <==> Bit(x, k) || n == k
  {
    hide Or, Pow2, Bit;
    assert x / p == 0 by {
      ModIs(x, p, 0, x);
    }
    OrBit(x, n);
    OrBits(x, p, k);
    BitOfPower(n, k);
  }

  /** Bits `lo` up to, not including, `hi`. */
  lemma {:induction false} BitOfMask(lo: nat, hi: nat, k: nat)
    requires lo <= hi
    ensures Pow2(lo) <= Pow2(hi)
    ensures Bit(Pow2(hi) - Pow2(lo), k) <==> lo <= k < hi
  {
    hide Bit;
    AndFieldMask(0, lo, hi);
    var m, j := Pow2(hi) - Pow2(lo), if k == 0 then 0 else k - 1;
    BitStep(m, j);
    if hi == 0 {
      NoBits(k);
    } else if lo == 0 {
      assert m % 2 == 1 && m / 2 == Pow2(hi - 1) - Pow2(0);
      if k > 0 {
        BitOfMask(0, hi - 1, k - 1);
      }
    } else {
      AndFieldMask(0, lo - 1, hi - 1);
      assert m % 2 == 0 && m / 2 == Pow2(hi - 1) - Pow2(lo - 1);
      if k > 0 {
        BitOfMask(lo - 1, hi - 1, k - 1);
      }
    }
  }

  lemma NoBits(k: nat)
    ensures !Bit(0, k)
  {
    ModIs(0, Pow2(k), 0, 0);
  }

  lemma BitOfRemainder(x: nat, n: nat, k: nat)
    ensures Bit(x % Pow2(n), k) <==> k < n && Bit(x, k)
  {
    hide And, Pow2, Bit;
    AndLowMask(x, n);
    AndBits(x, Pow2(n) - 1, k);
    assert Pow2(0) == 1 by {
      Powers();
    }
    BitOfMask(0, n, k);
  }

  /** `x >> n` */
  function Shr(x: nat, n: nat): nat {
    if n == 0 then x else Shr(x / 2, n - 1)
  }

  lemma {:induction false} ShrIsQuotient(x: nat, n: nat)
    ensures Shr(x, n) == x / Pow2(n)
    decreases n
  {
    if n > 0 {
      DivTwice(x, Pow2(n - 1));
      ShrIsQuotient(x / 2, n - 1);
    }
  }

  lemma {:induction false} BitOfShr(x: nat, n: nat, k: nat)
    ensures Bit(Shr(x, n), k) <==> Bit(x, n + k)
    decreases n
  {
    hide Bit;
    if n > 0 {
      BitOfShr(x / 2, n - 1, k);
      BitStep(x, n - 1 + k);
    }
  }
}
