/** Bit fields of a word: reading one, writing one, and why the others do not notice. */
module Fields {
  import opened Bits
  import opened Digits

  /** Bits `lo` up to, not including, `lo + width`. */
  datatype Field = Field(lo: nat, width: nat)

  predicate Fits(f: Field) {
    0 < f.width && f.lo + f.width <= 64
  }

  predicate Disjoint(f: Field, g: Field) {
    f.lo + f.width <= g.lo || g.lo + g.width <= f.lo
  }

  function Get(w: nat, f: Field): nat
    requires Fits(f)
  {
    ExtractBits(w, f.lo + f.width - 1, f.lo)
  }

  function Mask(f: Field): nat {
    MulGrows(Pow2(f.lo), Pow2(f.width) - 1);
    Pow2(f.lo) * (Pow2(f.width) - 1)
  }

  /** All bits but those of `m`, as `!m` on a 64-bit word. */
  function Not(m: Word): Word {
    U64_LIMIT - 1 - m
  }

  lemma {:induction false} Pow2Sum(a: nat, b: nat)
    ensures Pow2(a + b) == Pow2(a) * Pow2(b)
  {
    if a > 0 {
      Pow2Sum(a - 1, b);
    }
  }

  lemma GetIsDigit(w: nat, f: Field)
    requires Fits(f)
    ensures Get(w, f) == w / Pow2(f.lo) % Pow2(f.width)
  {
    hide And, Pow2;
    Pow2Of64();
    AndLowMask(w / Pow2(f.lo), f.width);
  }

  lemma Pow2Of64()
    ensures Pow2(64) == U64_LIMIT
  {
    Powers();
    assert Pow2(64) == 2 * Pow2(63);
  }

  /** A word is what lies below a field, the field, and what lies above it. */
  lemma ThreeParts(low: nat, v: nat, high: nat, f: Field)
    requires Fits(f) && low < Pow2(f.lo) && v < Pow2(f.width)
    ensures var w := low + Pow2(f.lo) * (v + Pow2(f.width) * high);
      w >= 0 && Get(w, f) == v && w % Pow2(f.lo) == low && w / Pow2(f.lo) == v + Pow2(f.width) * high
  {
    hide Get, Pow2;
    DigitsOf(low, v, high, Pow2(f.lo), Pow2(f.width));
    GetIsDigit(low + Pow2(f.lo) * (v + Pow2(f.width) * high), f);
  }

  /** A field depends on the bits below its end only, */
  lemma GetFromBelow(x: nat, y: nat, n: nat, g: Field)
    requires Fits(g) && g.lo + g.width <= n && x % Pow2(n) == y % Pow2(n)
    ensures Get(x, g) == Get(y, g)
  {
    GetOfRemainder(x, n, g);
    GetOfRemainder(y, n, g);
  }

  lemma GetOfRemainder(x: nat, n: nat, g: Field)
    requires Fits(g) && g.lo + g.width <= n
    ensures Get(x % Pow2(n), g) == Get(x, g)
  {
    var a, b, c := Pow2(g.lo), Pow2(g.width), Pow2(n - g.lo - g.width);
    Pow2Sum(g.lo, n - g.lo);
    Pow2Sum(g.width, n - g.lo - g.width);
    GetIsDigit(x, g);
    GetIsDigit(x % Pow2(n), g);
    ModKeepsDigit(x, a, b * c);
    ModKeepsDigit(x / a, b, c);
  }

  /** and on the bits from its start up only. */
  lemma GetFromAbove(x: nat, y: nat, n: nat, g: Field)
    requires Fits(g) && n <= g.lo && x / Pow2(n) == y / Pow2(n)
    ensures Get(x, g) == Get(y, g)
  {
    Pow2Sum(n, g.lo - n);
    GetIsDigit(x, g);
    GetIsDigit(y, g);
    TwoDigits(x, Pow2(n), Pow2(g.lo - n));
    TwoDigits(y, Pow2(n), Pow2(g.lo - n));
  }

  lemma GetIsSmall(w: nat, f: Field)
    requires Fits(f)
    ensures Get(w, f) < Pow2(f.width)
    ensures w < Pow2(f.lo) ==> Get(w, f) == 0
  {
    GetIsDigit(w, f);
    if w < Pow2(f.lo) {
      QuotientIsZero(w, Pow2(f.lo));
    }
  }

  // ---- a field in place ----

  lemma MaskSpan(f: Field)
    ensures Mask(f) == Pow2(f.lo + f.width) - Pow2(f.lo)
  {
    Pow2Sum(f.width, f.lo);
  }

  /** A field shifted back to where it stands is the word under the field's mask. */
  lemma GetInPlace(w: nat, f: Field)
    requires Fits(f)
    ensures Get(w, f) * Pow2(f.lo) == And(w, Mask(f))
  {
    hide And;
    MaskSpan(f);
    AndFieldMask(w, f.lo, f.lo + f.width);
    Pow2Sum(f.lo, f.width);
    TwoDigits(w, Pow2(f.lo), Pow2(f.width));
    GetIsDigit(w, f);
  }

  lemma {:induction false} AndComplement(x: nat, m: nat, n: nat)
    requires x < Pow2(n) && m < Pow2(n)
    ensures And(x, Pow2(n) - 1 - m) == x - And(x, m)
  {
    if n > 0 {
      AndComplement(x / 2, m / 2, n - 1);
      assert (Pow2(n) - 1 - m) / 2 == Pow2(n - 1) - 1 - m / 2;
    }
  }

  lemma AndNot(x: Word, m: Word)
    ensures And(x, Not(m)) == x - And(x, m)
  {
    hide And;
    Pow2Of64();
    AndComplement(x, m, 64);
  }

  lemma {:induction false} Pow2Monotone(a: nat, b: nat)
    requires a <= b
    ensures Pow2(a) <= Pow2(b)
    decreases b
  {
    if a < b {
      Pow2Monotone(a, b - 1);
    }
  }

  lemma MaskIsWord(f: Field)
    requires Fits(f)
    ensures Mask(f) < U64_LIMIT
  {
    MaskSpan(f);
    Pow2Of64();
    Pow2Monotone(f.lo + f.width, 64);
  }

  // ---- building a word, field by field from below ----

  /** `flag as u64` */
  function Flag(b: bool): U8 {
    if b then 1 else 0
  }

  /** The field widths in use. */
  lemma Widths()
    ensures Pow2(0) == 1 && Pow2(1) == 2 && Pow2(2) == 4 && Pow2(3) == 8 && Pow2(4) == 0x10 && Pow2(5) == 0x20
    ensures Pow2(6) == 0x40 && Pow2(7) == 0x80 && Pow2(9) == 0x200 && Pow2(16) == 0x1_0000 && Pow2(20) == 0x10_0000
    ensures Pow2(24) == 0x100_0000 && Pow2(25) == 0x200_0000 && Pow2(27) == 0x800_0000 && Pow2(32) == 0x1_0000_0000
  {
    Powers();
    assert Pow2(16) == 0x1_0000;
    assert Pow2(20) == 0x10_0000;
    assert Pow2(24) == 0x100_0000;
    assert Pow2(25) == 0x200_0000;
    assert Pow2(27) == 0x800_0000;
    assert Pow2(28) == 0x1000_0000;
    assert Pow2(32) == 0x1_0000_0000;
  }

  lemma ShiftedInMask(f: Field, v: nat)
    requires Fits(f) && v < Pow2(f.width)
    ensures And(v * Pow2(f.lo), Mask(f)) == v * Pow2(f.lo)
    ensures v * Pow2(f.lo) < U64_LIMIT
  {
    hide And, Mask, Get, Pow2;
    ThreeParts(0, v, 0, f);
    assert 0 + Pow2(f.lo) * (v + Pow2(f.width) * 0) == v * Pow2(f.lo);
    GetInPlace(v * Pow2(f.lo), f);
    MaskIsWord(f);
  }

  /** `v << n`, dropping what leaves the word. */
  function Shl(v: nat, n: nat): Word {
    v * Pow2(n) % U64_LIMIT
  }

  /** `x | y` on words. */
  function BitOr(x: Word, y: Word): (r: Word)
    ensures r == Or(x, y)
  {
    Pow2Of64();
    OrBelow(x, y, 64);
    Or(x, y)
  }

  lemma ShlStays(v: nat, f: Field)
    requires Fits(f) && v < Pow2(f.width)
    ensures Shl(v, f.lo) == v * Pow2(f.lo)
  {
    hide Pow2;
    ShiftedInMask(f, v);
  }

  lemma AppendIsSum(acc: nat, f: Field, v: nat)
    requires Fits(f) && acc < Pow2(f.lo) && v < Pow2(f.width)
    ensures Or(acc, Shl(v, f.lo)) == acc + v * Pow2(f.lo)
  {
    hide And, Or, Shl;
    ShlStays(v, f);
    ModIs(v * Pow2(f.lo), Pow2(f.lo), v, 0);
    AlignedDisjoint(v * Pow2(f.lo), acc, f.lo);
    OrIsAdd(v * Pow2(f.lo), acc);
    OrCommutes(acc, v * Pow2(f.lo));
  }

  lemma SumReads(acc: nat, f: Field, v: nat)
    requires Fits(f) && acc < Pow2(f.lo) && v < Pow2(f.width)
    ensures acc + v * Pow2(f.lo) < Pow2(f.lo + f.width)
    ensures Get(acc + v * Pow2(f.lo), f) == v
    ensures (acc + v * Pow2(f.lo)) % Pow2(f.lo) == acc % Pow2(f.lo)
  {
    hide Get, Pow2;
    ThreeParts(acc, v, 0, f);
    assert acc + Pow2(f.lo) * (v + Pow2(f.width) * 0) == acc + v * Pow2(f.lo);
    Pow2Sum(f.lo, f.width);
    Below(Pow2(f.lo), Pow2(f.width), v, acc);
    ModIs(acc, Pow2(f.lo), 0, acc);
  }

  /** Joining a field above everything so far disturbs nothing below. */
  lemma Append(acc: Word, n: nat, f: Field, v: nat)
    requires Fits(f) && acc < Pow2(n) && n <= f.lo && v < Pow2(f.width)
    ensures var w := BitOr(acc, Shl(v, f.lo));
      && w < Pow2(f.lo + f.width)
      && Get(w, f) == v
      && forall g: Field | Fits(g) && g.lo + g.width <= f.lo :: Get(w, g) == Get(acc, g)
  {
    hide Get, Pow2, Shl, BitOr;
    Pow2Monotone(n, f.lo);
    AppendIsSum(acc, f, v);
    SumReads(acc, f, v);
    var w := BitOr(acc, Shl(v, f.lo));
    forall g: Field | Fits(g) && g.lo + g.width <= f.lo ensures Get(w, g) == Get(acc, g) {
      GetFromBelow(w, acc, f.lo, g);
    }
  }

  /** All bits of some fields. */
  function MaskOf(fs: seq<Field>): nat {
    if fs == [] then 0 else Or(MaskOf(fs[..|fs| - 1]), Mask(fs[|fs| - 1]))
  }

  /** Taking a further field out of a word and joining it back in collects its bits. */
  lemma Collect(w: Word, fs: seq<Field>, f: Field, acc: Word)
    requires Fits(f) && acc == And(w, MaskOf(fs))
    ensures BitOr(acc, Shl(Get(w, f), f.lo)) == And(w, MaskOf(fs + [f]))
  {
    hide And, Or, Get, Shl, Mask;
    GetIsSmall(w, f);
    ShlStays(Get(w, f), f);
    GetInPlace(w, f);
    assert (fs + [f])[..|fs|] == fs;
    AndOverOr(w, MaskOf(fs), Mask(f));
  }

  // ---- overwriting one field ----

  /** `(w & !mask) | (v << lo)` */
  function Put(w: Word, f: Field, v: nat): Word
    requires Fits(f)
  {
    MaskIsWord(f);
    BitOr(And(w, Not(Mask(f))), Shl(v, f.lo))
  }

  lemma ClearedIsDisjoint(w: Word, m: Word, x: nat)
    requires And(x, m) == x
    ensures And(And(w, Not(m)), x) == 0
  {
    hide And, Not;
    AndNot(m, m);
    AndSelf(m);
    AndCommutes(x, m);
    AndCommutes(Not(m), m);
    calc {
      And(And(w, Not(m)), x);
      And(And(w, Not(m)), And(m, x));
      { AndAssociates(And(w, Not(m)), m, x); }
      And(And(And(w, Not(m)), m), x);
      { AndAssociates(w, Not(m), m); }
      And(And(w, 0), x);
      { AndCommutes(w, 0); AndZero(w); AndZero(x); }
      0;
    }
  }

  lemma AndZero(x: nat)
    ensures And(0, x) == 0
  {
  }

  lemma PutIsSum(w: Word, f: Field, v: nat)
    requires Fits(f) && v < Pow2(f.width)
    ensures Put(w, f, v) == w - Get(w, f) * Pow2(f.lo) + v * Pow2(f.lo)
  {
    hide And, Or, Get, Mask, Not, Shl;
    MaskIsWord(f);
    ShiftedInMask(f, v);
    ShlStays(v, f);
    ClearedIsDisjoint(w, Mask(f), v * Pow2(f.lo));
    OrIsAdd(And(w, Not(Mask(f))), v * Pow2(f.lo));
    AndNot(w, Mask(f));
    GetInPlace(w, f);
  }

  lemma PutParts(w: Word, f: Field, v: nat) returns (low: nat, high: nat)
    requires Fits(f) && v < Pow2(f.width)
    ensures low == w % Pow2(f.lo) && high == w / Pow2(f.lo) / Pow2(f.width)
    ensures Put(w, f, v) == low + Pow2(f.lo) * (v + Pow2(f.width) * high)
  {
    hide And, Or, Get, Put, Mask, Pow2;
    low, high := w % Pow2(f.lo), w / Pow2(f.lo) / Pow2(f.width);
    PutIsSum(w, f, v);
    GetIsDigit(w, f);
    Decompose(w, Pow2(f.lo), Pow2(f.width));
    ChangeDigit(w, Pow2(f.lo), Pow2(f.width), high, Get(w, f), low, v);
  }

  /** The written field reads back; every other field reads as before. */
  lemma PutThenGet(w: Word, f: Field, v: nat)
    requires Fits(f) && v < Pow2(f.width)
    ensures Get(Put(w, f, v), f) == v
    ensures forall g: Field | Fits(g) && Disjoint(f, g) :: Get(Put(w, f, v), g) == Get(w, g)
  {
    hide And, Or, Get, Put, Mask;
    var w' := Put(w, f, v);
    PutIsSum(w, f, v);
    var low, high := PutParts(w, f, v);
    ThreeParts(low, v, high, f);
    forall g: Field | Fits(g) && Disjoint(f, g) ensures Get(w', g) == Get(w, g) {
      if g.lo + g.width <= f.lo {
        GetFromBelow(w', w, f.lo, g);
      } else {
        Pow2Sum(f.lo, f.width);
        TwoDigits(w, Pow2(f.lo), Pow2(f.width));
        TwoDigits(w', Pow2(f.lo), Pow2(f.width));
        ModIs(v + Pow2(f.width) * high, Pow2(f.width), high, v);
        GetFromAbove(w', w, f.lo + f.width, g);
      }
    }
  }

  /** `w & mask != 0` asks whether a field is not zero. */
  lemma MaskTest(w: Word, f: Field)
    requires Fits(f)
    ensures And(w, Mask(f)) != 0 <==> Get(w, f) != 0
  {
    hide And, Get, Mask, Pow2;
    GetInPlace(w, f);
    if Get(w, f) != 0 {
      MulMonotone(Pow2(f.lo), 1, Get(w, f));
    }
  }

  // ---- a pointer field: a page-aligned address stored in place ----

  /** Bits 63:12. */
  const PAGE_ADDRESS := Field(12, 52)

  lemma PointerMask()
    ensures Mask(PAGE_ADDRESS) == Not(0xfff)
  {
    hide Mask;
    Powers();
    Pow2Of64();
    MaskSpan(PAGE_ADDRESS);
  }

  /** Taking a field over from another word is writing its value. */
  lemma MaskedIsPut(w: Word, other: Word, f: Field)
    requires Fits(f)
    ensures Mask(f) < U64_LIMIT
    ensures BitOr(And(w, Not(Mask(f))), And(other, Mask(f))) == Put(w, f, Get(other, f))
  {
    hide And, Or, Mask, Get, Shl, BitOr;
    MaskIsWord(f);
    GetInPlace(other, f);
    GetIsSmall(other, f);
    ShlStays(Get(other, f), f);
  }

  /** `(w & 0xfff) | (addr & !0xfff)` writes the page number of `addr` into the pointer field. */
  lemma PointerIsPut(w: Word, addr: Word)
    ensures BitOr(And(w, 0xfff), And(addr, Not(0xfff))) == Put(w, PAGE_ADDRESS, Get(addr, PAGE_ADDRESS))
  {
    hide And, Or, Mask, Get, Shl, BitOr, Put;
    PointerMask();
    MaskedIsPut(w, addr, PAGE_ADDRESS);
    assert Not(Not(0xfff)) == 0xfff;
  }

  lemma PointerRead(w: Word)
    ensures And(w, Not(0xfff)) == Get(w, PAGE_ADDRESS) * 4096
  {
    hide And, Mask, Get;
    PointerMask();
    GetInPlace(w, PAGE_ADDRESS);
    Powers();
  }
}
