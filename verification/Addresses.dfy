/** An address is its table indexes and its page offset. */
module Addresses {
  import opened Bits
  import opened Digits
  import opened Radix

  function Pow512(n: nat): (p: nat)
    ensures p > 0
  {
    if n == 0 then 1 else 512 * Pow512(n - 1)
  }

  lemma {:induction false} SpanRatio(top: Level, level: Level)
    requires level <= top
    ensures Span(top) == Span(level) * Pow512(top - level)
    ensures Width(top) == Span(level) * (512 * Pow512(top - level))
    decreases top - level
  {
    if level < top {
      SpanRatio(top, level + 1);
      assert Span(level + 1) == Span(level) * 512;
    }
  }

  /** The part of `v` that selects among the tables of a level. */
  function Prefix(v: Word, top: Level, level: Level): nat {
    v % Width(top) / Width(level)
  }

  /** The page of `v` within the tree. */
  function PageNumber(v: Word, top: Level): nat {
    v % Width(top) / PAGE
  }

  /** The prefix of a table and the index in it select what the entry maps. */
  lemma PrefixStep(v: Word, top: Level, level: Level)
    requires level <= top
    ensures Prefix(v, top, level) * 512 + Index(v, level) == v % Width(top) / Span(level)
  {
    var s, k, x := Span(level), Pow512(top - level), v % Width(top);
    SpanRatio(top, level);
    ModKeepsDigit(v, s, 512 * k);
    ModKeepsDigit(v / s, 512, k);
    TwoDigits(x, s, 512);
  }

  function SumOfDigits(v: Word, levels: nat): nat
    requires levels <= 5
  {
    if levels == 0 then v % PAGE else Index(v, levels) * Span(levels) + SumOfDigits(v, levels - 1)
  }

  /** The indexes of a walk and the page offset add up to the address, modulo the table width. */
  lemma {:induction false} DigitsRebuildAddress(v: Word, levels: Level)
    ensures SumOfDigits(v, levels) == v % Width(levels)
  {
    TwoDigits(v, Span(levels), 512);
    if levels > 1 {
      DigitsRebuildAddress(v, levels - 1);
      assert Width(levels - 1) == Span(levels);
    }
  }

  /** Two addresses with the same indexes lie in the same page of the tree, and conversely. */
  lemma SameIndexesSamePage(v: Word, w: Word, top: Level)
    ensures (forall l: Level | l <= top :: Index(v, l) == Index(w, l)) <==> PageNumber(v, top) == PageNumber(w, top)
  {
    if PageNumber(v, top) == PageNumber(w, top) {
      forall l: Level | l <= top ensures Index(v, l) == Index(w, l) {
        IndexOfPage(v, top, l);
        IndexOfPage(w, top, l);
      }
    }
    if forall l: Level | l <= top :: Index(v, l) == Index(w, l) {
      SameDigits(v, w, top);
      DigitsRebuildAddress(v, top);
      DigitsRebuildAddress(w, top);
      SpanRatio(top, 1);
      ModKeepsDigit(v, PAGE, 512 * Pow512(top - 1));
      ModKeepsDigit(w, PAGE, 512 * Pow512(top - 1));
    }
  }

  lemma {:induction false} SameDigits(v: Word, w: Word, levels: Level)
    requires forall l: Level | l <= levels :: Index(v, l) == Index(w, l)
    ensures SumOfDigits(v, levels) - v % PAGE == SumOfDigits(w, levels) - w % PAGE
  {
    if levels > 1 {
      SameDigits(v, w, levels - 1);
    }
  }

  lemma IndexOfPage(v: Word, top: Level, level: Level)
    requires level <= top
    ensures Index(v, level) == PageNumber(v, top) / Pow512(level - 1) % 512
  {
    var s, k := Span(level), Pow512(top - level);
    SpanRatio(top, level);
    SpanRatio(level, 1);
    ModKeepsDigit(v, s, 512 * k);
    ModKeepsDigit(v / s, 512, k);
    TwoDigits(v % Width(top), PAGE, Pow512(level - 1));
  }

  /** Tables do not look at address bits above their width. */
  lemma IndexModuloWidth(v: Word, top: Level, level: Level)
    requires level <= top
    ensures v % Width(top) < U64_LIMIT && Index(v % Width(top), level) == Index(v, level)
  {
    var s, k := Span(level), Pow512(top - level);
    SpanRatio(top, level);
    ModKeepsDigit(v, s, 512 * k);
    ModKeepsDigit(v / s, 512, k);
  }

  /** Addresses that agree above a level have the same indexes from that level up. */
  lemma SharedIndex(v: Word, w: Word, level: Level, upper: Level)
    requires level <= upper && v / Span(level) == w / Span(level)
    ensures Index(v, upper) == Index(w, upper)
  {
    SpanRatio(upper, level);
    TwoDigits(v, Span(level), Pow512(upper - level));
    TwoDigits(w, Span(level), Pow512(upper - level));
  }
}
