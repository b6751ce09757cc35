/** Words cut completely into fields: reading all the fields, and overwriting one of them. */
module Layouts {
  import opened Bits
  import Digits
  import opened Fields

  /** A field of one of several words. */
  datatype Slot = Slot(word: nat, field: Field) {
    function Begin(): nat { 64 * word + field.lo }
    function End(): nat { 64 * word + field.lo + field.width }
  }

  /** The slots adjoin, from bit 0 of the first word to the end of the last of `n` words. */
  ghost predicate Adjoin(l: seq<Slot>, n: nat) {
    && |l| > 0 && l[0].Begin() == 0 && l[|l| - 1].End() == 64 * n
    && (forall k: nat | k < |l| :: Fits(l[k].field) && l[k].word < n)
    && (forall k: nat | k + 1 < |l| :: l[k].End() == l[k + 1].Begin())
  }

  lemma {:induction false} LaterSlotsBeginLater(l: seq<Slot>, n: nat, j: nat, k: nat)
    requires Adjoin(l, n) && j < k < |l|
    ensures l[j].End() <= l[k].Begin()
    decreases k
  {
    if j < k - 1 {
      LaterSlotsBeginLater(l, n, j, k - 1);
      assert l[k - 1].End() == l[k].Begin();
    }
  }

  lemma SlotsAreDisjoint(l: seq<Slot>, n: nat, j: nat, k: nat)
    requires Adjoin(l, n) && j < |l| && k < |l| && j != k && l[j].word == l[k].word
    ensures Disjoint(l[j].field, l[k].field)
  {
    LaterSlotsBeginLater(l, n, if j < k then j else k, if j < k then k else j);
  }

  /** The value of every slot, in order. */
  ghost function Parts(ws: seq<Word>, l: seq<Slot>): (parts: seq<nat>)
    requires Adjoin(l, |ws|)
    ensures |parts| == |l|
  {
    seq(|l|, k requires 0 <= k < |l| => Get(ws[l[k].word], l[k].field))
  }

  function Write(ws: seq<Word>, s: Slot, v: nat): (ws': seq<Word>)
    requires s.word < |ws| && Fits(s.field)
    ensures |ws'| == |ws|
  {
    ws[s.word := Put(ws[s.word], s.field, v)]
  }

  /** Writing a slot changes its own part and no other. */
  lemma WriteThenParts(ws: seq<Word>, l: seq<Slot>, j: nat, v: nat)
    requires Adjoin(l, |ws|) && j < |l| && v < Pow2(l[j].field.width)
    ensures Parts(Write(ws, l[j], v), l) == Parts(ws, l)[j := v]
  {
    hide Get, Put, Pow2;
    var ws' := Write(ws, l[j], v);
    PutThenGet(ws[l[j].word], l[j].field, v);
    forall k: nat | k < |l| ensures Parts(ws', l)[k] == Parts(ws, l)[j := v][k] {
      if k != j && l[k].word == l[j].word {
        SlotsAreDisjoint(l, |ws|, j, k);
      }
    }
  }

  /** Of two values written to one slot the later stays. */
  lemma WriteTwice(ws: seq<Word>, s: Slot, v: nat, u: nat)
    requires s.word < |ws| && Fits(s.field) && v < Pow2(s.field.width) && u < Pow2(s.field.width)
    ensures Write(Write(ws, s, v), s, u) == Write(ws, s, u)
  {
    hide Get, Put, Pow2;
    var w := ws[s.word];
    PutIsSum(w, s.field, v);
    PutIsSum(w, s.field, u);
    PutIsSum(Put(w, s.field, v), s.field, u);
    PutThenGet(w, s.field, v);
  }

  lemma PutsCommute(w: Word, f: Field, v: nat, g: Field, u: nat)
    requires Fits(f) && Fits(g) && Disjoint(f, g) && v < Pow2(f.width) && u < Pow2(g.width)
    ensures Put(Put(w, f, v), g, u) == Put(Put(w, g, u), f, v)
  {
    hide Get, Put, Pow2;
    PutIsSum(w, f, v);
    PutIsSum(w, g, u);
    PutIsSum(Put(w, f, v), g, u);
    PutIsSum(Put(w, g, u), f, v);
    PutThenGet(w, f, v);
    PutThenGet(w, g, u);
  }

  /** Writes to different slots commute. */
  lemma WritesCommute(ws: seq<Word>, l: seq<Slot>, j: nat, v: nat, k: nat, u: nat)
    requires Adjoin(l, |ws|) && j < |l| && k < |l| && j != k
    requires v < Pow2(l[j].field.width) && u < Pow2(l[k].field.width)
    ensures Write(Write(ws, l[j], v), l[k], u) == Write(Write(ws, l[k], u), l[j], v)
  {
    hide Put, Pow2;
    if l[j].word == l[k].word {
      SlotsAreDisjoint(l, |ws|, j, k);
      PutsCommute(ws[l[j].word], l[j].field, v, l[k].field, u);
    }
  }

  /** Of two writes to one slot the later stays; writes to different slots commute. */
  lemma WritesAreIndependent(ws: seq<Word>, l: seq<Slot>, j: nat, v: nat, k: nat, u: nat)
    requires Adjoin(l, |ws|) && j < |l| && k < |l|
    requires v < Pow2(l[j].field.width) && u < Pow2(l[k].field.width)
    ensures Write(Write(ws, l[j], v), l[k], u) ==
      if j == k then Write(ws, l[k], u) else Write(Write(ws, l[k], u), l[j], v)
  {
    hide Write, Pow2;
    if j == k {
      WriteTwice(ws, l[j], v, u);
    } else {
      WritesCommute(ws, l, j, v, k, u);
    }
  }

  /** Two words that agree below a field and on it agree up to its end. */
  lemma AgreeFurther(x: Word, y: Word, f: Field)
    requires Fits(f) && x % Pow2(f.lo) == y % Pow2(f.lo) && Get(x, f) == Get(y, f)
    ensures x % Pow2(f.lo + f.width) == y % Pow2(f.lo + f.width)
    ensures f.lo + f.width == 64 ==> x == y
  {
    hide Get;
    Pow2Sum(f.lo, f.width);
    Digits.TwoDigits(x, Pow2(f.lo), Pow2(f.width));
    Digits.TwoDigits(y, Pow2(f.lo), Pow2(f.width));
    GetIsDigit(x, f);
    GetIsDigit(y, f);
    if f.lo + f.width == 64 {
      Pow2Of64();
      ModIs(x, Pow2(64), 0, x);
      ModIs(y, Pow2(64), 0, y);
    }
  }

  lemma NextSlot(l: seq<Slot>, n: nat, k: nat)
    requires Adjoin(l, n) && k < |l|
    ensures Fits(l[k].field) && l[k].word < n
    ensures k + 1 < |l| ==> l[k].End() == l[k + 1].Begin() && Fits(l[k + 1].field) && l[k + 1].word < n
    ensures k + 1 == |l| ==> l[k].End() == 64 * n
  {
    if k + 1 < |l| {
      assert Fits(l[k + 1].field);
    }
  }

  lemma PartIs(ws: seq<Word>, l: seq<Slot>, k: nat)
    requires Adjoin(l, |ws|) && k < |l|
    ensures Fits(l[k].field) && l[k].word < |ws| && Parts(ws, l)[k] == Get(ws[l[k].word], l[k].field)
  {
  }

  lemma {:induction false} SameFromSlot(ws: seq<Word>, ws': seq<Word>, l: seq<Slot>, k: nat)
    requires |ws| == |ws'| && Adjoin(l, |ws|) && Parts(ws, l) == Parts(ws', l) && k < |l|
    requires ws[l[k].word] % Pow2(l[k].field.lo) == ws'[l[k].word] % Pow2(l[k].field.lo)
    ensures forall i | l[k].word <= i < |ws| :: ws[i] == ws'[i]
    decreases |l| - k
  {
    hide Get, Pow2, Adjoin, Parts;
    var s := l[k];
    PartIs(ws, l, k);
    PartIs(ws', l, k);
    NextSlot(l, |ws|, k);
    AgreeFurther(ws[s.word], ws'[s.word], s.field);
    if k + 1 < |l| {
      if s.field.lo + s.field.width == 64 {
        ModPow2Zero(ws[l[k + 1].word], ws'[l[k + 1].word]);
      }
      SameFromSlot(ws, ws', l, k + 1);
    }
  }

  lemma ModPow2Zero(x: nat, y: nat)
    ensures x % Pow2(0) == y % Pow2(0)
  {
    assert Pow2(0) == 1;
  }

  /** Words are determined by their parts. */
  lemma SamePartsSameWords(ws: seq<Word>, ws': seq<Word>, l: seq<Slot>)
    requires |ws| == |ws'| && Adjoin(l, |ws|) && Parts(ws, l) == Parts(ws', l)
    ensures ws == ws'
  {
    hide Get, Pow2;
    ModPow2Zero(ws[0], ws'[0]);
    SameFromSlot(ws, ws', l, 0);
  }

  /** Zero words have zero parts. */
  lemma ZeroParts(ws: seq<Word>, l: seq<Slot>)
    requires Adjoin(l, |ws|) && forall i | 0 <= i < |ws| :: ws[i] == 0
    ensures forall k: nat | k < |l| :: Parts(ws, l)[k] == 0
  {
    hide Get, Pow2;
    forall k: nat | k < |l| ensures Parts(ws, l)[k] == 0 {
      GetIsSmall(ws[l[k].word], l[k].field);
    }
  }
}
