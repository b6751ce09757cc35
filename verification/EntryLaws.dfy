/** Laws shared by the packed entries. */
module EntryLaws {
  import opened Bits
  import opened Fields
  import opened Context

  lemma IsSetIsGet(w: Word, f: Field)
    requires Fits(f)
    ensures IsSet(w, f) <==> Get(w, f) != 0
  {
    MaskTest(w, f);
  }

  /** A one-bit flag at a power of two, */
  lemma FlagAt(w: Word, f: Field, p: nat)
    requires Fits(f) && f.width == 1 && p == Pow2(f.lo)
    ensures IsSet(w, f) <==> w / p % 2 == 1
  {
    hide Get, IsSet, Pow2;
    Widths();
    IsSetIsGet(w, f);
    GetIsDigit(w, f);
  }

  /** and a wider field. */
  lemma FieldAt(w: Word, f: Field, p: nat, n: nat)
    requires Fits(f) && p == Pow2(f.lo) && n == Pow2(f.width)
    ensures Get(w, f) == w / p % n
  {
    hide Get, Pow2;
    GetIsDigit(w, f);
  }

  lemma PointerAt(w: Word)
    ensures Pointer(w) == w - w % 4096
  {
    hide Get, And, Not, Pow2;
    PointerRead(w);
    PageOfAddress(w);
  }

  lemma EnumsAreInjective(v: nat, w: nat)
    ensures v < 4 && w < 4 && TransTypeFromBits(v) == TransTypeFromBits(w) ==> v == w
    ensures v < 8 && w < 8 && AddrWidthFromBits(v) == AddrWidthFromBits(w) ==> v == w
    ensures v < 8 && w < 8 && PgttFromBits(v) == PgttFromBits(w) ==> v == w
    ensures v < 4 && w < 4 && FlpmFromBits(v) == FlpmFromBits(w) ==> v == w
  {
  }

  // ---- reserved codes: what is stored is their low bits ----

  /** What a width reads back as: a reserved code is cut to three bits, and may then name a defined one. */
  function CanonicalWidth(w: AddrWidth): AddrWidth {
    match w
    case ReservedWidth(code) =>
      (match code % 8
       case 0 => Reserved0
       case 1 => Agaw39
       case 2 => Agaw48
       case 3 => Agaw57
       case low => ReservedWidth(low))
    case _ => w
  }

  function CanonicalPgtt(p: Pgtt): Pgtt {
    match p
    case PgttReserved(code) =>
      (match code % 8
       case 0 => PgttReserved0
       case 1 => FirstStageOnly
       case 2 => SecondStageOnly
       case 3 => Nested
       case 4 => PgttPassThrough
       case low => PgttReserved(low))
    case _ => p
  }

  function CanonicalFlpm(f: Flpm): Flpm {
    match f
    case FlpmReserved(code) =>
      (match code % 4
       case 0 => FourLevel
       case 1 => FiveLevel
       case low => FlpmReserved(low))
    case _ => f
  }

  /** Codes survive being stored if and only if they are named, or reserved within their field. */
  lemma CodesKeptIff(w: AddrWidth, p: Pgtt, f: Flpm)
    ensures CanonicalWidth(w) == w <==> (w.ReservedWidth? ==> 4 <= w.code < 8)
    ensures CanonicalPgtt(p) == p <==> (p.PgttReserved? ==> 5 <= p.code < 8)
    ensures CanonicalFlpm(f) == f <==> (f.FlpmReserved? ==> 2 <= f.code < 4)
  {
  }

  lemma CodesReadBack(w: AddrWidth, p: Pgtt, f: Flpm)
    ensures AddrWidthFromBits(AddrWidthBits(w)) == CanonicalWidth(w)
    ensures PgttFromBits(PgttBits(p)) == CanonicalPgtt(p)
    ensures FlpmFromBits(FlpmBits(f)) == CanonicalFlpm(f)
  {
  }

  const WHOLE := Field(0, 64)

  lemma WholeWord(w: Word)
    ensures Get(w, WHOLE) == w
  {
    hide Get;
    Powers();
    Pow2Of64();
    GetIsDigit(w, WHOLE);
  }

  /** The address of a page, by its number. */
  function PageAddress(page: nat): nat {
    page * 4096
  }

  lemma PageOfAddress(addr: Word)
    ensures PageAddress(Get(addr, PAGE_ADDRESS)) == addr - addr % 4096
  {
    hide Get, And;
    Powers();
    PointerRead(addr);
    AndNot(addr, 0xfff);
    LowMask(addr, 12, 4096);
  }

  // ---- runs of setters ----

  function Fold<A, S>(step: (A, S) -> A, a: A, ss: seq<S>): A
    decreases |ss|
  {
    if ss == [] then a else Fold(step, step(a, ss[0]), ss[1..])
  }

  /** If every step on entries is a step on their records, so is every run. */
  lemma {:induction false} FoldRefines<E(!new), R, S(!new)>(act: (E, S) -> E, view: E -> R, update: (R, S) -> R,
                                                            e: E, ss: seq<S>)
    requires forall e: E, s: S :: view(act(e, s)) == update(view(e), s)
    ensures view(Fold(act, e, ss)) == Fold(update, view(e), ss)
    decreases |ss|
  {
    if ss != [] {
      FoldRefines(act, view, update, act(e, ss[0]), ss[1..]);
    }
  }

  // ---- little-endian reading ----

  /** The number spelled by bytes, lowest first. */
  function FromLe(b: seq<U8>): nat {
    if b == [] then 0 else b[0] + 0x100 * FromLe(b[1..])
  }

  lemma {:induction false} FromLeOfBytes(w: nat, n: nat)
    requires w < Pow2(8 * n)
    ensures FromLe(LeBytes(w, n)) == w
    decreases n
  {
    hide Pow2;
    Powers();
    if n > 0 {
      Pow2Sum(8, 8 * (n - 1));
      QuotientBelow(w, Pow2(8 * (n - 1)));
      FromLeOfBytes(w / 0x100, n - 1);
    }
  }

  lemma QuotientBelow(w: nat, p: nat)
    requires w < 0x100 * p
    ensures w / 0x100 < p
  {
  }

  /** Reading a word's bytes back gives the word. */
  lemma FromLeOfLe(w: Word)
    ensures FromLe(Le(w)) == w
  {
    Pow2Of64();
    FromLeOfBytes(w, 8);
  }

  /** Words are determined by their bytes. */
  lemma BytesDetermineWords(ws: seq<Word>, ws': seq<Word>)
    ensures LeAll(ws) == LeAll(ws') <==> ws == ws'
  {
    hide LeAll;
    if LeAll(ws) == LeAll(ws') {
      LeAllIsInjective(ws, ws');
    }
  }

  lemma {:induction false} LeAllIsInjective(ws: seq<Word>, ws': seq<Word>)
    requires LeAll(ws) == LeAll(ws')
    ensures ws == ws'
    decreases |ws|
  {
    hide Le;
    if ws != [] {
      assert |ws'| == |ws|;
      assert LeAll(ws)[..8] == Le(ws[0]) && LeAll(ws')[..8] == Le(ws'[0]);
      assert LeAll(ws)[8..] == LeAll(ws[1..]) && LeAll(ws')[8..] == LeAll(ws'[1..]);
      FromLeOfLe(ws[0]);
      FromLeOfLe(ws'[0]);
      LeAllIsInjective(ws[1..], ws'[1..]);
    }
  }
}
