/** Encoding and decoding queued-invalidation descriptors: what each keeps of the other's input. */
module QiLaws {
  import opened Wrappers
  import opened Bits
  import opened Fields
  import opened Qi

  // ---- the fields of a first word ----

  const TYPE_LOW := Field(0, 4)
  const TYPE_HIGH := Field(9, 3)
  const GRANULARITY := Field(4, 2)
  const DID := Field(16, 16)
  const SID := Field(32, 16)
  const FUNCTION_MASK := Field(48, 2)
  const INDEX_MASK := Field(27, 5)
  const HIGH := Field(32, 32)
  const BIT4 := Field(4, 1)
  const BIT5 := Field(5, 1)
  const BIT6 := Field(6, 1)

  lemma OrZero(t: nat)
    ensures Or(0, t) == t
  {
  }

  lemma TypeBitsOfConstant(t: U8)
    requires t < 16
    ensures TypeBits(t) == t < Pow2(4) && Get(t, TYPE_LOW) == t
  {
    hide And, Or, Pow2, Get;
    Widths();
    LowMask(t, 7, 128);
    LowMask(t, 4, 16);
    OrZero(t);
    GetIsDigit(t, TYPE_LOW);
  }

  /** The type of a word, from its two parts. */
  lemma TypeIsParts(w: Word)
    ensures Get(w, TYPE_LOW) < 16
    ensures FromWord0(w) == 16 * Get(w, TYPE_HIGH) + Get(w, TYPE_LOW)
  {
    hide Or, And, Shl, ExtractBits, Pow2;
    Widths();
    var hi, lo := Get(w, TYPE_HIGH), Get(w, TYPE_LOW);
    GetIsSmall(w, TYPE_HIGH);
    GetIsSmall(w, TYPE_LOW);
    ShlStays(hi, Field(4, 3));
    AlignedOr(hi * 16, lo, 4, 16);
  }

  lemma GranularityRoundTrip(g: Granularity)
    ensures GranularityFromBits(As8(GranularityBits(g))) == g
  {
    LowMask(GranularityBits(g), 2, 4);
  }

  lemma GranularityOfBits(v: nat)
    requires v < 4
    ensures GranularityBits(GranularityFromBits(As8(v))) == v
  {
    LowMask(v, 2, 4);
  }

  // ---- encode, then decode ----

  /** The first word after type and granularity. */
  function Start(t: U8, g: Granularity): Word {
    BitOr(TypeBits(t), Shl(GranularityBits(g), 4))
  }

  /** What a word built on top of type bits below `n` keeps of them. */
  ghost predicate KeepsType(w: Word, t: U8) {
    Get(w, TYPE_LOW) == t && Get(w, TYPE_HIGH) == 0
  }

  lemma TypeOf(w: Word, t: U8)
    requires KeepsType(w, t)
    ensures FromWord0(w) == t
  {
    hide FromWord0;
    TypeIsParts(w);
  }

  lemma Started(t: U8, g: Granularity)
    requires t < 16
    ensures var w := Start(t, g);
      w < Pow2(6) && KeepsType(w, t) && Get(w, GRANULARITY) == GranularityBits(g)
  {
    hide Or, And, Shl, BitOr, Get, Pow2, TypeBits, GranularityBits;
    Widths();
    TypeBitsOfConstant(t);
    Append(TypeBits(t), 4, GRANULARITY, GranularityBits(g));
    GetIsSmall(Start(t, g), TYPE_HIGH);
  }

  lemma Bare(t: U8)
    requires t < 16
    ensures TypeBits(t) < Pow2(4) && KeepsType(TypeBits(t), t)
  {
    hide Or, And, Shl, BitOr, Get, Pow2, TypeBits;
    Widths();
    TypeBitsOfConstant(t);
    GetIsSmall(TypeBits(t), TYPE_HIGH);
  }

  lemma CcRoundTrip(d: QiCc)
    ensures QiDesc.FromWords(d.ToWords()) == Some(ContextCache(d).Canonical())
  {
    hide Or, And, Shl, BitOr, ExtractBits, Pow2, TypeBits, GranularityBits, GranularityFromBits, FromWord0;
    Widths();
    GranularityRoundTrip(d.granularity);
    LowMask(d.fm, 2, 4);
    Started(CONTEXT_CACHE, d.granularity);
    var w1 := Start(CONTEXT_CACHE, d.granularity);
    var w2 := BitOr(w1, Shl(d.did, 16));
    var w3 := BitOr(w2, Shl(d.sid, 32));
    Append(w1, 6, DID, d.did);
    Append(w2, 32, SID, d.sid);
    Append(w3, 48, FUNCTION_MASK, And(d.fm, 0x3));
    TypeOf(d.ToWords().w0, CONTEXT_CACHE);
  }

  lemma LowSix(base: nat, x: nat)
    requires base % 4096 == 0 && x < 64
    ensures As8(ExtractBits(base + x, 5, 0)) == x
  {
    Widths();
    GetIsDigit(base + x, Field(0, 6));
    Bits.ModIs(base + x, 64, base / 64, x);
  }

  lemma PageAndMask(addr: Word, am: U8)
    ensures And(addr, Not(0xfff)) == addr - addr % 4096
    ensures var w := BitOr(And(addr, Not(0xfff)), And(am, 0x3f));
      && w == addr - addr % 4096 + am % 64
      && And(w, Not(0xfff)) == addr - addr % 4096
      && As8(ExtractBits(w, 5, 0)) == am % 64
  {
    hide And, Or, BitOr, ExtractBits, Pow2;
    Powers();
    LowMask(am, 6, 64);
    PagePart(addr);
    var base := addr - addr % 4096;
    AlignedOr(base, am % 64, 12, 4096);
    PagePart(base + am % 64);
    LowSix(base, am % 64);
  }

  lemma PagePart(addr: Word)
    ensures And(addr, Not(0xfff)) == addr - addr % 4096
  {
    hide And;
    Powers();
    AndNot(addr, 0xfff);
    LowMask(addr, 12, 4096);
  }

  lemma IotlbRoundTrip(d: QiIotlb)
    ensures QiDesc.FromWords(d.ToWords()) == Some(Iotlb(d).Canonical())
  {
    hide Or, And, Shl, BitOr, ExtractBits, Pow2, TypeBits, GranularityBits, GranularityFromBits, FromWord0, Not;
    Widths();
    GranularityRoundTrip(d.granularity);
    Started(IOTLB, d.granularity);
    Append(Start(IOTLB, d.granularity), 6, DID, d.did);
    TypeOf(d.ToWords().w0, IOTLB);
    PageAndMask(d.addr, d.am);
  }

  lemma PageAndFlag(addr: Word, flag: bool)
    ensures var w := BitOr(And(addr, Not(0xfff)), Flag(flag));
      && w == addr - addr % 4096 + Flag(flag)
      && And(w, Not(0xfff)) == addr - addr % 4096
      && (And(w, 1) != 0 <==> flag)
  {
    hide And, Or, BitOr, Pow2, Not;
    Powers();
    PagePart(addr);
    var w := addr - addr % 4096 + Flag(flag);
    AlignedOr(addr - addr % 4096, Flag(flag), 12, 4096);
    PagePart(w);
    LowMask(w, 1, 2);
  }

  lemma DevTlbRoundTrip(d: QiDevTlb)
    ensures QiDesc.FromWords(d.ToWords()) == Some(DevTlb(d).Canonical())
  {
    hide Or, And, Shl, BitOr, ExtractBits, Pow2, TypeBits, FromWord0, Not, Flag;
    Widths();
    Bare(DEVICE_TLB);
    Append(TypeBits(DEVICE_TLB), 4, SID, d.sid);
    TypeOf(d.ToWords().w0, DEVICE_TLB);
    PageAndFlag(d.addr, d.oversized);
    PagePart(d.addr);
  }

  lemma IecRoundTrip(d: QiIec)
    ensures QiDesc.FromWords(d.ToWords()) == Some(Iec(d).Canonical())
  {
    hide Or, And, Shl, BitOr, ExtractBits, Pow2, TypeBits, FromWord0;
    Widths();
    LowMask(d.indexMask, 5, 32);
    Bare(INTERRUPT_ENTRY_CACHE);
    var w0 := TypeBits(INTERRUPT_ENTRY_CACHE);
    var w1 := BitOr(w0, Shl(Flag(d.global), 4));
    var w2 := BitOr(w1, Shl(And(d.indexMask, 0x1f), 27));
    Append(w0, 4, BIT4, Flag(d.global));
    GetIsSmall(w1, TYPE_HIGH);
    Append(w1, 5, INDEX_MASK, And(d.indexMask, 0x1f));
    Append(w2, 32, SID, d.startIndex);
    TypeOf(d.ToWords().w0, INTERRUPT_ENTRY_CACHE);
  }

  lemma DwordPart(addr: Word)
    ensures And(addr, Not(0x7)) == addr - addr % 8
    ensures And(And(addr, Not(0x7)), Not(0x7)) == addr - addr % 8
  {
    hide And;
    AndNot(addr, 0x7);
    LowMask(addr, 3, 8);
    AndNot(addr - addr % 8, 0x7);
    LowMask(addr - addr % 8, 3, 8);
  }

  lemma WaitRoundTrip(d: QiWait)
    ensures QiDesc.FromWords(d.ToWords()) == Some(Wait(d).Canonical())
  {
    hide Or, And, Shl, BitOr, ExtractBits, Pow2, TypeBits, FromWord0, Not;
    Widths();
    Bare(WAIT);
    var w0 := TypeBits(WAIT);
    var w1 := BitOr(w0, Shl(Flag(d.interruptFlag), 4));
    var w2 := BitOr(w1, Shl(Flag(d.statusWrite), 5));
    var w3 := BitOr(w2, Shl(Flag(d.fence), 6));
    Append(w0, 4, BIT4, Flag(d.interruptFlag));
    Append(w1, 5, BIT5, Flag(d.statusWrite));
    Append(w2, 6, BIT6, Flag(d.fence));
    Pow2Monotone(7, 9);
    GetIsSmall(w3, TYPE_HIGH);
    Append(w3, 7, HIGH, d.statusData);
    TypeOf(d.ToWords().w0, WAIT);
    DwordPart(d.statusAddr);
  }

  lemma PasidWord(t: U8, g: Granularity, did: U16, pasid: U32)
    requires t < 16
    ensures var w := BitOr(BitOr(Start(t, g), Shl(did, 16)), Shl(pasid, 32));
      KeepsType(w, t) && Get(w, GRANULARITY) == GranularityBits(g) && Get(w, DID) == did && Get(w, HIGH) == pasid
  {
    hide Or, And, Shl, BitOr, ExtractBits, Pow2, TypeBits, GranularityBits;
    Widths();
    Started(t, g);
    Append(Start(t, g), 6, DID, did);
    Append(BitOr(Start(t, g), Shl(did, 16)), 32, HIGH, pasid);
  }

  lemma PcRoundTrip(d: QiPc)
    ensures QiDesc.FromWords(d.ToWords()) == Some(PasidCache(d).Canonical())
  {
    hide Or, And, Shl, BitOr, ExtractBits, Pow2, TypeBits, GranularityBits, GranularityFromBits, FromWord0;
    GranularityRoundTrip(d.granularity);
    PasidWord(PASID_CACHE, d.granularity, d.did, d.pasid);
    TypeOf(d.ToWords().w0, PASID_CACHE);
  }

  lemma PiotlbRoundTrip(d: QiPiotlb)
    ensures QiDesc.FromWords(d.ToWords()) == Some(PasidIotlb(d).Canonical())
  {
    hide Or, And, Shl, BitOr, ExtractBits, Pow2, TypeBits, GranularityBits, GranularityFromBits, FromWord0, Not;
    GranularityRoundTrip(d.granularity);
    PasidWord(PASID_IOTLB, d.granularity, d.did, d.pasid);
    TypeOf(d.ToWords().w0, PASID_IOTLB);
    PageAndMask(d.addr, d.am);
  }

  /** Every 128-bit descriptor is decoded from its encoding, each field cut to its width. */
  lemma DecodeOfEncode(d: QiDesc)
    requires !d.PasidDevTlb?
    ensures QiDesc.FromWords(d.Words()) == Some(d.Canonical())
  {
    hide QiDesc.FromWords, QiDesc.Canonical;
    match d
    case ContextCache(x) => CcRoundTrip(x);
    case Iotlb(x) => IotlbRoundTrip(x);
    case DevTlb(x) => DevTlbRoundTrip(x);
    case Iec(x) => IecRoundTrip(x);
    case Wait(x) => WaitRoundTrip(x);
    case PasidCache(x) => PcRoundTrip(x);
    case PasidIotlb(x) => PiotlbRoundTrip(x);
  }

  /** Descriptors whose fields fit their widths have different encodings, across kinds too. */
  lemma EncodingIsInjective(d: QiDesc, e: QiDesc)
    requires !d.PasidDevTlb? && !e.PasidDevTlb?
    requires d.Canonical() == d && e.Canonical() == e
    ensures d.Words() == e.Words() <==> d == e
  {
    hide QiDesc.Words, QiDesc.Canonical, QiDesc.FromWords;
    DecodeOfEncode(d);
    DecodeOfEncode(e);
  }

  // ---- decode, then encode ----

  /** The fields a first word of each type has. */
  function FieldsOf(t: U8): seq<Field> {
    if t == CONTEXT_CACHE then [TYPE_LOW, TYPE_HIGH, GRANULARITY, DID, SID, FUNCTION_MASK]
    else if t == IOTLB then [TYPE_LOW, TYPE_HIGH, GRANULARITY, DID]
    else if t == DEVICE_TLB then [TYPE_LOW, TYPE_HIGH, SID]
    else if t == INTERRUPT_ENTRY_CACHE then [TYPE_LOW, TYPE_HIGH, BIT4, INDEX_MASK, SID]
    else if t == WAIT then [TYPE_LOW, TYPE_HIGH, BIT4, BIT5, BIT6, HIGH]
    else if t == PASID_CACHE || t == PASID_IOTLB then [TYPE_LOW, TYPE_HIGH, GRANULARITY, DID, HIGH]
    else []
  }

  /** What a second word of each type means: an address, its low bits taken by another field or void. */
  function SecondOf(t: U8, w1: Word): Word {
    if t == IOTLB || t == PASID_IOTLB then w1 - w1 % 4096 + w1 % 64
    else if t == DEVICE_TLB then w1 - w1 % 4096 + w1 % 2
    else if t == WAIT then w1 - w1 % 8
    else 0
  }

  lemma TypeInPlace(w: Word, t: U8)
    requires FromWord0(w) == t < 16
    ensures TypeBits(t) == And(w, MaskOf([TYPE_LOW, TYPE_HIGH]))
  {
    hide Or, And, Shl, BitOr, Get, Pow2, TypeBits, FromWord0, Mask;
    Widths();
    TypeIsParts(w);
    TypeBitsOfConstant(t);
    EmptyMask(w);
    Collect(w, [], TYPE_LOW, 0);
    Collect(w, [TYPE_LOW], TYPE_HIGH, t) by {
      assert [] + [TYPE_LOW] == [TYPE_LOW];
      ShlStays(t, TYPE_LOW);
      OrZero(t);
    }
    assert [TYPE_LOW] + [TYPE_HIGH] == [TYPE_LOW, TYPE_HIGH];
    ShlStays(0, TYPE_HIGH);
    OrZeroRight(t);
  }

  lemma EmptyMask(w: nat)
    ensures And(w, MaskOf([])) == 0
  {
  }

  lemma OrZeroRight(t: nat)
    ensures Or(t, 0) == t
  {
  }

  /** One-bit fields are flags. */
  lemma FlagOfBit(w: Word, f: Field)
    requires Fits(f) && f.width == 1
    ensures Flag(Get(w, f) != 0) == Get(w, f)
  {
    hide Get;
    Widths();
    GetIsSmall(w, f);
  }

  lemma CcProjects(w: Pair)
    requires FromWord0(w.w0) == CONTEXT_CACHE
    ensures QiCc.FromWords(w).ToWords() == Pair(And(w.w0, MaskOf(FieldsOf(CONTEXT_CACHE))), 0)
  {
    hide Or, And, Shl, BitOr, ExtractBits, Pow2, TypeBits, GranularityBits, GranularityFromBits, FromWord0, MaskOf;
    Widths();
    TypeInPlace(w.w0, CONTEXT_CACHE);
    var d, fs := QiCc.FromWords(w), FieldsOf(CONTEXT_CACHE);
    GetIsSmall(w.w0, GRANULARITY);
    GetIsSmall(w.w0, DID);
    GetIsSmall(w.w0, SID);
    GetIsSmall(w.w0, FUNCTION_MASK);
    GranularityOfBits(Get(w.w0, GRANULARITY));
    LowMask(d.fm, 2, 4);
    var w0 := TypeBits(CONTEXT_CACHE);
    var w1 := BitOr(w0, Shl(GranularityBits(d.granularity), 4));
    var w2 := BitOr(w1, Shl(d.did, 16));
    var w3 := BitOr(w2, Shl(d.sid, 32));
    assert fs[..2] == [TYPE_LOW, TYPE_HIGH] && fs[..3] == fs[..2] + [GRANULARITY] && fs[..4] == fs[..3] + [DID];
    assert fs[..5] == fs[..4] + [SID] && fs == fs[..5] + [FUNCTION_MASK];
    Collect(w.w0, fs[..2], GRANULARITY, w0);
    Collect(w.w0, fs[..3], DID, w1);
    Collect(w.w0, fs[..4], SID, w2);
    Collect(w.w0, fs[..5], FUNCTION_MASK, w3);
  }

  lemma IotlbProjects(w: Pair)
    requires FromWord0(w.w0) == IOTLB
    ensures QiIotlb.FromWords(w).ToWords() == Pair(And(w.w0, MaskOf(FieldsOf(IOTLB))), SecondOf(IOTLB, w.w1))
  {
    hide Or, And, Shl, BitOr, ExtractBits, Pow2, TypeBits, GranularityBits, GranularityFromBits, FromWord0, MaskOf, Not;
    Widths();
    TypeInPlace(w.w0, IOTLB);
    var d, fs := QiIotlb.FromWords(w), FieldsOf(IOTLB);
    GetIsSmall(w.w0, GRANULARITY);
    GetIsSmall(w.w0, DID);
    GranularityOfBits(Get(w.w0, GRANULARITY));
    var w0 := TypeBits(IOTLB);
    var w1 := BitOr(w0, Shl(GranularityBits(d.granularity), 4));
    assert fs[..2] == [TYPE_LOW, TYPE_HIGH] && fs[..3] == fs[..2] + [GRANULARITY] && fs == fs[..3] + [DID];
    Collect(w.w0, fs[..2], GRANULARITY, w0);
    Collect(w.w0, fs[..3], DID, w1);
    SecondRestored(w.w1);
  }

  /** An address and the six bits below it, taken out of a word and joined again. */
  lemma SecondRestored(w1: Word)
    ensures var addr, am := And(w1, Not(0xfff)), As8(ExtractBits(w1, 5, 0));
      BitOr(And(addr, Not(0xfff)), And(am, 0x3f)) == w1 - w1 % 4096 + w1 % 64
  {
    hide And, Or, BitOr, ExtractBits, As8, Not;
    PagePart(w1);
    LowSixBits(w1);
    PageAndMask(w1 - w1 % 4096, w1 % 64);
    PageOfPage(w1);
  }

  lemma LowSixBits(w: Word)
    ensures As8(ExtractBits(w, 5, 0)) == w % 64
  {
    hide ExtractBits, Pow2;
    Widths();
    GetIsDigit(w, Field(0, 6));
  }

  lemma PageOfPage(w: nat)
    ensures (w - w % 4096) % 4096 == 0
  {
    assert w - w % 4096 == 4096 * (w / 4096);
  }

  lemma DevTlbProjects(w: Pair)
    requires FromWord0(w.w0) == DEVICE_TLB
    ensures QiDevTlb.FromWords(w).ToWords() == Pair(And(w.w0, MaskOf(FieldsOf(DEVICE_TLB))), SecondOf(DEVICE_TLB, w.w1))
  {
    hide Or, And, Shl, BitOr, ExtractBits, Pow2, TypeBits, FromWord0, MaskOf, Not;
    Widths();
    TypeInPlace(w.w0, DEVICE_TLB);
    var d, fs := QiDevTlb.FromWords(w), FieldsOf(DEVICE_TLB);
    GetIsSmall(w.w0, SID);
    assert fs[..2] == [TYPE_LOW, TYPE_HIGH] && fs == fs[..2] + [SID];
    Collect(w.w0, fs[..2], SID, TypeBits(DEVICE_TLB));
    PagePart(w.w1);
    PageAndFlag(And(w.w1, Not(0xfff)), d.oversized);
    LowMask(w.w1, 1, 2);
  }

  lemma IecProjects(w: Pair)
    requires FromWord0(w.w0) == INTERRUPT_ENTRY_CACHE
    ensures QiIec.FromWords(w).ToWords() == Pair(And(w.w0, MaskOf(FieldsOf(INTERRUPT_ENTRY_CACHE))), 0)
  {
    hide Or, And, Shl, BitOr, ExtractBits, Pow2, TypeBits, FromWord0, MaskOf, Flag;
    Widths();
    TypeInPlace(w.w0, INTERRUPT_ENTRY_CACHE);
    var d, fs := QiIec.FromWords(w), FieldsOf(INTERRUPT_ENTRY_CACHE);
    FlagOfBit(w.w0, BIT4);
    GetIsSmall(w.w0, INDEX_MASK);
    GetIsSmall(w.w0, SID);
    LowMask(d.indexMask, 5, 32);
    var w0 := TypeBits(INTERRUPT_ENTRY_CACHE);
    var w1 := BitOr(w0, Shl(Flag(d.global), 4));
    var w2 := BitOr(w1, Shl(And(d.indexMask, 0x1f), 27));
    assert fs[..2] == [TYPE_LOW, TYPE_HIGH] && fs[..3] == fs[..2] + [BIT4] && fs[..4] == fs[..3] + [INDEX_MASK];
    assert fs == fs[..4] + [SID];
    Collect(w.w0, fs[..2], BIT4, w0);
    Collect(w.w0, fs[..3], INDEX_MASK, w1);
    Collect(w.w0, fs[..4], SID, w2);
  }

  lemma WaitProjects(w: Pair)
    requires FromWord0(w.w0) == WAIT
    ensures QiWait.FromWords(w).ToWords() == Pair(And(w.w0, MaskOf(FieldsOf(WAIT))), SecondOf(WAIT, w.w1))
  {
    hide Or, And, Shl, BitOr, ExtractBits, Pow2, TypeBits, FromWord0, MaskOf, Flag, Not;
    Widths();
    TypeInPlace(w.w0, WAIT);
    var d, fs := QiWait.FromWords(w), FieldsOf(WAIT);
    FlagOfBit(w.w0, BIT4);
    FlagOfBit(w.w0, BIT5);
    FlagOfBit(w.w0, BIT6);
    GetIsSmall(w.w0, HIGH);
    var w0 := TypeBits(WAIT);
    var w1 := BitOr(w0, Shl(Flag(d.interruptFlag), 4));
    var w2 := BitOr(w1, Shl(Flag(d.statusWrite), 5));
    var w3 := BitOr(w2, Shl(Flag(d.fence), 6));
    assert fs[..2] == [TYPE_LOW, TYPE_HIGH] && fs[..3] == fs[..2] + [BIT4] && fs[..4] == fs[..3] + [BIT5];
    assert fs[..5] == fs[..4] + [BIT6] && fs == fs[..5] + [HIGH];
    Collect(w.w0, fs[..2], BIT4, w0);
    Collect(w.w0, fs[..3], BIT5, w1);
    Collect(w.w0, fs[..4], BIT6, w2);
    Collect(w.w0, fs[..5], HIGH, w3);
    DwordPart(w.w1);
  }

  /** The first word of the two descriptors with a domain and a PASID, restored from its fields. */
  lemma PasidWordRestored(w: Word, t: U8)
    requires FromWord0(w) == t && (t == PASID_CACHE || t == PASID_IOTLB)
    ensures var g := GranularityFromBits(As8(ExtractBits(w, 5, 4)));
      BitOr(BitOr(BitOr(TypeBits(t), Shl(GranularityBits(g), 4)), Shl(As16(ExtractBits(w, 31, 16)), 16)),
            Shl(As32(ExtractBits(w, 63, 32)), 32))
      == And(w, MaskOf(FieldsOf(t)))
  {
    hide Or, And, Shl, BitOr, ExtractBits, Pow2, TypeBits, GranularityBits, GranularityFromBits, FromWord0, MaskOf;
    Widths();
    TypeInPlace(w, t);
    var fs := FieldsOf(t);
    GetIsSmall(w, GRANULARITY);
    GetIsSmall(w, DID);
    GetIsSmall(w, HIGH);
    GranularityOfBits(Get(w, GRANULARITY));
    var w0 := TypeBits(t);
    var w1 := BitOr(w0, Shl(Get(w, GRANULARITY), 4));
    var w2 := BitOr(w1, Shl(Get(w, DID), 16));
    assert fs[..2] == [TYPE_LOW, TYPE_HIGH] && fs[..3] == fs[..2] + [GRANULARITY] && fs[..4] == fs[..3] + [DID];
    assert fs == fs[..4] + [HIGH];
    Collect(w, fs[..2], GRANULARITY, w0);
    Collect(w, fs[..3], DID, w1);
    Collect(w, fs[..4], HIGH, w2);
  }

  /** Two words decode exactly when their type is one of the seven; encoding the result keeps the
      bits that mean something for that type and clears the others; and it decodes to the same
      descriptor again. */
  lemma EncodeOfDecode(w: Pair)
    ensures QiDesc.FromWords(w).Some? <==> CONTEXT_CACHE <= FromWord0(w.w0) <= PASID_CACHE
    ensures QiDesc.FromWords(w).Some? ==>
      var d := QiDesc.FromWords(w).value;
      && d.Ty() == FromWord0(w.w0)
      && d.Words() == Pair(And(w.w0, MaskOf(FieldsOf(d.Ty()))), SecondOf(d.Ty(), w.w1))
      && QiDesc.FromWords(d.Words()) == Some(d)
  {
    hide And, ExtractBits, MaskOf, FromWord0, QiCc.ToWords, QiCc.FromWords, QiIotlb.ToWords, QiIotlb.FromWords,
      QiDevTlb.ToWords, QiDevTlb.FromWords, QiIec.ToWords, QiIec.FromWords, QiWait.ToWords, QiWait.FromWords,
      QiPc.ToWords, QiPc.FromWords, QiPiotlb.ToWords, QiPiotlb.FromWords, QiDesc.Canonical;
    var r := QiDesc.FromWords(w);
    if r.Some? {
      Restored(w);
      DecodeOfEncode(r.value);
      DecodedIsCanonical(w);
    }
  }

  lemma PcProjects(w: Pair)
    requires FromWord0(w.w0) == PASID_CACHE
    ensures QiPc.FromWords(w).ToWords() == Pair(And(w.w0, MaskOf(FieldsOf(PASID_CACHE))), 0)
  {
    hide And, ExtractBits, MaskOf, FromWord0, BitOr, TypeBits, Shl, GranularityBits, GranularityFromBits, FieldsOf;
    PasidWordRestored(w.w0, PASID_CACHE);
  }

  lemma PiotlbProjects(w: Pair)
    requires FromWord0(w.w0) == PASID_IOTLB
    ensures QiPiotlb.FromWords(w).ToWords() ==
      Pair(And(w.w0, MaskOf(FieldsOf(PASID_IOTLB))), SecondOf(PASID_IOTLB, w.w1))
  {
    hide And, ExtractBits, MaskOf, FromWord0, BitOr, TypeBits, Shl, GranularityBits, GranularityFromBits, FieldsOf, Not;
    PasidWordRestored(w.w0, PASID_IOTLB);
    SecondRestored(w.w1);
  }

  lemma Restored(w: Pair)
    requires QiDesc.FromWords(w).Some?
    ensures var d := QiDesc.FromWords(w).value;
      d.Words() == Pair(And(w.w0, MaskOf(FieldsOf(d.Ty()))), SecondOf(d.Ty(), w.w1))
  {
    hide And, MaskOf, FromWord0, FieldsOf, QiCc.ToWords, QiCc.FromWords, QiIotlb.ToWords, QiIotlb.FromWords,
      QiDevTlb.ToWords, QiDevTlb.FromWords, QiIec.ToWords, QiIec.FromWords, QiWait.ToWords, QiWait.FromWords,
      QiPc.ToWords, QiPc.FromWords, QiPiotlb.ToWords, QiPiotlb.FromWords;
    match QiDesc.FromWords(w).value
    case ContextCache(_) => CcProjects(w);
    case Iotlb(_) => IotlbProjects(w);
    case DevTlb(_) => DevTlbProjects(w);
    case Iec(_) => IecProjects(w);
    case Wait(_) => WaitProjects(w);
    case PasidCache(_) => PcProjects(w);
    case PasidIotlb(_) => PiotlbProjects(w);
  }

  lemma NarrowFields(w: Word)
    ensures As8(ExtractBits(w, 49, 48)) % 4 == As8(ExtractBits(w, 49, 48))
    ensures As8(ExtractBits(w, 31, 27)) % 32 == As8(ExtractBits(w, 31, 27))
    ensures As8(ExtractBits(w, 5, 0)) % 64 == As8(ExtractBits(w, 5, 0))
    ensures And(w, Not(0xfff)) % 4096 == 0
    ensures And(w, Not(0x7)) % 8 == 0
  {
    hide And, ExtractBits, Not, Pow2;
    Widths();
    GetIsSmall(w, FUNCTION_MASK);
    GetIsSmall(w, INDEX_MASK);
    GetIsSmall(w, Field(0, 6));
    PagePart(w);
    DwordPart(w);
  }

  lemma DecodedIsCanonical(w: Pair)
    requires QiDesc.FromWords(w).Some?
    ensures QiDesc.FromWords(w).value.Canonical() == QiDesc.FromWords(w).value
  {
    hide And, ExtractBits, FromWord0, Not, As8, As16, As32, GranularityFromBits;
    NarrowFields(w.w0);
    NarrowFields(w.w1);
  }

  // ---- the 256-bit descriptor ----

  /** The type of a device-TLB descriptor with PASID can be read back exactly when its global flag
      is clear: the flag is put into bit 0, which belongs to the type, and makes 8 a 9. */
  lemma DevPiotlbType(d: QiDevPiotlb)
    ensures FromWord0(d.ToWords4().w0) == PASID_DEVICE_TLB <==> !d.global
    ensures d.global ==> FromWord0(d.ToWords4().w0) == PAGE_GROUP_RESPONSE
  {
    hide Or, And, Shl, BitOr, ExtractBits, Pow2, TypeBits, FromWord0, Not;
    Widths();
    TypeBitsOfConstant(PASID_DEVICE_TLB);
    var t: U8 := PASID_DEVICE_TLB + Flag(d.global);
    AlignedOr(PASID_DEVICE_TLB, Flag(d.global), 3, 8);
    TypeBitsOfConstant(t);
    GetIsSmall(t, TYPE_HIGH);
    Append(t, 4, HIGH, d.pasid);
    TypeOf(d.ToWords4().w0, t);
  }

  /** One descriptor for which it cannot. */
  lemma GlobalDevPiotlbMisread()
    ensures var d := PasidDevTlb(QiDevPiotlb(true, 0, 0, false, 0, 0));
      FromWord0(d.Words4().w0) != d.Ty()
  {
    hide FromWord0;
    DevPiotlbType(QiDevPiotlb(true, 0, 0, false, 0, 0));
  }

  /** Its 128-bit form is that of no descriptor. */
  lemma DevPiotlbHasNoPair(d: QiDevPiotlb)
    ensures QiDesc.FromWords(PasidDevTlb(d).Words()) == None
  {
    hide FromWord0, Get, Pow2;
    Widths();
    TypeIsParts(0);
    GetIsSmall(0, TYPE_HIGH);
    GetIsSmall(0, TYPE_LOW);
  }
}
