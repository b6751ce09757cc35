/** Queued-invalidation descriptors as the numbers in the queue, with every position and code written out. */
module QiWire {
  import opened Wrappers
  import opened Bits
  import opened Fields
  import opened Qi
  import opened QiLaws

  /** Two bits of granularity. */
  function Code(g: Granularity): nat {
    match g
    case Reserved => 0
    case Global => 1
    case Domain => 2
    case PageOrDevice => 3
  }

  /** The four words of a descriptor, as sums of fields at their places. */
  function Wire(d: QiDesc): (nat, nat, nat, nat) {
    match d
    case ContextCache(c) =>
      (0x1 + 0x10 * Code(c.granularity) + 0x1_0000 * c.did + 0x1_0000_0000 * c.sid
       + 0x1_0000_0000_0000 * (c.fm % 4), 0, 0, 0)
    case Iotlb(i) =>
      (0x2 + 0x10 * Code(i.granularity) + 0x1_0000 * i.did, Page(i.addr) + i.am % 64, 0, 0)
    case DevTlb(t) =>
      (0x3 + 0x1_0000_0000 * t.sid, Page(t.addr) + (if t.oversized then 1 else 0), 0, 0)
    case Iec(e) =>
      (0x4 + (if e.global then 0x10 else 0) + 0x800_0000 * (e.indexMask % 32) + 0x1_0000_0000 * e.startIndex, 0, 0, 0)
    case Wait(w) =>
      (0x5 + (if w.interruptFlag then 0x10 else 0) + (if w.statusWrite then 0x20 else 0) + (if w.fence then 0x40 else 0)
       + 0x1_0000_0000 * w.statusData, w.statusAddr - w.statusAddr % 8, 0, 0)
    case PasidIotlb(i) =>
      (0x6 + 0x10 * Code(i.granularity) + 0x1_0000 * i.did + 0x1_0000_0000 * i.pasid, Page(i.addr) + i.am % 64, 0, 0)
    case PasidCache(c) =>
      (0x7 + 0x10 * Code(c.granularity) + 0x1_0000 * c.did + 0x1_0000_0000 * c.pasid, 0, 0, 0)
    case PasidDevTlb(t) =>
      (0x8 + (if t.global then 1 else 0) + 0x1_0000_0000 * t.pasid,
       Page(t.addr) + (if t.sizeOrder then 0x800 else 0),
       0x1_0000 * t.pfsid + 0x1_0000_0000 * t.sid, 0)
  }

  /** An address without its page offset. */
  function Page(addr: Word): nat {
    addr - addr % 4096
  }

  /** A field joined above everything so far is added. */
  lemma Joined(acc: Word, n: nat, f: Field, v: nat)
    requires Fits(f) && acc < Pow2(n) && n <= f.lo && v < Pow2(f.width)
    ensures BitOr(acc, Shl(v, f.lo)) == acc + v * Pow2(f.lo) < Pow2(f.lo + f.width)
  {
    hide Pow2, Shl;
    Pow2Monotone(n, f.lo);
    AppendIsSum(acc, f, v);
    SumReads(acc, f, v);
  }

  lemma StartIs(t: U8, g: Granularity)
    requires t < 16
    ensures Start(t, g) == t + 0x10 * Code(g) < Pow2(6)
  {
    hide Pow2, Shl, BitOr, TypeBits;
    Widths();
    TypeBitsOfConstant(t);
    Joined(TypeBits(t), 4, GRANULARITY, GranularityBits(g));
  }

  lemma CcWire(c: QiCc)
    ensures c.ToWords().w0 == Wire(ContextCache(c)).0
  {
    hide And, Pow2, Shl, BitOr, TypeBits, GranularityBits;
    Widths();
    Powers();
    LowMask(c.fm, 2, 4);
    var w1 := Start(CONTEXT_CACHE, c.granularity);
    StartIs(CONTEXT_CACHE, c.granularity);
    var w2 := BitOr(w1, Shl(c.did, 16));
    Joined(w1, 6, DID, c.did);
    var w3 := BitOr(w2, Shl(c.sid, 32));
    Joined(w2, 32, SID, c.sid);
    Joined(w3, 48, FUNCTION_MASK, And(c.fm, 0x3));
  }

  lemma IotlbWire(i: QiIotlb)
    ensures i.ToWords().w0 == Wire(Iotlb(i)).0 && i.ToWords().w1 == Wire(Iotlb(i)).1
  {
    hide And, Pow2, Shl, BitOr, TypeBits, GranularityBits, Not;
    Widths();
    StartIs(IOTLB, i.granularity);
    Joined(Start(IOTLB, i.granularity), 6, DID, i.did);
    PageAndMask(i.addr, i.am);
  }

  lemma DevTlbWire(t: QiDevTlb)
    ensures t.ToWords().w0 == Wire(DevTlb(t)).0 && t.ToWords().w1 == Wire(DevTlb(t)).1
  {
    hide And, Pow2, Shl, BitOr, TypeBits, Not;
    Widths();
    TypeBitsOfConstant(DEVICE_TLB);
    Joined(TypeBits(DEVICE_TLB), 4, SID, t.sid);
    PageAndFlag(t.addr, t.oversized);
  }

  lemma IecWire(e: QiIec)
    ensures e.ToWords().w0 == Wire(Iec(e)).0
  {
    hide And, Pow2, Shl, BitOr, TypeBits;
    Widths();
    TypeBitsOfConstant(INTERRUPT_ENTRY_CACHE);
    var w1 := BitOr(TypeBits(INTERRUPT_ENTRY_CACHE), Shl(Flag(e.global), 4));
    Joined(TypeBits(INTERRUPT_ENTRY_CACHE), 4, BIT4, Flag(e.global));
    LowMask(e.indexMask, 5, 32);
    var w2 := BitOr(w1, Shl(And(e.indexMask, 0x1f), 27));
    Joined(w1, 5, INDEX_MASK, And(e.indexMask, 0x1f));
    Joined(w2, 32, SID, e.startIndex);
  }

  lemma WaitFlags(interrupt: bool, write: bool, fence: bool)
    ensures BitOr(BitOr(BitOr(TypeBits(WAIT), Shl(Flag(interrupt), 4)), Shl(Flag(write), 5)), Shl(Flag(fence), 6))
      == 0x5 + 0x10 * Flag(interrupt) + 0x20 * Flag(write) + 0x40 * Flag(fence) < Pow2(7)
  {
    hide And, Pow2, Shl, BitOr, TypeBits, Flag;
    FlagFits(interrupt);
    FlagFits(write);
    FlagFits(fence);
    Widths();
    TypeBitsOfConstant(WAIT);
    var w1 := BitOr(TypeBits(WAIT), Shl(Flag(interrupt), 4));
    Joined(TypeBits(WAIT), 4, BIT4, Flag(interrupt));
    var w2 := BitOr(w1, Shl(Flag(write), 5));
    Joined(w1, 5, BIT5, Flag(write));
    Joined(w2, 6, BIT6, Flag(fence));
  }

  lemma FlagFits(b: bool)
    ensures Flag(b) < 2
  {
  }

  lemma WaitWire(w: QiWait)
    ensures w.ToWords().w0 == Wire(Wait(w)).0 && w.ToWords().w1 == Wire(Wait(w)).1
  {
    hide And, Pow2, Shl, BitOr, TypeBits, Not;
    Widths();
    WaitFlags(w.interruptFlag, w.statusWrite, w.fence);
    var flags := BitOr(BitOr(BitOr(TypeBits(WAIT), Shl(Flag(w.interruptFlag), 4)), Shl(Flag(w.statusWrite), 5)),
                       Shl(Flag(w.fence), 6));
    Joined(flags, 7, HIGH, w.statusData);
    DwordPart(w.statusAddr);
  }

  lemma PcWire(c: QiPc)
    ensures c.ToWords().w0 == Wire(PasidCache(c)).0
  {
    hide And, Pow2, Shl, BitOr, TypeBits, GranularityBits;
    Widths();
    var w1 := Start(PASID_CACHE, c.granularity);
    StartIs(PASID_CACHE, c.granularity);
    Joined(w1, 6, DID, c.did);
    Joined(BitOr(w1, Shl(c.did, 16)), 32, HIGH, c.pasid);
  }

  lemma PiotlbWire(i: QiPiotlb)
    ensures i.ToWords().w0 == Wire(PasidIotlb(i)).0 && i.ToWords().w1 == Wire(PasidIotlb(i)).1
  {
    hide And, Pow2, Shl, BitOr, TypeBits, GranularityBits, Not;
    Widths();
    var w1 := Start(PASID_IOTLB, i.granularity);
    StartIs(PASID_IOTLB, i.granularity);
    Joined(w1, 6, DID, i.did);
    Joined(BitOr(w1, Shl(i.did, 16)), 32, HIGH, i.pasid);
    PageAndMask(i.addr, i.am);
  }

  lemma DevPiotlbWire(t: QiDevPiotlb)
    ensures var w, wire := t.ToWords4(), Wire(PasidDevTlb(t));
      w.w0 == wire.0 && w.w1 == wire.1 && w.w2 == wire.2 && w.w3 == 0
  {
    hide And, Or, Pow2, Shl, TypeBits, Not, BitOr;
    Widths();
    TypeBitsOfConstant(PASID_DEVICE_TLB);
    AlignedOr(PASID_DEVICE_TLB, Flag(t.global), 3, 8);
    Joined(PASID_DEVICE_TLB + Flag(t.global), 4, HIGH, t.pasid);
    SecondWord(t.addr, t.sizeOrder);
    ThirdWord(t.sid, t.pfsid);
  }

  lemma SecondWord(addr: Word, flag: bool)
    ensures BitOr(And(addr, Not(0xfff)), Shl(Flag(flag), 11)) == Page(addr) + if flag then 0x800 else 0
  {
    hide And, Or, Pow2, Shl, Not;
    Widths();
    Powers();
    PagePart(addr);
    assert Pow2(11) == 0x800 by {
      Eleven();
    }
    ShlStays(Flag(flag), Field(11, 1));
    AlignedOr(Page(addr), Flag(flag) * 0x800, 12, 4096);
  }

  lemma Eleven()
    ensures Pow2(11) == 0x800
  {
    Powers();
  }

  lemma ThirdWord(sid: U16, pfsid: U16)
    ensures BitOr(Shl(sid, 32), Shl(pfsid, 16)) == 0x1_0000 * pfsid + 0x1_0000_0000 * sid
  {
    hide Or, Pow2, Shl;
    Widths();
    ShlStays(pfsid, DID);
    ShlStays(sid, SID);
    OrCommutes(Shl(sid, 32), Shl(pfsid, 16));
    Joined(Shl(pfsid, 16), 32, SID, sid);
  }

  /** Every descriptor is encoded as its four words; the 128-bit form of the seven short kinds is the
      first two. */
  lemma WordsAreWire(d: QiDesc)
    ensures d.Words4().w0 == Wire(d).0 && d.Words4().w1 == Wire(d).1
    ensures d.Words4().w2 == Wire(d).2 && d.Words4().w3 == Wire(d).3
    ensures d.Words() == if d.PasidDevTlb? then Pair(0, 0) else Pair(d.Words4().w0, d.Words4().w1)
  {
    hide And, Or, Pow2, Shl, BitOr, TypeBits, GranularityBits, Not, Code, Page, Flag;
    match d
    case ContextCache(c) => CcWire(c);
    case Iotlb(i) => IotlbWire(i);
    case DevTlb(t) => DevTlbWire(t);
    case Iec(e) => IecWire(e);
    case Wait(w) => WaitWire(w);
    case PasidCache(c) => PcWire(c);
    case PasidIotlb(i) => PiotlbWire(i);
    case PasidDevTlb(t) => DevPiotlbWire(t);
  }

  /** The type number of a descriptor. */
  function Number(d: QiDesc): nat {
    match d
    case ContextCache(_) => 1
    case Iotlb(_) => 2
    case DevTlb(_) => 3
    case Iec(_) => 4
    case Wait(_) => 5
    case PasidIotlb(_) => 6
    case PasidCache(_) => 7
    case PasidDevTlb(_) => 8
  }

  lemma TyIsNumber(d: QiDesc)
    ensures d.Ty() == Number(d)
  {
  }

  lemma TypeOfWord(w: Word)
    ensures FromWord0(w) == 16 * (w / 0x200 % 8) + w % 16
  {
    hide Get, Pow2, FromWord0;
    Widths();
    TypeIsParts(w);
    GetIsDigit(w, TYPE_LOW);
    GetIsDigit(w, TYPE_HIGH);
    assert w / 1 == w;
  }

  /** Bits 3:0 of the first word are the type number and bits 11:9 are zero; two words decode, and to a
      given kind, if and only if those bits say so. */
  lemma KindIsNumber(w: Pair)
    ensures QiDesc.FromWords(w).Some? <==> w.w0 / 0x200 % 8 == 0 && 1 <= w.w0 % 16 <= 7
    ensures var d := QiDesc.FromWords(w); d.Some? ==> !d.value.PasidDevTlb? && Number(d.value) == w.w0 % 16
  {
    hide FromWord0, QiCc.FromWords, QiIotlb.FromWords, QiDevTlb.FromWords, QiIec.FromWords, QiWait.FromWords,
      QiPc.FromWords, QiPiotlb.FromWords;
    TypeOfWord(w.w0);
  }

  /** Conversely, an encoded descriptor of 128 bits has its number in those bits. */
  lemma EncodedNumber(d: QiDesc)
    requires !d.PasidDevTlb?
    ensures d.Words().w0 % 16 == Number(d) && d.Words().w0 / 0x200 % 8 == 0
  {
    hide FromWord0, QiDesc.FromWords, QiDesc.Words;
    DecodeOfEncode(d);
    CanonicalKind(d);
    KindIsNumber(d.Words());
  }

  lemma CanonicalKind(d: QiDesc)
    requires !d.PasidDevTlb?
    ensures !d.Canonical().PasidDevTlb? && Number(d.Canonical()) == Number(d)
  {
  }
}
