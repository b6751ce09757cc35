/** Queued-invalidation descriptors of the Intel crate, encoded to and decoded from two words. */
module Qi {
  import opened Wrappers
  import opened Bits
  import opened Fields

  datatype Granularity = Reserved | Global | Domain | PageOrDevice

  function GranularityBits(g: Granularity): (v: U8)
    ensures v < 4
  {
    match g
    case Reserved => 0
    case Global => 1
    case Domain => 2
    case PageOrDevice => 3
  }

  function GranularityFromBits(v: U8): Granularity {
    match And(v, 0x3)
    case 1 => Global
    case 2 => Domain
    case 3 => PageOrDevice
    case _ => Reserved
  }

  function As8(x: nat): U8 { x % 0x100 }
  function As16(x: nat): U16 { x % 0x1_0000 }
  function As32(x: nat): U32 { x % 0x1_0000_0000 }

  // ---- types ----

  const CONTEXT_CACHE: U8 := 0x1
  const IOTLB: U8 := 0x2
  const DEVICE_TLB: U8 := 0x3
  const INTERRUPT_ENTRY_CACHE: U8 := 0x4
  const WAIT: U8 := 0x5
  const PASID_IOTLB: U8 := 0x6
  const PASID_CACHE: U8 := 0x7
  const PASID_DEVICE_TLB: U8 := 0x8
  const PAGE_GROUP_RESPONSE: U8 := 0x9

  /** A descriptor's 7-bit type: bits 11:9 and 3:0 of its first word. */
  function FromWord0(w: Word): U8 {
    As8(Or(Shl(ExtractBits(w, 11, 9), 4), ExtractBits(w, 3, 0)))
  }

  function TypeBits(t: U8): Word {
    var u := And(t, 0x7f);
    BitOr(Shl(u / 16, 9), And(u, 0xf))
  }

  // ---- descriptors ----

  datatype Pair = Pair(w0: Word, w1: Word)

  datatype QiCc = QiCc(granularity: Granularity, did: U16, sid: U16, fm: U8) {
    function ToWords(): Pair {
      Pair(BitOr(BitOr(BitOr(BitOr(TypeBits(CONTEXT_CACHE), Shl(GranularityBits(granularity), 4)),
                             Shl(did, 16)), Shl(sid, 32)), Shl(And(fm, 0x3), 48)), 0)
    }

    static function FromWords(w: Pair): QiCc {
      QiCc(GranularityFromBits(As8(ExtractBits(w.w0, 5, 4))), As16(ExtractBits(w.w0, 31, 16)),
           As16(ExtractBits(w.w0, 47, 32)), As8(ExtractBits(w.w0, 49, 48)))
    }
  }

  datatype QiIotlb = QiIotlb(granularity: Granularity, did: U16, addr: Word, am: U8) {
    function ToWords(): Pair {
      Pair(BitOr(BitOr(TypeBits(IOTLB), Shl(GranularityBits(granularity), 4)), Shl(did, 16)),
           BitOr(And(addr, Not(0xfff)), And(am, 0x3f)))
    }

    static function FromWords(w: Pair): QiIotlb {
      QiIotlb(GranularityFromBits(As8(ExtractBits(w.w0, 5, 4))), As16(ExtractBits(w.w0, 31, 16)),
              And(w.w1, Not(0xfff)), As8(ExtractBits(w.w1, 5, 0)))
    }
  }

  datatype QiDevTlb = QiDevTlb(sid: U16, addr: Word, oversized: bool) {
    function ToWords(): Pair {
      Pair(BitOr(TypeBits(DEVICE_TLB), Shl(sid, 32)), BitOr(And(addr, Not(0xfff)), Flag(oversized)))
    }

    static function FromWords(w: Pair): QiDevTlb {
      QiDevTlb(As16(ExtractBits(w.w0, 47, 32)), And(w.w1, Not(0xfff)), And(w.w1, 1) != 0)
    }
  }

  datatype QiIec = QiIec(global: bool, startIndex: U16, indexMask: U8) {
    function ToWords(): Pair {
      Pair(BitOr(BitOr(BitOr(TypeBits(INTERRUPT_ENTRY_CACHE), Shl(Flag(global), 4)),
                       Shl(And(indexMask, 0x1f), 27)), Shl(startIndex, 32)), 0)
    }

    static function FromWords(w: Pair): QiIec {
      QiIec(ExtractBits(w.w0, 4, 4) != 0, As16(ExtractBits(w.w0, 47, 32)), As8(ExtractBits(w.w0, 31, 27)))
    }
  }

  datatype QiWait = QiWait(interruptFlag: bool, statusWrite: bool, fence: bool, statusData: U32, statusAddr: Word) {
    function ToWords(): Pair {
      Pair(BitOr(BitOr(BitOr(BitOr(TypeBits(WAIT), Shl(Flag(interruptFlag), 4)), Shl(Flag(statusWrite), 5)),
                       Shl(Flag(fence), 6)), Shl(statusData, 32)),
           And(statusAddr, Not(0x7)))
    }

    static function FromWords(w: Pair): QiWait {
      QiWait(ExtractBits(w.w0, 4, 4) != 0, ExtractBits(w.w0, 5, 5) != 0, ExtractBits(w.w0, 6, 6) != 0,
             As32(ExtractBits(w.w0, 63, 32)), And(w.w1, Not(0x7)))
    }
  }

  datatype QiPc = QiPc(granularity: Granularity, did: U16, pasid: U32) {
    function ToWords(): Pair {
      Pair(BitOr(BitOr(BitOr(TypeBits(PASID_CACHE), Shl(GranularityBits(granularity), 4)), Shl(did, 16)),
                 Shl(pasid, 32)), 0)
    }

    static function FromWords(w: Pair): QiPc {
      QiPc(GranularityFromBits(As8(ExtractBits(w.w0, 5, 4))), As16(ExtractBits(w.w0, 31, 16)),
           As32(ExtractBits(w.w0, 63, 32)))
    }
  }

  datatype QiPiotlb = QiPiotlb(granularity: Granularity, did: U16, pasid: U32, addr: Word, am: U8) {
    function ToWords(): Pair {
      Pair(BitOr(BitOr(BitOr(TypeBits(PASID_IOTLB), Shl(GranularityBits(granularity), 4)), Shl(did, 16)),
                 Shl(pasid, 32)),
           BitOr(And(addr, Not(0xfff)), And(am, 0x3f)))
    }

    static function FromWords(w: Pair): QiPiotlb {
      QiPiotlb(GranularityFromBits(As8(ExtractBits(w.w0, 5, 4))), As16(ExtractBits(w.w0, 31, 16)),
               As32(ExtractBits(w.w0, 63, 32)), And(w.w1, Not(0xfff)), As8(ExtractBits(w.w1, 5, 0)))
    }
  }

  datatype Quad = Quad(w0: Word, w1: Word, w2: Word, w3: Word)

  datatype QiDevPiotlb = QiDevPiotlb(global: bool, pasid: U32, addr: Word, sizeOrder: bool, sid: U16, pfsid: U16) {
    function ToWords4(): Quad {
      Quad(BitOr(BitOr(TypeBits(PASID_DEVICE_TLB), Flag(global)), Shl(pasid, 32)),
           BitOr(And(addr, Not(0xfff)), Shl(Flag(sizeOrder), 11)),
           BitOr(Shl(sid, 32), Shl(pfsid, 16)), 0)
    }
  }

  datatype QiDesc =
    | ContextCache(cc: QiCc)
    | Iotlb(iotlb: QiIotlb)
    | DevTlb(devTlb: QiDevTlb)
    | Iec(iec: QiIec)
    | Wait(wait: QiWait)
    | PasidCache(pc: QiPc)
    | PasidIotlb(piotlb: QiPiotlb)
    | PasidDevTlb(devPiotlb: QiDevPiotlb)
  {
    function Ty(): U8 {
      match this
      case ContextCache(_) => CONTEXT_CACHE
      case Iotlb(_) => IOTLB
      case DevTlb(_) => DEVICE_TLB
      case Iec(_) => INTERRUPT_ENTRY_CACHE
      case Wait(_) => WAIT
      case PasidCache(_) => PASID_CACHE
      case PasidIotlb(_) => PASID_IOTLB
      case PasidDevTlb(_) => PASID_DEVICE_TLB
    }

    /** The 128-bit form; a 256-bit descriptor has none and encodes as zero. */
    function Words(): Pair {
      match this
      case ContextCache(d) => d.ToWords()
      case Iotlb(d) => d.ToWords()
      case DevTlb(d) => d.ToWords()
      case Iec(d) => d.ToWords()
      case Wait(d) => d.ToWords()
      case PasidCache(d) => d.ToWords()
      case PasidIotlb(d) => d.ToWords()
      case PasidDevTlb(_) => Pair(0, 0)
    }

    function Words4(): Quad {
      match this
      case PasidDevTlb(d) => d.ToWords4()
      case _ => Quad(Words().w0, Words().w1, 0, 0)
    }

    static function FromWords(w: Pair): Option<QiDesc> {
      var t := FromWord0(w.w0);
      if t == CONTEXT_CACHE then Some(ContextCache(QiCc.FromWords(w)))
      else if t == IOTLB then Some(Iotlb(QiIotlb.FromWords(w)))
      else if t == DEVICE_TLB then Some(DevTlb(QiDevTlb.FromWords(w)))
      else if t == INTERRUPT_ENTRY_CACHE then Some(Iec(QiIec.FromWords(w)))
      else if t == WAIT then Some(Wait(QiWait.FromWords(w)))
      else if t == PASID_CACHE then Some(PasidCache(QiPc.FromWords(w)))
      else if t == PASID_IOTLB then Some(PasidIotlb(QiPiotlb.FromWords(w)))
      else None
    }

    /** The descriptor with every field cut to the width it has in a word. */
    function Canonical(): QiDesc {
      match this
      case ContextCache(d) => ContextCache(d.(fm := d.fm % 4))
      case Iotlb(d) => Iotlb(d.(addr := d.addr - d.addr % 4096, am := d.am % 64))
      case DevTlb(d) => DevTlb(d.(addr := d.addr - d.addr % 4096))
      case Iec(d) => Iec(d.(indexMask := d.indexMask % 32))
      case Wait(d) => Wait(d.(statusAddr := d.statusAddr - d.statusAddr % 8))
      case PasidCache(_) => this
      case PasidIotlb(d) => PasidIotlb(d.(addr := d.addr - d.addr % 4096, am := d.am % 64))
      case PasidDevTlb(_) => this
    }
  }
}
