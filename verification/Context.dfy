/** Context and PASID-table entries of the Intel crate: setters, getters and their byte form. */
module Context {
  import opened Bits
  import opened Fields

  /** `w & mask != 0`, for the mask of a one-bit field. */
  predicate IsSet(w: Word, f: Field)
    requires Fits(f)
  {
    MaskIsWord(f);
    And(w, Mask(f)) != 0
  }

  /** `(w & 0xfff) | (addr & !0xfff)` */
  function PutPointer(w: Word, addr: Word): Word {
    BitOr(And(w, 0xfff), And(addr, Not(0xfff)))
  }

  function Pointer(w: Word): Word {
    And(w, Not(0xfff))
  }

  // ---- enumerations ----

  datatype AddrWidth = Reserved0 | Agaw39 | Agaw48 | Agaw57 | ReservedWidth(code: U8)

  function AddrWidthFromBits(v: nat): AddrWidth {
    match v % 8
    case 0 => Reserved0
    case 1 => Agaw39
    case 2 => Agaw48
    case 3 => Agaw57
    case _ => ReservedWidth(v % 8)
  }

  function AddrWidthBits(w: AddrWidth): (v: U8)
    ensures v < 8
  {
    match w
    case Reserved0 => 0
    case Agaw39 => 1
    case Agaw48 => 2
    case Agaw57 => 3
    case ReservedWidth(code) => code % 8
  }

  datatype TransType = SecondStage | Reserved01 | PassThrough | Reserved11

  function TransTypeFromBits(v: nat): TransType {
    match v % 4
    case 0 => SecondStage
    case 1 => Reserved01
    case 2 => PassThrough
    case _ => Reserved11
  }

  function TransTypeBits(t: TransType): (v: U8)
    ensures v < 4
  {
    match t
    case SecondStage => 0
    case Reserved01 => 1
    case PassThrough => 2
    case Reserved11 => 3
  }

  datatype Pgtt = PgttReserved0 | FirstStageOnly | SecondStageOnly | Nested | PgttPassThrough | PgttReserved(code: U8)

  function PgttFromBits(v: nat): Pgtt {
    match v % 8
    case 0 => PgttReserved0
    case 1 => FirstStageOnly
    case 2 => SecondStageOnly
    case 3 => Nested
    case 4 => PgttPassThrough
    case _ => PgttReserved(v % 8)
  }

  function PgttBits(p: Pgtt): (v: U8)
    ensures v < 8
  {
    match p
    case PgttReserved0 => 0
    case FirstStageOnly => 1
    case SecondStageOnly => 2
    case Nested => 3
    case PgttPassThrough => 4
    case PgttReserved(code) => code % 8
  }

  datatype Flpm = FourLevel | FiveLevel | FlpmReserved(code: U8)

  function FlpmFromBits(v: nat): Flpm {
    match v % 4
    case 0 => FourLevel
    case 1 => FiveLevel
    case _ => FlpmReserved(v % 4)
  }

  function FlpmBits(f: Flpm): (v: U8)
    ensures v < 4
  {
    match f
    case FourLevel => 0
    case FiveLevel => 1
    case FlpmReserved(code) => code % 4
  }

  // ---- legacy context entry ----

  const BIT0 := Field(0, 1)
  const BIT1 := Field(1, 1)
  const BIT2 := Field(2, 1)
  const BIT3 := Field(3, 1)
  const BIT4 := Field(4, 1)
  const BIT5 := Field(5, 1)
  const BIT6 := Field(6, 1)
  const BIT7 := Field(7, 1)
  const BIT9 := Field(9, 1)
  const BIT20 := Field(20, 1)
  const BIT24 := Field(24, 1)
  const BIT25 := Field(25, 1)
  const TT := Field(2, 2)
  const AW := Field(0, 3)
  const DID := Field(8, 16)

  datatype ContextEntry = ContextEntry(q0: Word, q1: Word) {
    static function New(): ContextEntry { ContextEntry(0, 0) }

    function WithPresent(p: bool): ContextEntry { this.(q0 := Put(q0, BIT0, Flag(p))) }
    function Present(): bool { IsSet(q0, BIT0) }
    function WithFaultDisable(fpd: bool): ContextEntry { this.(q0 := Put(q0, BIT1, Flag(fpd))) }
    function FaultDisable(): bool { IsSet(q0, BIT1) }
    function WithTranslationType(tt: TransType): ContextEntry { this.(q0 := Put(q0, TT, TransTypeBits(tt))) }
    function TranslationType(): TransType { TransTypeFromBits(Get(q0, TT)) }
    function WithSecondStagePtr(addr: Word): ContextEntry { this.(q0 := PutPointer(q0, addr)) }
    function SecondStagePtr(): Word { Pointer(q0) }
    function WithAddressWidth(aw: AddrWidth): ContextEntry { this.(q1 := Put(q1, AW, AddrWidthBits(aw))) }
    function AddressWidth(): AddrWidth { AddrWidthFromBits(Get(q1, AW)) }
    function WithDomainId(did: U16): ContextEntry { this.(q1 := Put(q1, DID, did)) }
    function DomainId(): nat { Get(q1, DID) }

    method IntoBytes() returns (out: array<U8>)
      ensures fresh(out) && out[..] == LeAll([q0, q1])
    {
      out := new U8[16](_ => 0);
      CopyLe(out, 0, q0, []);
      CopyLe(out, 8, q1, [q0]);
      assert out[..16] == out[..];
    }
  }

  // ---- scalable-mode context entry ----

  /** `[u64; 2]` and `[u64; 4]` */
  type TwoWords = ws: seq<Word> | |ws| == 2 witness [0, 0]
  type FourWords = ws: seq<Word> | |ws| == 4 witness [0, 0, 0, 0]

  const PDTS := Field(9, 3)
  const RID_PASID := Field(0, 20)

  datatype ScalableContextEntry = ScalableContextEntry(q0: Word, q1: Word, reserved: TwoWords) {
    static function New(): ScalableContextEntry { ScalableContextEntry(0, 0, [0, 0]) }

    function Present(): bool { IsSet(q0, BIT0) }
    function WithPresent(p: bool): ScalableContextEntry { this.(q0 := Put(q0, BIT0, Flag(p))) }
    function FaultDisable(): bool { IsSet(q0, BIT1) }
    function DeviceTlbEnable(): bool { IsSet(q0, BIT2) }
    function PasidEnable(): bool { IsSet(q0, BIT3) }
    function WithPasidEnable(en: bool): ScalableContextEntry { this.(q0 := Put(q0, BIT3, Flag(en))) }
    function PageRequestEnable(): bool { IsSet(q0, BIT4) }
    function WithPageRequestEnable(en: bool): ScalableContextEntry { this.(q0 := Put(q0, BIT4, Flag(en))) }
    function HptEnable(): bool { IsSet(q0, BIT5) }
    function EptrEnable(): bool { IsSet(q0, BIT6) }
    function PasidDirSize(): nat { Get(q0, PDTS) }
    function WithPasidDirSize(order: U8): ScalableContextEntry { this.(q0 := Put(q0, PDTS, And(order, 0x7))) }
    function WithPasidDirPtr(addr: Word): ScalableContextEntry { this.(q0 := PutPointer(q0, addr)) }
    function PasidDirPtr(): Word { Pointer(q0) }
    function RidPasid(): nat { Get(q1, RID_PASID) }
    function WithRidPasid(pasid: U32): ScalableContextEntry { this.(q1 := Put(q1, RID_PASID, And(pasid, 0xf_ffff))) }
    function RidPriv(): bool { IsSet(q1, BIT20) }
    function WithRidPriv(en: bool): ScalableContextEntry { this.(q1 := Put(q1, BIT20, Flag(en))) }

    method IntoBytes() returns (out: array<U8>)
      ensures fresh(out) && out[..] == LeAll([q0, q1] + reserved)
    {
      out := new U8[32](_ => 0);
      CopyLe(out, 0, q0, []);
      CopyLe(out, 8, q1, [q0]);
      CopyLe(out, 16, reserved[0], [q0, q1]);
      CopyLe(out, 24, reserved[1], [q0, q1, reserved[0]]);
      assert [q0, q1, reserved[0]] + [reserved[1]] == [q0, q1] + reserved && out[..32] == out[..];
    }
  }

  // ---- PASID table entry ----

  const PGTT := Field(6, 3)
  const PASID_DID := Field(0, 16)
  const FLPM := Field(2, 2)

  /** Bits 51:12. */
  const FLRTP := Field(12, 40)
  const FLRTP_MASK: Word := 0x000f_ffff_ffff_f000

  datatype PasidTableEntry = PasidTableEntry(q0: Word, q1: Word, q2: Word, q3: Word, hpt: FourWords) {
    static function New(): PasidTableEntry { PasidTableEntry(0, 0, 0, 0, [0, 0, 0, 0]) }

    function Present(): bool { IsSet(q0, BIT0) }
    function WithPresent(p: bool): PasidTableEntry { this.(q0 := Put(q0, BIT0, Flag(p))) }
    function FaultDisable(): bool { IsSet(q0, BIT1) }
    function SsAccessedDirty(): bool { IsSet(q0, BIT9) }
    function WithSsAccessedDirty(en: bool): PasidTableEntry { this.(q0 := Put(q0, BIT9, Flag(en))) }
    function Pgtt(): Pgtt { PgttFromBits(Get(q0, PGTT)) }
    function WithPgtt(pgtt: Pgtt): PasidTableEntry { this.(q0 := Put(q0, PGTT, PgttBits(pgtt))) }
    function PageTablePtr(): Word { Pointer(q0) }
    function WithPageTablePtr(addr: Word): PasidTableEntry { this.(q0 := PutPointer(q0, addr)) }
    function DomainId(): U16 { q1 % 0x1_0000 }
    function WithDomainId(did: U16): PasidTableEntry { this.(q1 := Put(q1, PASID_DID, did)) }
    function PageSnoop(): bool { IsSet(q1, BIT24) }
    function CacheDisable(): bool { IsSet(q1, BIT25) }
    function SupervisorRequests(): bool { IsSet(q2, BIT0) }
    function WithSupervisorRequests(en: bool): PasidTableEntry { this.(q2 := Put(q2, BIT0, Flag(en))) }
    function Flpm(): Flpm { FlpmFromBits(Get(q2, FLPM)) }
    function WithFlpm(flpm: Flpm): PasidTableEntry { this.(q2 := Put(q2, FLPM, FlpmBits(flpm))) }
    function FirstLevelPtr(): Word { And(q2, FLRTP_MASK) }
    function WithFirstLevelPtr(addr: Word): PasidTableEntry {
      this.(q2 := BitOr(And(q2, Not(FLRTP_MASK)), And(addr, FLRTP_MASK)))
    }
    function WriteProtectEnable(): bool { IsSet(q2, BIT4) }
    function ExtAccessedFlag(): bool { IsSet(q2, BIT7) }

    method IntoBytes() returns (out: array<U8>)
      ensures fresh(out) && out[..] == LeAll([q0, q1, q2, q3] + hpt)
    {
      out := new U8[64](_ => 0);
      CopyLe(out, 0, q0, []);
      CopyLe(out, 8, q1, [q0]);
      CopyLe(out, 16, q2, [q0, q1]);
      CopyLe(out, 24, q3, [q0, q1, q2]);
      ghost var qs := [q0, q1, q2, q3] + hpt;
      assert qs[..4] == [q0, q1, q2] + [q3];
      for i := 0 to 4
        invariant out[..8 * (4 + i)] == LeAll(qs[..4 + i])
      {
        CopyLe(out, 32 + i * 8, hpt[i], qs[..4 + i]);
        assert qs[..4 + i] + [hpt[i]] == qs[..4 + i + 1];
      }
      assert qs[..8] == qs && out[..64] == out[..];
    }
  }

  // ---- little-endian bytes ----

  /** The `n` lowest bytes of `w`, lowest first. */
  function LeBytes(w: nat, n: nat): (b: seq<U8>)
    ensures |b| == n
  {
    if n == 0 then [] else [w % 0x100] + LeBytes(w / 0x100, n - 1)
  }

  /** `to_le_bytes` */
  function Le(w: Word): (b: seq<U8>)
    ensures |b| == 8
  {
    LeBytes(w, 8)
  }

  function LeAll(ws: seq<Word>): (b: seq<U8>)
    ensures |b| == 8 * |ws|
  {
    if ws == [] then [] else Le(ws[0]) + LeAll(ws[1..])
  }

  lemma {:induction false} LeAllAppends(ws: seq<Word>, w: Word)
    ensures LeAll(ws + [w]) == LeAll(ws) + Le(w)
    decreases |ws|
  {
    hide Le;
    if ws == [] {
      assert [w][1..] == [];
      assert [] + [w] == [w];
    } else {
      assert (ws + [w])[1..] == ws[1..] + [w];
      LeAllAppends(ws[1..], w);
    }
  }

  /** `out[at..at + 8].copy_from_slice(&w.to_le_bytes())`, right behind the words copied before. */
  method CopyLe(out: array<U8>, at: nat, w: Word, ghost before: seq<Word>)
    requires at == 8 * |before| && at + 8 <= out.Length && out[..at] == LeAll(before)
    modifies out
    ensures out[..at + 8] == LeAll(before + [w])
    ensures out[at + 8..] == old(out[at + 8..])
  {
    hide Le, LeBytes;
    forall i | 0 <= i < 8 {
      out[at + i] := Le(w)[i];
    }
    assert out[..at] == old(out[..at]);
    assert out[at..at + 8] == Le(w);
    LeAllAppends(before, w);
    assert out[..at + 8] == out[..at] + out[at..at + 8];
  }
}
