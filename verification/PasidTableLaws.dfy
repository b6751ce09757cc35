/** A PASID table entry is the record of its fields, whatever setters made it. */
module PasidTableLaws {
  import opened Bits
  import opened Fields
  import opened Layouts
  import opened Context
  import opened EntryLaws

  /** The first three words of an entry, field by field; no accessor reads slots 2, 5, 8, 11, 13, 16, 18 and 20. */
  const LAYOUT := [
    Slot(0, BIT0), Slot(0, BIT1), Slot(0, Field(2, 4)), Slot(0, PGTT), Slot(0, BIT9), Slot(0, Field(10, 2)),
    Slot(0, PAGE_ADDRESS),
    Slot(1, PASID_DID), Slot(1, Field(16, 8)), Slot(1, BIT24), Slot(1, BIT25), Slot(1, Field(26, 38)),
    Slot(2, BIT0), Slot(2, BIT1), Slot(2, FLPM), Slot(2, BIT4), Slot(2, Field(5, 2)), Slot(2, BIT7),
    Slot(2, Field(8, 4)), Slot(2, FLRTP), Slot(2, Field(52, 12))]

  /** An entry as its reader sees it, with the bits that no accessor reads. */
  datatype Record = Record(
    present: bool, faultDisable: bool, pgtt: Pgtt, ssAccessedDirty: bool, pageTablePtr: nat,
    domainId: nat, pageSnoop: bool, cacheDisable: bool,
    supervisorRequests: bool, flpm: Flpm, writeProtectEnable: bool, extAccessedFlag: bool, firstLevelPtr: nat,
    unread: seq<nat>, q3: Word, hpt: FourWords)

  function View(e: PasidTableEntry): Record {
    Record(e.Present(), e.FaultDisable(), e.Pgtt(), e.SsAccessedDirty(), e.PageTablePtr(),
           e.DomainId(), e.PageSnoop(), e.CacheDisable(),
           e.SupervisorRequests(), e.Flpm(), e.WriteProtectEnable(), e.ExtAccessedFlag(), e.FirstLevelPtr(),
           Unread(e), e.q3, e.hpt)
  }

  /** The bits of the first three words that no accessor reads. */
  function Unread(e: PasidTableEntry): seq<nat> {
    [Get(e.q0, Field(2, 4)), Get(e.q0, Field(10, 2)), Get(e.q1, Field(16, 8)), Get(e.q1, Field(26, 38)),
     Get(e.q2, BIT1), Get(e.q2, Field(5, 2)), Get(e.q2, Field(8, 4)), Get(e.q2, Field(52, 12))]
  }

  datatype Setter =
    | SetPresent(p: bool)
    | SetSsAccessedDirty(ad: bool)
    | SetPgtt(pgtt: Pgtt)
    | SetPageTablePtr(addr: Word)
    | SetDomainId(did: U16)
    | SetSupervisorRequests(sre: bool)
    | SetFlpm(flpm: Flpm)
    | SetFirstLevelPtr(flrtp: Word)

  function Set(e: PasidTableEntry, s: Setter): PasidTableEntry {
    match s
    case SetPresent(p) => e.WithPresent(p)
    case SetSsAccessedDirty(en) => e.WithSsAccessedDirty(en)
    case SetPgtt(pgtt) => e.WithPgtt(pgtt)
    case SetPageTablePtr(addr) => e.WithPageTablePtr(addr)
    case SetDomainId(did) => e.WithDomainId(did)
    case SetSupervisorRequests(en) => e.WithSupervisorRequests(en)
    case SetFlpm(flpm) => e.WithFlpm(flpm)
    case SetFirstLevelPtr(addr) => e.WithFirstLevelPtr(addr)
  }

  /** What a setter should do to the record: its own field takes the canonical value, nothing else changes. */
  function Update(r: Record, s: Setter): Record {
    match s
    case SetPresent(p) => r.(present := p)
    case SetSsAccessedDirty(en) => r.(ssAccessedDirty := en)
    case SetPgtt(pgtt) => r.(pgtt := CanonicalPgtt(pgtt))
    case SetPageTablePtr(addr) => r.(pageTablePtr := addr - addr % 4096)
    case SetDomainId(did) => r.(domainId := did)
    case SetSupervisorRequests(en) => r.(supervisorRequests := en)
    case SetFlpm(flpm) => r.(flpm := CanonicalFlpm(flpm))
    case SetFirstLevelPtr(addr) => r.(firstLevelPtr := addr / 4096 % 0x100_0000_0000 * 4096)
  }

  /** Where the getters read: bits of the first three words, and the codes of translation type and mode. */
  lemma GettersRead(e: PasidTableEntry)
    ensures e.Present() <==> e.q0 % 2 == 1
    ensures e.FaultDisable() <==> e.q0 / 2 % 2 == 1
    ensures e.Pgtt() == var code := e.q0 / 0x40 % 8;
      match code
      case 0 => PgttReserved0 case 1 => FirstStageOnly case 2 => SecondStageOnly case 3 => Nested
      case 4 => PgttPassThrough case _ => PgttReserved(code)
    ensures e.SsAccessedDirty() <==> e.q0 / 0x200 % 2 == 1
    ensures e.PageTablePtr() == e.q0 - e.q0 % 4096
    ensures e.DomainId() == e.q1 % 0x1_0000
    ensures e.PageSnoop() <==> e.q1 / 0x100_0000 % 2 == 1
    ensures e.CacheDisable() <==> e.q1 / 0x200_0000 % 2 == 1
    ensures e.SupervisorRequests() <==> e.q2 % 2 == 1
    ensures e.Flpm() == var code := e.q2 / 4 % 4;
      match code case 0 => FourLevel case 1 => FiveLevel case _ => FlpmReserved(code)
    ensures e.WriteProtectEnable() <==> e.q2 / 0x10 % 2 == 1
    ensures e.ExtAccessedFlag() <==> e.q2 / 0x80 % 2 == 1
    ensures e.FirstLevelPtr() == e.q2 / 4096 % 0x100_0000_0000 * 4096
  {
    hide Get, IsSet, Pow2, Pointer, And;
    Widths();
    Powers();
    FlagAt(e.q0, BIT0, 1);
    FlagAt(e.q0, BIT1, 2);
    FieldAt(e.q0, PGTT, 0x40, 8);
    FlagAt(e.q0, BIT9, 0x200);
    PointerAt(e.q0);
    FlagAt(e.q1, BIT24, 0x100_0000);
    FlagAt(e.q1, BIT25, 0x200_0000);
    FlagAt(e.q2, BIT0, 1);
    FieldAt(e.q2, FLPM, 4, 4);
    FlagAt(e.q2, BIT4, 0x10);
    FlagAt(e.q2, BIT7, 0x80);
    FlrtpRead(e.q2);
    FlrtpOfAddress(e.q2);
  }

  // ---- entries and their parts ----

  function Words(e: PasidTableEntry): (ws: seq<Word>)
    ensures |ws| == 3
  {
    [e.q0, e.q1, e.q2]
  }

  lemma LayoutAdjoins()
    ensures Adjoin(LAYOUT, 3)
  {
  }

  function Decode(p: seq<nat>, q3: Word, hpt: FourWords): Record
    requires |p| == 21
  {
    Record(p[0] != 0, p[1] != 0, PgttFromBits(p[3]), p[4] != 0, PageAddress(p[6]),
           p[7], p[9] != 0, p[10] != 0,
           p[12] != 0, FlpmFromBits(p[14]), p[15] != 0, p[17] != 0, PageAddress(p[19]),
           [p[2], p[5], p[8], p[11], p[13], p[16], p[18], p[20]], q3, hpt)
  }

  lemma ViewIsDecode(e: PasidTableEntry)
    ensures Adjoin(LAYOUT, 3) && View(e) == Decode(Parts(Words(e), LAYOUT), e.q3, e.hpt)
  {
    hide Get, IsSet, And, Not, PgttFromBits, FlpmFromBits, Pow2, PageAddress, Adjoin;
    LayoutAdjoins();
    FlagsOf(e);
    FlrtpRead(e.q2);
    LowWord(e.q1);
    PointerReads(e.q0);
  }

  lemma FlagsOf(e: PasidTableEntry)
    ensures e.Present() == (Get(e.q0, BIT0) != 0) && e.FaultDisable() == (Get(e.q0, BIT1) != 0)
    ensures e.SsAccessedDirty() == (Get(e.q0, BIT9) != 0)
    ensures e.PageSnoop() == (Get(e.q1, BIT24) != 0) && e.CacheDisable() == (Get(e.q1, BIT25) != 0)
    ensures e.SupervisorRequests() == (Get(e.q2, BIT0) != 0)
    ensures e.WriteProtectEnable() == (Get(e.q2, BIT4) != 0) && e.ExtAccessedFlag() == (Get(e.q2, BIT7) != 0)
  {
    hide Get, IsSet;
    IsSetIsGet(e.q0, BIT0);
    IsSetIsGet(e.q0, BIT1);
    IsSetIsGet(e.q0, BIT9);
    IsSetIsGet(e.q1, BIT24);
    IsSetIsGet(e.q1, BIT25);
    IsSetIsGet(e.q2, BIT0);
    IsSetIsGet(e.q2, BIT4);
    IsSetIsGet(e.q2, BIT7);
  }

  lemma PointerReads(w: Word)
    ensures Pointer(w) == PageAddress(Get(w, PAGE_ADDRESS))
  {
    PointerRead(w);
  }

  lemma FlrtpMask()
    ensures Mask(FLRTP) == FLRTP_MASK
  {
    hide Mask;
    Powers();
    MaskSpan(FLRTP);
  }

  lemma FlrtpRead(w: Word)
    ensures And(w, FLRTP_MASK) == PageAddress(Get(w, FLRTP))
  {
    hide Mask, And, Get;
    Powers();
    FlrtpMask();
    GetInPlace(w, FLRTP);
  }

  lemma FlrtpIsPut(w: Word, addr: Word)
    ensures BitOr(And(w, Not(FLRTP_MASK)), And(addr, FLRTP_MASK)) == Put(w, FLRTP, Get(addr, FLRTP))
  {
    hide Mask, And, Get, Put, BitOr;
    FlrtpMask();
    MaskedIsPut(w, addr, FLRTP);
  }

  /** Bits 51:12 of an address. */
  lemma FlrtpOfAddress(addr: Word)
    ensures PageAddress(Get(addr, FLRTP)) == addr / 4096 % 0x100_0000_0000 * 4096
  {
    hide Get;
    Powers();
    assert Pow2(40) == 0x100_0000_0000;
    GetIsDigit(addr, FLRTP);
  }

  lemma LowWord(w: Word)
    ensures w % 0x1_0000 == Get(w, PASID_DID)
  {
    hide Get;
    Widths();
    Powers();
    GetIsDigit(w, PASID_DID);
  }

  /** The slot a setter writes, */
  function Target(s: Setter): (j: nat)
    ensures j < 21
  {
    match s
    case SetPresent(_) => 0
    case SetSsAccessedDirty(_) => 4
    case SetPgtt(_) => 3
    case SetPageTablePtr(_) => 6
    case SetDomainId(_) => 7
    case SetSupervisorRequests(_) => 12
    case SetFlpm(_) => 14
    case SetFirstLevelPtr(_) => 19
  }

  /** and the value it writes there. */
  function Value(s: Setter): nat {
    match s
    case SetPresent(p) => Flag(p)
    case SetSsAccessedDirty(en) => Flag(en)
    case SetPgtt(pgtt) => PgttBits(pgtt)
    case SetPageTablePtr(addr) => Get(addr, PAGE_ADDRESS)
    case SetDomainId(did) => did
    case SetSupervisorRequests(en) => Flag(en)
    case SetFlpm(flpm) => FlpmBits(flpm)
    case SetFirstLevelPtr(addr) => Get(addr, FLRTP)
  }

  lemma ValueFits(s: Setter)
    ensures Adjoin(LAYOUT, 3) && Value(s) < Pow2(LAYOUT[Target(s)].field.width)
  {
    hide Get, Pow2;
    LayoutAdjoins();
    Widths();
    match s
    case SetPageTablePtr(addr) => GetIsSmall(addr, PAGE_ADDRESS);
    case SetFirstLevelPtr(addr) => GetIsSmall(addr, FLRTP);
    case _ =>
  }

  lemma SetterIsWrite(e: PasidTableEntry, s: Setter)
    ensures Set(e, s).q3 == e.q3 && Set(e, s).hpt == e.hpt
    ensures Adjoin(LAYOUT, 3) && Words(Set(e, s)) == Write(Words(e), LAYOUT[Target(s)], Value(s))
  {
    hide Get, Put, And, Not, BitOr;
    LayoutAdjoins();
    match s
    case SetPageTablePtr(addr) => PointerIsPut(e.q0, addr);
    case SetFirstLevelPtr(addr) => FlrtpIsPut(e.q2, addr);
    case _ =>
  }

  lemma DecodeOfWrite(p: seq<nat>, q3: Word, hpt: FourWords, s: Setter)
    requires |p| == 21
    ensures Decode(p[Target(s) := Value(s)], q3, hpt) == Update(Decode(p, q3, hpt), s)
  {
    hide Get;
    match s
    case SetPageTablePtr(addr) => PageOfAddress(addr);
    case SetPgtt(pgtt) => CodesReadBack(Agaw39, pgtt, FourLevel);
    case SetFlpm(flpm) => CodesReadBack(Agaw39, Nested, flpm);
    case SetFirstLevelPtr(addr) => FlrtpOfAddress(addr);
    case _ =>
  }

  // ---- the laws ----

  /** Every setter does to the entry what it should do to the record. */
  lemma SetterRefines(e: PasidTableEntry, s: Setter)
    ensures View(Set(e, s)) == Update(View(e), s)
  {
    hide View, Parts, Write, Words, Set, Update, Decode, Value, Target, Adjoin;
    ValueFits(s);
    SetterIsWrite(e, s);
    ViewIsDecode(e);
    ViewIsDecode(Set(e, s));
    WriteThenParts(Words(e), LAYOUT, Target(s), Value(s));
    DecodeOfWrite(Parts(Words(e), LAYOUT), e.q3, e.hpt, s);
  }

  /** The translation type and paging mode set are the ones read back if and only if they are named
      or reserved codes of their field's width that name none. */
  lemma CodesSetKeptIff(e: PasidTableEntry, p: Pgtt, f: Flpm)
    ensures e.WithPgtt(p).Pgtt() == CanonicalPgtt(p) && e.WithFlpm(f).Flpm() == CanonicalFlpm(f)
    ensures e.WithPgtt(p).Pgtt() == p <==> (p.PgttReserved? ==> 5 <= p.code < 8)
    ensures e.WithFlpm(f).Flpm() == f <==> (f.FlpmReserved? ==> 2 <= f.code < 4)
  {
    hide Get, Put, PgttFromBits, PgttBits, FlpmFromBits, FlpmBits, CanonicalPgtt, CanonicalFlpm;
    SetterRefines(e, SetPgtt(p));
    SetterRefines(e, SetFlpm(f));
    assert View(e.WithPgtt(p)).pgtt == CanonicalPgtt(p) && View(e.WithFlpm(f)).flpm == CanonicalFlpm(f);
    CodesKeptIff(Agaw39, p, f);
  }

  /** Codes that are not. */
  lemma ReservedCodesMisread()
    ensures PasidTableEntry.New().WithPgtt(PgttReserved(3)).Pgtt() == Nested
    ensures PasidTableEntry.New().WithPgtt(PgttReserved(13)).Pgtt() == PgttReserved(5)
    ensures PasidTableEntry.New().WithFlpm(FlpmReserved(1)).Flpm() == FiveLevel
    ensures PasidTableEntry.New().WithFlpm(FlpmReserved(6)).Flpm() == FlpmReserved(2)
  {
    hide Get, Put, PgttFromBits, PgttBits, FlpmFromBits, FlpmBits;
    CodesSetKeptIff(PasidTableEntry.New(), PgttReserved(3), FlpmReserved(1));
    CodesSetKeptIff(PasidTableEntry.New(), PgttReserved(13), FlpmReserved(6));
  }

  predicate Zero(p: seq<nat>)
    requires |p| == 21
  {
    forall k: nat | k < 21 :: p[k] == 0
  }

  lemma ZeroDecodes(p: seq<nat>, hpt: FourWords)
    requires |p| == 21 && Zero(p)
    ensures Decode(p, 0, hpt) == Record(
      false, false, PgttReserved0, false, 0, 0, false, false, false, FourLevel, false, false, 0,
      [0, 0, 0, 0, 0, 0, 0, 0], 0, hpt)
  {
  }

  lemma NewParts()
    ensures Adjoin(LAYOUT, 3) && Zero(Parts(Words(PasidTableEntry.New()), LAYOUT))
  {
    hide Parts, Adjoin;
    LayoutAdjoins();
    ZeroParts(Words(PasidTableEntry.New()), LAYOUT);
  }

  /** A new entry reads as all zero. */
  lemma NewEntry()
    ensures View(PasidTableEntry.New()) == Record(
      false, false, PgttReserved0, false, 0, 0, false, false, false, FourLevel, false, false, 0,
      [0, 0, 0, 0, 0, 0, 0, 0], 0, [0, 0, 0, 0])
  {
    hide View, Parts, Decode, Adjoin, Words, Zero;
    var e := PasidTableEntry.New();
    ViewIsDecode(e);
    NewParts();
    ZeroDecodes(Parts(Words(e), LAYOUT), e.hpt);
  }

  /** After any run of setters, in any order, the getters read the last canonical value written to
      each field, and the bits no accessor reads are as they were. */
  lemma RunRefines(e: PasidTableEntry, setters: seq<Setter>)
    ensures View(Fold(Set, e, setters)) == Fold(Update, View(e), setters)
  {
    hide View, Set, Update, Fold;
    forall e: PasidTableEntry, s: Setter ensures View(Set(e, s)) == Update(View(e), s) {
      SetterRefines(e, s);
    }
    FoldRefines(Set, View, Update, e, setters);
  }

  predicate Small(p: seq<nat>)
    requires |p| == 21
  {
    && p[0] < 2 && p[1] < 2 && p[4] < 2 && p[9] < 2 && p[10] < 2 && p[12] < 2 && p[15] < 2 && p[17] < 2
    && p[3] < 8 && p[14] < 4
  }

  /** Equal records have equal parts. */
  lemma DecodeIsInjective(p: seq<nat>, p': seq<nat>, q3: Word, hpt: FourWords)
    requires |p| == |p'| == 21 && Decode(p, q3, hpt) == Decode(p', q3, hpt) && Small(p) && Small(p')
    ensures p == p'
  {
    hide PgttFromBits, FlpmFromBits;
    EnumsAreInjective(p[3], p'[3]);
    EnumsAreInjective(p[14], p'[14]);
    var u, u' := Decode(p, q3, hpt).unread, Decode(p', q3, hpt).unread;
    assert u[0] == u'[0] && u[1] == u'[1] && u[2] == u'[2] && u[3] == u'[3];
    assert u[4] == u'[4] && u[5] == u'[5] && u[6] == u'[6] && u[7] == u'[7];
  }

  lemma PartsAreSmall(e: PasidTableEntry)
    ensures Adjoin(LAYOUT, 3) && Small(Parts(Words(e), LAYOUT))
  {
    hide Get, Pow2;
    LayoutAdjoins();
    Widths();
    GetIsSmall(e.q0, BIT0);
    GetIsSmall(e.q0, BIT1);
    GetIsSmall(e.q0, PGTT);
    GetIsSmall(e.q0, BIT9);
    GetIsSmall(e.q1, BIT24);
    GetIsSmall(e.q1, BIT25);
    GetIsSmall(e.q2, BIT0);
    GetIsSmall(e.q2, FLPM);
    GetIsSmall(e.q2, BIT4);
    GetIsSmall(e.q2, BIT7);
  }

  /** An entry is its record. */
  lemma ViewIsInjective(e: PasidTableEntry, e': PasidTableEntry)
    ensures View(e) == View(e') <==> e == e'
  {
    hide View, Parts, Decode, Adjoin, Words, Small;
    if View(e) == View(e') {
      ViewIsDecode(e);
      ViewIsDecode(e');
      PartsAreSmall(e);
      PartsAreSmall(e');
      SameRest(e, e');
      DecodeIsInjective(Parts(Words(e), LAYOUT), Parts(Words(e'), LAYOUT), e.q3, e.hpt);
      SamePartsSameWords(Words(e), Words(e'), LAYOUT);
      WordsAreInjective(e, e');
    }
  }

  /** Of two setters of one field the later wins; setters of different fields commute. */
  lemma SettersAreIndependent(e: PasidTableEntry, s: Setter, t: Setter)
    ensures if Target(s) == Target(t) then Set(Set(e, s), t) == Set(e, t) else Set(Set(e, s), t) == Set(Set(e, t), s)
  {
    hide Set, Write, Words, Target, Value, Adjoin;
    ValueFits(s);
    ValueFits(t);
    SetterIsWrite(e, s);
    SetterIsWrite(e, t);
    SetterIsWrite(Set(e, s), t);
    SetterIsWrite(Set(e, t), s);
    WritesAreIndependent(Words(e), LAYOUT, Target(s), Value(s), Target(t), Value(t));
    if Target(s) == Target(t) {
      WordsAreInjective(Set(Set(e, s), t), Set(e, t));
    } else {
      WordsAreInjective(Set(Set(e, s), t), Set(Set(e, t), s));
    }
  }

  lemma WordsAreInjective(e: PasidTableEntry, e': PasidTableEntry)
    requires Words(e) == Words(e') && e.q3 == e'.q3 && e.hpt == e'.hpt
    ensures e == e'
  {
    assert Words(e)[0] == Words(e')[0] && Words(e)[1] == Words(e')[1] && Words(e)[2] == Words(e')[2];
  }

  lemma SameRest(e: PasidTableEntry, e': PasidTableEntry)
    requires View(e) == View(e')
    ensures e.q3 == e'.q3 && e.hpt == e'.hpt
  {
    assert View(e).q3 == View(e').q3 && View(e).hpt == View(e').hpt;
  }

  /** The bytes of an entry determine it. */
  lemma BytesDetermine(e: PasidTableEntry, e': PasidTableEntry)
    ensures LeAll([e.q0, e.q1, e.q2, e.q3] + e.hpt) == LeAll([e'.q0, e'.q1, e'.q2, e'.q3] + e'.hpt) <==> e == e'
  {
    hide LeAll;
    var ws, ws' := [e.q0, e.q1, e.q2, e.q3] + e.hpt, [e'.q0, e'.q1, e'.q2, e'.q3] + e'.hpt;
    BytesDetermineWords(ws, ws');
    if ws == ws' {
      assert ws[0] == ws'[0] && ws[1] == ws'[1] && ws[2] == ws'[2] && ws[3] == ws'[3] && ws[4..] == ws'[4..];
    }
  }
}
