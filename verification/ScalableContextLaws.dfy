/** A scalable-mode context entry is the record of its fields, whatever setters made it. */
module ScalableContextLaws {
  import opened Bits
  import opened Fields
  import opened Layouts
  import opened Context
  import opened EntryLaws

  /** The words of an entry, field by field; no accessor reads slots 7, 12, 13 and 14. */
  const LAYOUT := [
    Slot(0, BIT0), Slot(0, BIT1), Slot(0, BIT2), Slot(0, BIT3), Slot(0, BIT4), Slot(0, BIT5), Slot(0, BIT6),
    Slot(0, Field(7, 2)), Slot(0, PDTS), Slot(0, PAGE_ADDRESS),
    Slot(1, RID_PASID), Slot(1, BIT20), Slot(1, Field(21, 43)),
    Slot(2, WHOLE), Slot(3, WHOLE)]

  /** An entry as its reader sees it, with the bits that no accessor reads. */
  datatype Record = Record(
    present: bool, faultDisable: bool, deviceTlbEnable: bool, pasidEnable: bool, pageRequestEnable: bool,
    hptEnable: bool, eptrEnable: bool, pasidDirSize: nat, pasidDirPtr: nat, ridPasid: nat, ridPriv: bool,
    unread: seq<nat>)

  function View(e: ScalableContextEntry): Record {
    Record(e.Present(), e.FaultDisable(), e.DeviceTlbEnable(), e.PasidEnable(), e.PageRequestEnable(),
           e.HptEnable(), e.EptrEnable(), e.PasidDirSize(), e.PasidDirPtr(), e.RidPasid(), e.RidPriv(),
           [Get(e.q0, Field(7, 2)), Get(e.q1, Field(21, 43)), e.reserved[0], e.reserved[1]])
  }

  datatype Setter =
    | SetPresent(p: bool)
    | SetPasidEnable(pasid: bool)
    | SetPageRequestEnable(pr: bool)
    | SetPasidDirSize(order: U8)
    | SetPasidDirPtr(addr: Word)
    | SetRidPasid(ridPasid: U32)
    | SetRidPriv(priv: bool)

  function Set(e: ScalableContextEntry, s: Setter): ScalableContextEntry {
    match s
    case SetPresent(p) => e.WithPresent(p)
    case SetPasidEnable(en) => e.WithPasidEnable(en)
    case SetPageRequestEnable(en) => e.WithPageRequestEnable(en)
    case SetPasidDirSize(order) => e.WithPasidDirSize(order)
    case SetPasidDirPtr(addr) => e.WithPasidDirPtr(addr)
    case SetRidPasid(pasid) => e.WithRidPasid(pasid)
    case SetRidPriv(en) => e.WithRidPriv(en)
  }

  /** What a setter should do to the record: its own field takes the canonical value, nothing else changes. */
  function Update(r: Record, s: Setter): Record {
    match s
    case SetPresent(p) => r.(present := p)
    case SetPasidEnable(en) => r.(pasidEnable := en)
    case SetPageRequestEnable(en) => r.(pageRequestEnable := en)
    case SetPasidDirSize(order) => r.(pasidDirSize := order % 8)
    case SetPasidDirPtr(addr) => r.(pasidDirPtr := addr - addr % 4096)
    case SetRidPasid(pasid) => r.(ridPasid := pasid % 0x10_0000)
    case SetRidPriv(en) => r.(ridPriv := en)
  }

  /** Where the getters read: bits of the first two words. */
  lemma GettersRead(e: ScalableContextEntry)
    ensures e.Present() <==> e.q0 % 2 == 1
    ensures e.FaultDisable() <==> e.q0 / 2 % 2 == 1
    ensures e.DeviceTlbEnable() <==> e.q0 / 4 % 2 == 1
    ensures e.PasidEnable() <==> e.q0 / 8 % 2 == 1
    ensures e.PageRequestEnable() <==> e.q0 / 0x10 % 2 == 1
    ensures e.HptEnable() <==> e.q0 / 0x20 % 2 == 1
    ensures e.EptrEnable() <==> e.q0 / 0x40 % 2 == 1
    ensures e.PasidDirSize() == e.q0 / 0x200 % 8
    ensures e.PasidDirPtr() == e.q0 - e.q0 % 4096
    ensures e.RidPasid() == e.q1 % 0x10_0000
    ensures e.RidPriv() <==> e.q1 / 0x10_0000 % 2 == 1
  {
    hide Get, IsSet, Pow2, Pointer;
    Widths();
    Powers();
    FlagAt(e.q0, BIT0, 1);
    FlagAt(e.q0, BIT1, 2);
    FlagAt(e.q0, BIT2, 4);
    FlagAt(e.q0, BIT3, 8);
    FlagAt(e.q0, BIT4, 0x10);
    FlagAt(e.q0, BIT5, 0x20);
    FlagAt(e.q0, BIT6, 0x40);
    FieldAt(e.q0, PDTS, 0x200, 8);
    PointerAt(e.q0);
    FieldAt(e.q1, RID_PASID, 1, 0x10_0000);
    FlagAt(e.q1, BIT20, 0x10_0000);
  }

  // ---- entries and their parts ----

  function Words(e: ScalableContextEntry): (ws: seq<Word>)
    ensures |ws| == 4
  {
    [e.q0, e.q1] + e.reserved
  }

  lemma LayoutAdjoins()
    ensures Adjoin(LAYOUT, 4)
  {
  }

  function Decode(p: seq<nat>): Record
    requires |p| == 15
  {
    Record(p[0] != 0, p[1] != 0, p[2] != 0, p[3] != 0, p[4] != 0, p[5] != 0, p[6] != 0,
           p[8], PageAddress(p[9]), p[10], p[11] != 0, [p[7], p[12], p[13], p[14]])
  }

  lemma ViewIsDecode(e: ScalableContextEntry)
    ensures Adjoin(LAYOUT, 4) && View(e) == Decode(Parts(Words(e), LAYOUT))
  {
    hide Get, IsSet, And, Not, Pow2, Adjoin;
    LayoutAdjoins();
    IsSetIsGet(e.q0, BIT0);
    IsSetIsGet(e.q0, BIT1);
    IsSetIsGet(e.q0, BIT2);
    IsSetIsGet(e.q0, BIT3);
    IsSetIsGet(e.q0, BIT4);
    IsSetIsGet(e.q0, BIT5);
    IsSetIsGet(e.q0, BIT6);
    IsSetIsGet(e.q1, BIT20);
    PointerRead(e.q0);
    WholeWord(e.reserved[0]);
    WholeWord(e.reserved[1]);
  }

  /** The slot a setter writes, */
  function Target(s: Setter): (j: nat)
    ensures j < 15
  {
    match s
    case SetPresent(_) => 0
    case SetPasidEnable(_) => 3
    case SetPageRequestEnable(_) => 4
    case SetPasidDirSize(_) => 8
    case SetPasidDirPtr(_) => 9
    case SetRidPasid(_) => 10
    case SetRidPriv(_) => 11
  }

  /** and the value it writes there. */
  function Value(s: Setter): nat {
    match s
    case SetPresent(p) => Flag(p)
    case SetPasidEnable(en) => Flag(en)
    case SetPageRequestEnable(en) => Flag(en)
    case SetPasidDirSize(order) => order % 8
    case SetPasidDirPtr(addr) => Get(addr, PAGE_ADDRESS)
    case SetRidPasid(pasid) => pasid % 0x10_0000
    case SetRidPriv(en) => Flag(en)
  }

  lemma ValueFits(s: Setter)
    ensures Adjoin(LAYOUT, 4) && Value(s) < Pow2(LAYOUT[Target(s)].field.width)
  {
    hide Get, Pow2;
    LayoutAdjoins();
    Widths();
    match s
    case SetPasidDirPtr(addr) => GetIsSmall(addr, PAGE_ADDRESS);
    case _ =>
  }

  lemma SetterIsWrite(e: ScalableContextEntry, s: Setter)
    ensures Adjoin(LAYOUT, 4) && Words(Set(e, s)) == Write(Words(e), LAYOUT[Target(s)], Value(s))
  {
    hide Get, Put, And, Not, BitOr;
    LayoutAdjoins();
    match s
    case SetPasidDirSize(order) => Widths(); LowMask(order, 3, 8);
    case SetPasidDirPtr(addr) => PointerIsPut(e.q0, addr);
    case SetRidPasid(pasid) => Widths(); LowMask(pasid, 20, 0x10_0000);
    case _ =>
  }

  lemma DecodeOfWrite(p: seq<nat>, s: Setter)
    requires |p| == 15
    ensures Decode(p[Target(s) := Value(s)]) == Update(Decode(p), s)
  {
    hide Get;
    match s
    case SetPasidDirPtr(addr) => PageOfAddress(addr);
    case _ =>
  }

  // ---- the laws ----

  /** Every setter does to the entry what it should do to the record. */
  lemma SetterRefines(e: ScalableContextEntry, s: Setter)
    ensures View(Set(e, s)) == Update(View(e), s)
  {
    hide View, Parts, Write, Words, Set, Update, Decode, Value, Target, Adjoin;
    ValueFits(s);
    SetterIsWrite(e, s);
    ViewIsDecode(e);
    ViewIsDecode(Set(e, s));
    WriteThenParts(Words(e), LAYOUT, Target(s), Value(s));
    DecodeOfWrite(Parts(Words(e), LAYOUT), s);
  }

  lemma ZeroDecodes(p: seq<nat>)
    requires |p| == 15 && forall k: nat | k < 15 :: p[k] == 0
    ensures Decode(p) ==
      Record(false, false, false, false, false, false, false, 0, 0, 0, false, [0, 0, 0, 0])
  {
  }

  /** A new entry reads as all zero. */
  lemma NewEntry()
    ensures View(ScalableContextEntry.New()) ==
      Record(false, false, false, false, false, false, false, 0, 0, 0, false, [0, 0, 0, 0])
  {
    hide View, Parts, Decode, Adjoin;
    var e := ScalableContextEntry.New();
    ViewIsDecode(e);
    ZeroParts(Words(e), LAYOUT);
    ZeroDecodes(Parts(Words(e), LAYOUT));
  }

  /** After any run of setters, in any order, the getters read the last canonical value written to
      each field, and the bits no accessor reads are as they were. */
  lemma RunRefines(e: ScalableContextEntry, setters: seq<Setter>)
    ensures View(Fold(Set, e, setters)) == Fold(Update, View(e), setters)
  {
    hide View, Set, Update, Fold;
    forall e: ScalableContextEntry, s: Setter ensures View(Set(e, s)) == Update(View(e), s) {
      SetterRefines(e, s);
    }
    FoldRefines(Set, View, Update, e, setters);
  }

  predicate Flags(p: seq<nat>)
    requires |p| == 15
  {
    p[0] < 2 && p[1] < 2 && p[2] < 2 && p[3] < 2 && p[4] < 2 && p[5] < 2 && p[6] < 2 && p[11] < 2
  }

  /** Equal records have equal parts. */
  lemma DecodeIsInjective(p: seq<nat>, p': seq<nat>)
    requires |p| == |p'| == 15 && Decode(p) == Decode(p') && Flags(p) && Flags(p')
    ensures p == p'
  {
    var r, r' := Decode(p), Decode(p');
    assert r.unread[0] == r'.unread[0] && r.unread[1] == r'.unread[1];
    assert r.unread[2] == r'.unread[2] && r.unread[3] == r'.unread[3];
  }

  lemma PartsAreSmall(e: ScalableContextEntry)
    ensures Adjoin(LAYOUT, 4) && Flags(Parts(Words(e), LAYOUT))
  {
    hide Get, Pow2;
    LayoutAdjoins();
    Widths();
    GetIsSmall(e.q0, BIT0);
    GetIsSmall(e.q0, BIT1);
    GetIsSmall(e.q0, BIT2);
    GetIsSmall(e.q0, BIT3);
    GetIsSmall(e.q0, BIT4);
    GetIsSmall(e.q0, BIT5);
    GetIsSmall(e.q0, BIT6);
    GetIsSmall(e.q1, BIT20);
  }

  /** An entry is its record. */
  lemma ViewIsInjective(e: ScalableContextEntry, e': ScalableContextEntry)
    ensures View(e) == View(e') <==> e == e'
  {
    hide View, Parts, Decode, Adjoin, Words, Flags;
    if View(e) == View(e') {
      ViewIsDecode(e);
      ViewIsDecode(e');
      PartsAreSmall(e);
      PartsAreSmall(e');
      DecodeIsInjective(Parts(Words(e), LAYOUT), Parts(Words(e'), LAYOUT));
      SamePartsSameWords(Words(e), Words(e'), LAYOUT);
      WordsAreInjective(e, e');
    }
  }

  /** Of two setters of one field the later wins; setters of different fields commute. */
  lemma SettersAreIndependent(e: ScalableContextEntry, s: Setter, t: Setter)
    ensures if Target(s) == Target(t) then Set(Set(e, s), t) == Set(e, t) else Set(Set(e, s), t) == Set(Set(e, t), s)
  {
    hide Set, Write, Words, Target, Value, Adjoin;
    ValueFits(s);
    ValueFits(t);
    SetterIsWrite(e, s);
    SetterIsWrite(e, t);
    SetterIsWrite(Set(e, s), t);
    SetterIsWrite(Set(e, t), s);
    WritesAreIndependent(Words(e), LAYOUT, Target(s), Value(s), Target(t), Value(t));
    if Target(s) == Target(t) {
      WordsAreInjective(Set(Set(e, s), t), Set(e, t));
    } else {
      WordsAreInjective(Set(Set(e, s), t), Set(Set(e, t), s));
    }
  }

  lemma WordsAreInjective(e: ScalableContextEntry, e': ScalableContextEntry)
    requires Words(e) == Words(e')
    ensures e == e'
  {
    assert Words(e)[0] == Words(e')[0] && Words(e)[1] == Words(e')[1] && Words(e)[2..] == Words(e')[2..];
  }

  /** The bytes of an entry determine it. */
  lemma BytesDetermine(e: ScalableContextEntry, e': ScalableContextEntry)
    ensures LeAll(Words(e)) == LeAll(Words(e')) <==> e == e'
  {
    hide LeAll, Words;
    BytesDetermineWords(Words(e), Words(e'));
    if Words(e) == Words(e') {
      WordsAreInjective(e, e');
    }
  }
}
