/** A legacy context entry is the record of its fields, whatever setters made it. */
module ContextLaws {
  import opened Bits
  import opened Fields
  import opened Layouts
  import opened Context
  import opened EntryLaws

  /** The two words of an entry, field by field; no accessor reads slots 3, 6 and 8. */
  const LAYOUT := [
    Slot(0, BIT0), Slot(0, BIT1), Slot(0, TT), Slot(0, Field(4, 8)), Slot(0, PAGE_ADDRESS),
    Slot(1, AW), Slot(1, Field(3, 5)), Slot(1, DID), Slot(1, Field(24, 40))]

  /** An entry as its reader sees it, with the bits that no accessor reads. */
  datatype Record = Record(
    present: bool, faultDisable: bool, translationType: TransType, secondStagePtr: nat,
    addressWidth: AddrWidth, domainId: nat, unread: seq<nat>)

  function View(e: ContextEntry): Record {
    Record(e.Present(), e.FaultDisable(), e.TranslationType(), e.SecondStagePtr(),
           e.AddressWidth(), e.DomainId(),
           [Get(e.q0, Field(4, 8)), Get(e.q1, Field(3, 5)), Get(e.q1, Field(24, 40))])
  }

  datatype Setter =
    | SetPresent(p: bool)
    | SetFaultDisable(fpd: bool)
    | SetTranslationType(tt: TransType)
    | SetSecondStagePtr(addr: Word)
    | SetAddressWidth(aw: AddrWidth)
    | SetDomainId(did: U16)

  function Set(e: ContextEntry, s: Setter): ContextEntry {
    match s
    case SetPresent(p) => e.WithPresent(p)
    case SetFaultDisable(fpd) => e.WithFaultDisable(fpd)
    case SetTranslationType(tt) => e.WithTranslationType(tt)
    case SetSecondStagePtr(addr) => e.WithSecondStagePtr(addr)
    case SetAddressWidth(aw) => e.WithAddressWidth(aw)
    case SetDomainId(did) => e.WithDomainId(did)
  }

  /** What a setter should do to the record: its own field takes the canonical value, nothing else changes. */
  function Update(r: Record, s: Setter): Record {
    match s
    case SetPresent(p) => r.(present := p)
    case SetFaultDisable(fpd) => r.(faultDisable := fpd)
    case SetTranslationType(tt) => r.(translationType := tt)
    case SetSecondStagePtr(addr) => r.(secondStagePtr := addr - addr % 4096)
    case SetAddressWidth(aw) => r.(addressWidth := CanonicalWidth(aw))
    case SetDomainId(did) => r.(domainId := did)
  }

  /** Where the getters read: bits of the two words, and the codes of the translation type and width. */
  lemma GettersRead(e: ContextEntry)
    ensures e.Present() <==> e.q0 % 2 == 1
    ensures e.FaultDisable() <==> e.q0 / 2 % 2 == 1
    ensures e.TranslationType() ==
      match e.q0 / 4 % 4 case 0 => SecondStage case 1 => Reserved01 case 2 => PassThrough case _ => Reserved11
    ensures e.SecondStagePtr() == e.q0 - e.q0 % 4096
    ensures e.AddressWidth() == var code := e.q1 % 8;
      match code case 0 => Reserved0 case 1 => Agaw39 case 2 => Agaw48 case 3 => Agaw57 case _ => ReservedWidth(code)
    ensures e.DomainId() == e.q1 / 0x100 % 0x1_0000
  {
    hide Get, IsSet, Pow2, Pointer;
    Widths();
    Powers();
    FlagAt(e.q0, BIT0, 1);
    FlagAt(e.q0, BIT1, 2);
    FieldAt(e.q0, TT, 4, 4);
    FieldAt(e.q1, AW, 1, 8);
    FieldAt(e.q1, DID, 0x100, 0x1_0000);
    PointerAt(e.q0);
  }

  // ---- entries and their parts ----

  function Words(e: ContextEntry): (ws: seq<Word>)
    ensures |ws| == 2
  {
    [e.q0, e.q1]
  }

  lemma LayoutAdjoins()
    ensures Adjoin(LAYOUT, 2)
  {
  }

  function Decode(p: seq<nat>): Record
    requires |p| == 9
  {
    Record(p[0] != 0, p[1] != 0, TransTypeFromBits(p[2]), PageAddress(p[4]), AddrWidthFromBits(p[5]), p[7],
           [p[3], p[6], p[8]])
  }

  lemma ViewIsDecode(e: ContextEntry)
    ensures Adjoin(LAYOUT, 2) && View(e) == Decode(Parts(Words(e), LAYOUT))
  {
    hide Get, IsSet, And, Not, Pow2, TransTypeFromBits, AddrWidthFromBits;
    LayoutAdjoins();
    IsSetIsGet(e.q0, BIT0);
    IsSetIsGet(e.q0, BIT1);
    PointerRead(e.q0);
  }

  /** The slot a setter writes, */
  function Target(s: Setter): (j: nat)
    ensures j < 9
  {
    match s
    case SetPresent(_) => 0
    case SetFaultDisable(_) => 1
    case SetTranslationType(_) => 2
    case SetSecondStagePtr(_) => 4
    case SetAddressWidth(_) => 5
    case SetDomainId(_) => 7
  }

  /** and the value it writes there. */
  function Value(s: Setter): nat {
    match s
    case SetPresent(p) => Flag(p)
    case SetFaultDisable(fpd) => Flag(fpd)
    case SetTranslationType(tt) => TransTypeBits(tt)
    case SetSecondStagePtr(addr) => Get(addr, PAGE_ADDRESS)
    case SetAddressWidth(aw) => AddrWidthBits(aw)
    case SetDomainId(did) => did
  }

  lemma ValueFits(s: Setter)
    ensures Adjoin(LAYOUT, 2) && Value(s) < Pow2(LAYOUT[Target(s)].field.width)
  {
    hide Get, Pow2;
    LayoutAdjoins();
    Widths();
    match s
    case SetSecondStagePtr(addr) => GetIsSmall(addr, PAGE_ADDRESS);
    case _ =>
  }

  lemma SetterIsWrite(e: ContextEntry, s: Setter)
    ensures Adjoin(LAYOUT, 2) && Words(Set(e, s)) == Write(Words(e), LAYOUT[Target(s)], Value(s))
  {
    hide Get, Put, And, Not, BitOr;
    LayoutAdjoins();
    match s
    case SetSecondStagePtr(addr) => PointerIsPut(e.q0, addr);
    case _ =>
  }

  lemma DecodeOfWrite(p: seq<nat>, s: Setter)
    requires |p| == 9
    ensures Decode(p[Target(s) := Value(s)]) == Update(Decode(p), s)
  {
    hide Get;
    match s
    case SetSecondStagePtr(addr) => PageOfAddress(addr);
    case SetAddressWidth(aw) => CodesReadBack(aw, Nested, FourLevel);
    case _ =>
  }

  // ---- the laws ----

  /** Every setter does to the entry what it should do to the record. */
  lemma SetterRefines(e: ContextEntry, s: Setter)
    ensures View(Set(e, s)) == Update(View(e), s)
  {
    hide View, Parts, Write, Words, Set, Update, Decode, Value, Target, Adjoin;
    ValueFits(s);
    SetterIsWrite(e, s);
    ViewIsDecode(e);
    ViewIsDecode(Set(e, s));
    WriteThenParts(Words(e), LAYOUT, Target(s), Value(s));
    DecodeOfWrite(Parts(Words(e), LAYOUT), s);
  }

  /** The address width set is the one read back if and only if it is named or a reserved code of
      three bits that names none. */
  lemma AddressWidthKeptIff(e: ContextEntry, w: AddrWidth)
    ensures e.WithAddressWidth(w).AddressWidth() == CanonicalWidth(w)
    ensures e.WithAddressWidth(w).AddressWidth() == w <==> (w.ReservedWidth? ==> 4 <= w.code < 8)
  {
    hide Get, Put, AddrWidthFromBits, AddrWidthBits, CanonicalWidth;
    SetterRefines(e, SetAddressWidth(w));
    assert View(e.WithAddressWidth(w)).addressWidth == CanonicalWidth(w);
    CodesKeptIff(w, Nested, FourLevel);
  }

  /** Two codes that are not: one comes back as a defined width, one as another reserved code. */
  lemma ReservedWidthMisread()
    ensures ContextEntry.New().WithAddressWidth(ReservedWidth(2)).AddressWidth() == Agaw48
    ensures ContextEntry.New().WithAddressWidth(ReservedWidth(12)).AddressWidth() == ReservedWidth(4)
  {
    hide Get, Put, AddrWidthFromBits, AddrWidthBits;
    AddressWidthKeptIff(ContextEntry.New(), ReservedWidth(2));
    AddressWidthKeptIff(ContextEntry.New(), ReservedWidth(12));
  }

  lemma ZeroDecodes(p: seq<nat>)
    requires |p| == 9 && forall k: nat | k < 9 :: p[k] == 0
    ensures Decode(p) == Record(false, false, SecondStage, 0, Reserved0, 0, [0, 0, 0])
  {
  }

  /** A new entry reads as all zero. */
  lemma NewEntry()
    ensures View(ContextEntry.New()) == Record(false, false, SecondStage, 0, Reserved0, 0, [0, 0, 0])
  {
    hide View, Parts, Decode, Adjoin;
    var e := ContextEntry.New();
    ViewIsDecode(e);
    ZeroParts(Words(e), LAYOUT);
    ZeroDecodes(Parts(Words(e), LAYOUT));
  }

  /** After any run of setters, in any order, the getters read the last canonical value written to
      each field, and the bits no accessor reads are as they were. */
  lemma RunRefines(e: ContextEntry, setters: seq<Setter>)
    ensures View(Fold(Set, e, setters)) == Fold(Update, View(e), setters)
  {
    hide View, Set, Update, Fold;
    forall e: ContextEntry, s: Setter ensures View(Set(e, s)) == Update(View(e), s) {
      SetterRefines(e, s);
    }
    FoldRefines(Set, View, Update, e, setters);
  }

  /** Equal records have equal parts. */
  lemma DecodeIsInjective(p: seq<nat>, p': seq<nat>)
    requires |p| == |p'| == 9 && Decode(p) == Decode(p')
    requires p[0] < 2 && p'[0] < 2 && p[1] < 2 && p'[1] < 2 && p[2] < 4 && p'[2] < 4 && p[5] < 8 && p'[5] < 8
    ensures p == p'
  {
    hide TransTypeFromBits, AddrWidthFromBits;
    EnumsAreInjective(p[2], p'[2]);
    EnumsAreInjective(p[5], p'[5]);
    var r, r' := Decode(p), Decode(p');
    assert r.unread[0] == r'.unread[0] && r.unread[1] == r'.unread[1] && r.unread[2] == r'.unread[2];
  }

  lemma PartsAreSmall(e: ContextEntry)
    ensures Adjoin(LAYOUT, 2)
    ensures var p := Parts(Words(e), LAYOUT); p[0] < 2 && p[1] < 2 && p[2] < 4 && p[5] < 8
  {
    hide Get, Pow2;
    LayoutAdjoins();
    Widths();
    GetIsSmall(e.q0, BIT0);
    GetIsSmall(e.q0, BIT1);
    GetIsSmall(e.q0, TT);
    GetIsSmall(e.q1, AW);
  }

  /** An entry is its record. */
  lemma ViewIsInjective(e: ContextEntry, e': ContextEntry)
    ensures View(e) == View(e') <==> e == e'
  {
    hide View, Parts, Decode, Adjoin, Words;
    if View(e) == View(e') {
      ViewIsDecode(e);
      ViewIsDecode(e');
      PartsAreSmall(e);
      PartsAreSmall(e');
      DecodeIsInjective(Parts(Words(e), LAYOUT), Parts(Words(e'), LAYOUT));
      SamePartsSameWords(Words(e), Words(e'), LAYOUT);
      WordsAreInjective(e, e');
    }
  }

  /** Of two setters of one field the later wins; setters of different fields commute. */
  lemma SettersAreIndependent(e: ContextEntry, s: Setter, t: Setter)
    ensures if Target(s) == Target(t) then Set(Set(e, s), t) == Set(e, t) else Set(Set(e, s), t) == Set(Set(e, t), s)
  {
    hide Set, Write, Words, Target, Value, Adjoin;
    ValueFits(s);
    ValueFits(t);
    SetterIsWrite(e, s);
    SetterIsWrite(e, t);
    SetterIsWrite(Set(e, s), t);
    SetterIsWrite(Set(e, t), s);
    WritesAreIndependent(Words(e), LAYOUT, Target(s), Value(s), Target(t), Value(t));
    if Target(s) == Target(t) {
      WordsAreInjective(Set(Set(e, s), t), Set(e, t));
    } else {
      WordsAreInjective(Set(Set(e, s), t), Set(Set(e, t), s));
    }
  }

  lemma WordsAreInjective(e: ContextEntry, e': ContextEntry)
    requires Words(e) == Words(e')
    ensures e == e'
  {
    assert Words(e)[0] == Words(e')[0] && Words(e)[1] == Words(e')[1];
  }

  /** The bytes of an entry determine it. */
  lemma BytesDetermine(e: ContextEntry, e': ContextEntry)
    ensures LeAll(Words(e)) == LeAll(Words(e')) <==> e == e'
  {
    hide LeAll, Words;
    BytesDetermineWords(Words(e), Words(e'));
    if Words(e) == Words(e') {
      WordsAreInjective(e, e');
    }
  }
}
