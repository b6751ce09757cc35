/** The DMAR table of the Intel crate: remapping structures and the device scopes inside them. */
module Dmar {
  import opened Wrappers
  import opened Records
  import opened Acpi

  const STRUCTS_OFFSET: nat := 48

  /** `DMAR` */
  const SIGNATURE: Bytes := [0x44, 0x4d, 0x41, 0x52]

  function New(raw: Bytes): Result<Bytes, TableError> {
    Validate(SIGNATURE, STRUCTS_OFFSET, raw)
  }

  datatype RemapStruct =
    | Drhd(raw: Bytes)
    | Rmrr(raw: Bytes)
    | Atsr(raw: Bytes)
    | Rhsa(raw: Bytes)
    | Andd(raw: Bytes)
    | Satc(raw: Bytes)
    | Sidp(raw: Bytes)
    | Unknown(ty: Byte, raw: Bytes)

  function Classify(raw: Bytes): RemapStruct
    requires raw != []
  {
    match raw[0]
    case 0 => Drhd(raw)
    case 1 => Rmrr(raw)
    case 2 => Atsr(raw)
    case 3 => Rhsa(raw)
    case 4 => Andd(raw)
    case 5 => Satc(raw)
    case 6 => Sidp(raw)
    case _ => Unknown(raw[0], raw)
  }

  lemma StructsReadable()
    ensures Lawful(RecordSize) && Reads(RecordSize, Classify)
  {
    RecordSizeIsLawful();
  }

  /** Every remaining structure, classified. */
  function Structs(bytes: Bytes): seq<RemapStruct> {
    StructsReadable();
    ReadAll(RecordSize, Classify, bytes)
  }

  function PeekLen(bytes: Bytes): Option<nat> {
    if |bytes| < 4 then None else Some(Le16(bytes, 2))
  }

  class StructIter {
    var bytes: Bytes

    constructor (bytes: Bytes)
      ensures this.bytes == bytes
    {
      this.bytes := bytes;
    }

    /** One structure is taken off the front; when none can be, nothing changes, so the iteration
        has ended for good. */
    method Next() returns (item: Option<RemapStruct>)
      modifies this
      ensures item.Some? ==>
        && Structs(old(bytes)) == [item.value] + Structs(bytes)
        && old(bytes) == item.value.raw + bytes
        && |item.value.raw| >= 4
      ensures item.None? ==> Structs(old(bytes)) == [] && bytes == old(bytes)
    {
      var peeked := PeekLen(bytes);
      if |bytes| == 0 || peeked.None? {
        return None;
      }
      var ty, len := bytes[0], peeked.value;
      if len < 4 || len > |bytes| {
        return None;
      }
      var raw, rest := bytes[..len], bytes[len..];
      bytes := rest;
      match ty
      case 0 => return Some(Drhd(raw));
      case 1 => return Some(Rmrr(raw));
      case 2 => return Some(Atsr(raw));
      case 3 => return Some(Rhsa(raw));
      case 4 => return Some(Andd(raw));
      case 5 => return Some(Satc(raw));
      case 6 => return Some(Sidp(raw));
      case _ => return Some(Unknown(ty, raw));
    }
  }

  /** `new` accepts a table of at least 48 bytes that starts with DMAR, claims a length between that and
      what there is, and sums to zero; otherwise it reports the first of these that fails. */
  lemma NewIsExact(raw: Bytes)
    ensures New(raw) ==
      if |raw| < 48 then Err(TooShort(|raw|))
      else if [raw[0] as char, raw[1] as char, raw[2] as char, raw[3] as char] != "DMAR"
      then Err(BadSignature([raw[0], raw[1], raw[2], raw[3]]))
      else if !(48 <= Claimed(raw) <= |raw|) then Err(BadLength(Claimed(raw), |raw|))
      else if Sum(raw[..Claimed(raw)]) % 256 != 0 then Err(BadChecksum)
      else Ok(raw[..Claimed(raw)])
  {
    ValidateIsExact(SIGNATURE, STRUCTS_OFFSET, raw);
    if |raw| >= 48 {
      assert raw[..4] == [raw[0], raw[1], raw[2], raw[3]];
    }
  }

  // ---- structures ----

  /** What comes first in any bytes: a structure of the kind its first byte numbers, as long as bytes 2
      and 3 say, and then the rest; or nothing, when those do not give a length from 4 to what is there. */
  lemma FirstStruct(bytes: Bytes)
    ensures |bytes| < 4 ==> Structs(bytes) == []
    ensures |bytes| >= 4 ==>
      var len := bytes[2] as int + 0x100 * bytes[3] as int;
      if len < 4 || len > |bytes| then Structs(bytes) == []
      else
        var raw := bytes[..len];
        var first := match bytes[0]
          case 0 => Drhd(raw) case 1 => Rmrr(raw) case 2 => Atsr(raw) case 3 => Rhsa(raw)
          case 4 => Andd(raw) case 5 => Satc(raw) case 6 => Sidp(raw) case ty => Unknown(ty, raw);
        Structs(bytes) == [first] + Structs(bytes[len..])
  {
    StructsReadable();
  }

  function Raws(structs: seq<RemapStruct>): seq<Bytes> {
    seq(|structs|, i requires 0 <= i < |structs| => structs[i].raw)
  }

  lemma ClassifyKeepsRaw(raw: Bytes)
    requires raw != []
    ensures Classify(raw).raw == raw
  {
  }

  lemma StructsAreCut(bytes: Bytes)
    ensures Lawful(RecordSize)
    ensures Raws(Structs(bytes)) == Cut(RecordSize, bytes)
    ensures forall s | s in Structs(bytes) :: IsSized(s.raw) && s == Classify(s.raw)
  {
    hide Classify, RecordSize, IsSized, Cut, ReadAll;
    StructsReadable();
    ReadAllIsCut(RecordSize, Classify, bytes);
    forall i | 0 <= i < |Structs(bytes)|
      ensures var s := Structs(bytes)[i];
        s.raw == Cut(RecordSize, bytes)[i] && IsSized(s.raw) && s == Classify(s.raw)
    {
      SizedIsRecord(Cut(RecordSize, bytes)[i]);
      ClassifyKeepsRaw(Cut(RecordSize, bytes)[i]);
    }
  }

  /** On any bytes, the structures yielded and the bytes left over make up the input; what is left
      over is too short to hold a length or holds one that is below 4 or overruns it. */
  lemma StructsPartition(bytes: Bytes) returns (tail: Bytes)
    ensures Join(Raws(Structs(bytes))) + tail == bytes
    ensures forall s | s in Structs(bytes) :: IsSized(s.raw) && s == Classify(s.raw)
    ensures |tail| < 4 || Le16(tail, 2) < 4 || Le16(tail, 2) > |tail|
  {
    hide Structs, Raws, Classify;
    StructsAreCut(bytes);
    CutIsPartition(RecordSize, bytes);
    tail := Rest(RecordSize, bytes);
  }

  /** Structures written one after the other are yielded in order, classified by their first byte,
      whatever unreadable tail follows. */
  lemma StructsRoundTrip(records: seq<Bytes>, tail: Bytes)
    requires forall r | r in records :: IsSized(r)
    requires RecordSize(tail) == 0
    ensures |Structs(Join(records) + tail)| == |records|
    ensures forall i | 0 <= i < |records| ::
      records[i] != [] && Structs(Join(records) + tail)[i] == Classify(records[i])
  {
    hide Classify;
    StructsReadable();
    forall r | r in records ensures IsRecord(RecordSize, r) {
      SizedIsRecord(r);
    }
    JoinThenRead(RecordSize, Classify, records, tail);
  }

  // ---- device scopes ----

  datatype ScopeType =
    | PciEndpoint
    | PciSubhierarchy
    | Ioapic
    | MsiCapableHpet
    | AcpiNamespaceDevice
    | Reserved(code: Byte)

  function ScopeTypeFrom(v: Byte): ScopeType {
    match v
    case 1 => PciEndpoint
    case 2 => PciSubhierarchy
    case 3 => Ioapic
    case 4 => MsiCapableHpet
    case 5 => AcpiNamespaceDevice
    case _ => Reserved(v)
  }

  function ScopeCode(t: ScopeType): Byte {
    match t
    case PciEndpoint => 1
    case PciSubhierarchy => 2
    case Ioapic => 3
    case MsiCapableHpet => 4
    case AcpiNamespaceDevice => 5
    case Reserved(code) => code
  }

  datatype DeviceScope = DeviceScope(ty: ScopeType, bus: Byte, enumerationId: Byte, flags: nat, path: Bytes)

  function ScopeSize(bytes: Bytes): nat {
    if |bytes| < 6 then 0
    else
      var len := bytes[1];
      if len < 6 || len > |bytes| then 0 else len
  }

  lemma ScopeSizeIsLawful()
    ensures Lawful(ScopeSize)
  {
    forall b: Bytes, tail: Bytes | ScopeSize(b) > 0
      ensures ScopeSize(b[..ScopeSize(b)] + tail) == ScopeSize(b)
    {
      assert (b[..ScopeSize(b)] + tail)[1] == b[1];
    }
  }

  function ReadScope(raw: Bytes): DeviceScope
    requires |raw| >= 6
  {
    DeviceScope(ScopeTypeFrom(raw[0]), raw[5], raw[4], Le16(raw, 2), raw[6..])
  }

  lemma ScopesReadable()
    ensures Lawful(ScopeSize) && Reads(ScopeSize, ReadScope)
  {
    ScopeSizeIsLawful();
    forall r: Bytes | IsRecord(ScopeSize, r) ensures |r| >= 6 {
      assert ScopeSize(r + []) == |r|;
    }
  }

  function Scopes(bytes: Bytes): seq<DeviceScope> {
    ScopesReadable();
    ReadAll(ScopeSize, ReadScope, bytes)
  }

  class DeviceScopeIter {
    var bytes: Bytes

    constructor (bytes: Bytes)
      ensures this.bytes == bytes
    {
      this.bytes := bytes;
    }

    method Next() returns (item: Option<DeviceScope>)
      modifies this
      ensures item.Some? ==>
        && Scopes(old(bytes)) == [item.value] + Scopes(bytes)
        && Printable(item.value)
        && old(bytes) == PrintScope(item.value) + bytes
      ensures item.None? ==> Scopes(old(bytes)) == [] && bytes == old(bytes)
    {
      if |bytes| < 6 {
        return None;
      }
      var ty := bytes[0];
      var len := bytes[1];
      if len < 6 || len > |bytes| {
        return None;
      }
      var raw, rest := bytes[..len], bytes[len..];
      bytes := rest;
      PrintReadScope(raw);
      return Some(DeviceScope(ScopeTypeFrom(ty), raw[5], raw[4], Le16(raw, 2), raw[6..]));
    }
  }

  /** What comes first in any bytes: a scope of the type its first byte numbers, as long as byte 1 says,
      with flags in bytes 2 and 3, enumeration id in 4, bus in 5 and the path behind; or nothing. */
  lemma FirstScope(bytes: Bytes)
    ensures |bytes| < 6 || bytes[1] < 6 || bytes[1] as int > |bytes| ==> Scopes(bytes) == []
    ensures |bytes| >= 6 && 6 <= bytes[1] as int <= |bytes| ==>
      var len := bytes[1] as int;
      var ty := match bytes[0]
        case 1 => PciEndpoint case 2 => PciSubhierarchy case 3 => Ioapic case 4 => MsiCapableHpet
        case 5 => AcpiNamespaceDevice case code => Reserved(code);
      var first := DeviceScope(ty, bytes[5], bytes[4], bytes[2] as int + 0x100 * bytes[3] as int, bytes[6..len]);
      Scopes(bytes) == [first] + Scopes(bytes[len..])
  {
    ScopesReadable();
    if |bytes| >= 6 && 6 <= bytes[1] as int <= |bytes| {
      var raw := bytes[..bytes[1] as int];
      assert raw[6..] == bytes[6..bytes[1] as int];
    }
  }

  /** A scope entry that has a byte form: fields in range, and no named type in reserved clothing. */
  predicate Printable(s: DeviceScope) {
    ScopeTypeFrom(ScopeCode(s.ty)) == s.ty && s.flags < 0x1_0000 && |s.path| <= 249
  }

  function PrintScope(s: DeviceScope): Bytes
    requires Printable(s)
  {
    [ScopeCode(s.ty), 6 + |s.path|, s.flags % 256, s.flags / 256, s.enumerationId, s.bus] + s.path
  }

  /** Reading and printing a scope entry are inverse to each other. */
  lemma PrintReadScope(raw: Bytes)
    requires |raw| >= 6 && raw[1] == |raw|
    ensures Printable(ReadScope(raw)) && PrintScope(ReadScope(raw)) == raw
  {
  }

  lemma ReadPrintScope(s: DeviceScope)
    requires Printable(s)
    ensures ReadScope(PrintScope(s)) == s && IsRecord(ScopeSize, PrintScope(s))
  {
    var r := PrintScope(s);
    assert r[6..] == s.path;
    forall tail: Bytes ensures ScopeSize(r + tail) == |r| {
      assert (r + tail)[1] == r[1];
    }
  }

  function PrintAll(scopes: seq<DeviceScope>): seq<Bytes>
    requires forall s | s in scopes :: Printable(s)
  {
    seq(|scopes|, i requires 0 <= i < |scopes| => assert scopes[i] in scopes; PrintScope(scopes[i]))
  }

  /** A list of scopes is printed and read back unchanged, whatever unreadable tail follows. */
  lemma ScopesRoundTrip(scopes: seq<DeviceScope>, tail: Bytes)
    requires forall s | s in scopes :: Printable(s)
    requires ScopeSize(tail) == 0
    ensures Scopes(Join(PrintAll(scopes)) + tail) == scopes
  {
    hide Printable, PrintScope, ReadScope, ScopeSize;
    ScopesReadable();
    var records := PrintAll(scopes);
    forall i | 0 <= i < |records|
      ensures IsRecord(ScopeSize, records[i]) && ReadScope.requires(records[i]) && ReadScope(records[i]) == scopes[i]
    {
      ReadPrintScope(scopes[i]);
    }
    JoinThenRead(ScopeSize, ReadScope, records, tail);
  }

  /** Scopes read from any bytes print to exactly the bytes they were read from, up to a tail that
      starts none. */
  lemma ScopesPrintBack(bytes: Bytes) returns (tail: Bytes)
    ensures forall s | s in Scopes(bytes) :: Printable(s)
    ensures Join(PrintAll(Scopes(bytes))) + tail == bytes
    ensures |tail| < 6 || tail[1] < 6 || tail[1] > |tail|
  {
    hide Printable, PrintScope, ReadScope;
    ScopesReadable();
    ReadAllIsCut(ScopeSize, ReadScope, bytes);
    CutIsPartition(ScopeSize, bytes);
    tail := Rest(ScopeSize, bytes);
    forall i | 0 <= i < |Scopes(bytes)|
      ensures Printable(Scopes(bytes)[i]) && PrintScope(Scopes(bytes)[i]) == Cut(ScopeSize, bytes)[i]
    {
      ScopeRecordIsSized(Cut(ScopeSize, bytes)[i]);
      PrintReadScope(Cut(ScopeSize, bytes)[i]);
    }
    assert PrintAll(Scopes(bytes)) == Cut(ScopeSize, bytes);
  }

  lemma ScopeRecordIsSized(r: Bytes)
    requires IsRecord(ScopeSize, r)
    ensures |r| >= 6 && r[1] == |r|
  {
    assert r + [] == r;
    assert ScopeSize(r + []) == |r|;
  }

  // ---- scopes inside structures ----

  /** Where the device scopes of a structure start, for the types that have any. */
  function FixedPart(s: RemapStruct): Option<nat> {
    match s
    case Drhd(_) => Some(16)
    case Rmrr(_) => Some(24)
    case Atsr(_) | Satc(_) | Sidp(_) => Some(8)
    case Rhsa(_) | Andd(_) | Unknown(_, _) => None
  }

  /** `scopes()`: none when the structure ends before its fixed part does. */
  function ScopesOf(s: RemapStruct): seq<DeviceScope> {
    match FixedPart(s)
    case Some(fixed) => Scopes(if fixed <= |s.raw| then s.raw[fixed..] else [])
    case None => []
  }

  /** Where the scopes of a structure start, by its type byte. */
  lemma ScopesByType(raw: Bytes)
    requires raw != []
    ensures raw[0] == 0 ==> ScopesOf(Classify(raw)) == if |raw| >= 16 then Scopes(raw[16..]) else []
    ensures raw[0] == 1 ==> ScopesOf(Classify(raw)) == if |raw| >= 24 then Scopes(raw[24..]) else []
    ensures raw[0] == 2 || raw[0] == 5 || raw[0] == 6 ==>
      ScopesOf(Classify(raw)) == if |raw| >= 8 then Scopes(raw[8..]) else []
    ensures raw[0] == 3 || raw[0] == 4 || raw[0] > 6 ==> ScopesOf(Classify(raw)) == []
  {
    hide Scopes;
    FirstScope([]);
  }

  /** A structure made of a head of its type and printed scopes yields those scopes: the head of a DRHD is
      16 bytes, of an RMRR 24, of an ATSR, SATC or SIDP 8, and the other types yield none. */
  lemma ScopesFollowHead(head: Bytes, scopes: seq<DeviceScope>)
    requires head != [] && forall s | s in scopes :: Printable(s)
    ensures var yielded := ScopesOf(Classify(head + Join(PrintAll(scopes))));
      && (head[0] == 0 && |head| == 16 ==> yielded == scopes)
      && (head[0] == 1 && |head| == 24 ==> yielded == scopes)
      && (head[0] in {2, 5, 6} && |head| == 8 ==> yielded == scopes)
      && (head[0] in {3, 4} || head[0] > 6 ==> yielded == [])
  {
    hide Scopes, ScopesOf, Classify, Printable, PrintScope;
    var tail := Join(PrintAll(scopes));
    var raw := head + tail;
    ScopesByType(raw);
    assert raw[|head|..] == tail;
    ScopesRoundTrip(scopes, []);
    assert tail + [] == tail;
  }

  function ScopeSkip(raw: Bytes): nat {
    if raw == [] then 0
    else
      match FixedPart(Classify(raw))
      case Some(fixed) => fixed
      case None => |raw|
  }

  /** Scopes are the records of their area, read one by one. */
  ghost predicate ReadFrom(scopes: seq<DeviceScope>, records: seq<Bytes>) {
    |scopes| == |records| && forall i | 0 <= i < |scopes| :: |records[i]| >= 6 && scopes[i] == ReadScope(records[i])
  }

  lemma ScopesAreCut(bytes: Bytes)
    ensures Lawful(ScopeSize) && ReadFrom(Scopes(bytes), Cut(ScopeSize, bytes))
  {
    hide ReadScope;
    ScopesReadable();
    ReadAllIsCut(ScopeSize, ReadScope, bytes);
  }

  lemma OwnScopesAreCut(s: RemapStruct)
    requires s.raw != [] && s == Classify(s.raw)
    ensures Lawful(ScopeSize) && ReadFrom(ScopesOf(s), Cut(ScopeSize, Inner(ScopeSkip, s.raw)))
  {
    hide Scopes, Cut, Classify, ReadScope;
    ScopesAreCut(Inner(ScopeSkip, s.raw));
    if FixedPart(s).None? {
      assert Inner(ScopeSkip, s.raw) == [];
      CutNothing(ScopeSize);
    }
  }

  /** What a structure's device scopes are in a table: each stands wholly inside that structure, behind
      its fixed part, is what the bytes there read as, and none overlaps another. */
  ghost predicate ScopesStand(table: Bytes, s: RemapStruct, at: Interval)
    requires Lawful(ScopeSize)
  {
    var xs := InnerExtents(ScopeSize, ScopeSkip, s.raw, at.lo);
    && |xs| == |ScopesOf(s)|
    && Ascending(xs, at.lo, at.hi)
    && forall i | 0 <= i < |xs| ::
         && at.lo + ScopeSkip(s.raw) <= xs[i].lo
         && xs[i].lo + 6 <= xs[i].hi <= at.hi <= |table|
         && ReadScope(table[xs[i].lo..xs[i].hi]) == ScopesOf(s)[i]
  }

  lemma HousedScopesStand(table: Bytes, s: RemapStruct, at: Interval)
    requires Lawful(ScopeSize) && s.raw != [] && s == Classify(s.raw) && at.hi <= |table|
    requires Housed(ScopeSize, ScopeSkip, table, s.raw, at)
    ensures ScopesStand(table, s, at)
  {
    hide ScopesOf, ScopeSkip, Cut, Inner, Classify, ReadScope, InnerExtents, Scopes;
    OwnScopesAreCut(s);
  }

  /** For every accepted table, the structures stand in it one behind the other, the scopes that a
      structure yields stand in that structure behind its fixed part and are what the bytes there read
      as, and no two scopes of the table overlap. */
  lemma ScopesOfTable(raw: Bytes)
    requires New(raw).Ok?
    ensures Lawful(ScopeSize) && |New(raw).value| >= STRUCTS_OFFSET
    ensures var table := New(raw).value;
      var structs := Structs(table[STRUCTS_OFFSET..]);
      var at := Positions(Raws(structs), STRUCTS_OFFSET);
      && Located(table, at, Raws(structs))
      && Ascending(at, STRUCTS_OFFSET, |table|)
      && |at| == |structs|
      && (forall k | 0 <= k < |structs| :: ScopesStand(table, structs[k], at[k]))
      && (forall k, l | 0 <= k < l < |structs| ::
            Apart(InnerExtents(ScopeSize, ScopeSkip, structs[k].raw, at[k].lo),
                  InnerExtents(ScopeSize, ScopeSkip, structs[l].raw, at[l].lo)))
  {
    hide InnerExtents, Structs, Positions, Classify, ScopeSkip, Housed, Ascending, Located, Apart, ScopesStand;
    ScopeSizeIsLawful();
    var table := New(raw).value;
    var structs := Structs(table[STRUCTS_OFFSET..]);
    var tail := StructsPartition(table[STRUCTS_OFFSET..]);
    RecordsOfTable(ScopeSize, ScopeSkip, table, STRUCTS_OFFSET, Raws(structs), tail);
    var at := Positions(Raws(structs), STRUCTS_OFFSET);
    LocatedLength(table, at, Raws(structs));
    forall k | 0 <= k < |structs| ensures ScopesStand(table, structs[k], at[k]) {
      LocatedInside(table, at, Raws(structs), k);
      HousedScopesStand(table, structs[k], at[k]);
    }
  }
}
