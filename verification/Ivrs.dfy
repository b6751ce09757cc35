/** The IVRS table of the AMD crate: blocks, and the device entries inside a hardware definition. */
module Ivrs {
  import opened Wrappers
  import opened Records
  import opened Acpi

  const BLOCKS_OFFSET: nat := 44

  /** `IVRS` */
  const SIGNATURE: Bytes := [0x49, 0x56, 0x52, 0x53]

  function New(raw: Bytes): Result<Bytes, TableError> {
    Validate(SIGNATURE, BLOCKS_OFFSET, raw)
  }

  // ---- blocks ----

  datatype EntryType = IvhdType10 | IvhdType11 | IvhdType40 | IvmdType | ReservedType(code: Byte)

  function EntryTypeFrom(v: Byte): EntryType {
    match v
    case 0x10 => IvhdType10
    case 0x11 => IvhdType11
    case 0x20 => IvmdType
    case 0x40 => IvhdType40
    case _ => ReservedType(v)
  }

  datatype Block = Ivhd(raw: Bytes) | Ivmd(raw: Bytes) | Unknown(ty: Byte, raw: Bytes)

  function ReadBlock(raw: Bytes): Block
    requires raw != []
  {
    match EntryTypeFrom(raw[0])
    case IvhdType10 | IvhdType11 | IvhdType40 => Ivhd(raw)
    case IvmdType => Ivmd(raw)
    case ReservedType(_) => Unknown(raw[0], raw)
  }

  lemma BlocksReadable()
    ensures Lawful(RecordSize) && Reads(RecordSize, ReadBlock)
  {
    RecordSizeIsLawful();
  }

  function Blocks(bytes: Bytes): seq<Block> {
    BlocksReadable();
    ReadAll(RecordSize, ReadBlock, bytes)
  }

  class BlockIter {
    var bytes: Bytes

    constructor (bytes: Bytes)
      ensures this.bytes == bytes
    {
      this.bytes := bytes;
    }

    method Next() returns (item: Option<Block>)
      modifies this
      ensures item.Some? ==>
        && Blocks(old(bytes)) == [item.value] + Blocks(bytes)
        && old(bytes) == item.value.raw + bytes
        && |item.value.raw| >= 4
      ensures item.None? ==> Blocks(old(bytes)) == [] && bytes == old(bytes)
    {
      if |bytes| < 4 {
        return None;
      }
      var ty, len := bytes[0], Le16(bytes, 2);
      if len < 4 || len > |bytes| {
        return None;
      }
      var raw, rest := bytes[..len], bytes[len..];
      bytes := rest;
      match EntryTypeFrom(ty)
      case IvhdType10 | IvhdType11 | IvhdType40 => return Some(Ivhd(raw));
      case IvmdType => return Some(Ivmd(raw));
      case ReservedType(_) => return Some(Unknown(ty, raw));
    }
  }

  function Raws(blocks: seq<Block>): seq<Bytes> {
    seq(|blocks|, i requires 0 <= i < |blocks| => blocks[i].raw)
  }

  lemma ReadBlockKeepsRaw(raw: Bytes)
    requires raw != []
    ensures ReadBlock(raw).raw == raw
  {
  }

  lemma BlocksAreCut(bytes: Bytes)
    ensures Lawful(RecordSize)
    ensures Raws(Blocks(bytes)) == Cut(RecordSize, bytes)
    ensures forall b | b in Blocks(bytes) :: IsSized(b.raw) && b == ReadBlock(b.raw)
  {
    hide ReadBlock, RecordSize, IsSized, Cut, ReadAll;
    BlocksReadable();
    ReadAllIsCut(RecordSize, ReadBlock, bytes);
    forall i | 0 <= i < |Blocks(bytes)|
      ensures var b := Blocks(bytes)[i]; b.raw == Cut(RecordSize, bytes)[i] && IsSized(b.raw) && b == ReadBlock(b.raw)
    {
      SizedIsRecord(Cut(RecordSize, bytes)[i]);
      ReadBlockKeepsRaw(Cut(RecordSize, bytes)[i]);
    }
  }

  /** On any bytes, the blocks yielded and the bytes left over make up the input; what is left over
      is too short to hold a length or holds one that is below 4 or overruns it. */
  lemma BlocksPartition(bytes: Bytes) returns (tail: Bytes)
    ensures Join(Raws(Blocks(bytes))) + tail == bytes
    ensures forall b | b in Blocks(bytes) :: IsSized(b.raw) && b == ReadBlock(b.raw)
    ensures |tail| < 4 || Le16(tail, 2) < 4 || Le16(tail, 2) > |tail|
  {
    hide Blocks, Raws, ReadBlock;
    BlocksAreCut(bytes);
    CutIsPartition(RecordSize, bytes);
    tail := Rest(RecordSize, bytes);
  }

  /** Blocks written one after the other are yielded in order, classified by their first byte,
      whatever unreadable tail follows. */
  lemma BlocksRoundTrip(records: seq<Bytes>, tail: Bytes)
    requires forall r | r in records :: IsSized(r)
    requires RecordSize(tail) == 0
    ensures |Blocks(Join(records) + tail)| == |records|
    ensures forall i | 0 <= i < |records| ::
      records[i] != [] && Blocks(Join(records) + tail)[i] == ReadBlock(records[i])
  {
    hide ReadBlock;
    BlocksReadable();
    forall r | r in records ensures IsRecord(RecordSize, r) {
      SizedIsRecord(r);
    }
    JoinThenRead(RecordSize, ReadBlock, records, tail);
  }

  /** `new` accepts a table of at least 44 bytes that starts with IVRS, claims a length between that and
      what there is, and sums to zero; otherwise it reports the first of these that fails. */
  lemma NewIsExact(raw: Bytes)
    ensures New(raw) ==
      if |raw| < 44 then Err(TooShort(|raw|))
      else if [raw[0] as char, raw[1] as char, raw[2] as char, raw[3] as char] != "IVRS"
      then Err(BadSignature([raw[0], raw[1], raw[2], raw[3]]))
      else if !(44 <= Claimed(raw) <= |raw|) then Err(BadLength(Claimed(raw), |raw|))
      else if Sum(raw[..Claimed(raw)]) % 256 != 0 then Err(BadChecksum)
      else Ok(raw[..Claimed(raw)])
  {
    ValidateIsExact(SIGNATURE, BLOCKS_OFFSET, raw);
    if |raw| >= 44 {
      assert raw[..4] == [raw[0], raw[1], raw[2], raw[3]];
    }
  }

  /** What comes first in any bytes: a block of the kind its first byte numbers, as long as bytes 2 and 3
      say, and then the rest; or nothing, when those do not give a length from 4 to what is there. */
  lemma FirstBlock(bytes: Bytes)
    ensures |bytes| < 4 ==> Blocks(bytes) == []
    ensures |bytes| >= 4 ==>
      var len := bytes[2] as int + 0x100 * bytes[3] as int;
      if len < 4 || len > |bytes| then Blocks(bytes) == []
      else
        var raw := bytes[..len];
        var first := match bytes[0]
          case 0x10 => Ivhd(raw) case 0x11 => Ivhd(raw) case 0x40 => Ivhd(raw)
          case 0x20 => Ivmd(raw) case ty => Unknown(ty, raw);
        Blocks(bytes) == [first] + Blocks(bytes[len..])
  {
    BlocksReadable();
  }

  // ---- device entries ----

  datatype DeviceType = All | Select | AliasSelect | Special | AcpiHid | Reserved(code: Byte)

  function DeviceTypeFrom(v: Byte): DeviceType {
    if v == 0x01 then All
    else if v == 0x02 then Select
    else if v == 0x03 then AliasSelect
    else if 0x40 <= v <= 0x42 then Special
    else if v == 0x48 then AcpiHid
    else Reserved(v)
  }

  datatype DeviceEntry =
    | Short(ty: DeviceType, data: Byte, data2: Byte)
    | Long(ty: DeviceType, bus: Byte, devfn: Byte, sourceId: nat)
    | Variable(ty: DeviceType, raw: Bytes)

  predicate IsVariable(first: Byte) {
    first == 0x40 || first == 0x41 || first == 0x42 || first == 0x48
  }

  /** The size of an entry whose first byte is not that of a variable-length one. */
  function Needed(first: Byte): (n: nat)
    ensures n == 4 || n == 8
  {
    if first == 0x01 || first == 0x02 then 4
    else if first == 0x03 || 0x28 <= first <= 0x2f then 8
    else 4
  }

  function EntrySize(bytes: Bytes): nat {
    if |bytes| == 0 then 0
    else if IsVariable(bytes[0]) then
      if |bytes| < 2 then 0
      else
        var len := bytes[1];
        if len < 4 || len > |bytes| then 0 else len
    else if |bytes| < Needed(bytes[0]) then 0
    else Needed(bytes[0])
  }

  function ReadEntry(raw: Bytes): DeviceEntry
    requires |raw| >= 4 && (!IsVariable(raw[0]) && Needed(raw[0]) == 8 ==> |raw| >= 8)
  {
    var ty := DeviceTypeFrom(raw[0]);
    if IsVariable(raw[0]) then Variable(ty, raw)
    else if Needed(raw[0]) == 4 then Short(ty, raw[2], raw[3])
    else Long(ty, raw[2], raw[3], Le16(raw, 6))
  }

  lemma EntrySizeIsLawful()
    ensures Lawful(EntrySize)
  {
    forall b: Bytes, tail: Bytes | EntrySize(b) > 0
      ensures EntrySize(b[..EntrySize(b)] + tail) == EntrySize(b)
    {
      var c := b[..EntrySize(b)] + tail;
      assert c[0] == b[0];
      assert c[1] == b[1];
    }
  }

  /** Every entry takes at least four bytes, and exactly as many as its first two bytes say. */
  predicate IsEntry(r: Bytes) {
    |r| >= 4 && |r| == if IsVariable(r[0]) then r[1] as int else Needed(r[0])
  }

  lemma EntriesAreRecords(r: Bytes)
    ensures IsEntry(r) <==> IsRecord(EntrySize, r)
  {
    if IsEntry(r) {
      forall tail: Bytes ensures EntrySize(r + tail) == |r| {
        assert (r + tail)[0] == r[0] && (r + tail)[1] == r[1];
      }
    }
    if IsRecord(EntrySize, r) {
      assert r + [] == r;
      assert EntrySize(r + []) == |r|;
    }
  }

  lemma EntriesReadable()
    ensures Lawful(EntrySize) && Reads(EntrySize, ReadEntry)
  {
    EntrySizeIsLawful();
    forall r: Bytes | IsRecord(EntrySize, r) ensures ReadEntry.requires(r) {
      EntriesAreRecords(r);
    }
  }

  function Entries(bytes: Bytes): seq<DeviceEntry> {
    EntriesReadable();
    ReadAll(EntrySize, ReadEntry, bytes)
  }

  class DeviceEntryIter {
    var bytes: Bytes

    constructor (bytes: Bytes)
      ensures this.bytes == bytes
    {
      this.bytes := bytes;
    }

    method Next() returns (item: Option<DeviceEntry>)
      modifies this
      ensures item.Some? ==>
        && |bytes| + 4 <= |old(bytes)|
        && bytes == old(bytes)[|old(bytes)| - |bytes|..]
        && Entries(old(bytes)) == [item.value] + Entries(bytes)
      ensures item.None? ==> Entries(old(bytes)) == [] && bytes == old(bytes)
    {
      if |bytes| == 0 {
        return None;
      }
      var first := bytes[0];
      var ty := DeviceTypeFrom(first);
      if first == 0x40 || first == 0x41 || first == 0x42 || first == 0x48 {
        if |bytes| < 2 {
          return None;
        }
        var len := bytes[1];
        if len < 4 || len > |bytes| {
          return None;
        }
        var raw, rest := bytes[..len], bytes[len..];
        bytes := rest;
        return Some(Variable(ty, raw));
      }
      var needed := Needed(first);
      if |bytes| < needed {
        return None;
      }
      var raw, rest := bytes[..needed], bytes[needed..];
      bytes := rest;
      if needed == 4 {
        return Some(Short(ty, raw[2], raw[3]));
      }
      return Some(Long(ty, raw[2], raw[3], Le16(raw, 6)));
    }
  }

  /** What comes first in the device area of a definition. Types 40h to 42h and 48h are as long as byte 1
      says, at least 4; types 03h and 28h to 2Fh take 8 bytes; all others take 4. When there are not that
      many bytes, there is no entry. */
  lemma FirstEntry(b: Bytes)
    ensures b == [] ==> Entries(b) == []
    ensures b != [] && (0x40 <= b[0] <= 0x42 || b[0] == 0x48) ==>
      if |b| < 2 || b[1] < 4 || b[1] as int > |b| then Entries(b) == []
      else
        var ty := if b[0] == 0x48 then AcpiHid else Special;
        Entries(b) == [Variable(ty, b[..b[1] as int])] + Entries(b[b[1] as int..])
    ensures b != [] && (b[0] == 0x03 || 0x28 <= b[0] <= 0x2f) ==>
      if |b| < 8 then Entries(b) == []
      else
        var ty := if b[0] == 0x03 then AliasSelect else Reserved(b[0]);
        Entries(b) == [Long(ty, b[2], b[3], b[6] as int + 0x100 * b[7] as int)] + Entries(b[8..])
    ensures b != [] && b[0] != 0x03 && !(0x28 <= b[0] <= 0x2f) && !(0x40 <= b[0] <= 0x42) && b[0] != 0x48 ==>
      if |b| < 4 then Entries(b) == []
      else
        var ty := match b[0] case 0x01 => All case 0x02 => Select case code => Reserved(code);
        Entries(b) == [Short(ty, b[2], b[3])] + Entries(b[4..])
  {
    EntriesReadable();
  }

  function TypeCode(t: DeviceType): Byte {
    match t
    case All => 0x01
    case Select => 0x02
    case AliasSelect => 0x03
    case Special => 0x40
    case AcpiHid => 0x48
    case Reserved(code) => code
  }

  /** An entry that has a byte form: its type belongs to its shape and its fields are in range. */
  predicate Printable(e: DeviceEntry) {
    match e
    case Short(ty, _, _) =>
      DeviceTypeFrom(TypeCode(ty)) == ty && !IsVariable(TypeCode(ty)) && Needed(TypeCode(ty)) == 4
    case Long(ty, _, _, sourceId) =>
      DeviceTypeFrom(TypeCode(ty)) == ty && !IsVariable(TypeCode(ty)) && Needed(TypeCode(ty)) == 8 && sourceId < 0x1_0000
    case Variable(ty, raw) =>
      IsEntry(raw) && IsVariable(raw[0]) && ty == DeviceTypeFrom(raw[0])
  }

  /** The byte form, with the bytes the iterator ignores set to zero. */
  function PrintEntry(e: DeviceEntry): Bytes
    requires Printable(e)
  {
    match e
    case Short(ty, data, data2) => [TypeCode(ty), 0, data, data2]
    case Long(ty, bus, devfn, sourceId) => [TypeCode(ty), 0, bus, devfn, 0, 0, sourceId % 256, sourceId / 256]
    case Variable(_, raw) => raw
  }

  lemma ReadPrintEntry(e: DeviceEntry)
    requires Printable(e)
    ensures IsEntry(PrintEntry(e)) && ReadEntry(PrintEntry(e)) == e
  {
  }

  lemma ReadEntryIsPrintable(r: Bytes)
    requires IsEntry(r)
    ensures Printable(ReadEntry(r))
  {
  }

  function PrintAll(entries: seq<DeviceEntry>): seq<Bytes>
    requires forall e | e in entries :: Printable(e)
  {
    seq(|entries|, i requires 0 <= i < |entries| => assert entries[i] in entries; PrintEntry(entries[i]))
  }

  /** A list of entries is printed and read back unchanged, whatever unreadable tail follows. */
  lemma EntriesRoundTrip(entries: seq<DeviceEntry>, tail: Bytes)
    requires forall e | e in entries :: Printable(e)
    requires EntrySize(tail) == 0
    ensures Entries(Join(PrintAll(entries)) + tail) == entries
  {
    hide Printable, PrintEntry, ReadEntry, EntrySize, IsEntry;
    EntriesReadable();
    var records := PrintAll(entries);
    forall i | 0 <= i < |records|
      ensures IsRecord(EntrySize, records[i]) && ReadEntry(records[i]) == entries[i]
    {
      ReadPrintEntry(entries[i]);
      EntriesAreRecords(records[i]);
    }
    JoinThenRead(EntrySize, ReadEntry, records, tail);
  }

  /** Every entry yielded has a byte form, and printing and reading again changes nothing more:
      only the bytes the iterator ignores can be lost. */
  lemma EntriesAreCanonical(bytes: Bytes)
    ensures forall e | e in Entries(bytes) :: Printable(e)
    ensures Entries(Join(PrintAll(Entries(bytes)))) == Entries(bytes)
  {
    hide Printable, PrintEntry, ReadEntry, EntrySize, IsEntry, PrintAll;
    EntriesReadable();
    ReadAllIsCut(EntrySize, ReadEntry, bytes);
    forall i | 0 <= i < |Entries(bytes)| ensures Printable(Entries(bytes)[i]) {
      EntriesAreRecords(Cut(EntrySize, bytes)[i]);
      ReadEntryIsPrintable(Cut(EntrySize, bytes)[i]);
    }
    EmptyStartsNoEntry();
    EntriesRoundTrip(Entries(bytes), []);
    assert Join(PrintAll(Entries(bytes))) + [] == Join(PrintAll(Entries(bytes)));
  }

  lemma EmptyStartsNoEntry()
    ensures EntrySize([]) == 0
  {
  }

  // ---- device entries inside blocks ----

  /** `devices()`: the header of a hardware definition is longer for the newer types. */
  function Devices(b: Block): seq<DeviceEntry> {
    match b
    case Ivhd(raw) =>
      var header := if raw != [] && EntryTypeFrom(raw[0]) == IvhdType10 then 24 else 28;
      Entries(if header <= |raw| then raw[header..] else [])
    case Ivmd(_) | Unknown(_, _) => []
  }

  /** Where the device entries of a block start, by its type byte: behind 24 bytes for type 10h, behind 28
      for types 11h and 40h; other blocks have none. */
  lemma DevicesByType(raw: Bytes)
    requires raw != []
    ensures raw[0] == 0x10 ==> Devices(ReadBlock(raw)) == if |raw| >= 24 then Entries(raw[24..]) else []
    ensures raw[0] == 0x11 || raw[0] == 0x40 ==> Devices(ReadBlock(raw)) == if |raw| >= 28 then Entries(raw[28..]) else []
    ensures raw[0] != 0x10 && raw[0] != 0x11 && raw[0] != 0x40 ==> Devices(ReadBlock(raw)) == []
  {
    hide Entries;
    FirstEntry([]);
  }

  function DeviceSkip(raw: Bytes): nat {
    if raw == [] then 0
    else
      match EntryTypeFrom(raw[0])
      case IvhdType10 => 24
      case IvhdType11 | IvhdType40 => 28
      case IvmdType | ReservedType(_) => |raw|
  }

  ghost predicate ReadFrom(entries: seq<DeviceEntry>, records: seq<Bytes>) {
    |entries| == |records| && forall i | 0 <= i < |entries| :: IsEntry(records[i]) && entries[i] == ReadEntry(records[i])
  }

  lemma EntriesAreCut(bytes: Bytes)
    ensures Lawful(EntrySize) && ReadFrom(Entries(bytes), Cut(EntrySize, bytes))
  {
    hide ReadEntry, IsEntry;
    EntriesReadable();
    ReadAllIsCut(EntrySize, ReadEntry, bytes);
    forall i | 0 <= i < |Entries(bytes)| ensures IsEntry(Cut(EntrySize, bytes)[i]) {
      EntriesAreRecords(Cut(EntrySize, bytes)[i]);
    }
  }

  lemma DevicesAreCut(b: Block)
    requires b.raw != [] && b == ReadBlock(b.raw)
    ensures Lawful(EntrySize) && ReadFrom(Devices(b), Cut(EntrySize, Inner(DeviceSkip, b.raw)))
  {
    hide Entries, Cut, ReadEntry, IsEntry;
    EntriesAreCut(Inner(DeviceSkip, b.raw));
    if !b.Ivhd? {
      assert Inner(DeviceSkip, b.raw) == [];
      CutNothing(EntrySize);
    }
  }

  /** What a block's device entries are in a table: each stands wholly inside that block, behind its
      header, is what the bytes there read as, and none overlaps another. */
  ghost predicate DevicesStand(table: Bytes, b: Block, at: Interval)
    requires Lawful(EntrySize)
  {
    var xs := InnerExtents(EntrySize, DeviceSkip, b.raw, at.lo);
    && |xs| == |Devices(b)|
    && Ascending(xs, at.lo, at.hi)
    && forall i | 0 <= i < |xs| ::
         && at.lo + DeviceSkip(b.raw) <= xs[i].lo <= xs[i].hi <= at.hi <= |table|
         && IsEntry(table[xs[i].lo..xs[i].hi])
         && ReadEntry(table[xs[i].lo..xs[i].hi]) == Devices(b)[i]
  }

  lemma HousedDevicesStand(table: Bytes, b: Block, at: Interval)
    requires Lawful(EntrySize) && b.raw != [] && b == ReadBlock(b.raw) && at.hi <= |table|
    requires Housed(EntrySize, DeviceSkip, table, b.raw, at)
    ensures DevicesStand(table, b, at)
  {
    hide Devices, DeviceSkip, Cut, Inner, ReadBlock, ReadEntry, IsEntry, InnerExtents, Entries;
    DevicesAreCut(b);
  }

  /** For every accepted table, the blocks stand in it one behind the other, the device entries that a
      block yields stand in that block behind its header and are what the bytes there read as, and no
      two entries of the table overlap. */
  lemma DevicesOfTable(raw: Bytes)
    requires New(raw).Ok?
    ensures Lawful(EntrySize) && |New(raw).value| >= BLOCKS_OFFSET
    ensures var table := New(raw).value;
      var blocks := Blocks(table[BLOCKS_OFFSET..]);
      var at := Positions(Raws(blocks), BLOCKS_OFFSET);
      && Located(table, at, Raws(blocks))
      && Ascending(at, BLOCKS_OFFSET, |table|)
      && |at| == |blocks|
      && (forall k | 0 <= k < |blocks| :: DevicesStand(table, blocks[k], at[k]))
      && (forall k, l | 0 <= k < l < |blocks| ::
            Apart(InnerExtents(EntrySize, DeviceSkip, blocks[k].raw, at[k].lo),
                  InnerExtents(EntrySize, DeviceSkip, blocks[l].raw, at[l].lo)))
  {
    hide InnerExtents, Blocks, Positions, ReadBlock, DeviceSkip, Housed, Ascending, Located, Apart, DevicesStand;
    EntrySizeIsLawful();
    var table := New(raw).value;
    var blocks := Blocks(table[BLOCKS_OFFSET..]);
    var tail := BlocksPartition(table[BLOCKS_OFFSET..]);
    RecordsOfTable(EntrySize, DeviceSkip, table, BLOCKS_OFFSET, Raws(blocks), tail);
    var at := Positions(Raws(blocks), BLOCKS_OFFSET);
    LocatedLength(table, at, Raws(blocks));
    forall k | 0 <= k < |blocks| ensures DevicesStand(table, blocks[k], at[k]) {
      LocatedInside(table, at, Raws(blocks), k);
      HousedDevicesStand(table, blocks[k], at[k]);
    }
  }
}
