/** The radix tree both crates walk: 512-entry tables of 64-bit entries, up to five levels.

    `Descend` is the meaning of a walk: where it stops and on which entry. It is written with
    quotients and remainders; both walkers, which use shifts and masks, are proved against it,
    so every law about it is a law about both. */
module Radix {
  import opened Bits

  /** What the caller's `fetch` closure answers: the entry at an entry address. */
  type Memory = Word -> Word

  function Store(mem: Memory, slot: Word, entry: Word): Memory {
    a => if a == slot then entry else mem(a)
  }

  type Level = l: int | 1 <= l <= 5 witness 1

  /** A table address from which every entry address is still a word. */
  type Table = t: int | 0 <= t <= U64_LIMIT - 4096

  const PAGE: nat := 4096
  const FRAME_LIMIT: nat := 0x10_0000_0000_0000

  /** Bytes mapped by one entry of a level. */
  function Span(level: Level): (bytes: nat)
    ensures bytes > 0
  {
    match level
    case 1 => 0x1000
    case 2 => 0x20_0000
    case 3 => 0x4000_0000
    case 4 => 0x80_0000_0000
    case 5 => 0x1_0000_0000_0000
  }

  /** Bytes covered by a tree of `levels` levels. */
  function Width(levels: Level): nat {
    512 * Span(levels)
  }

  function Index(v: Word, level: Level): (index: nat)
    ensures index < 512
  {
    v / Span(level) % 512
  }

  function EntryAddress(table: Table, v: Word, level: Level): Word {
    table + 8 * Index(v, level)
  }

  predicate Present(entry: Word) {
    entry % 2 == 1
  }

  /** The PS mark, bit 7. */
  predicate PageSize(entry: Word) {
    entry / 128 % 2 == 1
  }

  /** Bits 51:12 in place: the next table, or the mapped frame. */
  function Frame(entry: Word): Table {
    FrameFits(entry);
    entry % FRAME_LIMIT - entry % PAGE
  }

  lemma FrameFits(entry: Word)
    ensures entry % FRAME_LIMIT >= entry % PAGE
  {
    var q, m := entry / FRAME_LIMIT, entry % FRAME_LIMIT;
    ModIs(entry, PAGE, 0x100_0000_0000 * q + m / PAGE, m % PAGE);
  }

  predicate PointsToTable(entry: Word) {
    Present(entry) && !PageSize(entry)
  }

  datatype Outcome = Leaf(level: Level, entry: Word) | Absent(level: Level)

  function Descend(mem: Memory, table: Table, level: Level, v: Word): Outcome
    decreases level
  {
    var entry := mem(EntryAddress(table, v, level));
    if !Present(entry) then Absent(level)
    else if PageSize(entry) || level == 1 then Leaf(level, entry)
    else Descend(mem, Frame(entry), level - 1, v)
  }

  datatype Fetch = Fetch(level: Level, address: Word)

  /** The entries a walk reads, in order. */
  function Trace(mem: Memory, table: Table, level: Level, v: Word): seq<Fetch>
    decreases level
  {
    var address := EntryAddress(table, v, level);
    var entry := mem(address);
    [Fetch(level, address)]
    + if PointsToTable(entry) && level > 1 then Trace(mem, Frame(entry), level - 1, v) else []
  }

  // ---- the bit operations of the code ----

  /** Offset width of each level, as both crates declare it. */
  const LEVEL_SHIFT: seq<nat> := [12, 21, 30, 39, 48]

  const FRAME_MASK: Word := 0x000f_ffff_ffff_f000

  lemma ShiftIsSpan(level: Level)
    ensures Pow2(LEVEL_SHIFT[level - 1]) == Span(level)
    ensures Pow2(LEVEL_SHIFT[level - 1] + 9) == Width(level)
  {
    Powers();
  }

  lemma ShiftedOut(v: Word, levels: Level)
    ensures v / Pow2(LEVEL_SHIFT[levels - 1] + 9) != 0 <==> v >= Width(levels)
  {
    ShiftIsSpan(levels);
  }

  lemma ExtractIsIndex(v: Word, level: Level)
    ensures var shift := LEVEL_SHIFT[level - 1]; ExtractBits(v, shift + 8, shift) == Index(v, level)
  {
    ShiftIsSpan(level);
    Powers();
    LowMask(v / Span(level), 9, 512);
  }

  lemma EntryMarks(entry: Word)
    ensures And(entry, 1) == 0 <==> !Present(entry)
    ensures And(entry, 0x80) != 0 <==> PageSize(entry)
  {
    Powers();
    TestBit(entry, 0, 1);
    TestBit(entry, 7, 0x80);
  }

  lemma MaskIsFrame(entry: Word)
    ensures And(entry, FRAME_MASK) == Frame(entry) < FRAME_LIMIT
  {
    Powers();
    FieldMask(entry, 12, 52, PAGE, FRAME_LIMIT);
  }

  lemma MaskIsOffset(v: Word, level: Level)
    ensures And(v, Pow2(LEVEL_SHIFT[level - 1]) - 1) == v % Span(level) < FRAME_LIMIT
  {
    ShiftIsSpan(level);
    LowMask(v, LEVEL_SHIFT[level - 1], Span(level));
  }
}
