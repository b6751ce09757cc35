/** First-stage and second-stage page tables of the Intel crate: the walker, the entry
    constructors and the leaf iterator. */
module IntelPageTables {
  import opened Wrappers
  import opened Bits
  import opened Radix

  datatype Stage = First | Second

  datatype WalkError = NotPresent(level: Level) | AddressTooLarge(bits: nat)

  datatype Translation = Translation(physical: Word, level: Level, perms: Word, huge: bool)

  const R: Word := 0x1
  const W: Word := 0x2
  const X: Word := 0x4
  const PAGE_SIZE: Word := 0x80
  const ACCESSED: Word := 0x100
  const DIRTY: Word := 0x200

  /** Every flag the crate declares; other entry bits are dropped from a result. */
  const PERM_ALL: Word := 0x8000_0000_0000_0787

  function IndexAt(v: Word, level: Level): (index: nat)
    ensures index == Index(v, level)
  {
    var shift := LEVEL_SHIFT[level - 1];
    ExtractIsIndex(v, level);
    ExtractBits(v, shift + 8, shift)
  }

  /** What a walk of `v` that ends so answers. */
  function Resolve(v: Word, outcome: Outcome): Result<Translation, WalkError> {
    match outcome
    case Absent(level) => Err(NotPresent(level))
    case Leaf(level, entry) =>
      Ok(Translation(Or(Frame(entry), v % Span(level)), level, And(entry, PERM_ALL), PageSize(entry) && level > 1))
  }

  predicate TooLarge(stage: Stage, levels: Level, v: Word) {
    v >= Width(levels) && stage == Second
  }

  function WalkMeaning(stage: Stage, levels: Level, root: Table, v: Word, fetch: Memory): Result<Translation, WalkError> {
    if TooLarge(stage, levels, v) then Err(AddressTooLarge(LEVEL_SHIFT[levels - 1] + 9))
    else Resolve(v, Descend(fetch, root, levels, v))
  }

  method Walk(stage: Stage, levels: Level, root: Table, vaddr: Word, fetch: Memory)
    returns (r: Result<Translation, WalkError>, ghost fetched: seq<Fetch>)
    ensures r == WalkMeaning(stage, levels, root, vaddr, fetch)
    ensures fetched == if TooLarge(stage, levels, vaddr) then [] else Trace(fetch, root, levels, vaddr)
  {
    hide And, Or, Pow2, ExtractBits, Span, Width, Index, Frame, Present, PageSize;
    fetched := [];
    var topShift := LEVEL_SHIFT[levels - 1];
    var addrBits := topShift + 9;
    ShiftedOut(vaddr, levels);
    if vaddr / Pow2(addrBits) != 0 && stage == Second {
      return Err(AddressTooLarge(addrBits)), [];
    }
    var table: Table := root;
    var level: int := levels;
    while level > 0
      invariant 1 <= level <= levels
      invariant Descend(fetch, table, level, vaddr) == Descend(fetch, root, levels, vaddr)
      invariant fetched + Trace(fetch, table, level, vaddr) == Trace(fetch, root, levels, vaddr)
    {
      var shift := LEVEL_SHIFT[level - 1];
      ExtractIsIndex(vaddr, level);
      var index := ExtractBits(vaddr, shift + 8, shift);
      var address := table + index * 8;
      var entry := fetch(address);
      assert address == EntryAddress(table, vaddr, level);
      assert forall rest :: fetched + ([Fetch(level, address)] + rest) == fetched + [Fetch(level, address)] + rest;
      fetched := fetched + [Fetch(level, address)];
      EntryMarks(entry);
      if And(entry, 1) == 0 {
        return Err(NotPresent(level)), fetched;
      }
      var perms := And(entry, PERM_ALL);
      var ps := And(entry, 0x80) != 0;
      MaskIsFrame(entry);
      if ps || level == 1 {
        var base := And(entry, FRAME_MASK);
        var offMask := Pow2(shift) - 1;
        MaskIsOffset(vaddr, level);
        return Ok(Translation(Or(base, And(vaddr, offMask)), level, perms, ps && level > 1)), fetched;
      }
      table := And(entry, FRAME_MASK);
      level := level - 1;
    }
    assert false;
  }

  // ---- second-stage entries ----

  const EMPTY: Word := 0

  function Page(paddr: Word, perms: Word): Word {
    Or(Or(And(paddr, FRAME_MASK), And(perms, 0x3)), 1)
  }

  function TableEntry(next: Word): Word {
    Or(Or(And(next, FRAME_MASK), Or(Or(R, W), X)), 1)
  }

  function HugePage(paddr: Word, perms: Word): Word {
    Or(Or(Or(And(paddr, FRAME_MASK), And(perms, 0x3)), PAGE_SIZE), 1)
  }

  function WithAccessedDirty(entry: Word, accessed: bool, dirty: bool): Word {
    Powers();
    SetBit(entry, 8, ACCESSED);
    var v: Word := if accessed then Or(entry, ACCESSED) else entry;
    SetBit(v, 9, DIRTY);
    if dirty then Or(v, DIRTY) else v
  }

  // ---- leaves ----

  datatype MapRange = MapRange(guestBase: Word, hostBase: Word, len: Word, perms: Word)

  datatype LeafUpdate = LeafUpdate(guest: Word, host: Word, pte: Word)

  function PageCount(m: MapRange): (n: nat) {
    m.len / 4096 + if m.len % 4096 > 0 then 1 else 0
  }

  /** No page address of the range overflows. */
  predicate Addressable(m: MapRange) {
    PageCount(m) > 0 ==>
      && m.guestBase + 4096 * (PageCount(m) - 1) < U64_LIMIT
      && m.hostBase + 4096 * (PageCount(m) - 1) < U64_LIMIT
  }

  function Leaves(m: MapRange): (leaves: seq<LeafUpdate>)
    requires Addressable(m)
  {
    seq(PageCount(m), i requires 0 <= i < PageCount(m) =>
      var g := m.guestBase + i * 4096;
      var h := m.hostBase + i * 4096;
      LeafUpdate(g, h, Page(h, m.perms)))
  }
}
