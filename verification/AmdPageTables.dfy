/** The AMD crate's walker over v1 and v2 tables, its entry constructors, and how its walks
    compare with the Intel crate's. */
module AmdPageTables {
  import opened Wrappers
  import opened Bits
  import opened Radix
  import Intel = IntelPageTables
  import WalkLaws

  datatype Format = V1 | V2

  datatype WalkError = NotPresent(level: Level) | AddressTooLarge(bits: nat)

  datatype Translation = Translation(physical: Word, level: Level, perms: Word, huge: bool)

  const P: Word := 0x1
  const RW: Word := 0x2
  const US: Word := 0x4
  const IR: Word := 0x10
  const IW: Word := 0x20
  const ACCESSED: Word := 0x20
  const DIRTY: Word := 0x40
  const PS: Word := 0x80

  function IndexAt(iova: Word, level: Level): (index: nat)
    ensures index == Index(iova, level)
  {
    var shift := LEVEL_SHIFT[level - 1];
    ExtractIsIndex(iova, level);
    ExtractBits(iova, shift + 8, shift)
  }

  /** Unlike the Intel walker, this one keeps every bit of the leaf entry as its permissions. */
  function Resolve(iova: Word, outcome: Outcome): Result<Translation, WalkError> {
    match outcome
    case Absent(level) => Err(NotPresent(level))
    case Leaf(level, entry) =>
      Ok(Translation(Or(Frame(entry), iova % Span(level)), level, entry, PageSize(entry) && level > 1))
  }

  predicate TooLarge(format: Format, levels: Level, iova: Word) {
    iova >= Width(levels) && format == V2
  }

  function WalkMeaning(format: Format, levels: Level, root: Table, iova: Word, fetch: Memory)
    : Result<Translation, WalkError>
  {
    if TooLarge(format, levels, iova) then Err(AddressTooLarge(LEVEL_SHIFT[levels - 1] + 9))
    else Resolve(iova, Descend(fetch, root, levels, iova))
  }

  method Walk(format: Format, levels: Level, root: Table, iova: Word, fetch: Memory)
    returns (r: Result<Translation, WalkError>, ghost fetched: seq<Fetch>)
    ensures r == WalkMeaning(format, levels, root, iova, fetch)
    ensures fetched == if TooLarge(format, levels, iova) then [] else Trace(fetch, root, levels, iova)
  {
    hide And, Or, Pow2, ExtractBits, Span, Width, Index, Frame, Present, PageSize;
    fetched := [];
    var topShift := LEVEL_SHIFT[levels - 1];
    var addrBits := topShift + 9;
    ShiftedOut(iova, levels);
    if iova / Pow2(addrBits) != 0 && format == V2 {
      return Err(AddressTooLarge(addrBits)), [];
    }
    var table: Table := root;
    var level: int := levels;
    while level > 0
      invariant 1 <= level <= levels
      invariant Descend(fetch, table, level, iova) == Descend(fetch, root, levels, iova)
      invariant fetched + Trace(fetch, table, level, iova) == Trace(fetch, root, levels, iova)
    {
      var shift := LEVEL_SHIFT[level - 1];
      ExtractIsIndex(iova, level);
      var index := ExtractBits(iova, shift + 8, shift);
      var address := table + index * 8;
      var entry := fetch(address);
      assert address == EntryAddress(table, iova, level);
      assert forall rest :: fetched + ([Fetch(level, address)] + rest) == fetched + [Fetch(level, address)] + rest;
      fetched := fetched + [Fetch(level, address)];
      EntryMarks(entry);
      if And(entry, 1) == 0 {
        return Err(NotPresent(level)), fetched;
      }
      var perms := entry;
      var ps := And(entry, PS) != 0;
      MaskIsFrame(entry);
      if ps || level == 1 {
        var base := And(entry, FRAME_MASK);
        var offMask := Pow2(shift) - 1;
        MaskIsOffset(iova, level);
        return Ok(Translation(Or(base, And(iova, offMask)), level, perms, ps && level > 1)), fetched;
      }
      table := And(entry, FRAME_MASK);
      level := level - 1;
    }
    assert false;
  }

  // ---- entries ----

  function V2Page(paddr: Word, rw: bool, user: bool): Word {
    var v := Or(Or(Or(And(paddr, FRAME_MASK), P), ACCESSED), DIRTY);
    var w := if rw then Or(v, RW) else v;
    if user then Or(w, US) else w
  }

  function V2Table(next: Word): Word {
    Or(Or(Or(And(next, FRAME_MASK), Or(P, RW)), US), ACCESSED)
  }

  function V1Page(paddr: Word, read: bool, write: bool): Word {
    var v := Or(And(paddr, FRAME_MASK), P);
    var w := if read then Or(v, IR) else v;
    if write then Or(w, IW) else w
  }

  // ---- the two walkers ----

  function StageOf(format: Format): Intel.Stage {
    match format
    case V1 => Intel.First
    case V2 => Intel.Second
  }

  /** On the same memory the two crates' walks fail alike or reach the same byte through the same
      leaf; the Intel permissions are the AMD ones restricted to the flags the Intel crate declares. */
  lemma WalkersAgree(format: Format, levels: Level, root: Table, v: Word, mem: Memory)
    ensures var a, i := WalkMeaning(format, levels, root, v, mem), Intel.WalkMeaning(StageOf(format), levels, root, v, mem);
      match a
      case Err(NotPresent(level)) => i == Err(Intel.NotPresent(level))
      case Err(AddressTooLarge(bits)) => i == Err(Intel.AddressTooLarge(bits))
      case Ok(t) => i == Ok(Intel.Translation(t.physical, t.level, And(t.perms, Intel.PERM_ALL), t.huge))
  {
  }

  /** v1 walks have no width check: a walk is that of the address modulo the table width. */
  lemma AliasModuloWidth(levels: Level, root: Table, v: Word, mem: Memory)
    ensures v % Width(levels) < U64_LIMIT
    ensures WalkMeaning(V1, levels, root, v, mem) == WalkMeaning(V1, levels, root, v % Width(levels), mem)
  {
    hide Or, Frame, PageSize, Descend, Width, Span;
    WalkLaws.AliasDescent(levels, root, v, mem);
  }
}
