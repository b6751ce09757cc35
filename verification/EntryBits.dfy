/** The entries and walk results of the Intel crate, bit by bit, with every position written out. */
module EntryBits {
  import opened Wrappers
  import opened Bits
  import opened Radix
  import opened IntelPageTables
  import Entries
  import Paths
  import WalkLaws

  lemma FrameMaskBits(k: nat)
    ensures Bit(FRAME_MASK, k) <==> 12 <= k < 52
  {
    hide Bit;
    Powers();
    BitOfMask(12, 52, k);
  }

  lemma FrameBits(entry: Word, k: nat)
    ensures Bit(Frame(entry), k) <==> 12 <= k < 52 && Bit(entry, k)
  {
    hide And, Frame, Bit;
    MaskIsFrame(entry);
    AndBits(entry, FRAME_MASK, k);
    FrameMaskBits(k);
  }

  /** The flags the crate declares: R, W, X, page size, accessed, dirty, global, execute-disable. */
  lemma DeclaredBits(k: nat)
    ensures Bit(PERM_ALL, k) <==> k in {0, 1, 2, 7, 8, 9, 10, 63}
  {
    hide Bit, Pow2;
    Powers();
    BitOfPower(0, k);
    BitOfSum(0x1, 1, 0x2, k);
    BitOfSum(0x3, 2, 0x4, k);
    BitOfSum(0x7, 7, 0x80, k);
    BitOfSum(0x87, 8, 0x100, k);
    BitOfSum(0x187, 9, 0x200, k);
    BitOfSum(0x387, 10, 0x400, k);
    BitOfSum(0x787, 63, 0x8000_0000_0000_0000, k);
  }

  lemma OneBit(k: nat)
    ensures Bit(0x1, k) <==> k == 0
    ensures Bit(0x80, k) <==> k == 7
    ensures Bit(0x100, k) <==> k == 8
    ensures Bit(0x200, k) <==> k == 9
  {
    hide Bit, Pow2;
    Powers();
    BitOfPower(0, k);
    BitOfPower(7, k);
    BitOfPower(8, k);
    BitOfPower(9, k);
  }

  lemma LowBits(k: nat)
    ensures Bit(0x3, k) <==> k < 2
    ensures Bit(0x7, k) <==> k < 3
  {
    hide Bit, Pow2;
    Powers();
    BitOfMask(0, 2, k);
    BitOfMask(0, 3, k);
  }

  // ---- what the constructors build ----

  lemma PageBits(paddr: Word, perms: Word, k: nat)
    ensures Bit(Page(paddr, perms), k) <==> k == 0 || (k == 1 && Bit(perms, 1)) || (12 <= k < 52 && Bit(paddr, k))
  {
    hide Bit, And, Or;
    var frame, flags := And(paddr, FRAME_MASK), And(perms, 0x3);
    OrBits(Or(frame, flags), 1, k);
    OrBits(frame, flags, k);
    AndBits(paddr, FRAME_MASK, k);
    AndBits(perms, 0x3, k);
    FrameMaskBits(k);
    LowBits(k);
    OneBit(k);
  }

  lemma HugePageBits(paddr: Word, perms: Word, k: nat)
    ensures Bit(HugePage(paddr, perms), k) <==>
      k == 0 || (k == 1 && Bit(perms, 1)) || k == 7 || (12 <= k < 52 && Bit(paddr, k))
  {
    hide Bit, And, Or;
    var frame, flags := And(paddr, FRAME_MASK), And(perms, 0x3);
    OrBits(Or(Or(frame, flags), PAGE_SIZE), 1, k);
    OrBits(Or(frame, flags), PAGE_SIZE, k);
    OrBits(frame, flags, k);
    AndBits(paddr, FRAME_MASK, k);
    AndBits(perms, 0x3, k);
    FrameMaskBits(k);
    LowBits(k);
    OneBit(k);
  }

  lemma TableBits(next: Word, k: nat)
    ensures Bit(TableEntry(next), k) <==> k == 0 || k == 1 || k == 2 || (12 <= k < 52 && Bit(next, k))
  {
    hide Bit, And, Or;
    var frame := And(next, FRAME_MASK);
    Entries.ReadWriteExecute();
    OrBits(Or(frame, 0x7), 1, k);
    OrBits(frame, 0x7, k);
    AndBits(next, FRAME_MASK, k);
    FrameMaskBits(k);
    LowBits(k);
    OneBit(k);
  }

  /** Accessed is bit 8 and dirty is bit 9; they are set when asked and nothing else changes. */
  lemma AccessedDirtyBits(entry: Word, accessed: bool, dirty: bool, k: nat)
    ensures Bit(WithAccessedDirty(entry, accessed, dirty), k) <==>
      Bit(entry, k) || (k == 8 && accessed) || (k == 9 && dirty)
  {
    hide Bit, Or, Pow2;
    Powers();
    Entries.MarkFits(entry, ACCESSED);
    var v: Word := if accessed then Or(entry, ACCESSED) else entry;
    OrBits(entry, 0x100, k);
    OrBits(v, 0x200, k);
    OneBit(k);
  }

  lemma EmptyBits(k: nat)
    ensures !Bit(EMPTY, k)
  {
    NoBits(k);
  }

  // ---- what a walk reports ----

  lemma SpanIsPower(level: Level)
    ensures Span(level) == Pow2(9 * level + 3) && Width(level) == Pow2(9 * level + 12)
  {
    hide Pow2;
    ShiftIsSpan(level);
    assert LEVEL_SHIFT[level - 1] == 9 * level + 3;
  }

  /** The index at a level is the nine address bits from bit 9 * level + 3 up. */
  lemma IndexBits(v: Word, level: Level, k: nat)
    ensures Bit(IndexAt(v, level), k) <==> k < 9 && Bit(v, 9 * level + 3 + k)
  {
    hide Bit, Pow2, Span, ExtractBits, Shr;
    Powers();
    SpanIsPower(level);
    ShrIsQuotient(v, 9 * level + 3);
    BitOfRemainder(Shr(v, 9 * level + 3), 9, k);
    BitOfShr(v, 9 * level + 3, k);
  }

  lemma LeafBits(e: Word, level: Level, v: Word, k: nat)
    ensures Bit(Or(Frame(e), v % Span(level)), k) <==> (12 <= k < 52 && Bit(e, k)) || (k < 9 * level + 3 && Bit(v, k))
  {
    hide Bit, Or, Pow2, Frame, Span;
    OrBits(Frame(e), v % Span(level), k);
    FrameBits(e, k);
    SpanIsPower(level);
    BitOfRemainder(v, 9 * level + 3, k);
  }

  lemma ReportedBits(e: Word, k: nat)
    ensures Bit(And(e, PERM_ALL), k) <==> Bit(e, k) && k in {0, 1, 2, 7, 8, 9, 10, 63}
  {
    hide Bit, And;
    AndBits(e, PERM_ALL, k);
    DeclaredBits(k);
  }

  /** A successful walk, in bits of the leaf entry and of the address: bits 51:12 of the entry give the
      frame, the address gives the bits below what the leaf maps, the declared flags are reported as
      they stand, and a super page is bit 7 above level 1. */
  lemma WalkBits(stage: Stage, levels: Level, root: Table, v: Word, mem: Memory, k: nat)
    requires WalkMeaning(stage, levels, root, v, mem).Ok?
    ensures Descend(mem, root, levels, v).Leaf?
    ensures var t, e := WalkMeaning(stage, levels, root, v, mem).value, Descend(mem, root, levels, v).entry;
      && (Bit(t.physical, k) <==> (12 <= k < 52 && Bit(e, k)) || (k < 9 * t.level + 3 && Bit(v, k)))
      && (Bit(t.perms, k) <==> Bit(e, k) && k in {0, 1, 2, 7, 8, 9, 10, 63})
      && (t.huge <==> t.level > 1 && Bit(e, 7))
  {
    hide Bit, And, Or, Frame, Descend, Width, Span, Present, PageSize;
    var t, e := WalkMeaning(stage, levels, root, v, mem).value, Descend(mem, root, levels, v).entry;
    LeafBits(e, t.level, v, k);
    ReportedBits(e, k);
    PageSizeIsBit(e);
  }

  lemma PageSizeIsBit(e: Word)
    ensures PageSize(e) <==> Bit(e, 7)
    ensures Present(e) <==> Bit(e, 0)
  {
    Powers();
    assert e / 1 == e;
  }

  /** A second-stage walk of n levels is refused if and only if the address has a bit at 9n + 12 or above. */
  lemma TooLargeIffWide(stage: Stage, levels: Level, root: Table, v: Word, mem: Memory)
    ensures WalkMeaning(stage, levels, root, v, mem) == Err(AddressTooLarge(9 * levels + 12))
      <==> stage == Second && v >= Pow2(9 * levels + 12)
  {
    hide Descend, Pow2, Width;
    SpanIsPower(levels);
    assert LEVEL_SHIFT[levels - 1] + 9 == 9 * levels + 12;
  }

  // ---- one update of the leaf, seen by the walk ----

  lemma {:induction false} MarkedTrace(mem: Memory, mem': Memory, table: Table, level: Level, v: Word)
    requires forall a: Word :: WalkLaws.SameButMarks(mem(a), mem'(a))
    ensures Trace(mem', table, level, v) == Trace(mem, table, level, v)
    decreases level
  {
    hide And, Index, Frame, Present, PageSize;
    var address := EntryAddress(table, v, level);
    assert WalkLaws.SameButMarks(mem(address), mem'(address));
    if PointsToTable(mem(address)) && level > 1 {
      MarkedTrace(mem, mem', Frame(mem(address)), level - 1, v);
    }
  }

  /** Marking the leaf that a walk ends on shows in its permissions as bits 8 and 9, and nowhere else. */
  lemma MarkedLeaf(stage: Stage, levels: Level, root: Table, v: Word, mem: Memory, accessed: bool, dirty: bool, k: nat)
    requires WalkMeaning(stage, levels, root, v, mem).Ok?
    ensures Trace(mem, root, levels, v) != []
    ensures var leaf := Paths.Last(Trace(mem, root, levels, v)).address;
      var mem' := Store(mem, leaf, WithAccessedDirty(mem(leaf), accessed, dirty));
      var t, r := WalkMeaning(stage, levels, root, v, mem).value, WalkMeaning(stage, levels, root, v, mem');
      && r.Ok?
      && r.value.physical == t.physical && r.value.level == t.level && r.value.huge == t.huge
      && (Bit(r.value.perms, k) <==> Bit(t.perms, k) || (k == 8 && accessed) || (k == 9 && dirty))
  {
    hide And, Or, Index, Frame, Present, PageSize, Descend, Width, Span, Bit, WithAccessedDirty, WalkMeaning, Trace;
    var path := Trace(mem, root, levels, v);
    Paths.TraceIsPath(mem, root, levels, v);
    var leaf := Paths.Last(path).address;
    var mem' := Store(mem, leaf, WithAccessedDirty(mem(leaf), accessed, dirty));
    forall a: Word ensures WalkLaws.SameButMarks(mem(a), mem'(a)) {
      Entries.MarkedEntry(mem(a), accessed, dirty);
    }
    MarkedTrace(mem, mem', root, levels, v);
    Paths.TraceIsPath(mem', root, levels, v);
    WalkLaws.WalkAnswersByItsPath(stage, levels, root, v, mem, path);
    WalkLaws.WalkAnswersByItsPath(stage, levels, root, v, mem', path);
    ReportedBits(mem(leaf), k);
    ReportedBits(mem'(leaf), k);
    AccessedDirtyBits(mem(leaf), accessed, dirty, k);
    Entries.MarkedEntry(mem(leaf), accessed, dirty);
  }
}
