/** What holds of every walk, over every memory, root, depth and address. */
module WalkLaws {
  import opened Wrappers
  import opened Bits
  import opened Radix
  import Paths
  import Addresses
  import Digits
  import opened IntelPageTables
  import opened Entries

  /** A walk answers by the last entry of the one path its address has, whatever path that is. */
  lemma WalkAnswersByItsPath(stage: Stage, levels: Level, root: Table, v: Word, mem: Memory, t: seq<Fetch>)
    requires Paths.IsPath(mem, root, levels, v, t)
    ensures t == Trace(mem, root, levels, v)
    ensures forall i | 0 <= i < |t| :: t[i].level == levels - i
    ensures var r := WalkMeaning(stage, levels, root, v, mem);
      var last := Paths.Last(t);
      var entry := mem(last.address);
      && (r.Err? && r.error.AddressTooLarge? <==> stage == Second && v >= Width(levels))
      && (r == Err(NotPresent(last.level)) <==> !TooLarge(stage, levels, v) && !Present(entry))
      && (r.Ok? <==> !TooLarge(stage, levels, v) && Present(entry))
      && (r.Ok? ==> r.value == Translation(Or(Frame(entry), v % Span(last.level)), last.level,
                                           And(entry, PERM_ALL), PageSize(entry) && last.level > 1))
  {
    hide Span, Width, Index, Frame, Present, PageSize, And, Or;
    Paths.PathIsUnique(mem, root, levels, v, t);
    PathLevels(mem, root, levels, v, t);
  }

  lemma {:induction false} PathLevels(mem: Memory, table: Table, level: Level, v: Word, t: seq<Fetch>)
    requires Paths.IsPath(mem, table, level, v, t)
    ensures forall i | 0 <= i < |t| :: t[i].level == level - i
    decreases level
  {
    hide Index, Frame, Present, PageSize;
    if |t| > 1 {
      Paths.PathTail(mem, table, level, v, t);
      var rest := t[1..];
      PathLevels(mem, Frame(mem(t[0].address)), level - 1, v, rest);
      forall i | 0 < i < |t|
        ensures t[i].level == level - i
      {
        assert rest[i - 1].level == level - 1 - (i - 1);
      }
    }
  }

  /** A walk does not notice a write to an entry it does not read. */
  lemma WriteElsewhere(stage: Stage, levels: Level, root: Table, v: Word, mem: Memory, slot: Word, entry: Word)
    requires forall f | f in Trace(mem, root, levels, v) :: f.address != slot
    ensures WalkMeaning(stage, levels, root, v, Store(mem, slot, entry)) == WalkMeaning(stage, levels, root, v, mem)
    ensures Trace(Store(mem, slot, entry), root, levels, v) == Trace(mem, root, levels, v)
  {
    Paths.FrameRule(mem, Store(mem, slot, entry), root, levels, v);
  }

  // ---- accessed and dirty marks ----

  datatype Mark = Mark(address: Word, accessed: bool, dirty: bool)

  /** The memory after hardware has marked entries, one after the other. */
  function Marked(mem: Memory, marks: seq<Mark>): Memory {
    if marks == [] then mem
    else
      var m := marks[0];
      Marked(Store(mem, m.address, WithAccessedDirty(mem(m.address), m.accessed, m.dirty)), marks[1..])
  }

  /** Entries that differ in accessed and dirty marks only, as far as a walk can tell. */
  predicate SameButMarks(e: Word, e': Word) {
    && Present(e') == Present(e)
    && PageSize(e') == PageSize(e)
    && Frame(e') == Frame(e)
    && And(e', UNMARKED) == And(e, UNMARKED)
  }

  lemma {:induction false} MarkedEntries(mem: Memory, marks: seq<Mark>, a: Word)
    ensures SameButMarks(mem(a), Marked(mem, marks)(a))
  {
    hide And, Frame, Present, PageSize, WithAccessedDirty;
    if marks != [] {
      var m := marks[0];
      var mem' := Store(mem, m.address, WithAccessedDirty(mem(m.address), m.accessed, m.dirty));
      MarkedEntry(mem(m.address), m.accessed, m.dirty);
      MarkedEntries(mem', marks[1..], a);
    }
  }

  predicate OutcomesSameButMarks(o: Outcome, o': Outcome) {
    match o
    case Absent(_) => o' == o
    case Leaf(level, e) => o'.Leaf? && o'.level == level && SameButMarks(e, o'.entry)
  }

  lemma {:induction false} DescendIgnoresMarks(mem: Memory, mem': Memory, table: Table, level: Level, v: Word)
    requires forall a: Word :: SameButMarks(mem(a), mem'(a))
    ensures OutcomesSameButMarks(Descend(mem, table, level, v), Descend(mem', table, level, v))
    decreases level
  {
    hide And, Frame, Present, PageSize, Index;
    var address := EntryAddress(table, v, level);
    assert SameButMarks(mem(address), mem'(address));
    if PointsToTable(mem(address)) && level > 1 {
      DescendIgnoresMarks(mem, mem', Frame(mem(address)), level - 1, v);
    }
  }

  /** No run of accessed/dirty updates, to any entries, changes where any address is translated
      to, at which level, or that it is not translated; only the two marks may differ. */
  lemma MarksAreInvisible(stage: Stage, levels: Level, root: Table, v: Word, mem: Memory, marks: seq<Mark>)
    ensures var r, r' := WalkMeaning(stage, levels, root, v, mem), WalkMeaning(stage, levels, root, v, Marked(mem, marks));
      && (r.Err? ==> r' == r)
      && (r.Ok? ==>
            && r'.Ok?
            && r'.value.physical == r.value.physical
            && r'.value.level == r.value.level
            && r'.value.huge == r.value.huge
            && And(r'.value.perms, UNMARKED) == And(r.value.perms, UNMARKED))
  {
    hide And, Or, Frame, Present, PageSize, Span, Width, Marked;
    var mem' := Marked(mem, marks);
    forall a: Word ensures SameButMarks(mem(a), mem'(a)) {
      MarkedEntries(mem, marks, a);
    }
    DescendIgnoresMarks(mem, mem', root, levels, v);
    var o, o' := Descend(mem, root, levels, v), Descend(mem', root, levels, v);
    if o.Leaf? {
      UnmarkedFlags(o.entry);
      UnmarkedFlags(o'.entry);
    }
  }

  lemma UnmarkedFlags(entry: nat)
    ensures And(And(entry, PERM_ALL), UNMARKED) == And(entry, UNMARKED)
  {
    hide And;
    AndAssociates(entry, PERM_ALL, UNMARKED);
    SubMask();
  }

  // ---- one leaf, many addresses ----

  lemma {:induction false} SharedDescent(mem: Memory, table: Table, level: Level, v: Word, w: Word)
    requires forall l: Level | Descend(mem, table, level, v).level <= l <= level :: Index(v, l) == Index(w, l)
    ensures Descend(mem, table, level, w) == Descend(mem, table, level, v)
    ensures Descend(mem, table, level, v).level <= level
    decreases level
  {
    hide Index, Frame, Present, PageSize;
    DescentStaysBelow(mem, table, level, v);
    assert Index(v, level) == Index(w, level);
    var entry := mem(EntryAddress(table, v, level));
    if PointsToTable(entry) && level > 1 {
      SharedDescent(mem, Frame(entry), level - 1, v, w);
    }
  }

  lemma {:induction false} DescentStaysBelow(mem: Memory, table: Table, level: Level, v: Word)
    ensures Descend(mem, table, level, v).level <= level
    decreases level
  {
    hide Index, Frame, Present, PageSize;
    var entry := mem(EntryAddress(table, v, level));
    if PointsToTable(entry) && level > 1 {
      DescentStaysBelow(mem, Frame(entry), level - 1, v);
    }
  }

  lemma SharedWidth(levels: Level, level: Level, v: Word, w: Word)
    requires level <= levels && v / Span(level) == w / Span(level)
    ensures v >= Width(levels) <==> w >= Width(levels)
  {
    hide Span, Width, Addresses.Pow512;
    Addresses.SpanRatio(levels, level);
    Digits.SameQuotient(v, w, Span(level), 512 * Addresses.Pow512(levels - level));
  }

  /** Where a walk succeeds, it ends on a leaf. */
  lemma OkIsLeaf(stage: Stage, levels: Level, root: Table, v: Word, mem: Memory)
    requires WalkMeaning(stage, levels, root, v, mem).Ok?
    ensures var o := Descend(mem, root, levels, v);
      o.Leaf? && o.level == WalkMeaning(stage, levels, root, v, mem).value.level
  {
  }

  /** Every address under the leaf of `v` walks to that leaf. */
  lemma SameLeaf(stage: Stage, levels: Level, root: Table, v: Word, w: Word, mem: Memory)
    requires WalkMeaning(stage, levels, root, v, mem).Ok?
    requires var level := WalkMeaning(stage, levels, root, v, mem).value.level; w / Span(level) == v / Span(level)
    ensures var t, r := WalkMeaning(stage, levels, root, v, mem).value, WalkMeaning(stage, levels, root, w, mem);
      && r.Ok?
      && r.value.level == t.level && r.value.perms == t.perms && r.value.huge == t.huge
      && Descend(mem, root, levels, v).Leaf?
      && r.value.physical == Or(Frame(Descend(mem, root, levels, v).entry), w % Span(t.level))
  {
    hide And, Or, Index, Frame, Present, PageSize, Width, Span;
    var level := WalkMeaning(stage, levels, root, v, mem).value.level;
    DescentStaysBelow(mem, root, levels, v);
    forall l: Level | level <= l <= levels ensures Index(v, l) == Index(w, l) {
      Addresses.SharedIndex(v, w, level, l);
    }
    SharedDescent(mem, root, levels, v, w);
    SharedWidth(levels, level, v, w);
  }

  /** A leaf translates every address it maps, and moves them all by the same distance when its
      frame is aligned to what it maps. */
  lemma LeafIsAnOffset(stage: Stage, levels: Level, root: Table, v: Word, w: Word, mem: Memory)
    requires WalkMeaning(stage, levels, root, v, mem).Ok?
    requires var level := WalkMeaning(stage, levels, root, v, mem).value.level; v / Span(level) == w / Span(level)
    ensures var r, r' := WalkMeaning(stage, levels, root, v, mem), WalkMeaning(stage, levels, root, w, mem);
      && r'.Ok?
      && r'.value.level == r.value.level && r'.value.perms == r.value.perms && r'.value.huge == r.value.huge
      && (Frame(Descend(mem, root, levels, v).entry) % Span(r.value.level) == 0 ==>
            r'.value.physical - r.value.physical == w - v)
  {
    OkIsLeaf(stage, levels, root, v, mem);
    hide And, Or, Index, Frame, Present, PageSize, Width, Span, WalkMeaning, Descend;
    SameLeaf(stage, levels, root, v, v, mem);
    SameLeaf(stage, levels, root, v, w, mem);
    var level := WalkMeaning(stage, levels, root, v, mem).value.level;
    var base := Frame(Descend(mem, root, levels, v).entry);
    if base % Span(level) == 0 {
      AlignedOffset(base, level, v);
      AlignedOffset(base, level, w);
      SameBlock(v, w, level);
    }
  }

  lemma SameBlock(v: Word, w: Word, level: Level)
    requires v / Span(level) == w / Span(level)
    ensures w % Span(level) - v % Span(level) == w - v
  {
  }

  lemma AlignedOffset(base: nat, level: Level, v: Word)
    requires base % Span(level) == 0
    ensures Or(base, v % Span(level)) == base + v % Span(level)
  {
    hide Or;
    ShiftIsSpan(level);
    AlignedOr(base, v % Span(level), LEVEL_SHIFT[level - 1], Span(level));
  }

  /** Joining frame and offset is adding them, for every offset, only if the frame is aligned. */
  lemma OffsetsAddIffAligned(base: nat, level: Level)
    ensures (forall v: Word :: Or(base, v % Span(level)) == base + v % Span(level)) <==> base % Span(level) == 0
  {
    hide Or, Span;
    if base % Span(level) == 0 {
      forall v: Word ensures Or(base, v % Span(level)) == base + v % Span(level) {
        AlignedOffset(base, level, v);
      }
    } else {
      var v := OffsetLost(base, level);
      assert Or(base, v % Span(level)) != base + v % Span(level);
    }
  }

  lemma OffsetLost(base: nat, level: Level) returns (v: Word)
    requires base % Span(level) != 0
    ensures Or(base, v % Span(level)) == base
    ensures v % Span(level) != 0
  {
    hide Or;
    OwnLowBits(base, level);
    v := base % Span(level);
    ModIs(v, Span(level), 0, v);
  }

  /** The address at distance `o` from the start of the block that `v` lies in. */
  lemma InBlock(v: Word, level: Level, o: nat) returns (w: Word)
    requires o < Span(level)
    ensures w / Span(level) == v / Span(level) && w % Span(level) == o
  {
    w := v - v % Span(level) + o;
    ModIs(w, Span(level), v / Span(level), o);
  }

  /** A walk moves all addresses under its leaf by one distance if and only if the leaf's frame is
      aligned to what the leaf maps. */
  lemma OffsetIffAligned(stage: Stage, levels: Level, root: Table, v: Word, mem: Memory)
    requires WalkMeaning(stage, levels, root, v, mem).Ok?
    ensures var t := WalkMeaning(stage, levels, root, v, mem).value;
      (forall w: Word | w / Span(t.level) == v / Span(t.level) ::
         var r := WalkMeaning(stage, levels, root, w, mem); r.Ok? && r.value.physical - t.physical == w - v)
      <==> Frame(Descend(mem, root, levels, v).entry) % Span(t.level) == 0
  {
    OkIsLeaf(stage, levels, root, v, mem);
    hide And, Or, Index, Frame, Present, PageSize, Width, Span, WalkMeaning, Descend;
    var t := WalkMeaning(stage, levels, root, v, mem).value;
    var base := Frame(Descend(mem, root, levels, v).entry);
    if base % Span(t.level) == 0 {
      forall w: Word | w / Span(t.level) == v / Span(t.level)
        ensures var r := WalkMeaning(stage, levels, root, w, mem); r.Ok? && r.value.physical - t.physical == w - v
      {
        LeafIsAnOffset(stage, levels, root, v, w, mem);
      }
    } else {
      var first := InBlock(v, t.level, 0);
      var lost := InBlock(v, t.level, base % Span(t.level));
      SameLeaf(stage, levels, root, v, first, mem);
      SameLeaf(stage, levels, root, v, lost, mem);
      OwnLowBits(base, t.level);
      assert first != lost;
    }
  }

  lemma OwnLowBits(base: nat, level: Level)
    ensures Or(base, base % Span(level)) == base && Or(base, 0) == base
  {
    ShiftIsSpan(level);
    OrOwnLowBits(base, LEVEL_SHIFT[level - 1]);
  }

  /** Two levels of tables above a table of misaligned 2 MiB super pages. */
  ghost predicate IsMisaligned(mem: Memory) {
    && mem(0) == TableEntry(0x1000) && mem(0x1000) == TableEntry(0x2000)
    && mem(0x2000) == HugePage(0x1000, R + W)
  }

  lemma MisalignedDescent(mem: Memory, v: Word)
    requires IsMisaligned(mem) && v < 0x20_0000
    ensures Descend(mem, 0, 4, v) == Leaf(2, HugePage(0x1000, R + W))
    ensures PageSize(HugePage(0x1000, R + W)) && Frame(HugePage(0x1000, R + W)) == 0x1000
  {
    hide Or, And, HugePage, TableEntry, Frame, Present, PageSize;
    HugePageEntry(0x1000, R + W);
    TableEntryIs(0x1000);
    TableEntryIs(0x2000);
    OwnFrame(0x1000);
    OwnFrame(0x2000);
    assert Index(v, 4) == 0 && Index(v, 3) == 0 && Index(v, 2) == 0;
    assert Descend(mem, 0x2000, 2, v) == Leaf(2, HugePage(0x1000, R + W));
    assert Descend(mem, 0x1000, 3, v) == Descend(mem, 0x2000, 2, v);
  }

  /** The walker does not ask for that alignment: in this four-level tree two addresses of one 2 MiB
      super page translate to the same byte. */
  lemma MisalignedSuperPage(mem: Memory)
    requires IsMisaligned(mem)
    ensures WalkMeaning(Second, 4, 0, 0x1000, mem) == WalkMeaning(Second, 4, 0, 0, mem)
    ensures WalkMeaning(Second, 4, 0, 0, mem).Ok? && WalkMeaning(Second, 4, 0, 0, mem).value.level == 2
  {
    hide Or, And, HugePage, TableEntry, Frame, Present, PageSize, Descend;
    MisalignedDescent(mem, 0);
    MisalignedDescent(mem, 0x1000);
    OwnLowBits(0x1000, 2);
    assert 0x1000 % Span(2) == 0x1000;
  }

  /** Tables ignore address bits above their width. */
  lemma AliasDescent(levels: Level, root: Table, v: Word, mem: Memory)
    ensures v % Width(levels) < U64_LIMIT
    ensures Descend(mem, root, levels, v) == Descend(mem, root, levels, v % Width(levels))
    ensures var level := Descend(mem, root, levels, v).level; v % Width(levels) % Span(level) == v % Span(level)
  {
    hide Index, Frame, Present, PageSize;
    Addresses.IndexModuloWidth(v, levels, levels);
    var w: Word := v % Width(levels);
    forall l: Level | l <= levels ensures Index(v, l) == Index(w, l) {
      Addresses.IndexModuloWidth(v, levels, l);
    }
    SharedDescent(mem, root, levels, v, w);
    var level := Descend(mem, root, levels, v).level;
    Addresses.SpanRatio(levels, level);
    Digits.ModKeepsDigit(v, Span(level), 512 * Addresses.Pow512(levels - level));
  }

  /** Where there is no width check, a walk is that of the address modulo the table width. */
  lemma AliasModuloWidth(levels: Level, root: Table, v: Word, mem: Memory)
    ensures v % Width(levels) < U64_LIMIT
    ensures WalkMeaning(First, levels, root, v, mem) == WalkMeaning(First, levels, root, v % Width(levels), mem)
  {
    hide And, Or, Frame, PageSize, Descend, Width, Span;
    AliasDescent(levels, root, v, mem);
  }
}
