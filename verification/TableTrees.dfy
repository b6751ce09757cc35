/** Table trees: every table page is reached by one path only, so slots are not shared. */
module TableTrees {
  import opened Wrappers
  import opened Bits
  import opened Radix
  import Paths
  import opened Addresses

  /** A table's place in the tree: its level, and which of that level's tables it is. */
  datatype Place = Place(level: Level, prefix: nat)

  /** The places of the table pages. As it is a map, no page has two places. */
  type Layout = map<Table, Place>

  /** Pages are aligned, the root is the top table, and an entry that points to a table points to
      the page with the place below it. */
  ghost predicate IsTree(mem: Memory, root: Table, top: Level, layout: Layout) {
    && root in layout && layout[root] == Place(top, 0)
    && (forall t: Table | t in layout :: t % PAGE == 0)
    && (forall t: Table, i: nat | t in layout && i < 512 :: WellPlaced(mem, layout, t, i))
  }

  ghost predicate WellPlaced(mem: Memory, layout: Layout, t: Table, i: nat)
    requires t in layout && i < 512
  {
    var entry := mem(t + 8 * i);
    PointsToTable(entry) && layout[t].level > 1 ==>
      && Frame(entry) in layout
      && layout[Frame(entry)] == Place(layout[t].level - 1, layout[t].prefix * 512 + i)
  }

  /** The address of the level-1 entry the walk of `v` ends at, if it gets that far. */
  function LeafSlot(mem: Memory, table: Table, level: Level, v: Word): Option<Word>
    decreases level
  {
    var address := EntryAddress(table, v, level);
    if level == 1 then Some(address)
    else if PointsToTable(mem(address)) then LeafSlot(mem, Frame(mem(address)), level - 1, v)
    else None
  }

  // ---- every entry read by a walk lies in the table placed for it ----

  ghost predicate Placed(layout: Layout, top: Level, v: Word, f: Fetch) {
    var t := f.address / PAGE * PAGE;
    && f.level <= top
    && t in layout
    && layout[t] == Place(f.level, Prefix(v, top, f.level))
    && f.address == t + 8 * Index(v, f.level)
  }

  lemma SlotInPage(t: Table, i: nat)
    requires t % PAGE == 0 && i < 512
    ensures (t + 8 * i) / PAGE * PAGE == t
  {
  }

  lemma NextPrefix(v: Word, top: Level, level: Level)
    requires 1 < level <= top
    ensures Prefix(v, top, level - 1) == Prefix(v, top, level) * 512 + Index(v, level)
  {
    PrefixStep(v, top, level);
  }

  lemma TopPrefix(v: Word, top: Level)
    ensures Prefix(v, top, top) == 0
  {
  }

  lemma {:induction false} TraceIsPlaced(mem: Memory, root: Table, top: Level, layout: Layout,
                                         table: Table, level: Level, v: Word)
    requires IsTree(mem, root, top, layout)
    requires level <= top && table in layout && layout[table] == Place(level, Prefix(v, top, level))
    ensures forall f | f in Trace(mem, table, level, v) :: Placed(layout, top, v, f)
    decreases level
  {
    hide Frame, Present, PageSize, Span, Width, Prefix, Index;
    var i := Index(v, level);
    SlotInPage(table, i);
    var address := EntryAddress(table, v, level);
    assert Placed(layout, top, v, Fetch(level, address));
    var entry := mem(address);
    if PointsToTable(entry) && level > 1 {
      assert WellPlaced(mem, layout, table, i);
      NextPrefix(v, top, level);
      TraceIsPlaced(mem, root, top, layout, Frame(entry), level - 1, v);
    }
  }

  /** Two walks that read the same entry read it at the same level, and there they agree on the
      address bits from that level up. */
  lemma SharedEntry(mem: Memory, root: Table, top: Level, layout: Layout, v: Word, w: Word, f: Fetch, g: Fetch)
    requires IsTree(mem, root, top, layout)
    requires f in Trace(mem, root, top, v) && g in Trace(mem, root, top, w)
    requires f.address == g.address
    ensures f.level == g.level <= top
    ensures v % Width(top) / Span(f.level) == w % Width(top) / Span(f.level)
  {
    hide Frame, Present, PageSize, Span, Width, Prefix, Index;
    TopPrefix(v, top);
    TopPrefix(w, top);
    TraceIsPlaced(mem, root, top, layout, root, top, v);
    TraceIsPlaced(mem, root, top, layout, root, top, w);
    assert Placed(layout, top, v, f) && Placed(layout, top, w, g);
    PrefixStep(v, top, f.level);
    PrefixStep(w, top, f.level);
  }

  lemma {:induction false} LeafSlotIsRead(mem: Memory, table: Table, level: Level, v: Word)
    requires LeafSlot(mem, table, level, v).Some?
    ensures Fetch(1, LeafSlot(mem, table, level, v).value) in Trace(mem, table, level, v)
    decreases level
  {
    hide Frame, Present, PageSize, Index;
    if level > 1 {
      LeafSlotIsRead(mem, Frame(mem(EntryAddress(table, v, level))), level - 1, v);
    }
  }

  /** Addresses of different pages that both walk to level 1 end at different slots. */
  lemma SlotsAreNotShared(mem: Memory, root: Table, top: Level, layout: Layout, v: Word, w: Word)
    requires IsTree(mem, root, top, layout)
    requires LeafSlot(mem, root, top, v).Some? && LeafSlot(mem, root, top, w).Some?
    ensures LeafSlot(mem, root, top, v) == LeafSlot(mem, root, top, w) <==> PageNumber(v, top) == PageNumber(w, top)
  {
    hide Frame, Present, PageSize, Index;
    var s, s' := LeafSlot(mem, root, top, v).value, LeafSlot(mem, root, top, w).value;
    LeafSlotIsRead(mem, root, top, v);
    LeafSlotIsRead(mem, root, top, w);
    if s == s' {
      SharedEntry(mem, root, top, layout, v, w, Fetch(1, s), Fetch(1, s'));
    }
    if PageNumber(v, top) == PageNumber(w, top) {
      SameIndexesSamePage(v, w, top);
      SamePageSameSlot(mem, root, top, v, w);
    }
  }

  lemma {:induction false} SamePageSameSlot(mem: Memory, table: Table, level: Level, v: Word, w: Word)
    requires forall l: Level | l <= level :: Index(v, l) == Index(w, l)
    ensures LeafSlot(mem, table, level, v) == LeafSlot(mem, table, level, w)
    decreases level
  {
    hide Frame, Present, PageSize, Index;
    assert Index(v, level) == Index(w, level);
    var entry := mem(EntryAddress(table, v, level));
    if PointsToTable(entry) && level > 1 {
      SamePageSameSlot(mem, Frame(entry), level - 1, v, w);
    }
  }

  // ---- rewriting one level-1 entry ----

  /** How a walk ends on a level-1 entry. */
  function LeafOutcome(entry: Word): Outcome {
    if Present(entry) then Leaf(1, entry) else Absent(1)
  }

  /** The rewritten entry is no table pointer of the tree: the tree stands. */
  lemma RewriteKeepsTree(mem: Memory, root: Table, top: Level, layout: Layout, v: Word, entry: Word)
    requires IsTree(mem, root, top, layout) && LeafSlot(mem, root, top, v).Some?
    ensures IsTree(Store(mem, LeafSlot(mem, root, top, v).value, entry), root, top, layout)
  {
    hide Frame, Present, PageSize, Span, Width, Prefix, Index;
    var s := LeafSlot(mem, root, top, v).value;
    var mem' := Store(mem, s, entry);
    LeafSlotIsRead(mem, root, top, v);
    TopPrefix(v, top);
    TraceIsPlaced(mem, root, top, layout, root, top, v);
    assert Placed(layout, top, v, Fetch(1, s));
    forall t: Table, i: nat | t in layout && i < 512 ensures WellPlaced(mem', layout, t, i) {
      assert WellPlaced(mem, layout, t, i);
      SlotInPage(t, i);
    }
  }

  /** A walk reads the rewritten slot last, if at all. */
  lemma SlotIsReadLast(mem: Memory, root: Table, top: Level, layout: Layout, v: Word, w: Word)
    requires IsTree(mem, root, top, layout) && LeafSlot(mem, root, top, v).Some?
    ensures forall f | f in Trace(mem, root, top, w) && f.address == LeafSlot(mem, root, top, v).value ::
      f.level == 1 && PageNumber(w, top) == PageNumber(v, top)
  {
    hide Frame, Present, PageSize, Width, Index;
    var s := LeafSlot(mem, root, top, v).value;
    LeafSlotIsRead(mem, root, top, v);
    forall f | f in Trace(mem, root, top, w) && f.address == s
      ensures f.level == 1 && PageNumber(w, top) == PageNumber(v, top)
    {
      SharedEntry(mem, root, top, layout, v, w, Fetch(1, s), f);
    }
  }

  lemma {:induction false} RewrittenDescent(mem: Memory, mem': Memory, table: Table, level: Level, w: Word)
    requires forall f | f in Trace(mem, table, level, w) && f.level > 1 :: mem'(f.address) == mem(f.address)
    ensures LeafSlot(mem', table, level, w) == LeafSlot(mem, table, level, w)
    ensures LeafSlot(mem, table, level, w).Some? ==>
      Descend(mem', table, level, w) == LeafOutcome(mem'(LeafSlot(mem, table, level, w).value))
    ensures LeafSlot(mem, table, level, w).None? ==> Descend(mem', table, level, w) == Descend(mem, table, level, w)
    decreases level
  {
    hide Frame, Present, PageSize, Index;
    var address := EntryAddress(table, w, level);
    assert Fetch(level, address) in Trace(mem, table, level, w);
    var entry := mem(address);
    if PointsToTable(entry) && level > 1 {
      RewrittenDescent(mem, mem', Frame(entry), level - 1, w);
    }
  }

  /** Rewriting the level-1 entry of `v` changes the walk of the addresses in the page of `v`,
      modulo the table width, to end on the new entry, and of no other address. */
  lemma RewriteOnePage(mem: Memory, root: Table, top: Level, layout: Layout, v: Word, entry: Word, w: Word)
    requires IsTree(mem, root, top, layout) && LeafSlot(mem, root, top, v).Some?
    ensures var mem' := Store(mem, LeafSlot(mem, root, top, v).value, entry);
      && LeafSlot(mem', root, top, w) == LeafSlot(mem, root, top, w)
      && Descend(mem', root, top, w) ==
           if PageNumber(w, top) == PageNumber(v, top) then LeafOutcome(entry) else Descend(mem, root, top, w)
  {
    hide Frame, Present, PageSize, Index;
    var s := LeafSlot(mem, root, top, v).value;
    var mem' := Store(mem, s, entry);
    SlotIsReadLast(mem, root, top, layout, v, w);
    RewrittenDescent(mem, mem', root, top, w);
    if PageNumber(w, top) == PageNumber(v, top) {
      SameIndexesSamePage(v, w, top);
      SamePageSameSlot(mem, root, top, v, w);
    } else {
      Paths.FrameRule(mem, mem', root, top, w);
    }
  }
}
