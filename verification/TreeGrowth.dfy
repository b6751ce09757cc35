/** Growing a tree of tables: an empty root page is a tree, and a fresh page hung below an empty entry
    makes a larger one that translates nothing more. */
module TreeGrowth {
  import opened Wrappers
  import opened Bits
  import opened Radix
  import opened Paths
  import Addresses
  import opened IntelPageTables
  import opened Entries
  import opened TableTrees
  import opened SuperPages

  /** A page of absent entries. */
  ghost predicate IsEmptyPage(mem: Memory, t: Table) {
    && t % PAGE == 0 && t < FRAME_LIMIT
    && forall i: nat | i < 512 :: !Present(mem(t + 8 * i))
  }

  lemma Plant(mem: Memory, root: Table, top: Level)
    requires IsEmptyPage(mem, root)
    ensures IsTree(mem, root, top, map[root := Place(top, 0)])
  {
    hide Present, PageSize, Frame;
    var layout := map[root := Place(top, 0)];
    forall t: Table, i: nat | t in layout && i < 512 ensures WellPlaced(mem, layout, t, i) {
      assert !Present(mem(root + 8 * i));
    }
  }

  /** The layout with a page `t` below entry `i` of the page `parent`. */
  function Extended(layout: Layout, parent: Table, i: nat, t: Table): Layout
    requires parent in layout && layout[parent].level > 1
  {
    layout[t := Place(layout[parent].level - 1, layout[parent].prefix * 512 + i)]
  }

  /** Entry `i` of a table of the tree is empty, and `t` is an empty page outside the tree. */
  ghost predicate Graftable(mem: Memory, layout: Layout, parent: Table, i: nat, t: Table) {
    && parent in layout && layout[parent].level > 1 && i < 512
    && !Present(mem(parent + 8 * i))
    && IsEmptyPage(mem, t) && t !in layout
  }

  /** A non-leaf entry for a fresh page keeps the tree a tree. */
  lemma GraftKeepsTree(mem: Memory, root: Table, top: Level, layout: Layout, parent: Table, i: nat, t: Table)
    requires IsTree(mem, root, top, layout) && Graftable(mem, layout, parent, i, t)
    ensures IsTree(Store(mem, parent + 8 * i, TableEntry(t)), root, top, Extended(layout, parent, i, t))
  {
    hide Present, PageSize, Frame, TableEntry;
    var mem', layout' := Store(mem, parent + 8 * i, TableEntry(t)), Extended(layout, parent, i, t);
    TableEntryIs(t);
    OwnFrame(t);
    forall u: Table, j: nat | u in layout' && j < 512 ensures WellPlaced(mem', layout', u, j) {
      SlotInPage(parent, i);
      SlotInPage(u, j);
      if u == t {
        assert !Present(mem(t + 8 * j));
      } else {
        assert WellPlaced(mem, layout, u, j);
      }
    }
  }

  lemma OtherPage(u: Table, j: nat, t: Table)
    requires u % PAGE == 0 && t % PAGE == 0 && u != t && j < 512
    ensures !(t <= u + 8 * j < t + PAGE)
  {
  }

  lemma SlotsDiffer(u: Table, j: nat, t: Table, i: nat)
    requires u % PAGE == 0 && t % PAGE == 0 && i < 512 && j < 512
    ensures u + 8 * j == t + 8 * i <==> u == t && j == i
  {
    SlotInPage(u, j);
    SlotInPage(t, i);
  }

  /** What a walk can read of a tree and what it cannot. */
  lemma TreeReads(mem: Memory, root: Table, top: Level, layout: Layout, v: Word, f: Fetch, parent: Table, i: nat, t: Table)
    requires IsTree(mem, root, top, layout) && f in Trace(mem, root, top, v)
    requires parent in layout && i < 512 && t % PAGE == 0 && t !in layout
    ensures f.address == parent + 8 * i ==> f.level == layout[parent].level
    ensures !(t <= f.address < t + PAGE)
  {
    hide Present, PageSize, Frame, Span, Width, Addresses.Prefix, Index;
    TopPrefix(v, top);
    TraceIsPlaced(mem, root, top, layout, root, top, v);
    assert Placed(layout, top, v, f);
    var u := f.address / PAGE * PAGE;
    SlotsDiffer(u, Index(v, f.level), parent, i);
    OtherPage(u, Index(v, f.level), t);
  }

  lemma {:induction false} GraftDescent(mem: Memory, table: Table, level: Level, v: Word, slot: Word, at: Level, t: Table)
    requires at > 1 && !Present(mem(slot)) && IsEmptyPage(mem, t) && !(t <= slot < t + PAGE)
    requires forall f | f in Trace(mem, table, level, v) :: f.address == slot ==> f.level == at
    ensures Descend(Store(mem, slot, TableEntry(t)), table, level, v) ==
      if ReadsSlot(mem, table, level, v, slot) then Absent(at - 1) else Descend(mem, table, level, v)
    decreases level
  {
    hide Present, PageSize, Frame, TableEntry, ReadsSlot, Index;
    var mem' := Store(mem, slot, TableEntry(t));
    var address := EntryAddress(table, v, level);
    assert Fetch(level, address) in Trace(mem, table, level, v);
    ReadsSlotStep(mem, table, level, v, slot);
    if address == slot {
      TableEntryIs(t);
      OwnFrame(t);
      var below := EntryAddress(t, v, level - 1);
      assert below == t + 8 * Index(v, level - 1) && !Present(mem(below));
      assert Descend(mem', t, level - 1, v) == Absent(level - 1);
    } else if level > 1 && PointsToTable(mem(address)) {
      GraftDescent(mem, Frame(mem(address)), level - 1, v, slot, at, t);
    }
  }

  /** It changes no walk but those that ended at the filled entry: these now end one level further down. */
  lemma GraftKeepsTranslations(stage: Stage, mem: Memory, root: Table, top: Level, layout: Layout,
                               parent: Table, i: nat, t: Table, v: Word)
    requires IsTree(mem, root, top, layout) && Graftable(mem, layout, parent, i, t)
    ensures var r := WalkMeaning(stage, top, root, v, mem);
      var r' := WalkMeaning(stage, top, root, v, Store(mem, parent + 8 * i, TableEntry(t)));
      if ReadsSlot(mem, root, top, v, parent + 8 * i) && !TooLarge(stage, top, v)
      then r == Err(NotPresent(layout[parent].level)) && r' == Err(NotPresent(layout[parent].level - 1))
      else r' == r
  {
    hide Present, PageSize, Frame, TableEntry, ReadsSlot, Index, Width, Trace, IsTree;
    var slot := parent + 8 * i;
    forall f | f in Trace(mem, root, top, v) ensures f.address == slot ==> f.level == layout[parent].level {
      TreeReads(mem, root, top, layout, v, f, parent, i, t);
    }
    PageOfSlot(mem, root, top, layout, parent, i, t);
    GraftDescent(mem, root, top, v, slot, layout[parent].level, t);
    EmptySlotEnds(mem, root, top, v, slot, layout[parent].level);
  }

  lemma {:induction false} GraftedSlot(mem: Memory, table: Table, level: Level, v: Word, slot: Word, t: Table)
    requires !Present(mem(slot)) && IsEmptyPage(mem, t) && ReadsSlot(mem, table, level, v, slot)
    requires forall f | f in Trace(mem, table, level, v) :: f.address == slot ==> f.level == 2
    ensures LeafSlot(Store(mem, slot, TableEntry(t)), table, level, v) == Some(EntryAddress(t, v, 1))
    decreases level
  {
    hide Present, PageSize, Frame, TableEntry, ReadsSlot, Index;
    var address := EntryAddress(table, v, level);
    assert Fetch(level, address) in Trace(mem, table, level, v);
    ReadsSlotStep(mem, table, level, v, slot);
    if address == slot {
      TableEntryIs(t);
      OwnFrame(t);
    } else {
      GraftedSlot(mem, Frame(mem(address)), level - 1, v, slot, t);
    }
  }

  /** A graft below a level-2 entry gives every address through that entry a slot in the new page. */
  lemma GraftGivesSlot(mem: Memory, root: Table, top: Level, layout: Layout, parent: Table, i: nat, t: Table, v: Word)
    requires IsTree(mem, root, top, layout) && Graftable(mem, layout, parent, i, t) && layout[parent].level == 2
    requires ReadsSlot(mem, root, top, v, parent + 8 * i)
    ensures LeafSlot(Store(mem, parent + 8 * i, TableEntry(t)), root, top, v) == Some(EntryAddress(t, v, 1))
  {
    hide Present, TableEntry, ReadsSlot, Trace, IsTree, LeafSlot;
    forall f | f in Trace(mem, root, top, v) ensures f.address == parent + 8 * i ==> f.level == 2 {
      TreeReads(mem, root, top, layout, v, f, parent, i, t);
    }
    GraftedSlot(mem, root, top, v, parent + 8 * i, t);
  }

  lemma PageOfSlot(mem: Memory, root: Table, top: Level, layout: Layout, parent: Table, i: nat, t: Table)
    requires IsTree(mem, root, top, layout) && parent in layout && i < 512 && t % PAGE == 0 && t !in layout
    ensures !(t <= parent + 8 * i < t + PAGE)
  {
    SlotInPage(parent, i);
  }

  /** A walk that reads an absent entry ends there. */
  lemma {:induction false} EmptySlotEnds(mem: Memory, table: Table, level: Level, v: Word, slot: Word, at: Level)
    requires !Present(mem(slot))
    requires forall f | f in Trace(mem, table, level, v) :: f.address == slot ==> f.level == at
    ensures ReadsSlot(mem, table, level, v, slot) ==> Descend(mem, table, level, v) == Absent(at)
    decreases level
  {
    hide Present, PageSize, Frame, ReadsSlot, Index;
    var address := EntryAddress(table, v, level);
    assert Fetch(level, address) in Trace(mem, table, level, v);
    ReadsSlotStep(mem, table, level, v, slot);
    if address != slot && level > 1 && PointsToTable(mem(address)) {
      EmptySlotEnds(mem, Frame(mem(address)), level - 1, v, slot, at);
    }
  }

  /** In a tree, splitting a super page with a table outside the tree is untangled for every address. */
  lemma TreeIsUntangled(mem: Memory, root: Table, top: Level, layout: Layout, parent: Table, i: nat, t: Table, v: Word)
    requires IsTree(mem, root, top, layout) && parent in layout && i < 512 && t % PAGE == 0 && t !in layout
    ensures Untangled(mem, root, top, v, parent + 8 * i, layout[parent].level, t)
  {
    hide Trace, IsTree;
    forall f | f in Trace(mem, root, top, v)
      ensures (f.address == parent + 8 * i ==> f.level == layout[parent].level) && !(t <= f.address < t + PAGE)
    {
      TreeReads(mem, root, top, layout, v, f, parent, i, t);
    }
  }

  /** What the split memory holds, table by table. */
  lemma SplitEntries(mem: Memory, parent: Table, i: nat, level: Level, t: Table, u: Table, j: nat)
    requires level > 1 && i < 512 && j < 512
    requires parent % PAGE == 0 && t % PAGE == 0 && u % PAGE == 0 && parent != t
    ensures var entry := mem(parent + 8 * i);
      Split(mem, parent + 8 * i, level, t)(u + 8 * j) ==
        if u == parent && j == i then TableEntry(t)
        else if u == t then (FrameIsAligned(entry); Piece(level, Frame(entry), entry, j))
        else mem(u + 8 * j)
  {
    hide TableEntry, Piece, Frame;
    SlotsDiffer(u, j, parent, i);
    if u == t {
      SplitPage(mem, parent + 8 * i, level, t, j);
    } else {
      OtherPage(u, j, t);
    }
  }

  /** And it leaves a tree, in which the new table has its place. */
  lemma SplitKeepsTree(mem: Memory, root: Table, top: Level, layout: Layout, parent: Table, i: nat, t: Table)
    requires IsTree(mem, root, top, layout) && parent in layout && i < 512 && t !in layout
    requires Splittable(mem, parent + 8 * i, layout[parent].level, t)
    ensures IsTree(Split(mem, parent + 8 * i, layout[parent].level, t), root, top, Extended(layout, parent, i, t))
  {
    hide Present, PageSize, Frame, TableEntry, Piece, Span, Split;
    var level, entry := layout[parent].level, mem(parent + 8 * i);
    var mem', layout' := Split(mem, parent + 8 * i, level, t), Extended(layout, parent, i, t);
    TableEntryIs(t);
    OwnFrame(t);
    FrameIsAligned(entry);
    forall u: Table, j: nat | u in layout' && j < 512 ensures WellPlaced(mem', layout', u, j) {
      SplitEntries(mem, parent, i, level, t, u, j);
      if u == t {
        PieceEntry(level, Frame(entry), entry, j);
      } else {
        assert WellPlaced(mem, layout, u, j);
      }
    }
  }

  // ---- growing tables until an address has a slot ----

  /** Pages to build tables from: empty, different from each other, and none of them in the tree. */
  ghost predicate Fresh(mem: Memory, layout: Layout, pages: seq<Table>) {
    && (forall k | 0 <= k < |pages| :: IsEmptyPage(mem, pages[k]) && pages[k] !in layout)
    && (forall k, l | 0 <= k < l < |pages| :: pages[k] != pages[l])
  }

  /** The caller's part: on the way of `v` to level 1, every empty entry is pointed to the next fresh
      page. A super page on the way, or want of pages, ends the way. */
  function Grow(mem: Memory, table: Table, level: Level, v: Word, pages: seq<Table>): (Memory, seq<Table>)
    decreases level
  {
    var slot := EntryAddress(table, v, level);
    if level == 1 then (mem, pages)
    else if PointsToTable(mem(slot)) then Grow(mem, Frame(mem(slot)), level - 1, v, pages)
    else if Present(mem(slot)) || pages == [] then (mem, pages)
    else Grow(Store(mem, slot, TableEntry(pages[0])), pages[0], level - 1, v, pages[1..])
  }

  /** An address that no super page is in the way of. */
  predicate Open(mem: Memory, table: Table, level: Level, v: Word) {
    Descend(mem, table, level, v).level == 1 || Descend(mem, table, level, v).Absent?
  }

  /** What growth leaves as it was: present entries, slots, and all walks but that a failing one may
      fail further down. */
  ghost predicate Grown(mem: Memory, mem': Memory, root: Table, top: Level) {
    && (forall a: Word | Present(mem(a)) :: mem'(a) == mem(a))
    && forall w: Word ::
         && (LeafSlot(mem, root, top, w).Some? ==> LeafSlot(mem', root, top, w) == LeafSlot(mem, root, top, w))
         && (Descend(mem', root, top, w) == Descend(mem, root, top, w)
             || (Descend(mem', root, top, w).Absent? && Descend(mem, root, top, w).Absent?))
  }

  lemma GrownTwice(mem: Memory, mem': Memory, mem'': Memory, root: Table, top: Level)
    requires Grown(mem, mem', root, top) && Grown(mem', mem'', root, top)
    ensures Grown(mem, mem'', root, top)
  {
    hide Present, Descend, LeafSlot;
    forall w: Word
      ensures LeafSlot(mem, root, top, w).Some? ==> LeafSlot(mem'', root, top, w) == LeafSlot(mem, root, top, w)
      ensures Descend(mem'', root, top, w) == Descend(mem, root, top, w)
              || (Descend(mem'', root, top, w).Absent? && Descend(mem, root, top, w).Absent?)
    {
      assert LeafSlot(mem, root, top, w).Some? ==> LeafSlot(mem', root, top, w) == LeafSlot(mem, root, top, w);
    }
  }

  lemma GrownSelf(mem: Memory, root: Table, top: Level)
    ensures Grown(mem, mem, root, top)
  {
  }

  /** Slots are reached through present entries, so filling an empty one moves none. */
  lemma {:induction false} FilledSlots(mem: Memory, table: Table, level: Level, w: Word, slot: Word, entry: Word)
    requires !Present(mem(slot))
    ensures LeafSlot(mem, table, level, w).Some? ==>
      LeafSlot(Store(mem, slot, entry), table, level, w) == LeafSlot(mem, table, level, w)
    decreases level
  {
    hide Present, PageSize, Frame, Index;
    var address := EntryAddress(table, w, level);
    if level > 1 && PointsToTable(mem(address)) {
      FilledSlots(mem, Frame(mem(address)), level - 1, w, slot, entry);
    }
  }

  lemma GraftGrows(mem: Memory, root: Table, top: Level, layout: Layout, parent: Table, i: nat, t: Table)
    requires IsTree(mem, root, top, layout) && Graftable(mem, layout, parent, i, t)
    ensures Grown(mem, Store(mem, parent + 8 * i, TableEntry(t)), root, top)
  {
    hide Present, PageSize, Frame, TableEntry, ReadsSlot, Index, Trace, IsTree, LeafSlot, Descend;
    var slot := parent + 8 * i;
    var mem' := Store(mem, slot, TableEntry(t));
    forall w: Word
      ensures LeafSlot(mem, root, top, w).Some? ==> LeafSlot(mem', root, top, w) == LeafSlot(mem, root, top, w)
      ensures Descend(mem', root, top, w) == Descend(mem, root, top, w)
              || (Descend(mem', root, top, w).Absent? && Descend(mem, root, top, w).Absent?)
    {
      FilledSlots(mem, root, top, w, slot, TableEntry(t));
      forall f | f in Trace(mem, root, top, w) ensures f.address == slot ==> f.level == layout[parent].level {
        TreeReads(mem, root, top, layout, w, f, parent, i, t);
      }
      PageOfSlot(mem, root, top, layout, parent, i, t);
      GraftDescent(mem, root, top, w, slot, layout[parent].level, t);
      EmptySlotEnds(mem, root, top, w, slot, layout[parent].level);
    }
  }

  /** A graft uses up one page and leaves the others fresh. */
  lemma StaysFresh(mem: Memory, layout: Layout, parent: Table, i: nat, pages: seq<Table>)
    requires parent in layout && layout[parent].level > 1 && parent % PAGE == 0 && i < 512
    requires Fresh(mem, layout, pages) && pages != []
    ensures Fresh(Store(mem, parent + 8 * i, TableEntry(pages[0])), Extended(layout, parent, i, pages[0]), pages[1..])
  {
    hide Present, TableEntry;
    var mem' := Store(mem, parent + 8 * i, TableEntry(pages[0]));
    forall k | 0 <= k < |pages[1..]| ensures IsEmptyPage(mem', pages[1..][k]) {
      var u := pages[1..][k];
      assert u == pages[k + 1] && IsEmptyPage(mem, u);
      forall j: nat | j < 512 ensures !Present(mem'(u + 8 * j)) {
        SlotsDiffer(u, j, parent, i);
      }
    }
  }

  /** Growing on the way of an open address gives it a slot, keeps the tree, and disturbs nothing. */
  lemma {:induction false} GrowGivesSlot(mem: Memory, root: Table, top: Level, layout: Layout,
                                         table: Table, level: Level, v: Word, pages: seq<Table>)
    returns (layout': Layout)
    requires IsTree(mem, root, top, layout) && table in layout && layout[table].level == level
    requires Fresh(mem, layout, pages) && |pages| >= level - 1 && Open(mem, table, level, v)
    ensures var grown := Grow(mem, table, level, v, pages);
      && IsTree(grown.0, root, top, layout')
      && Fresh(grown.0, layout', grown.1) && |grown.1| >= |pages| - (level - 1)
      && Grown(mem, grown.0, root, top)
      && LeafSlot(grown.0, table, level, v).Some?
    decreases level
  {
    hide Present, PageSize, Frame, TableEntry, IsTree, Fresh, Grown, Index;
    var slot := EntryAddress(table, v, level);
    if level == 1 {
      layout' := layout;
      GrownSelf(mem, root, top);
    } else if PointsToTable(mem(slot)) {
      ChildIsPlaced(mem, root, top, layout, table, Index(v, level));
      layout' := GrowGivesSlot(mem, root, top, layout, Frame(mem(slot)), level - 1, v, pages);
      GrownKeepsPresent(mem, Grow(mem, table, level, v, pages).0, root, top, slot);
    } else {
      var t := pages[0];
      var mem1, layout1 := Store(mem, slot, TableEntry(t)), Extended(layout, table, Index(v, level), t);
      GrowStep(mem, root, top, layout, table, level, v, pages);
      layout' := GrowGivesSlot(mem1, root, top, layout1, t, level - 1, v, pages[1..]);
      var mem' := Grow(mem1, t, level - 1, v, pages[1..]).0;
      GrownTwice(mem, mem1, mem', root, top);
      GrownKeepsPresent(mem1, mem', root, top, slot);
    }
  }

  /** One graft on the way. */
  lemma GrowStep(mem: Memory, root: Table, top: Level, layout: Layout,
                 table: Table, level: Level, v: Word, pages: seq<Table>)
    requires IsTree(mem, root, top, layout) && table in layout && layout[table].level == level > 1
    requires Fresh(mem, layout, pages) && pages != [] && !Present(mem(EntryAddress(table, v, level)))
    ensures var t, slot := pages[0], EntryAddress(table, v, level);
      var mem', layout' := Store(mem, slot, TableEntry(t)), Extended(layout, table, Index(v, level), t);
      && IsTree(mem', root, top, layout') && layout'[t].level == level - 1
      && Fresh(mem', layout', pages[1..])
      && Grown(mem, mem', root, top)
      && PointsToTable(mem'(slot)) && Frame(mem'(slot)) == t
      && Open(mem', t, level - 1, v)
  {
    hide Present, PageSize, Frame, TableEntry, IsTree, Fresh, Grown, Index, Open;
    var slot, i, t := EntryAddress(table, v, level), Index(v, level), pages[0];
    FirstIsGraftable(mem, layout, table, i, pages);
    GraftKeepsTree(mem, root, top, layout, table, i, t);
    GraftGrows(mem, root, top, layout, table, i, t);
    TreePages(mem, root, top, layout, table);
    StaysFresh(mem, layout, table, i, pages);
    PageOfSlot(mem, root, top, layout, table, i, t);
    EmptyPageIsOpen(mem, slot, t, level - 1, v);
    TableEntryIs(t);
    OwnPage(mem, t);
  }

  lemma ChildIsPlaced(mem: Memory, root: Table, top: Level, layout: Layout, t: Table, i: nat)
    requires IsTree(mem, root, top, layout) && t in layout && layout[t].level > 1 && i < 512
    requires PointsToTable(mem(t + 8 * i))
    ensures Frame(mem(t + 8 * i)) in layout && layout[Frame(mem(t + 8 * i))].level == layout[t].level - 1
  {
    hide Present, PageSize, Frame;
    assert WellPlaced(mem, layout, t, i);
  }

  lemma TreePages(mem: Memory, root: Table, top: Level, layout: Layout, t: Table)
    requires IsTree(mem, root, top, layout) && t in layout
    ensures t % PAGE == 0
  {
  }

  lemma GrownKeepsPresent(mem: Memory, mem': Memory, root: Table, top: Level, a: Word)
    requires Grown(mem, mem', root, top) && Present(mem(a))
    ensures mem'(a) == mem(a)
  {
  }

  lemma FirstIsGraftable(mem: Memory, layout: Layout, parent: Table, i: nat, pages: seq<Table>)
    requires parent in layout && layout[parent].level > 1 && i < 512 && !Present(mem(parent + 8 * i))
    requires Fresh(mem, layout, pages) && pages != []
    ensures Graftable(mem, layout, parent, i, pages[0]) && IsEmptyPage(mem, pages[0])
  {
    hide Present;
  }

  lemma OwnPage(mem: Memory, t: Table)
    requires IsEmptyPage(mem, t)
    ensures Frame(t) == t
  {
    OwnFrame(t);
  }

  /** A walk that starts in an empty page ends there. */
  lemma EmptyPageIsOpen(mem: Memory, slot: Word, t: Table, level: Level, v: Word)
    requires IsEmptyPage(mem, t) && !(t <= slot < t + PAGE)
    ensures Open(Store(mem, slot, TableEntry(t)), t, level, v)
  {
    hide Present, PageSize, Frame, TableEntry, Index;
    assert !Present(mem(t + 8 * Index(v, level)));
  }
}
