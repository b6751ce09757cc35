/** Mapping a range from nothing: the caller grows tables for its pages and writes its leaves. */
module Building {
  import opened Wrappers
  import opened Bits
  import opened Radix
  import opened IntelPageTables
  import opened TableTrees
  import opened TreeGrowth
  import opened Mappings
  import Entries

  /** Tables for the pages of all leaves, one leaf after the other. */
  function GrowAll(mem: Memory, root: Table, top: Level, leaves: seq<LeafUpdate>, pages: seq<Table>): Memory {
    if leaves == [] then mem
    else
      var grown := Grow(mem, root, top, leaves[0].guest, pages);
      GrowAll(grown.0, root, top, leaves[1..], grown.1)
  }

  /** No super page is in the way of any leaf. */
  ghost predicate AllOpen(mem: Memory, root: Table, top: Level, leaves: seq<LeafUpdate>) {
    forall leaf | leaf in leaves :: Open(mem, root, top, leaf.guest)
  }

  lemma StaysOpen(mem: Memory, mem': Memory, root: Table, top: Level, leaves: seq<LeafUpdate>)
    requires Grown(mem, mem', root, top) && AllOpen(mem, root, top, leaves)
    ensures AllOpen(mem', root, top, leaves)
  {
    hide LeafSlot, Descend, Present;
  }

  lemma {:induction false} GrowAllGivesSlots(mem: Memory, root: Table, top: Level, layout: Layout,
                                             leaves: seq<LeafUpdate>, pages: seq<Table>)
    returns (layout': Layout)
    requires IsTree(mem, root, top, layout) && Fresh(mem, layout, pages) && |pages| >= (top - 1) * |leaves|
    requires AllOpen(mem, root, top, leaves)
    ensures var mem' := GrowAll(mem, root, top, leaves, pages);
      && IsTree(mem', root, top, layout')
      && HaveSlots(mem', root, top, leaves)
      && Grown(mem, mem', root, top)
    decreases |leaves|
  {
    hide Fresh, Grown, Grow, Open, LeafSlot, Descend;
    if leaves == [] {
      layout' := layout;
      GrownSelf(mem, root, top);
    } else {
      assert (top - 1) * |leaves| == (top - 1) + (top - 1) * |leaves[1..]|;
      assert leaves[0] in leaves;
      var grown := Grow(mem, root, top, leaves[0].guest, pages);
      var layout1 := GrowGivesSlot(mem, root, top, layout, root, top, leaves[0].guest, pages);
      assert AllOpen(mem, root, top, leaves[1..]);
      StaysOpen(mem, grown.0, root, top, leaves[1..]);
      layout' := GrowAllGivesSlots(grown.0, root, top, layout1, leaves[1..], grown.1);
      var mem' := GrowAll(grown.0, root, top, leaves[1..], grown.1);
      GrownTwice(mem, grown.0, mem', root, top);
      GrownKeepsSlot(grown.0, mem', root, top, leaves[0].guest);
    }
  }

  lemma GrownKeepsSlot(mem: Memory, mem': Memory, root: Table, top: Level, v: Word)
    requires Grown(mem, mem', root, top) && LeafSlot(mem, root, top, v).Some?
    ensures LeafSlot(mem', root, top, v).Some?
  {
    hide LeafSlot, Descend, Present;
  }

  /** Growing tables for a range in a tree and writing its leaves maps the range; every translation
      outside it stays, and what failed there still fails. */
  lemma MapInTree(stage: Stage, levels: Level, root: Table, mem: Memory, layout: Layout, m: MapRange,
                  pages: seq<Table>, a: Word)
    requires IsTree(mem, root, levels, layout) && Fresh(mem, layout, pages)
    requires Mappable(m, levels) && |pages| >= (levels - 1) * PageCount(m)
    requires AllOpen(mem, root, levels, Leaves(m))
    ensures var mem' := Install(GrowAll(mem, root, levels, Leaves(m), pages), root, levels, Leaves(m));
      var r, r' := WalkMeaning(stage, levels, root, a, mem), WalkMeaning(stage, levels, root, a, mem');
      if InRange(m, levels, a) && !TooLarge(stage, levels, a)
      then r' == Ok(Translation(m.hostBase + (a % Width(levels) - m.guestBase), 1, Entries.Granted(m.perms), false))
      else (r.Ok? ==> r' == r) && (r.Err? ==> r'.Err?)
  {
    hide IsTree, Fresh, Grown, Grow, GrowAll, Open, LeafSlot, Descend, Install, HaveSlots;
    hide Mappable, InRange, Leaves, Width;
    LeavesTile(m, a);
    var layout' := GrowAllGivesSlots(mem, root, levels, layout, Leaves(m), pages);
    var grown := GrowAll(mem, root, levels, Leaves(m), pages);
    BuildThenWalk(stage, levels, root, grown, layout', m, a);
    GrownWalk(stage, levels, root, mem, grown, a);
  }

  lemma GrownWalk(stage: Stage, levels: Level, root: Table, mem: Memory, mem': Memory, a: Word)
    requires Grown(mem, mem', root, levels)
    ensures var r, r' := WalkMeaning(stage, levels, root, a, mem), WalkMeaning(stage, levels, root, a, mem');
      (r.Ok? ==> r' == r) && (r.Err? ==> r'.Err?)
  {
    hide LeafSlot, Descend, Present, Frame, PageSize, Or, And, Width;
  }

  /** From an empty root page, growing and writing maps the range and nothing else. */
  lemma MapFromNothing(stage: Stage, levels: Level, root: Table, mem: Memory, m: MapRange, pages: seq<Table>, a: Word)
    requires IsEmptyPage(mem, root) && Fresh(mem, map[root := Place(levels, 0)], pages)
    requires Mappable(m, levels) && |pages| >= (levels - 1) * PageCount(m)
    ensures var mem' := Install(GrowAll(mem, root, levels, Leaves(m), pages), root, levels, Leaves(m));
      var r := WalkMeaning(stage, levels, root, a, mem');
      if InRange(m, levels, a) && !TooLarge(stage, levels, a)
      then r == Ok(Translation(m.hostBase + (a % Width(levels) - m.guestBase), 1, Entries.Granted(m.perms), false))
      else r.Err?
  {
    hide IsTree, Fresh, GrowAll, Install, Mappable, InRange, Leaves, Width, IsEmptyPage;
    Plant(mem, root, levels);
    forall leaf | leaf in Leaves(m) ensures Open(mem, root, levels, leaf.guest) {
      NothingMapped(mem, root, levels, leaf.guest);
    }
    NothingMapped(mem, root, levels, a);
    MapInTree(stage, levels, root, mem, map[root := Place(levels, 0)], m, pages, a);
  }

  lemma NothingMapped(mem: Memory, root: Table, levels: Level, v: Word)
    requires IsEmptyPage(mem, root)
    ensures Descend(mem, root, levels, v) == Absent(levels)
  {
    hide Present, PageSize, Frame, Index;
    assert !Present(mem(root + 8 * Index(v, levels)));
  }
}
