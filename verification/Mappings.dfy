/** Building a mapping and walking it: the leaves of a range, written one by one into a tree of
    tables, translate the range and nothing else. */
module Mappings {
  import opened Wrappers
  import opened Bits
  import Digits
  import opened Radix
  import opened Addresses
  import opened TableTrees
  import opened IntelPageTables
  import Entries
  import WalkLaws

  // ---- leaves tile the range ----

  /** The number of leaves is the least number of pages that hold `len` bytes. */
  lemma LeastCover(m: MapRange)
    ensures m.len <= PAGE * PageCount(m)
    ensures forall n: nat | m.len <= PAGE * n :: PageCount(m) <= n
  {
  }

  /** Every byte of the rounded-up range lies in exactly one leaf's page, no other byte in any, and
      the page is backed by the host page at the same distance. */
  lemma LeavesTile(m: MapRange, a: Word)
    requires Addressable(m)
    ensures |Leaves(m)| == PageCount(m)
    ensures m.guestBase <= a < m.guestBase + PAGE * PageCount(m) ==>
      var i := (a - m.guestBase) / PAGE;
      && Leaves(m)[i].guest <= a < Leaves(m)[i].guest + PAGE
      && Leaves(m)[i].host - m.hostBase == Leaves(m)[i].guest - m.guestBase
      && Leaves(m)[i].pte == Page(Leaves(m)[i].host, m.perms)
      && forall j | 0 <= j < |Leaves(m)| && Leaves(m)[j].guest <= a < Leaves(m)[j].guest + PAGE :: j == i
    ensures !(m.guestBase <= a < m.guestBase + PAGE * PageCount(m)) ==>
      forall j | 0 <= j < |Leaves(m)| :: !(Leaves(m)[j].guest <= a < Leaves(m)[j].guest + PAGE)
  {
    hide Page;
  }

  /** The first `k` pages of a range, and the rest of it. */
  function Head(m: MapRange, k: nat): MapRange
    requires PAGE * k <= m.len
  {
    m.(len := PAGE * k)
  }

  function Tail(m: MapRange, k: nat): MapRange
    requires PAGE * k <= m.len
    requires m.guestBase + PAGE * k < U64_LIMIT && m.hostBase + PAGE * k < U64_LIMIT
  {
    MapRange(m.guestBase + PAGE * k, m.hostBase + PAGE * k, m.len - PAGE * k, m.perms)
  }

  /** A range cut at a page boundary has the leaves of its two parts. */
  lemma LeavesSplit(m: MapRange, k: nat)
    requires Addressable(m) && PAGE * k <= m.len
    requires m.guestBase + PAGE * k < U64_LIMIT && m.hostBase + PAGE * k < U64_LIMIT
    ensures Addressable(Head(m, k)) && Addressable(Tail(m, k))
    ensures Leaves(m) == Leaves(Head(m, k)) + Leaves(Tail(m, k))
  {
    hide Page;
    assert PageCount(m) == k + PageCount(Tail(m, k)) && PageCount(Head(m, k)) == k;
  }

  // ---- writing leaves ----

  /** The caller's part: each leaf is written to the level-1 slot of its guest page. */
  function Install(mem: Memory, root: Table, top: Level, leaves: seq<LeafUpdate>): Memory {
    if leaves == [] then mem
    else
      match LeafSlot(mem, root, top, leaves[0].guest)
      case Some(slot) => Install(Store(mem, slot, leaves[0].pte), root, top, leaves[1..])
      case None => Install(mem, root, top, leaves[1..])
  }

  lemma {:induction false} InstallAppends(mem: Memory, root: Table, top: Level, xs: seq<LeafUpdate>, ys: seq<LeafUpdate>)
    ensures Install(mem, root, top, xs + ys) == Install(Install(mem, root, top, xs), root, top, ys)
    decreases |xs|
  {
    hide LeafSlot;
    if xs == [] {
      assert xs + ys == ys;
    } else {
      assert (xs + ys)[1..] == xs[1..] + ys;
      var mem' := match LeafSlot(mem, root, top, xs[0].guest)
        case Some(slot) => Store(mem, slot, xs[0].pte)
        case None => mem;
      InstallAppends(mem', root, top, xs[1..], ys);
    }
  }

  /** Mapping a range is mapping its two parts, one after the other. */
  lemma InstallSplit(mem: Memory, root: Table, top: Level, m: MapRange, k: nat)
    requires Addressable(m) && PAGE * k <= m.len
    requires m.guestBase + PAGE * k < U64_LIMIT && m.hostBase + PAGE * k < U64_LIMIT
    requires Addressable(Head(m, k)) && Addressable(Tail(m, k))
    ensures Install(mem, root, top, Leaves(m)) ==
      Install(Install(mem, root, top, Leaves(Head(m, k))), root, top, Leaves(Tail(m, k)))
  {
    LeavesSplit(m, k);
    InstallAppends(mem, root, top, Leaves(Head(m, k)), Leaves(Tail(m, k)));
  }

  /** How the walk of `w` ends after the leaves have been written, if it ended on `before`. */
  function Written(leaves: seq<LeafUpdate>, top: Level, w: Word, before: Outcome): Outcome {
    if leaves == [] then before
    else Written(leaves[1..], top, w,
                 if PageNumber(w, top) == PageNumber(leaves[0].guest, top) then LeafOutcome(leaves[0].pte) else before)
  }

  ghost predicate HaveSlots(mem: Memory, root: Table, top: Level, leaves: seq<LeafUpdate>) {
    forall leaf | leaf in leaves :: LeafSlot(mem, root, top, leaf.guest).Some?
  }

  lemma {:induction false} InstallWrites(mem: Memory, root: Table, top: Level, layout: Layout,
                                         leaves: seq<LeafUpdate>, w: Word)
    requires IsTree(mem, root, top, layout) && HaveSlots(mem, root, top, leaves)
    ensures var mem' := Install(mem, root, top, leaves);
      && IsTree(mem', root, top, layout)
      && LeafSlot(mem', root, top, w) == LeafSlot(mem, root, top, w)
      && Descend(mem', root, top, w) == Written(leaves, top, w, Descend(mem, root, top, w))
    decreases |leaves|
  {
    hide IsTree, LeafSlot, Descend, LeafOutcome, PageNumber;
    if leaves != [] {
      var leaf := leaves[0];
      var mem' := Store(mem, LeafSlot(mem, root, top, leaf.guest).value, leaf.pte);
      RewriteKeepsTree(mem, root, top, layout, leaf.guest, leaf.pte);
      RewriteOnePage(mem, root, top, layout, leaf.guest, leaf.pte, w);
      forall other | other in leaves[1..] ensures LeafSlot(mem', root, top, other.guest).Some? {
        RewriteOnePage(mem, root, top, layout, leaf.guest, leaf.pte, other.guest);
      }
      InstallWrites(mem', root, top, layout, leaves[1..], w);
    }
  }

  lemma {:induction false} WrittenNowhere(leaves: seq<LeafUpdate>, top: Level, w: Word, before: Outcome)
    requires forall leaf | leaf in leaves :: PageNumber(leaf.guest, top) != PageNumber(w, top)
    ensures Written(leaves, top, w, before) == before
  {
    hide PageNumber;
    if leaves != [] {
      WrittenNowhere(leaves[1..], top, w, before);
    }
  }

  lemma {:induction false} WrittenOnce(leaves: seq<LeafUpdate>, top: Level, w: Word, before: Outcome, i: nat)
    requires i < |leaves|
    requires forall j | 0 <= j < |leaves| :: PageNumber(leaves[j].guest, top) == PageNumber(w, top) <==> j == i
    ensures Written(leaves, top, w, before) == LeafOutcome(leaves[i].pte)
    decreases |leaves|
  {
    hide PageNumber, LeafOutcome;
    if i == 0 {
      WrittenNowhere(leaves[1..], top, w, LeafOutcome(leaves[0].pte));
    } else {
      assert PageNumber(leaves[0].guest, top) != PageNumber(w, top);
      WrittenOnce(leaves[1..], top, w, before, i - 1);
    }
  }

  // ---- build, then walk ----

  /** A page-aligned range inside the table width, backed by frames an entry can carry. */
  predicate Mappable(m: MapRange, levels: Level): (mappable: bool)
    ensures mappable ==> Addressable(m)
  {
    && m.guestBase % PAGE == 0 && m.hostBase % PAGE == 0
    && m.guestBase + PAGE * PageCount(m) <= Width(levels)
    && m.hostBase + PAGE * PageCount(m) <= FRAME_LIMIT
  }

  predicate InRange(m: MapRange, levels: Level, a: Word) {
    m.guestBase <= a % Width(levels) < m.guestBase + PAGE * PageCount(m)
  }

  lemma PageOfLeaf(m: MapRange, levels: Level, j: nat)
    requires Mappable(m, levels) && j < PageCount(m)
    ensures PageNumber(Leaves(m)[j].guest, levels) == m.guestBase / PAGE + j
  {
    hide Page;
    ModIs(m.guestBase + PAGE * j, Width(levels), 0, m.guestBase + PAGE * j);
  }

  lemma OffsetInPage(a: Word, levels: Level)
    ensures a % Width(levels) % PAGE == a % PAGE
  {
    SpanRatio(levels, 1);
    Digits.ModKeepsDigit(a, PAGE, 512 * Pow512(levels - 1));
  }

  /** The leaves of a range, written over what was there, decide the walk of an address by its
      page alone. */
  lemma RangeDecides(m: MapRange, levels: Level, ptes: seq<LeafUpdate>, a: Word, before: Outcome)
    requires Mappable(m, levels)
    requires |ptes| == |Leaves(m)| && forall j | 0 <= j < |ptes| :: ptes[j].guest == Leaves(m)[j].guest
    ensures InRange(m, levels, a) ==>
      var i := (a % Width(levels) - m.guestBase) / PAGE;
      Written(ptes, levels, a, before) == LeafOutcome(ptes[i].pte)
    ensures !InRange(m, levels, a) ==> Written(ptes, levels, a, before) == before
  {
    hide Page, Written, Width, LeafOutcome;
    var p := PageNumber(a, levels) - m.guestBase / PAGE;
    forall j | 0 <= j < |ptes| ensures PageNumber(ptes[j].guest, levels) == PageNumber(a, levels) <==> j == p {
      PageOfLeaf(m, levels, j);
    }
    if InRange(m, levels, a) {
      WrittenOnce(ptes, levels, a, before, p);
    } else {
      WrittenNowhere(ptes, levels, a, before);
    }
  }

  /** Writing the leaves of a range into a tree of tables makes every address of the range
      translate to the byte at the same distance from the host base, with the granted permissions,
      at level 1; every other translation, and every failure, is what it was. */
  lemma BuildThenWalk(stage: Stage, levels: Level, root: Table, mem: Memory, layout: Layout, m: MapRange, a: Word)
    requires IsTree(mem, root, levels, layout)
    requires Mappable(m, levels) && HaveSlots(mem, root, levels, Leaves(m))
    ensures WalkMeaning(stage, levels, root, a, Install(mem, root, levels, Leaves(m))) ==
      if InRange(m, levels, a) && !TooLarge(stage, levels, a)
      then Ok(Translation(m.hostBase + (a % Width(levels) - m.guestBase), 1, Entries.Granted(m.perms), false))
      else WalkMeaning(stage, levels, root, a, mem)
  {
    hide IsTree, LeafSlot, Descend, Page, Frame, And, Or, Install, Written, Present, PageSize;
    var leaves := Leaves(m);
    InstallWrites(mem, root, levels, layout, leaves, a);
    RangeDecides(m, levels, leaves, a, Descend(mem, root, levels, a));
    if InRange(m, levels, a) {
      var i := (a % Width(levels) - m.guestBase) / PAGE;
      LeafByte(m, levels, a, i);
    }
  }

  lemma LeafByte(m: MapRange, levels: Level, a: Word, i: nat)
    requires Mappable(m, levels) && InRange(m, levels, a)
    requires i == (a % Width(levels) - m.guestBase) / PAGE
    ensures Resolve(a, LeafOutcome(Leaves(m)[i].pte)) ==
      Ok(Translation(m.hostBase + (a % Width(levels) - m.guestBase), 1, Entries.Granted(m.perms), false))
  {
    hide Page, Frame, And, Or, Present, PageSize, Width;
    var h := m.hostBase + PAGE * i;
    assert Leaves(m)[i].pte == Page(h, m.perms);
    Entries.PageEntry(h, m.perms);
    HostPage(m, i);
    Entries.OwnFrame(h);
    WalkLaws.AlignedOffset(h, 1, a);
    OffsetInPage(a, levels);
    WholePages(m.guestBase, a % Width(levels));
  }

  lemma HostPage(m: MapRange, i: nat)
    requires m.hostBase % PAGE == 0 && m.hostBase + PAGE * PageCount(m) <= FRAME_LIMIT && i < PageCount(m)
    ensures (m.hostBase + PAGE * i) % PAGE == 0 && m.hostBase + PAGE * i < FRAME_LIMIT
  {
  }

  lemma WholePages(base: nat, x: nat)
    requires base % PAGE == 0 && base <= x
    ensures x - base == PAGE * ((x - base) / PAGE) + x % PAGE
  {
  }

  /** The same leaves with nothing in them. */
  function Cleared(leaves: seq<LeafUpdate>): (cleared: seq<LeafUpdate>)
    ensures |cleared| == |leaves|
    ensures forall j | 0 <= j < |leaves| :: cleared[j].guest == leaves[j].guest && cleared[j].pte == EMPTY
  {
    seq(|leaves|, j requires 0 <= j < |leaves| => leaves[j].(pte := EMPTY))
  }

  /** Emptying the leaves again leaves the range unmapped and every other translation untouched:
      mapping and unmapping a range that was not mapped changes no walk. */
  lemma UnmapUndoesMap(stage: Stage, levels: Level, root: Table, mem: Memory, layout: Layout, m: MapRange, a: Word)
    requires IsTree(mem, root, levels, layout)
    requires Mappable(m, levels) && HaveSlots(mem, root, levels, Leaves(m))
    ensures var mem' := Install(Install(mem, root, levels, Leaves(m)), root, levels, Cleared(Leaves(m)));
      WalkMeaning(stage, levels, root, a, mem') ==
        if InRange(m, levels, a) && !TooLarge(stage, levels, a) then Err(NotPresent(1))
        else WalkMeaning(stage, levels, root, a, mem)
  {
    hide IsTree, LeafSlot, Descend, Page, Frame, And, Or, Install, Written, PageSize, Width;
    var leaves, cleared := Leaves(m), Cleared(Leaves(m));
    var mapped := Install(mem, root, levels, leaves);
    forall leaf | leaf in cleared ensures LeafSlot(mapped, root, levels, leaf.guest).Some? {
      var j :| 0 <= j < |cleared| && cleared[j] == leaf;
      assert leaves[j] in leaves;
      InstallWrites(mem, root, levels, layout, leaves, leaf.guest);
    }
    InstallWrites(mem, root, levels, layout, leaves, a);
    InstallWrites(mapped, root, levels, layout, cleared, a);
    RangeDecides(m, levels, leaves, a, Descend(mem, root, levels, a));
    RangeDecides(m, levels, cleared, a, Descend(mapped, root, levels, a));
  }
}
