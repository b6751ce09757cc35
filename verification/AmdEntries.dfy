/** What the AMD crate's entry constructors put into an entry, and mapping one page with them. */
module AmdEntries {
  import opened Wrappers
  import opened Bits
  import opened Radix
  import Addresses
  import opened TableTrees
  import opened AmdPageTables
  import Entries
  import WalkLaws

  /** `x` with the bits of the given weights set, one after the other. */
  function SetAll(x: nat, bits: seq<nat>): nat
    decreases |bits|
  {
    if bits == [] then x else SetAll(Or(x, Pow2(bits[0])), bits[1..])
  }

  lemma {:induction false} SetAllTests(x: nat, bits: seq<nat>, k: nat)
    ensures And(SetAll(x, bits), Pow2(k)) != 0 <==> k in bits || And(x, Pow2(k)) != 0
    decreases |bits|
  {
    hide And, Or, Pow2;
    if bits != [] {
      SetThenTest(x, bits[0], k);
      SetAllTests(Or(x, Pow2(bits[0])), bits[1..], k);
    }
  }

  lemma {:induction false} SetAllKeepsFrame(x: nat, bits: seq<nat>)
    requires forall i | 0 <= i < |bits| :: bits[i] < 12
    ensures And(SetAll(x, bits), FRAME_MASK) == And(x, FRAME_MASK)
    decreases |bits|
  {
    hide And, Or, Pow2;
    if bits != [] {
      LowBitOutsideFrame(bits[0]);
      OrKeepsMasked(x, Pow2(bits[0]), FRAME_MASK);
      SetAllKeepsFrame(Or(x, Pow2(bits[0])), bits[1..]);
    }
  }

  lemma LowBitOutsideFrame(b: nat)
    requires b < 12
    ensures And(Pow2(b), FRAME_MASK) == 0
  {
    hide And;
    Powers();
    Pow2Grows(b, 12);
    AlignedDisjoint(FRAME_MASK, Pow2(b), 12);
    AndCommutes(FRAME_MASK, Pow2(b));
  }

  lemma {:induction false} Pow2Grows(a: nat, b: nat)
    requires a < b
    ensures Pow2(a) < Pow2(b)
    decreases b
  {
    if a < b - 1 {
      Pow2Grows(a, b - 1);
    }
  }

  /** An entry made of the frame of `paddr` and low bits. */
  lemma EntryOfBits(paddr: Word, bits: seq<nat>, e: Word)
    requires e == SetAll(And(paddr, FRAME_MASK), bits)
    requires forall i | 0 <= i < |bits| :: bits[i] < 12
    ensures Frame(e) == Frame(paddr)
    ensures Present(e) <==> 0 in bits
    ensures PageSize(e) <==> 7 in bits
    ensures forall k: nat | k < 12 :: And(e, Pow2(k)) != 0 <==> k in bits
  {
    hide And, Or, Pow2, Frame, Present, PageSize;
    Powers();
    var base := And(paddr, FRAME_MASK);
    MaskIsFrame(paddr);
    MaskIsFrame(e);
    SetAllKeepsFrame(base, bits);
    Entries.FrameIsAligned(paddr);
    MaskIsFrame(base);
    forall k: nat | k < 12 ensures And(e, Pow2(k)) != 0 <==> k in bits {
      SetAllTests(base, bits, k);
      FrameHasNoLowBits(paddr, k);
    }
    EntryMarks(e);
    assert And(e, Pow2(7)) != 0 <==> 7 in bits;
    assert And(e, Pow2(0)) != 0 <==> 0 in bits;
  }

  lemma FrameHasNoLowBits(paddr: Word, k: nat)
    requires k < 12
    ensures And(And(paddr, FRAME_MASK), Pow2(k)) == 0
  {
    hide And, Frame;
    Powers();
    MaskIsFrame(paddr);
    Entries.FrameIsAligned(paddr);
    Pow2Grows(k, 12);
    AlignedDisjoint(Frame(paddr), Pow2(k), 12);
  }

  lemma {:induction false} SetAllAppends(x: nat, bits: seq<nat>, b: nat)
    ensures SetAll(x, bits + [b]) == Or(SetAll(x, bits), Pow2(b))
    decreases |bits|
  {
    hide Or, Pow2;
    if bits == [] {
      assert [] + [b] == [b] && [b][1..] == [];
    } else {
      assert (bits + [b])[1..] == bits[1..] + [b];
      SetAllAppends(Or(x, Pow2(bits[0])), bits[1..], b);
    }
  }

  /** A v2 leaf is a present 4 KiB page of its frame, writable and user-visible exactly as asked,
      and marked accessed and dirty. */
  lemma V2PageEntry(paddr: Word, rw: bool, user: bool)
    ensures var e := V2Page(paddr, rw, user);
      && Present(e) && !PageSize(e) && Frame(e) == Frame(paddr)
      && (And(e, RW) != 0 <==> rw) && (And(e, US) != 0 <==> user)
      && And(e, ACCESSED) != 0 && And(e, DIRTY) != 0
  {
    hide And, Or, Pow2, Frame, Present, PageSize, SetAll;
    Powers();
    var base := And(paddr, FRAME_MASK);
    var marked := [0, 5, 6];
    ThreeBits(base, 0, 5, 6);
    var bits := if rw then marked + [1] else marked;
    SetAllAppends(base, marked, 1);
    SetAllAppends(base, bits, 2);
    EntryOfBits(paddr, if user then bits + [2] else bits, V2Page(paddr, rw, user));
  }

  /** A v2 non-leaf entry points to the table. */
  lemma V2TableEntry(next: Word)
    ensures var e := V2Table(next); PointsToTable(e) && Frame(e) == Frame(next)
  {
    hide And, Or, Pow2, Frame, Present, PageSize, SetAll;
    Powers();
    var base := And(next, FRAME_MASK);
    TwoAtOnce(base);
    ThreeBits(base, 0, 1, 2);
    SetAllAppends(base, [0, 1, 2], 5);
    EntryOfBits(next, [0, 1, 2] + [5], V2Table(next));
  }

  /** A v1 leaf is a present 4 KiB page of its frame, readable and writable exactly as asked. */
  lemma V1PageEntry(paddr: Word, read: bool, write: bool)
    ensures var e := V1Page(paddr, read, write);
      && Present(e) && !PageSize(e) && Frame(e) == Frame(paddr)
      && (And(e, IR) != 0 <==> read) && (And(e, IW) != 0 <==> write)
  {
    hide And, Or, Pow2, Frame, Present, PageSize, SetAll;
    Powers();
    var base := And(paddr, FRAME_MASK);
    SetNone(base);
    SetAllAppends(base, [], 0);
    assert [] + [0] == [0];
    var bits := if read then [0] + [4] else [0];
    SetAllAppends(base, [0], 4);
    SetAllAppends(base, bits, 5);
    EntryOfBits(paddr, if write then bits + [5] else bits, V1Page(paddr, read, write));
  }

  lemma SetNone(x: nat)
    ensures SetAll(x, []) == x
  {
  }

  lemma ThreeBits(x: nat, a: nat, b: nat, c: nat)
    ensures SetAll(x, [a, b, c]) == Or(Or(Or(x, Pow2(a)), Pow2(b)), Pow2(c))
  {
    hide Or, Pow2;
    SetAllAppends(x, [], a);
    SetAllAppends(x, [a], b);
    SetAllAppends(x, [a, b], c);
    assert [] + [a] == [a] && [a] + [b] == [a, b] && [a, b] + [c] == [a, b, c];
  }

  lemma TwoAtOnce(x: nat)
    ensures Or(x, Or(P, RW)) == Or(Or(x, P), RW)
  {
    OrAssociates(x, P, RW);
  }

  /** Writing a leaf of the AMD crate into the level-1 slot of a page makes the AMD walker translate
      that page, in either format, to the leaf's frame, and changes no other page's translation. */
  lemma MapOnePage(format: Format, levels: Level, root: Table, mem: Memory, layout: Layout, v: Word, leaf: Word, a: Word)
    requires IsTree(mem, root, levels, layout) && LeafSlot(mem, root, levels, v).Some?
    requires Present(leaf) && !PageSize(leaf)
    ensures WalkMeaning(format, levels, root, a, Store(mem, LeafSlot(mem, root, levels, v).value, leaf)) ==
      if Addresses.PageNumber(a, levels) == Addresses.PageNumber(v, levels) && !TooLarge(format, levels, a)
      then Ok(Translation(Frame(leaf) + a % PAGE, 1, leaf, false))
      else WalkMeaning(format, levels, root, a, mem)
  {
    hide IsTree, LeafSlot, Descend, Frame, Or, Present, PageSize, Width;
    RewriteOnePage(mem, root, levels, layout, v, leaf, a);
    Entries.FrameIsAligned(leaf);
    WalkLaws.AlignedOffset(Frame(leaf), 1, a);
  }
}
