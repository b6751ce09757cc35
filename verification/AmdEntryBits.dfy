/** The entries and walk results of the AMD crate, bit by bit, with every position written out. */
module AmdEntryBits {
  import opened Wrappers
  import opened Bits
  import opened Radix
  import opened AmdPageTables
  import EntryBits

  lemma OneBit(k: nat)
    ensures Bit(0x1, k) <==> k == 0
    ensures Bit(0x2, k) <==> k == 1
    ensures Bit(0x4, k) <==> k == 2
    ensures Bit(0x10, k) <==> k == 4
    ensures Bit(0x20, k) <==> k == 5
    ensures Bit(0x40, k) <==> k == 6
  {
    hide Bit, Pow2;
    Powers();
    BitOfPower(0, k);
    BitOfPower(1, k);
    BitOfPower(2, k);
    BitOfPower(4, k);
    BitOfPower(5, k);
    BitOfPower(6, k);
  }

  lemma FrameOf(paddr: Word, k: nat)
    ensures Bit(And(paddr, FRAME_MASK), k) <==> 12 <= k < 52 && Bit(paddr, k)
  {
    hide Bit, And;
    AndBits(paddr, FRAME_MASK, k);
    EntryBits.FrameMaskBits(k);
  }

  /** A v2 leaf: present 0, writable 1, user 2, accessed 5, dirty 6, frame 51:12. */
  lemma V2PageBits(paddr: Word, rw: bool, user: bool, k: nat)
    ensures Bit(V2Page(paddr, rw, user), k) <==>
      k == 0 || (k == 1 && rw) || (k == 2 && user) || k == 5 || k == 6 || (12 <= k < 52 && Bit(paddr, k))
  {
    hide Bit, And, Or;
    var frame := And(paddr, FRAME_MASK);
    var v := Or(Or(Or(frame, P), ACCESSED), DIRTY);
    var w := if rw then Or(v, RW) else v;
    OrBits(frame, P, k);
    OrBits(Or(frame, P), ACCESSED, k);
    OrBits(Or(Or(frame, P), ACCESSED), DIRTY, k);
    OrBits(v, RW, k);
    OrBits(w, US, k);
    FrameOf(paddr, k);
    OneBit(k);
  }

  /** A v2 non-leaf entry: present, writable, user and accessed, with the table's frame. */
  lemma V2TableBits(next: Word, k: nat)
    ensures Bit(V2Table(next), k) <==> k in {0, 1, 2, 5} || (12 <= k < 52 && Bit(next, k))
  {
    hide Bit, And, Or;
    var frame := And(next, FRAME_MASK);
    OrBits(P, RW, k);
    OrBits(frame, Or(P, RW), k);
    OrBits(Or(frame, Or(P, RW)), US, k);
    OrBits(Or(Or(frame, Or(P, RW)), US), ACCESSED, k);
    FrameOf(next, k);
    OneBit(k);
  }

  /** A v1 leaf: present 0, read 4, write 5, frame 51:12. */
  lemma V1PageBits(paddr: Word, read: bool, write: bool, k: nat)
    ensures Bit(V1Page(paddr, read, write), k) <==>
      k == 0 || (k == 4 && read) || (k == 5 && write) || (12 <= k < 52 && Bit(paddr, k))
  {
    hide Bit, And, Or;
    var frame := And(paddr, FRAME_MASK);
    var v := Or(frame, P);
    var w := if read then Or(v, IR) else v;
    OrBits(frame, P, k);
    OrBits(v, IR, k);
    OrBits(w, IW, k);
    FrameOf(paddr, k);
    OneBit(k);
  }

  /** A successful walk: bits 51:12 of the leaf entry give the frame, the address gives the bits below
      what the leaf maps, the permissions are the whole entry, and a super page is bit 7 above level 1. */
  lemma WalkBits(format: Format, levels: Level, root: Table, v: Word, mem: Memory, k: nat)
    requires WalkMeaning(format, levels, root, v, mem).Ok?
    ensures Descend(mem, root, levels, v).Leaf?
    ensures var t, e := WalkMeaning(format, levels, root, v, mem).value, Descend(mem, root, levels, v).entry;
      && (Bit(t.physical, k) <==> (12 <= k < 52 && Bit(e, k)) || (k < 9 * t.level + 3 && Bit(v, k)))
      && t.perms == e
      && (t.huge <==> t.level > 1 && Bit(e, 7))
  {
    hide Bit, Or, Frame, Descend, Width, Span, Present, PageSize;
    var t, e := WalkMeaning(format, levels, root, v, mem).value, Descend(mem, root, levels, v).entry;
    EntryBits.LeafBits(e, t.level, v, k);
    EntryBits.PageSizeIsBit(e);
  }

  /** A v2 walk of n levels is refused if and only if the address has a bit at 9n + 12 or above. */
  lemma TooLargeIffWide(format: Format, levels: Level, root: Table, v: Word, mem: Memory)
    ensures WalkMeaning(format, levels, root, v, mem) == Err(AddressTooLarge(9 * levels + 12))
      <==> format == V2 && v >= Pow2(9 * levels + 12)
  {
    hide Descend, Pow2, Width;
    EntryBits.SpanIsPower(levels);
    assert LEVEL_SHIFT[levels - 1] + 9 == 9 * levels + 12;
  }
}
