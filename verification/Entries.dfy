/** What the entry constructors of the Intel crate put into an entry, read back as the walker reads it. */
module Entries {
  import opened Bits
  import opened Radix
  import opened IntelPageTables

  /** Of the requested permissions a leaf keeps only write; read is always set. */
  function Granted(perms: nat): nat {
    1 + 2 * (perms / 2 % 2)
  }

  lemma LowBitsJoin(base: nat, perms: nat)
    requires base % 4 == 0
    ensures Or(Or(base, And(perms, 3)), 1) == base + Granted(perms)
  {
    LowMask(perms, 2, 4);
    AlignedOr(base, perms % 4, 2, 4);
    SetBit(base + perms % 4, 0, 1);
  }

  /** The flags of an entry are those of its low 12 bits when nothing above bit 51 is set. */
  lemma FlagsOfLowBits(base: nat, low: nat)
    requires base % PAGE == 0 && base < FRAME_LIMIT && low < PAGE
    ensures And(base + low, PERM_ALL) == And(low, 0x787)
  {
    hide And;
    Powers();
    AlignedDisjoint(base, low, 12);
    AndOverSum(base, low, PERM_ALL);
    MaskOutOfReach(base);
    MaskOutOfReach(low);
    AlignedDisjoint(base, 0x787, 12);
  }

  lemma MaskOutOfReach(x: nat)
    requires x < 0x8000_0000_0000_0000
    ensures And(x, PERM_ALL) == And(x, 0x787)
  {
    hide And;
    Powers();
    AlignedDisjoint(0x8000_0000_0000_0000, 0x787, 63);
    AndOverSum(0x8000_0000_0000_0000, 0x787, x);
    AndCommutes(x, PERM_ALL);
    AndCommutes(x, 0x787);
    AlignedDisjoint(0x8000_0000_0000_0000, x, 63);
  }

  lemma LeafFlags()
    ensures And(0x1, 0x787) == 0x1 && And(0x3, 0x787) == 0x3
    ensures And(0x81, 0x787) == 0x81 && And(0x83, 0x787) == 0x83
  {
    hide And;
    AndHalf(0x1, 0xf);
    AndHalf(0x2, 0x1e);
    AndHalf(0x4, 0x3c);
    AndHalf(0x8, 0x78);
    AndHalf(0x10, 0xf0);
    AndHalf(0x20, 0x1e1);
    AndHalf(0x40, 0x3c3);
    AndHalf(0x41, 0x3c3);
    AndHalf(0x1, 0x3c3);
    AndHalf(0x1, 0x787);
    AndHalf(0x3, 0x787);
    AndHalf(0x81, 0x787);
    AndHalf(0x83, 0x787);
  }

  /** Joining bits that the walk does not look at changes nothing it does look at. */
  lemma JoinedBits(entry: Word, bits: nat)
    requires And(bits, FRAME_MASK) == 0 && Or(entry, bits) < U64_LIMIT
    ensures Frame(Or(entry, bits)) == Frame(entry)
    ensures And(bits, 1) == 0 ==> Present(Or(entry, bits)) == Present(entry)
    ensures And(bits, 0x80) == 0 ==> PageSize(Or(entry, bits)) == PageSize(entry)
  {
    hide And, Or, Frame, Present, PageSize;
    var e := Or(entry, bits);
    MaskIsFrame(entry);
    MaskIsFrame(e);
    EntryMarks(entry);
    EntryMarks(e);
    OrKeepsMasked(entry, bits, FRAME_MASK);
    if And(bits, 1) == 0 {
      OrKeepsMasked(entry, bits, 1);
    }
    if And(bits, 0x80) == 0 {
      OrKeepsMasked(entry, bits, 0x80);
    }
  }

  lemma LowDigits(q: nat, low: nat)
    requires low < PAGE
    ensures (PAGE * q + low) % PAGE == low
    ensures (PAGE * q + low) / 128 % 2 == low / 128 % 2
    ensures (PAGE * q + low) % 2 == low % 2
  {
    ModIs(PAGE * q + low, PAGE, q, low);
    ModIs(PAGE * q + low, 128, 32 * q + low / 128, low % 128);
    ModIs(32 * q + low / 128, 2, 16 * q + low / 128 / 2, low / 128 % 2);
    ModIs(PAGE * q + low, 2, 2048 * q + low / 2, low % 2);
  }

  /** The low 12 bits decide what an entry is, the others where it points. */
  lemma EntryParts(base: nat, low: nat)
    requires base % PAGE == 0 && base < FRAME_LIMIT && low < PAGE
    ensures base + low < U64_LIMIT && Frame(base + low) == base
    ensures Present(base + low) == Present(low) && PageSize(base + low) == PageSize(low)
  {
    LowDigits(base / PAGE, low);
    assert base + low < FRAME_LIMIT;
  }

  lemma FrameIsAligned(entry: Word)
    ensures Frame(entry) % PAGE == 0 && Frame(entry) < FRAME_LIMIT && Frame(Frame(entry)) == Frame(entry)
  {
  }

  lemma OwnFrame(base: Word)
    requires base < FRAME_LIMIT && base % PAGE == 0
    ensures Frame(base) == base
  {
  }

  lemma GrantedMarks(perms: nat)
    ensures 0 < Granted(perms) < 4
    ensures Present(Granted(perms)) && !PageSize(Granted(perms))
    ensures Present(Granted(perms) + PAGE_SIZE) && PageSize(Granted(perms) + PAGE_SIZE)
  {
  }

  /** The walker reports all flags of a leaf's low bits. */
  lemma GrantedFlags(perms: nat)
    ensures And(Granted(perms), 0x787) == Granted(perms)
    ensures And(Granted(perms) + PAGE_SIZE, 0x787) == Granted(perms) + PAGE_SIZE
  {
    hide And;
    LeafFlags();
    if perms / 2 % 2 == 0 {
      assert Granted(perms) == 1;
    } else {
      assert Granted(perms) == 3;
    }
  }

  lemma PageIs(paddr: Word, perms: Word)
    ensures Page(paddr, perms) == Frame(paddr) + Granted(perms)
  {
    hide And, Or, Frame, Granted;
    MaskIsFrame(paddr);
    FrameIsAligned(paddr);
    LowBitsJoin(Frame(paddr), perms);
  }

  lemma PageEntry(paddr: Word, perms: Word)
    ensures var e := Page(paddr, perms);
      && Present(e) && !PageSize(e) && Frame(e) == Frame(paddr)
      && And(e, PERM_ALL) == Granted(perms)
  {
    hide And, Frame, Present, PageSize, Granted, Page;
    PageIs(paddr, perms);
    FrameIsAligned(paddr);
    GrantedMarks(perms);
    EntryParts(Frame(paddr), Granted(perms));
    FlagsOfLowBits(Frame(paddr), Granted(perms));
    GrantedFlags(perms);
  }

  lemma HugeBitsJoin(base: nat, perms: nat)
    requires base % PAGE == 0
    ensures Or(Or(Or(base, And(perms, 3)), PAGE_SIZE), 1) == base + (Granted(perms) + PAGE_SIZE)
  {
    hide And, Or, Pow2;
    Powers();
    LowMask(perms, 2, 4);
    var q, k := perms % 4, base / PAGE;
    assert base == PAGE * k;
    AlignedOr(base, q, 2, 4);
    LowDigits(k, q);
    LowDigits(k, q + 0x80);
    SetBit(base + q, 7, 0x80);
    SetBit(base + q + 0x80, 0, 1);
  }

  lemma HugePageIs(paddr: Word, perms: Word)
    ensures HugePage(paddr, perms) == Frame(paddr) + (Granted(perms) + PAGE_SIZE)
  {
    hide And, Or, Frame, Granted;
    MaskIsFrame(paddr);
    FrameIsAligned(paddr);
    HugeBitsJoin(Frame(paddr), perms);
  }

  lemma HugePageEntry(paddr: Word, perms: Word)
    ensures var e := HugePage(paddr, perms);
      && Present(e) && PageSize(e) && Frame(e) == Frame(paddr)
      && And(e, PERM_ALL) == Granted(perms) + PAGE_SIZE
  {
    hide And, Frame, Present, PageSize, Granted, HugePage;
    HugePageIs(paddr, perms);
    FrameIsAligned(paddr);
    GrantedMarks(perms);
    EntryParts(Frame(paddr), Granted(perms) + PAGE_SIZE);
    FlagsOfLowBits(Frame(paddr), Granted(perms) + PAGE_SIZE);
    GrantedFlags(perms);
  }

  lemma ReadWriteExecute()
    ensures Or(R, W) == 3 && Or(Or(R, W), X) == 7
  {
    SetBit(1, 1, 2);
    SetBit(3, 2, 4);
  }

  lemma TableBitsJoin(base: nat)
    requires base % PAGE == 0
    ensures Or(Or(base, 7), 1) == base + 7
  {
    hide Or, Pow2;
    Powers();
    LowDigits(base / PAGE, 7);
    AlignedOr(base, 7, 3, 8);
    SetBit(base + 7, 0, 1);
  }

  lemma TableIs(next: Word)
    ensures TableEntry(next) == Frame(next) + 7
  {
    hide And, Or, Frame;
    MaskIsFrame(next);
    FrameIsAligned(next);
    ReadWriteExecute();
    TableBitsJoin(Frame(next));
  }

  lemma TableEntryIs(next: Word)
    ensures var e := TableEntry(next); PointsToTable(e) && Frame(e) == Frame(next)
  {
    hide Frame, TableEntry;
    TableIs(next);
    FrameIsAligned(next);
    EntryParts(Frame(next), 7);
  }

  /** A leaf reports exactly the requested permissions when these include read and, beside it,
      at most write; execute and every other requested flag is lost, and read is forced. */
  lemma PermissionsKeptIff(paddr: Word, perms: Word)
    ensures And(Page(paddr, perms), PERM_ALL) == perms <==> perms == R || perms == Or(R, W)
  {
    hide And, Page;
    PageEntry(paddr, perms);
    ReadWriteExecute();
  }

  /** And so does a super-page leaf, beside its mark. */
  lemma HugePermissionsKeptIff(paddr: Word, perms: Word)
    ensures And(HugePage(paddr, perms), PERM_ALL) == perms <==> perms == R + PAGE_SIZE || perms == R + W + PAGE_SIZE
  {
    hide And, HugePage;
    HugePageEntry(paddr, perms);
  }

  /** A leaf asked to be readable, writable and executable is readable and writable. */
  lemma ExecuteIsLost(paddr: Word)
    ensures And(Page(paddr, R + W + X), PERM_ALL) == R + W
    ensures And(HugePage(paddr, R + W + X), PERM_ALL) == R + W + PAGE_SIZE
  {
    hide And, Page, HugePage;
    PageEntry(paddr, R + W + X);
    HugePageEntry(paddr, R + W + X);
  }

  const UNMARKED: Word := PERM_ALL - ACCESSED - DIRTY

  /** Setting accessed or dirty touches no bit the walk decides by. */
  lemma MarkedEntry(entry: Word, accessed: bool, dirty: bool)
    ensures var e := WithAccessedDirty(entry, accessed, dirty);
      && Present(e) == Present(entry) && PageSize(e) == PageSize(entry) && Frame(e) == Frame(entry)
      && And(e, UNMARKED) == And(entry, UNMARKED)
  {
    hide And, Or, Frame, Present, PageSize;
    MarkBit(entry, ACCESSED);
    MarkBit(if accessed then Or(entry, ACCESSED) else entry, DIRTY);
  }

  lemma MarkBit(entry: Word, mark: Word)
    requires mark == ACCESSED || mark == DIRTY
    ensures var e := Or(entry, mark);
      && e < U64_LIMIT
      && Present(e) == Present(entry) && PageSize(e) == PageSize(entry) && Frame(e) == Frame(entry)
      && And(e, UNMARKED) == And(entry, UNMARKED)
  {
    hide And, Or, Frame, Present, PageSize;
    MarkFits(entry, mark);
    MarkBits();
    JoinedBits(entry, mark);
    OrKeepsMasked(entry, mark, UNMARKED);
  }

  lemma MarkFits(entry: Word, mark: Word)
    requires mark == ACCESSED || mark == DIRTY
    ensures Or(entry, mark) < U64_LIMIT
  {
    hide Or;
    Powers();
    SetBit(entry, 8, ACCESSED);
    SetBit(entry, 9, DIRTY);
  }

  lemma SubMask()
    ensures And(PERM_ALL, UNMARKED) == UNMARKED
  {
    hide And;
    AndSelf(UNMARKED);
    MarkBits();
    Powers();
    AndCommutes(UNMARKED, ACCESSED);
    AndBit(UNMARKED + ACCESSED, 9);
    AndOverSum(UNMARKED, ACCESSED, UNMARKED);
    AndOverSum(UNMARKED + ACCESSED, DIRTY, UNMARKED);
  }

  lemma MarkBits()
    ensures And(ACCESSED, FRAME_MASK) == And(ACCESSED, 1) == And(ACCESSED, 0x80) == And(ACCESSED, UNMARKED) == 0
    ensures And(DIRTY, FRAME_MASK) == And(DIRTY, 1) == And(DIRTY, 0x80) == And(DIRTY, UNMARKED) == 0
  {
    hide And;
    Powers();
    AndBit(FRAME_MASK, 8); AndBit(1, 8); AndBit(0x80, 8); AndBit(UNMARKED, 8);
    AndBit(FRAME_MASK, 9); AndBit(1, 9); AndBit(0x80, 9); AndBit(UNMARKED, 9);
    AndCommutes(FRAME_MASK, ACCESSED); AndCommutes(UNMARKED, ACCESSED);
    AndCommutes(1, ACCESSED); AndCommutes(0x80, ACCESSED);
    AndCommutes(FRAME_MASK, DIRTY); AndCommutes(1, DIRTY); AndCommutes(0x80, DIRTY); AndCommutes(UNMARKED, DIRTY);
  }
}
