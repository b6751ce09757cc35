/** Splitting a super page into a table of 512 smaller pages changes no translation. */
module SuperPages {
  import opened Bits
  import Digits
  import opened Radix
  import Paths
  import opened Addresses
  import opened IntelPageTables
  import opened Entries
  import WalkLaws

  /** A leaf for `level`: a 4 KiB page at the bottom, a super page above it. */
  function LeafEntry(level: Level, paddr: Word, perms: Word): Word {
    if level == 1 then Page(paddr, perms) else HugePage(paddr, perms)
  }

  /** The 512 leaves that together map what one level-`level` leaf at `paddr` maps. */
  function Piece(level: Level, paddr: Word, perms: Word, i: nat): Word
    requires level > 1 && i < 512 && paddr < FRAME_LIMIT
  {
    LeafEntry(level - 1, paddr + i * Span(level - 1), perms)
  }

  /** The memory after the super page at `slot` has been replaced by a table at `t` of its pieces. */
  function Split(mem: Memory, slot: Word, level: Level, t: Table): Memory
    requires level > 1
  {
    (a: Word) =>
      if a == slot then TableEntry(t)
      else if t <= a < t + PAGE && a % 8 == 0 then Piece(level, Frame(mem(slot)), mem(slot), (a - t) / 8)
      else mem(a)
  }

  /** What a split needs: an aligned super page at `slot`, and a page `t` for the new table. */
  predicate Splittable(mem: Memory, slot: Word, level: Level, t: Table) {
    && level > 1
    && Present(mem(slot)) && PageSize(mem(slot)) && Frame(mem(slot)) % Span(level) == 0
    && t < FRAME_LIMIT && t % PAGE == 0
    && !(t <= slot < t + PAGE)
  }

  /** An entry that `huge_page` built for an aligned address is one. */
  lemma HugePageIsSplittable(mem: Memory, slot: Word, level: Level, t: Table, paddr: Word, perms: Word)
    requires level > 1 && mem(slot) == HugePage(paddr, perms) && paddr % Span(level) == 0
    requires t < FRAME_LIMIT && t % PAGE == 0 && !(t <= slot < t + PAGE)
    ensures Splittable(mem, slot, level, t)
  {
    hide Present, PageSize, Frame, HugePage, Span;
    HugePageEntry(paddr, perms);
    AlignedFrame(paddr, level);
  }

  lemma AlignedFrame(paddr: Word, level: Level)
    requires paddr % Span(level) == 0
    ensures Frame(paddr) % Span(level) == 0
  {
    hide Span;
    var s, k := Span(level), 16 * Pow512(5 - level);
    assert FRAME_LIMIT == Span(5) * 16 && Span(1) == PAGE by { SpansOf(level); }
    SpanRatio(5, level);
    assert FRAME_LIMIT == s * k;
    Digits.ModKeepsDigit(paddr, s, k);
    SpanRatio(level, 1);
    assert s == PAGE * Pow512(level - 1);
    Digits.ModKeepsDigit(paddr, PAGE, Pow512(level - 1));
    ModIs(0, PAGE, 0, 0);
  }

  lemma EighthBytes(q: nat, j: nat)
    ensures (PAGE * q + 8 * j) % 8 == 0 && (8 * j) / 8 == j
  {
    ModIs(PAGE * q + 8 * j, 8, 512 * q + j, 0);
  }

  /** What a split puts into the new table. */
  lemma SplitPage(mem: Memory, slot: Word, level: Level, t: Table, j: nat)
    requires level > 1 && t % PAGE == 0 && j < 512 && slot != t + 8 * j
    ensures Frame(mem(slot)) < FRAME_LIMIT
    ensures Split(mem, slot, level, t)(t + 8 * j) == Piece(level, Frame(mem(slot)), mem(slot), j)
  {
    hide Frame, Piece;
    FrameIsAligned(mem(slot));
    EighthBytes(t / PAGE, j);
  }

  lemma SplitPointer(mem: Memory, slot: Word, level: Level, t: Table)
    requires Splittable(mem, slot, level, t)
    ensures var e := Split(mem, slot, level, t)(slot); PointsToTable(e) && Frame(e) == t
  {
    hide Frame, TableEntry, Piece, Present, PageSize, Span;
    TableEntryIs(t);
    OwnFrame(t);
  }

  /** The walk of `v` uses `slot` as a level-`level` entry if at all, and does not read the page `t`. */
  ghost predicate Untangled(mem: Memory, table: Table, top: Level, v: Word, slot: Word, level: Level, t: Table) {
    forall f | f in Trace(mem, table, top, v) ::
      && (f.address == slot ==> f.level == level)
      && !(t <= f.address < t + PAGE)
  }

  /** A leaf one level down that maps the same byte, with the granted permissions. */
  ghost predicate SameByte(v: Word, o: Outcome, o': Outcome, level: Level) {
    && level > 1
    && o.Leaf? && o'.Leaf? && o.level == level && o'.level == level - 1
    && Or(Frame(o'.entry), v % Span(level - 1)) == Or(Frame(o.entry), v % Span(level))
    && And(o'.entry, PERM_ALL) == Granted(o.entry) + (if level > 2 then PAGE_SIZE else 0)
    && Present(o.entry) && PageSize(o.entry) && (PageSize(o'.entry) <==> level > 2)
  }

  lemma {:induction false} SplitDescent(mem: Memory, table: Table, top: Level, v: Word, slot: Word, level: Level, t: Table)
    requires Splittable(mem, slot, level, t)
    requires Untangled(mem, table, top, v, slot, level, t)
    ensures var o, o' := Descend(mem, table, top, v), Descend(Split(mem, slot, level, t), table, top, v);
      if Paths.ReadsSlot(mem, table, top, v, slot) then SameByte(v, o, o', level) else o' == o
    decreases top
  {
    hide Index, Frame, Present, PageSize, Span, TableEntry, Piece, Paths.ReadsSlot, SameByte;
    var mem' := Split(mem, slot, level, t);
    var address := EntryAddress(table, v, top);
    assert Fetch(top, address) in Trace(mem, table, top, v);
    Paths.ReadsSlotStep(mem, table, top, v, slot);
    if address == slot {
      SplitSlot(mem, table, v, slot, level, t);
    } else {
      assert mem'(address) == mem(address);
      if PointsToTable(mem(address)) && top > 1 {
        SplitDescent(mem, Frame(mem(address)), top - 1, v, slot, level, t);
      }
    }
  }

  /** The walk through the split entry itself. */
  lemma SplitSlot(mem: Memory, table: Table, v: Word, slot: Word, level: Level, t: Table)
    requires Splittable(mem, slot, level, t)
    requires EntryAddress(table, v, level) == slot
    ensures SameByte(v, Descend(mem, table, level, v), Descend(Split(mem, slot, level, t), table, level, v), level)
  {
    hide Frame, Present, PageSize, Span, And, Or, TableEntry, Piece, Split, Index;
    var mem', entry := Split(mem, slot, level, t), mem(slot);
    FrameIsAligned(entry);
    assert Descend(mem, table, level, v) == Leaf(level, entry);
    SplitPointer(mem, slot, level, t);
    var i := Index(v, level - 1);
    SplitPage(mem, slot, level, t, i);
    PieceEntry(level, Frame(entry), entry, i);
    assert Descend(mem', table, level, v) == Descend(mem', t, level - 1, v);
    assert Descend(mem', t, level - 1, v) == Leaf(level - 1, Piece(level, Frame(entry), entry, i));
    PieceByte(level, Frame(entry), v);
  }

  lemma PieceFits(level: Level, paddr: Word, i: nat)
    requires level > 1 && i < 512 && paddr < FRAME_LIMIT && paddr % Span(level) == 0
    ensures var p := paddr + i * Span(level - 1); p < FRAME_LIMIT && p % PAGE == 0 && p % Span(level - 1) == 0
    ensures paddr % PAGE == 0
  {
    hide Span;
    var s, r := Span(level - 1), Pow512(level - 2);
    assert Span(level) == s * 512 && FRAME_LIMIT == Span(5) * 16 && Span(1) == PAGE by { SpansOf(level); }
    SpanRatio(5, level);
    SpanRatio(level - 1, 1);
    StepsFit(paddr, s, i, 16 * Pow512(5 - level));
    assert s * 512 * (16 * Pow512(5 - level)) == FRAME_LIMIT;
    Digits.ModKeepsDigit(paddr, PAGE, r);
    Digits.ModKeepsDigit(paddr + i * s, PAGE, r);
    ModIs(0, PAGE, 0, 0);
  }

  lemma SpansOf(level: Level)
    ensures level > 1 ==> Span(level) == Span(level - 1) * 512
    ensures FRAME_LIMIT == Span(5) * 16 && Span(1) == PAGE
  {
  }

  /** Multiples of a step stay below a bound that is a multiple of 512 steps. */
  lemma StepsFit(paddr: nat, s: nat, i: nat, k: nat)
    requires s > 0 && i < 512 && paddr % (s * 512) == 0 && paddr < s * 512 * k
    ensures paddr + i * s < s * 512 * k && (paddr + i * s) % s == 0 && paddr % s == 0
  {
    var q := paddr / (s * 512);
    assert paddr == s * 512 * q;
    if k <= q {
      Digits.MulMonotone(s * 512, k, q);
    }
    Digits.Below(s * 512, k, q, i * s) by { Digits.Below(s, 512, i, 0); }
    ModIs(paddr + i * s, s, 512 * q + i, 0);
    ModIs(paddr, s, 512 * q, 0);
  }

  lemma PieceEntry(level: Level, paddr: Word, perms: Word, i: nat)
    requires level > 1 && i < 512 && paddr < FRAME_LIMIT && paddr % Span(level) == 0
    ensures var e := Piece(level, paddr, perms, i);
      && Present(e) && (PageSize(e) <==> level > 2)
      && Frame(e) == paddr + i * Span(level - 1)
      && And(e, PERM_ALL) == Granted(perms) + (if level > 2 then PAGE_SIZE else 0)
  {
    hide Frame, Present, PageSize, Span, And, Or, HugePage, Page;
    var p := paddr + i * Span(level - 1);
    PieceFits(level, paddr, i);
    OwnFrame(p);
    if level == 2 {
      PageEntry(p, perms);
    } else {
      HugePageEntry(p, perms);
    }
  }

  lemma PieceByte(level: Level, paddr: Word, v: Word)
    requires level > 1 && paddr < FRAME_LIMIT && paddr % Span(level) == 0
    ensures Or(paddr + Index(v, level - 1) * Span(level - 1), v % Span(level - 1)) == Or(paddr, v % Span(level))
    ensures Frame(paddr) == paddr
  {
    hide Or;
    PieceFits(level, paddr, Index(v, level - 1));
    OwnFrame(paddr);
    WalkLaws.AlignedOffset(paddr, level, v);
    WalkLaws.AlignedOffset(paddr + Index(v, level - 1) * Span(level - 1), level - 1, v);
    assert Span(level) == Span(level - 1) * 512;
    Digits.TwoDigits(v, Span(level - 1), 512);
  }

  lemma GrantedOf(entry: Word)
    requires Present(entry)
    ensures entry % 4 == Granted(entry) && Granted(entry) % 4 == Granted(entry)
    ensures (Granted(entry) + PAGE_SIZE) % 4 == Granted(entry)
  {
  }

  /** The read and write flags of a leaf, as the walker reports them. */
  lemma ReadWriteOf(entry: Word)
    requires Present(entry)
    ensures And(And(entry, PERM_ALL), Or(R, W)) == Granted(entry)
    ensures And(Granted(entry), Or(R, W)) == Granted(entry)
    ensures And(Granted(entry) + PAGE_SIZE, Or(R, W)) == Granted(entry)
  {
    hide And, Or, Pow2, Granted;
    ReadWriteExecute();
    Powers();
    GrantedOf(entry);
    LowMask(entry, 2, 4);
    LowMask(Granted(entry), 2, 4);
    LowMask(Granted(entry) + PAGE_SIZE, 2, 4);
    LowMask(PERM_ALL, 2, 4);
    AndAssociates(entry, PERM_ALL, 3);
  }

  /** After a split every address translates to the byte it did before, with the same read and
      write permission, and fails as it did before. Only a walk through the split entry can tell:
      its level is one less, a split into 4 KiB pages takes the super-page mark away, and flags other
      than read and write, which the constructors do not carry over, are gone. */
  lemma SplitPreservesTranslation(stage: Stage, levels: Level, root: Table, v: Word, mem: Memory,
                                  slot: Word, level: Level, t: Table)
    requires Splittable(mem, slot, level, t)
    requires Untangled(mem, root, levels, v, slot, level, t)
    ensures var r := WalkMeaning(stage, levels, root, v, mem);
      var r' := WalkMeaning(stage, levels, root, v, Split(mem, slot, level, t));
      if Paths.ReadsSlot(mem, root, levels, v, slot) && !TooLarge(stage, levels, v)
      then && r.Ok? && r.value.level == level && r.value.huge
           && r'.Ok?
           && r'.value.physical == r.value.physical
           && r'.value.level == level - 1
           && And(r'.value.perms, Or(R, W)) == And(r.value.perms, Or(R, W))
           && r'.value.huge == (level > 2)
           && r'.value.perms == And(r.value.perms, Or(R, W)) + if level > 2 then PAGE_SIZE else 0
      else r' == r
  {
    hide Index, Frame, Present, PageSize, Span, Width, And, Or, Split, Paths.ReadsSlot, Granted;
    SplitDescent(mem, root, levels, v, slot, level, t);
    var o := Descend(mem, root, levels, v);
    if o.Leaf? && Present(o.entry) {
      ReadWriteOf(o.entry);
    }
  }
}
