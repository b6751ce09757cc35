/** What a walk reads, and what it depends on. */
module Paths {
  import opened Bits
  import opened Radix

  function Last(t: seq<Fetch>): Fetch
    requires t != []
  {
    t[|t| - 1]
  }

  /** `g` is read one level below `f`, in the table the entry read by `f` points to. */
  predicate Follows(mem: Memory, v: Word, f: Fetch, g: Fetch) {
    && PointsToTable(mem(f.address))
    && g.level == f.level - 1
    && g.address == EntryAddress(Frame(mem(f.address)), v, g.level)
  }

  predicate Stops(mem: Memory, f: Fetch) {
    f.level == 1 || !PointsToTable(mem(f.address))
  }

  /** `t` starts at the table's entry for `v`, goes down one level at a time through entries that
      point to tables, and stops at level 1 or at the first entry that points to none. */
  ghost predicate IsPath(mem: Memory, table: Table, level: Level, v: Word, t: seq<Fetch>) {
    && t != []
    && t[0] == Fetch(level, EntryAddress(table, v, level))
    && (forall i | 0 <= i < |t| - 1 :: Follows(mem, v, t[i], t[i + 1]))
    && Stops(mem, Last(t))
  }

  lemma {:induction false} TraceIsPath(mem: Memory, table: Table, level: Level, v: Word)
    ensures IsPath(mem, table, level, v, Trace(mem, table, level, v))
    decreases level
  {
    hide Index, Frame, Present, PageSize;
    var address := EntryAddress(table, v, level);
    var entry := mem(address);
    if PointsToTable(entry) && level > 1 {
      var rest := Trace(mem, Frame(entry), level - 1, v);
      TraceIsPath(mem, Frame(entry), level - 1, v);
      PathExtends(mem, table, level, v, rest);
    }
  }

  lemma PathExtends(mem: Memory, table: Table, level: Level, v: Word, rest: seq<Fetch>)
    requires level > 1
    requires var entry := mem(EntryAddress(table, v, level));
      PointsToTable(entry) && IsPath(mem, Frame(entry), level - 1, v, rest)
    ensures IsPath(mem, table, level, v, [Fetch(level, EntryAddress(table, v, level))] + rest)
  {
    hide Index, Frame, Present, PageSize, EntryAddress;
    var t := [Fetch(level, EntryAddress(table, v, level))] + rest;
    assert Last(t) == Last(rest);
    forall i | 0 <= i < |t| - 1
      ensures Follows(mem, v, t[i], t[i + 1])
    {
      assert t[i + 1] == rest[i];
      if i > 0 {
        assert t[i] == rest[i - 1] && rest[i - 1 + 1] == rest[i];
      }
    }
  }

  lemma PathTail(mem: Memory, table: Table, level: Level, v: Word, t: seq<Fetch>)
    requires IsPath(mem, table, level, v, t) && |t| > 1
    ensures level > 1 && PointsToTable(mem(t[0].address))
    ensures IsPath(mem, Frame(mem(t[0].address)), level - 1, v, t[1..])
  {
    hide Index, Frame, Present, PageSize, EntryAddress;
    var rest := t[1..];
    assert Follows(mem, v, t[0], t[0 + 1]);
    forall i | 0 <= i < |rest| - 1
      ensures Follows(mem, v, rest[i], rest[i + 1])
    {
      assert Follows(mem, v, t[i + 1], t[i + 1 + 1]);
    }
  }

  /** The trace is the only path, and its last entry tells the outcome. */
  lemma {:induction false} PathIsUnique(mem: Memory, table: Table, level: Level, v: Word, t: seq<Fetch>)
    requires IsPath(mem, table, level, v, t)
    ensures t == Trace(mem, table, level, v)
    ensures Descend(mem, table, level, v) ==
      var entry := mem(Last(t).address);
      if Present(entry) then Leaf(Last(t).level, entry) else Absent(Last(t).level)
    decreases level
  {
    hide Index, Frame, Present, PageSize;
    if |t| > 1 {
      PathTail(mem, table, level, v, t);
      PathIsUnique(mem, Frame(mem(t[0].address)), level - 1, v, t[1..]);
      assert t == [t[0]] + t[1..];
    } else {
      assert t == [t[0]];
    }
  }

  /** The outcome and the trace depend on the traced entries only. */
  lemma {:induction false} FrameRule(mem: Memory, mem': Memory, table: Table, level: Level, v: Word)
    requires forall f | f in Trace(mem, table, level, v) :: mem'(f.address) == mem(f.address)
    ensures Trace(mem', table, level, v) == Trace(mem, table, level, v)
    ensures Descend(mem', table, level, v) == Descend(mem, table, level, v)
    decreases level
  {
    hide Index, Frame, Present, PageSize;
    var address := EntryAddress(table, v, level);
    var entry := mem(address);
    assert Fetch(level, address) in Trace(mem, table, level, v);
    if PointsToTable(entry) && level > 1 {
      FrameRule(mem, mem', Frame(entry), level - 1, v);
    }
  }

  /** The walk of `v` reads the entry at `slot`. */
  ghost predicate ReadsSlot(mem: Memory, table: Table, level: Level, v: Word, slot: Word) {
    exists f :: f in Trace(mem, table, level, v) && f.address == slot
  }

  lemma ReadsSlotStep(mem: Memory, table: Table, level: Level, v: Word, slot: Word)
    ensures var address := EntryAddress(table, v, level);
      ReadsSlot(mem, table, level, v, slot) <==>
        || address == slot
        || (level > 1 && PointsToTable(mem(address)) && ReadsSlot(mem, Frame(mem(address)), level - 1, v, slot))
  {
    hide Frame, Present, PageSize, Index;
    var address := EntryAddress(table, v, level);
    assert Fetch(level, address) in Trace(mem, table, level, v);
    if level > 1 && PointsToTable(mem(address)) {
      var rest := Trace(mem, Frame(mem(address)), level - 1, v);
      assert Trace(mem, table, level, v) == [Fetch(level, address)] + rest;
      assert forall f :: f in rest ==> f in Trace(mem, table, level, v);
    }
  }
}
