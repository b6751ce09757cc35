/** Byte strings cut into records that carry their own length: the shape all four ACPI iterators share. */
module Records {

  type Byte = b: int | 0 <= b < 256

  type Bytes = seq<Byte>

  /** The size of the first record of a byte string, or 0 when it does not start with one. */
  type Sizer = Bytes -> nat

  /** A record lies within its string, and its size is decided by its own bytes. */
  ghost predicate Lawful(size: Sizer) {
    && (forall b: Bytes :: size(b) <= |b|)
    && (forall b: Bytes, tail: Bytes | size(b) > 0 :: size(b[..size(b)] + tail) == size(b))
  }

  /** A byte string that is one record, whatever follows it. */
  ghost predicate IsRecord(size: Sizer, r: Bytes) {
    |r| > 0 && forall tail: Bytes :: size(r + tail) == |r|
  }

  function Cut(size: Sizer, bytes: Bytes): seq<Bytes>
    requires Lawful(size)
    decreases |bytes|
  {
    var n := size(bytes);
    if n == 0 then [] else [bytes[..n]] + Cut(size, bytes[n..])
  }

  lemma CutNothing(size: Sizer)
    requires Lawful(size)
    ensures Cut(size, []) == []
  {
    var none: Bytes := [];
    assert size(none) <= |none|;
  }

  /** What is left when no further record can be cut. */
  function Rest(size: Sizer, bytes: Bytes): Bytes
    requires Lawful(size)
    decreases |bytes|
  {
    var n := size(bytes);
    if n == 0 then bytes else Rest(size, bytes[n..])
  }

  function Join(records: seq<Bytes>): Bytes {
    if records == [] then [] else records[0] + Join(records[1..])
  }

  /** Cutting loses nothing, cuts records only, and stops only where no record starts. */
  lemma CutIsPartition(size: Sizer, bytes: Bytes)
    requires Lawful(size)
    ensures Join(Cut(size, bytes)) + Rest(size, bytes) == bytes
    ensures size(Rest(size, bytes)) == 0
    ensures forall r | r in Cut(size, bytes) :: IsRecord(size, r)
  {
    hide Cut, Rest, Join;
    CutJoinsBack(size, bytes);
    CutsAreRecords(size, bytes);
  }

  lemma {:induction false} CutJoinsBack(size: Sizer, bytes: Bytes)
    requires Lawful(size)
    ensures Join(Cut(size, bytes)) + Rest(size, bytes) == bytes
    decreases |bytes|
  {
    hide Join;
    var n := size(bytes);
    if n == 0 {
      JoinNothing(bytes);
    } else {
      CutJoinsBack(size, bytes[n..]);
      JoinPrepend(bytes, n, Cut(size, bytes[n..]), Rest(size, bytes[n..]));
    }
  }

  lemma JoinNothing(tail: Bytes)
    ensures Join([]) + tail == tail
  {
  }

  lemma JoinPrepend(bytes: Bytes, n: nat, rs: seq<Bytes>, rest: Bytes)
    requires n <= |bytes| && Join(rs) + rest == bytes[n..]
    ensures Join([bytes[..n]] + rs) + rest == bytes
  {
    assert ([bytes[..n]] + rs)[1..] == rs;
    assert bytes[..n] + Join(rs) + rest == bytes[..n] + (Join(rs) + rest);
  }

  lemma {:induction false} CutsAreRecords(size: Sizer, bytes: Bytes)
    requires Lawful(size)
    ensures size(Rest(size, bytes)) == 0
    ensures forall r | r in Cut(size, bytes) :: IsRecord(size, r)
    decreases |bytes|
  {
    var n := size(bytes);
    if n > 0 {
      CutsAreRecords(size, bytes[n..]);
    }
  }

  /** Records written one after the other are cut out again, in order, whatever tail follows. */
  lemma {:induction false} JoinThenCut(size: Sizer, records: seq<Bytes>, tail: Bytes)
    requires Lawful(size)
    requires forall r | r in records :: IsRecord(size, r)
    requires size(tail) == 0
    ensures Cut(size, Join(records) + tail) == records
    ensures Rest(size, Join(records) + tail) == tail
    decreases |records|
  {
    var bytes := Join(records) + tail;
    if records == [] {
      assert bytes == tail;
    } else {
      var r, rest := records[0], Join(records[1..]) + tail;
      assert IsRecord(size, r);
      assert bytes == r + rest;
      assert bytes[..|r|] == r && bytes[|r|..] == rest;
      JoinThenCut(size, records[1..], tail);
    }
  }

  /** The cut is the only way to read a string as records and a tail that starts none. */
  lemma CutIsUnique(size: Sizer, bytes: Bytes, records: seq<Bytes>, tail: Bytes)
    requires Lawful(size)
    requires forall r | r in records :: IsRecord(size, r)
    ensures bytes == Join(records) + tail && size(tail) == 0 <==>
      records == Cut(size, bytes) && tail == Rest(size, bytes)
  {
    CutIsPartition(size, bytes);
    if bytes == Join(records) + tail && size(tail) == 0 {
      JoinThenCut(size, records, tail);
    }
  }

  // ---- what the records say ----

  /** Every record can be read. */
  ghost predicate Reads<T>(size: Sizer, read: Bytes --> T) {
    forall r: Bytes | IsRecord(size, r) :: read.requires(r)
  }

  /** What an iterator over the records yields from here on. */
  function ReadAll<T>(size: Sizer, read: Bytes --> T, bytes: Bytes): seq<T>
    requires Lawful(size) && Reads(size, read)
    decreases |bytes|
  {
    var n := size(bytes);
    if n == 0 then []
    else
      assert IsRecord(size, bytes[..n]);
      [read(bytes[..n])] + ReadAll(size, read, bytes[n..])
  }

  lemma {:induction false} ReadAllIsCut<T>(size: Sizer, read: Bytes --> T, bytes: Bytes)
    requires Lawful(size) && Reads(size, read)
    ensures |ReadAll(size, read, bytes)| == |Cut(size, bytes)|
    ensures forall i | 0 <= i < |Cut(size, bytes)| ::
      IsRecord(size, Cut(size, bytes)[i]) && ReadAll(size, read, bytes)[i] == read(Cut(size, bytes)[i])
    decreases |bytes|
  {
    var n := size(bytes);
    if n > 0 {
      assert IsRecord(size, bytes[..n]);
      ReadAllIsCut(size, read, bytes[n..]);
    }
  }

  /** Records written one after the other are read in order, whatever unreadable tail follows. */
  lemma JoinThenRead<T>(size: Sizer, read: Bytes --> T, records: seq<Bytes>, tail: Bytes)
    requires Lawful(size) && Reads(size, read)
    requires forall r | r in records :: IsRecord(size, r)
    requires size(tail) == 0
    ensures var items := ReadAll(size, read, Join(records) + tail);
      |items| == |records| && forall i | 0 <= i < |items| :: IsRecord(size, records[i]) && items[i] == read(records[i])
  {
    JoinThenCut(size, records, tail);
    ReadAllIsCut(size, read, Join(records) + tail);
  }

  // ---- where the records are ----

  datatype Interval = Interval(lo: nat, hi: nat)

  /** The positions of the records of a string that starts at `base`. */
  function Extents(size: Sizer, bytes: Bytes, base: nat): seq<Interval>
    requires Lawful(size)
    decreases |bytes|
  {
    var n := size(bytes);
    if n == 0 then [] else [Interval(base, base + n)] + Extents(size, bytes[n..], base + n)
  }

  /** Intervals in ascending order within bounds; no two of them overlap. */
  ghost predicate Ascending(xs: seq<Interval>, lo: nat, hi: nat) {
    && (forall i | 0 <= i < |xs| :: lo <= xs[i].lo <= xs[i].hi <= hi)
    && (forall i, j | 0 <= i < j < |xs| :: xs[i].hi <= xs[j].lo)
  }

  lemma {:induction false} ExtentsAscend(size: Sizer, bytes: Bytes, base: nat)
    requires Lawful(size)
    ensures Ascending(Extents(size, bytes, base), base, base + |bytes|)
    decreases |bytes|
  {
    var n := size(bytes);
    if n > 0 {
      ExtentsAscend(size, bytes[n..], base + n);
      AscendingJoin([Interval(base, base + n)], Extents(size, bytes[n..], base + n), base, base + n, base + |bytes|);
    }
  }

  lemma AscendingJoin(xs: seq<Interval>, ys: seq<Interval>, lo: nat, mid: nat, hi: nat)
    requires lo <= mid <= hi && Ascending(xs, lo, mid) && Ascending(ys, mid, hi)
    ensures Ascending(xs + ys, lo, hi)
  {
  }

  /** `part` stands in `whole` at `base`. */
  predicate At(whole: Bytes, base: nat, part: Bytes) {
    base + |part| <= |whole| && whole[base..base + |part|] == part
  }

  lemma AtParts(whole: Bytes, base: nat, part: Bytes, n: nat)
    requires At(whole, base, part) && n <= |part|
    ensures At(whole, base, part[..n]) && At(whole, base + n, part[n..])
  {
  }

  /** The bytes at the positions are the records. */
  ghost predicate Located(whole: Bytes, xs: seq<Interval>, records: seq<Bytes>) {
    && |xs| == |records|
    && forall i | 0 <= i < |xs| :: xs[i].lo <= xs[i].hi <= |whole| && whole[xs[i].lo..xs[i].hi] == records[i]
  }

  lemma LocatedJoin(whole: Bytes, xs: seq<Interval>, ys: seq<Interval>, rs: seq<Bytes>, ss: seq<Bytes>)
    requires Located(whole, xs, rs) && Located(whole, ys, ss)
    ensures Located(whole, xs + ys, rs + ss)
  {
  }

  lemma LocatedNone(whole: Bytes)
    ensures Located(whole, [], [])
  {
  }

  lemma LocatedOne(whole: Bytes, base: nat, part: Bytes)
    requires At(whole, base, part)
    ensures Located(whole, [Interval(base, base + |part|)], [part])
  {
  }

  lemma {:induction false} ExtentsLocate(size: Sizer, whole: Bytes, base: nat, bytes: Bytes)
    requires Lawful(size) && At(whole, base, bytes)
    ensures Located(whole, Extents(size, bytes, base), Cut(size, bytes))
    decreases |bytes|
  {
    hide At, Located;
    var n := size(bytes);
    if n == 0 {
      LocatedNone(whole);
    } else {
      AtParts(whole, base, bytes, n);
      LocatedOne(whole, base, bytes[..n]);
      ExtentsLocate(size, whole, base + n, bytes[n..]);
      LocatedJoin(whole, [Interval(base, base + n)], Extents(size, bytes[n..], base + n),
                  [bytes[..n]], Cut(size, bytes[n..]));
    }
  }

  // ---- records inside records ----

  /** How many bytes of a record come before the records inside it; its whole length for none. */
  type Skipper = Bytes -> nat

  /** The bytes an inner iterator starts with: none when the record ends before its fixed part. */
  function Inner(skip: Skipper, raw: Bytes): Bytes {
    if skip(raw) <= |raw| then raw[skip(raw)..] else []
  }

  /** The positions of records laid out one after the other. */
  function Positions(records: seq<Bytes>, base: nat): seq<Interval> {
    if records == [] then []
    else [Interval(base, base + |records[0]|)] + Positions(records[1..], base + |records[0]|)
  }

  /** The positions of the records inside a record that starts at `base`. */
  function InnerExtents(size: Sizer, skip: Skipper, raw: Bytes, base: nat): seq<Interval>
    requires Lawful(size)
  {
    Extents(size, Inner(skip, raw), base + |raw| - |Inner(skip, raw)|)
  }

  /** The records inside a record at `outer` stand there, in order and one behind the other, after
      its fixed part and before its end. */
  ghost predicate Housed(size: Sizer, skip: Skipper, whole: Bytes, raw: Bytes, outer: Interval)
    requires Lawful(size)
  {
    var xs := InnerExtents(size, skip, raw, outer.lo);
    && Located(whole, xs, Cut(size, Inner(skip, raw)))
    && Ascending(xs, outer.lo, outer.hi)
    && (xs != [] ==> outer.lo + skip(raw) <= xs[0].lo)
  }

  lemma InnerAreHoused(size: Sizer, skip: Skipper, whole: Bytes, raw: Bytes, base: nat)
    requires Lawful(size) && At(whole, base, raw)
    ensures Housed(size, skip, whole, raw, Interval(base, base + |raw|))
  {
    hide At, Located, Ascending, Extents, Cut, Lawful;
    var inner := Inner(skip, raw);
    var at := base + |raw| - |inner|;
    AtParts(whole, base, raw, |raw| - |inner|);
    assert raw[|raw| - |inner|..] == inner;
    ExtentsLocate(size, whole, at, inner);
    ExtentsAscend(size, inner, at);
    AscendingWiden(Extents(size, inner, at), base, at, base + |raw|);
    ExtentsStart(size, inner, at);
  }

  lemma ExtentsStart(size: Sizer, bytes: Bytes, base: nat)
    requires Lawful(size)
    ensures Extents(size, bytes, base) != [] ==> |bytes| > 0 && Extents(size, bytes, base)[0].lo == base
  {
    assert size(bytes) <= |bytes|;
  }

  lemma AscendingWiden(xs: seq<Interval>, lo: nat, lo': nat, hi: nat)
    requires Ascending(xs, lo', hi) && lo <= lo'
    ensures Ascending(xs, lo, hi)
  {
  }

  lemma AtJoin(whole: Bytes, base: nat, first: Bytes, rest: Bytes)
    requires At(whole, base, first + rest)
    ensures At(whole, base, first) && At(whole, base + |first|, rest)
  {
    AtParts(whole, base, first + rest, |first|);
    assert (first + rest)[..|first|] == first && (first + rest)[|first|..] == rest;
  }

  lemma {:induction false} PositionsLocated(records: seq<Bytes>, whole: Bytes, base: nat)
    requires At(whole, base, Join(records))
    ensures Located(whole, Positions(records, base), records)
    decreases |records|
  {
    if records != [] {
      AtJoin(whole, base, records[0], Join(records[1..]));
      PositionsLocated(records[1..], whole, base + |records[0]|);
      LocatedJoin(whole, [Interval(base, base + |records[0]|)], Positions(records[1..], base + |records[0]|),
                  [records[0]], records[1..]);
      assert records == [records[0]] + records[1..];
    }
  }

  lemma {:induction false} PositionsAscend(records: seq<Bytes>, base: nat)
    ensures Ascending(Positions(records, base), base, base + |Join(records)|)
    ensures |Positions(records, base)| == |records|
    decreases |records|
  {
    hide Ascending;
    if records == [] {
      AscendingNone(base);
    } else {
      var rest := Positions(records[1..], base + |records[0]|);
      PositionsAscend(records[1..], base + |records[0]|);
      AscendingOne(base, base + |records[0]|);
      AscendingJoin([Interval(base, base + |records[0]|)], rest, base, base + |records[0]|, base + |Join(records)|);
    }
  }

  lemma AscendingNone(base: nat)
    ensures Ascending([], base, base)
  {
  }

  lemma AscendingOne(lo: nat, hi: nat)
    requires lo <= hi
    ensures Ascending([Interval(lo, hi)], lo, hi)
  {
  }

  /** The records of a table stand in it one behind the other, each houses its own inner records,
      and no inner record of one overlaps an inner record of another. */
  ghost predicate AllHoused(size: Sizer, skip: Skipper, table: Bytes, base: nat, records: seq<Bytes>)
    requires Lawful(size)
  {
    var at := Positions(records, base);
    && Located(table, at, records)
    && Ascending(at, base, |table|)
    && (forall k | 0 <= k < |records| :: Housed(size, skip, table, records[k], at[k]))
    && (forall k, l | 0 <= k < l < |records| ::
          Apart(InnerExtents(size, skip, records[k], at[k].lo), InnerExtents(size, skip, records[l], at[l].lo)))
  }

  ghost predicate Apart(xs: seq<Interval>, ys: seq<Interval>) {
    forall i, j | 0 <= i < |xs| && 0 <= j < |ys| :: xs[i].hi <= ys[j].lo
  }

  lemma AscendingApart(xs: seq<Interval>, ys: seq<Interval>, lo: nat, mid: nat, mid': nat, hi: nat)
    requires Ascending(xs, lo, mid) && Ascending(ys, mid', hi) && mid <= mid'
    ensures Apart(xs, ys)
  {
  }

  lemma RecordsOfTable(size: Sizer, skip: Skipper, table: Bytes, base: nat, records: seq<Bytes>, tail: Bytes)
    requires Lawful(size)
    requires base <= |table| && table[base..] == Join(records) + tail
    ensures AllHoused(size, skip, table, base, records)
  {
    hide Ascending, Apart, Housed, Located, At, Positions, InnerExtents, Join;
    var at := Positions(records, base);
    TableHolds(table, base, Join(records), tail);
    PositionsLocated(records, table, base);
    PositionsAscend(records, base);
    AscendingShort(at, base, base + |Join(records)|, |table|);
    forall k | 0 <= k < |records| ensures Housed(size, skip, table, records[k], at[k]) {
      LocatedAt(table, at, records, k);
      InnerAreHoused(size, skip, table, records[k], at[k].lo);
    }
    forall k, l | 0 <= k < l < |records|
      ensures Apart(InnerExtents(size, skip, records[k], at[k].lo), InnerExtents(size, skip, records[l], at[l].lo))
    {
      HousedAscend(size, skip, table, records[k], at[k]);
      HousedAscend(size, skip, table, records[l], at[l]);
      AscendingOrder(at, base, |table|, k, l);
      AscendingApart(InnerExtents(size, skip, records[k], at[k].lo), InnerExtents(size, skip, records[l], at[l].lo),
                     at[k].lo, at[k].hi, at[l].lo, at[l].hi);
    }
  }

  lemma TableHolds(table: Bytes, base: nat, body: Bytes, tail: Bytes)
    requires base <= |table| && table[base..] == body + tail
    ensures At(table, base, body)
  {
    assert (body + tail)[..|body|] == body;
    assert table[base..][..|body|] == table[base..base + |body|];
  }

  lemma AscendingShort(xs: seq<Interval>, lo: nat, hi: nat, hi': nat)
    requires Ascending(xs, lo, hi) && hi <= hi'
    ensures Ascending(xs, lo, hi')
  {
  }

  lemma LocatedAt(whole: Bytes, xs: seq<Interval>, records: seq<Bytes>, k: nat)
    requires Located(whole, xs, records) && k < |records|
    ensures At(whole, xs[k].lo, records[k]) && xs[k] == Interval(xs[k].lo, xs[k].lo + |records[k]|)
  {
  }

  lemma LocatedLength(whole: Bytes, xs: seq<Interval>, records: seq<Bytes>)
    requires Located(whole, xs, records)
    ensures |xs| == |records|
  {
  }

  lemma LocatedInside(whole: Bytes, xs: seq<Interval>, records: seq<Bytes>, k: nat)
    requires Located(whole, xs, records) && k < |records|
    ensures xs[k].hi <= |whole|
  {
  }

  lemma HousedAscend(size: Sizer, skip: Skipper, whole: Bytes, raw: Bytes, outer: Interval)
    requires Lawful(size) && Housed(size, skip, whole, raw, outer)
    ensures Ascending(InnerExtents(size, skip, raw, outer.lo), outer.lo, outer.hi)
  {
  }

  lemma AscendingOrder(xs: seq<Interval>, lo: nat, hi: nat, k: nat, l: nat)
    requires Ascending(xs, lo, hi) && k < l < |xs|
    ensures xs[k].hi <= xs[l].lo
  {
  }
}
