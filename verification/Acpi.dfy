/** The header checks both ACPI tables make before they are read. */
module Acpi {
  import opened Wrappers
  import opened Records

  datatype TableError =
    | TooShort(len: nat)
    | BadSignature(found: Bytes)
    | BadLength(claimed: nat, available: nat)
    | BadChecksum

  function Le16(b: Bytes, off: nat): nat
    requires off + 2 <= |b|
  {
    b[off] as int + 0x100 * b[off + 1] as int
  }

  function Le32(b: Bytes, off: nat): nat
    requires off + 4 <= |b|
  {
    Le16(b, off) + 0x1_0000 * Le16(b, off + 2)
  }

  // ---- records with a 16-bit length ----

  /** The size of the record at the front of `bytes`, told by the length field in its bytes 2 and 3. */
  function RecordSize(bytes: Bytes): nat {
    if |bytes| < 4 then 0
    else
      var len := Le16(bytes, 2);
      if len < 4 || len > |bytes| then 0 else len
  }

  /** A record as the tables define it: its length field is its size. */
  predicate IsSized(r: Bytes) {
    |r| >= 4 && Le16(r, 2) == |r|
  }

  lemma RecordSizeIsLawful()
    ensures Lawful(RecordSize)
  {
    forall b: Bytes, tail: Bytes | RecordSize(b) > 0
      ensures RecordSize(b[..RecordSize(b)] + tail) == RecordSize(b)
    {
      var c := b[..RecordSize(b)] + tail;
      assert c[2] == b[2] && c[3] == b[3];
    }
  }

  lemma SizedIsRecord(r: Bytes)
    ensures IsSized(r) <==> IsRecord(RecordSize, r)
  {
    if IsSized(r) {
      forall tail: Bytes ensures RecordSize(r + tail) == |r| {
        assert (r + tail)[2] == r[2] && (r + tail)[3] == r[3];
      }
    }
    if IsRecord(RecordSize, r) {
      assert r + [] == r;
      assert RecordSize(r + []) == |r|;
    }
  }

  // ---- header ----

  /** `fold(acc, wrapping_add)` */
  function WrappingSum(acc: Byte, b: Bytes): Byte
    decreases |b|
  {
    if b == [] then acc else WrappingSum((acc + b[0]) % 256, b[1..])
  }

  /** `new`: the table is the prefix of `raw` that its header claims. */
  function Validate(signature: Bytes, minimum: nat, raw: Bytes): Result<Bytes, TableError>
    requires |signature| == 4 && minimum > 9
  {
    if |raw| < minimum then Err(TooShort(|raw|))
    else if raw[..4] != signature then Err(BadSignature(raw[..4]))
    else
      var total := Le32(raw, 4);
      if total < minimum || total > |raw| then Err(BadLength(total, |raw|))
      else if WrappingSum(0, raw[..total]) != 0 then Err(BadChecksum)
      else Ok(raw[..total])
  }

  // ---- what is accepted ----

  function Sum(b: Bytes): nat {
    if b == [] then 0 else b[0] + Sum(b[1..])
  }

  lemma ModAdds(x: nat, y: nat)
    ensures (x % 256 + y) % 256 == (x + y) % 256
  {
  }

  lemma {:induction false} WrappingSumIsSum(acc: Byte, b: Bytes)
    ensures WrappingSum(acc, b) == (acc + Sum(b)) % 256
    decreases |b|
  {
    if b != [] {
      WrappingSumIsSum((acc + b[0]) % 256, b[1..]);
      ModAdds(acc + b[0], Sum(b[1..]));
    }
  }

  predicate Signed(signature: Bytes, raw: Bytes) {
    |raw| >= 4 && raw[..4] == signature
  }

  /** The length a table's header claims. */
  function Claimed(raw: Bytes): nat
    requires |raw| >= 8
  {
    raw[4] as int + 0x100 * raw[5] as int + 0x1_0000 * raw[6] as int + 0x100_0000 * raw[7] as int
  }

  predicate LengthFits(minimum: nat, raw: Bytes) {
    |raw| >= 8 && minimum <= Claimed(raw) <= |raw|
  }

  predicate Balanced(raw: Bytes)
    requires |raw| >= 8 && Claimed(raw) <= |raw|
  {
    Sum(raw[..Claimed(raw)]) % 256 == 0
  }

  /** A table is accepted exactly when it is long enough, signed, claims a length that fits, and its
      claimed bytes sum to zero; it is then those bytes. Otherwise the first of these that fails is
      reported, with what was found. */
  lemma ValidateIsExact(signature: Bytes, minimum: nat, raw: Bytes)
    requires |signature| == 4 && minimum > 9
    ensures Validate(signature, minimum, raw) ==
      if |raw| < minimum then Err(TooShort(|raw|))
      else if !Signed(signature, raw) then Err(BadSignature([raw[0], raw[1], raw[2], raw[3]]))
      else if !LengthFits(minimum, raw) then Err(BadLength(Claimed(raw), |raw|))
      else if !Balanced(raw) then Err(BadChecksum)
      else Ok(raw[..Claimed(raw)])
  {
    if |raw| >= minimum {
      assert raw[..4] == [raw[0], raw[1], raw[2], raw[3]];
      assert Le32(raw, 4) == Claimed(raw);
      if LengthFits(minimum, raw) {
        WrappingSumIsSum(0, raw[..Claimed(raw)]);
      }
    }
  }

  /** Bytes after the claimed length are never looked at: any others may stand there. */
  lemma TrailingBytesIgnored(signature: Bytes, minimum: nat, raw: Bytes, other: Bytes)
    requires |signature| == 4 && minimum > 9
    requires Validate(signature, minimum, raw).Ok?
    ensures var table := Validate(signature, minimum, raw).value;
      Validate(signature, minimum, table + other) == Ok(table)
  {
    var table := raw[..Le32(raw, 4)];
    var total := Le32(raw, 4);
    assert forall i | 0 <= i < 8 :: (table + other)[i] == raw[i];
    assert (table + other)[..4] == raw[..4];
    assert Le32(table + other, 4) == total;
    assert (table + other)[..total] == table;
  }

  lemma {:induction false} SumOfUpdate(b: Bytes, i: nat, x: Byte)
    requires i < |b|
    ensures Sum(b[i := x]) == Sum(b) - b[i] + x
    decreases |b|
  {
    if i == 0 {
      assert b[0 := x][1..] == b[1..];
    } else {
      assert b[i := x][1..] == b[1..][i - 1 := x];
      SumOfUpdate(b[1..], i - 1, x);
    }
  }

  /** The one value of byte 9, the checksum, that balances the rest of a table. */
  function BalancingByte(raw: Bytes): Byte
    requires |raw| >= 10 && 9 < Le32(raw, 4) <= |raw|
  {
    (raw[9] - Sum(raw[..Le32(raw, 4)])) % 256
  }

  /** Whatever else a table holds, exactly one value of its checksum byte makes it acceptable. */
  lemma ChecksumIsDetermined(signature: Bytes, minimum: nat, raw: Bytes, c: Byte)
    requires |signature| == 4 && minimum > 9
    requires |raw| >= minimum && Signed(signature, raw) && LengthFits(minimum, raw)
    ensures Validate(signature, minimum, raw[9 := c]).Ok? <==> c == BalancingByte(raw)
  {
    var raw' := raw[9 := c];
    var total := Le32(raw, 4);
    assert raw'[..4] == raw[..4];
    assert Le32(raw', 4) == total;
    assert raw'[..total] == raw[..total][9 := c];
    SumOfUpdate(raw[..total], 9, c);
    ValidateIsExact(signature, minimum, raw');
  }
}
