/** The packet as sections: a fixed header, the table of section offsets, the interned tables and the block data. */
module Sections {
  import opened Basics
  import opened Codec
  import opened WideCodec
  import opened PacketModel

  // ---------------------------------------------------------------------------------------------
  // Rows
  // ---------------------------------------------------------------------------------------------

  function Concat(parts: seq<Bytes>): Bytes {
    if parts == [] then [] else parts[0] + Concat(parts[1..])
  }

  lemma {:induction false} ConcatAt(parts: seq<Bytes>, i: nat)
    requires i < |parts|
    ensures Concat(parts[i..]) == parts[i] + Concat(parts[i + 1..])
  {
    assert parts[i..][1..] == parts[i + 1..];
  }

  /** Cut into rows of exactly `width` bytes. */
  function Chunks(data: Bytes, width: nat): (rows: seq<Bytes>)
    requires width > 0
    ensures forall r :: r in rows ==> |r| == width
  {
    if |data| < width then [] else [data[..width]] + Chunks(data[width..], width)
  }

  lemma {:induction false} ChunksUndoConcat(rows: seq<Bytes>, width: nat)
    requires width > 0 && forall r :: r in rows ==> |r| == width
    ensures |Concat(rows)| == |rows| * width && Chunks(Concat(rows), width) == rows
  {
    hide Chunks;
    if rows == [] {
      NoChunks(width);
    } else {
      var rest := Concat(rows[1..]);
      assert rows[0] in rows;
      ChunksUndoConcat(rows[1..], width);
      OneMore(|rows| - 1, width);
      FirstChunk(rows[0], rest, width);
      assert rows == [rows[0]] + rows[1..];
    }
  }

  lemma NoChunks(width: nat)
    requires width > 0
    ensures Chunks([], width) == []
  {
  }

  lemma FirstChunk(row: Bytes, rest: Bytes, width: nat)
    requires |row| == width > 0
    ensures Chunks(row + rest, width) == [row] + Chunks(rest, width)
  {
    assert (row + rest)[..width] == row && (row + rest)[width..] == rest;
  }

  lemma OneMore(n: nat, width: nat)
    ensures (n + 1) * width == n * width + width
  {
  }

  // ---------------------------------------------------------------------------------------------
  // The tables
  // ---------------------------------------------------------------------------------------------

  function PosEntryBytes(e: PosEntry): (r: Bytes)
    ensures |r| == 34
  {
    e.hash + LittleEndian(e.heightOffset, 2)
  }

  function PosRows(entries: seq<PosEntry>): (rows: seq<Bytes>)
    ensures |rows| == |entries| && forall i :: 0 <= i < |rows| ==> rows[i] == PosEntryBytes(entries[i])
  {
    seq(|entries|, i requires 0 <= i < |entries| => PosEntryBytes(entries[i]))
  }

  function WideRows(values: seq<nat>): (rows: seq<Bytes>)
    ensures |rows| == |values| && forall i :: 0 <= i < |rows| ==> rows[i] == BigEndian(values[i], 32)
  {
    seq(|values|, i requires 0 <= i < |values| => BigEndian(values[i], 32))
  }

  function NonceBytes(n: SenderBaseNonce): (r: Bytes)
    ensures r != []
  {
    Uleb(n.senderIndex) + Uleb(n.baseNonce)
  }

  function NonceRows(nonces: seq<SenderBaseNonce>): (rows: seq<Bytes>)
    ensures |rows| == |nonces| && forall i :: 0 <= i < |rows| ==> rows[i] == NonceBytes(nonces[i])
  {
    seq(|nonces|, i requires 0 <= i < |nonces| => NonceBytes(nonces[i]))
  }

  function AsAddress(rows: seq<Bytes>, i: nat): Address
    requires i < |rows| && forall r :: r in rows ==> |r| == 20
  {
    assert rows[i] in rows;
    rows[i]
  }

  function DecodeAddresses(data: Bytes): Result<seq<Address>> {
    if |data| % 20 != 0 then
      Err(Malformed)
    else
      var rows := Chunks(data, 20);
      Ok(seq(|rows|, i requires 0 <= i < |rows| => AsAddress(rows, i)))
  }

  function DecodePosEntry(row: Bytes): PosEntry
    requires |row| == 34
  {
    PosEntry(row[..32], FromLittleEndian(row[32..34]))
  }

  function DecodePosEntries(data: Bytes): Result<seq<PosEntry>> {
    if |data| % 34 != 0 then
      Err(Malformed)
    else
      var rows := Chunks(data, 34);
      Ok(seq(|rows|, i requires 0 <= i < |rows| => assert rows[i] in rows; DecodePosEntry(rows[i])))
  }

  /** Bytes past the last multiple of the alignment must be zeros, and are dropped. */
  function TrimZeroPadding(data: Bytes, alignment: nat): Result<Bytes>
    requires alignment > 0
  {
    var split := |data| - |data| % alignment;
    if forall i :: split <= i < |data| ==> data[i] == 0 then Ok(data[..split]) else Err(Malformed)
  }

  function DecodeWideTable(data: Bytes): Result<seq<nat>> {
    var trimmed :- TrimZeroPadding(data, 32);
    if |trimmed| % 32 != 0 then
      Err(Malformed)
    else
      var rows := Chunks(trimmed, 32);
      Ok(seq(|rows|, i requires 0 <= i < |rows| => FromBigEndian(rows[i])))
  }

  function NoncesFrom(data: Bytes, offset: nat): Result<seq<SenderBaseNonce>>
    decreases |data| - offset
  {
    if offset >= |data| then
      Ok([])
    else
      var sender :- ReadUleb(data, offset);
      var nonce :- ReadUleb(data, sender.next);
      UlebMoves(data, offset);
      UlebMoves(data, sender.next);
      var rest :- NoncesFrom(data, nonce.next);
      Ok([SenderBaseNonce(sender.value, nonce.value)] + rest)
  }

  lemma UlebMoves(data: Bytes, offset: nat)
    ensures ReadUleb(data, offset).Ok? ==> ReadUleb(data, offset).value.next > offset
  {
    UlebFromMoves(data, offset, 0, 0);
  }

  lemma {:induction false} UlebFromMoves(data: Bytes, offset: nat, shift: nat, acc: nat)
    ensures var r := UlebFrom(data, offset, shift, acc); r.Ok? ==> r.value.next > offset
    decreases |data| - offset
  {
    if offset < |data| && data[offset] >= 128 && shift + 7 < 64 {
      UlebFromMoves(data, offset + 1, shift + 7, acc + (data[offset] % 128) * Pow2(shift) % U64);
    }
  }

  function JoinedNonces(front: seq<SenderBaseNonce>, rest: Result<seq<SenderBaseNonce>>): Result<seq<SenderBaseNonce>> {
    var back :- rest;
    Ok(front + back)
  }

  method DecodeSenderBaseNonces(data: Bytes) returns (r: Result<seq<SenderBaseNonce>>)
    ensures r == NoncesFrom(data, 0)
  {
    hide ReadUleb;
    var offset := 0;
    var out: seq<SenderBaseNonce> := [];
    ghost var all := NoncesFrom(data, 0);
    if all.Ok? {
      assert [] + all.value == all.value;
    }
    while offset < |data|
      invariant JoinedNonces(out, NoncesFrom(data, offset)) == all
      decreases |data| - offset
    {
      UlebMoves(data, offset);
      var sender :- ReadUleb(data, offset);
      UlebMoves(data, sender.next);
      var nonce :- ReadUleb(data, sender.next);
      ghost var rest := NoncesFrom(data, nonce.next);
      var entry := SenderBaseNonce(sender.value, nonce.value);
      if rest.Ok? {
        assert out + ([entry] + rest.value) == (out + [entry]) + rest.value;
      }
      out := out + [entry];
      offset := nonce.next;
    }
    assert out + [] == out;
    return Ok(out);
  }

  lemma AddressesReadBack(addresses: seq<Address>)
    ensures DecodeAddresses(Concat(addresses)) == Ok(addresses)
  {
    hide Concat, Chunks;
    ChunksUndoConcat(addresses, 20);
    assert DecodeAddresses(Concat(addresses)).value == addresses;
  }

  lemma PosEntriesReadBack(entries: seq<PosEntry>)
    requires forall e :: e in entries ==> e.heightOffset < 0x1_0000
    ensures DecodePosEntries(Concat(PosRows(entries))) == Ok(entries)
  {
    hide Concat, Chunks, PosEntryBytes, DecodePosEntry;
    var rows := PosRows(entries);
    ChunksUndoConcat(rows, 34);
    var decoded := DecodePosEntries(Concat(rows)).value;
    forall i | 0 <= i < |entries|
      ensures decoded[i] == entries[i]
    {
      assert entries[i] in entries;
      PosEntryReadsBack(entries[i]);
    }
    assert decoded == entries;
  }

  lemma PosEntryReadsBack(e: PosEntry)
    requires e.heightOffset < 0x1_0000
    ensures DecodePosEntry(PosEntryBytes(e)) == e
  {
    hide LittleEndian, FromLittleEndian;
    assert Pow256(2) == 0x1_0000;
    LittleEndianRoundTrip(e.heightOffset, 2);
    assert PosEntryBytes(e)[32..34] == LittleEndian(e.heightOffset, 2);
  }

  lemma WideTableReadsBack(values: seq<nat>, padding: Bytes)
    requires forall v :: v in values ==> IsU256(v)
    requires |padding| < 32 && forall i :: 0 <= i < |padding| ==> padding[i] == 0
    ensures DecodeWideTable(Concat(WideRows(values)) + padding) == Ok(values)
  {
    hide BigEndian, FromBigEndian, Pow256, Concat, Chunks;
    var rows := WideRows(values);
    var table := Concat(rows);
    ChunksUndoConcat(rows, 32);
    TrimDropsPadding(table, padding);
    var decoded := DecodeWideTable(table + padding).value;
    forall i | 0 <= i < |values|
      ensures decoded[i] == values[i]
    {
      assert values[i] in values;
      BigEndianRoundTrip(values[i], 32);
    }
    assert decoded == values;
  }

  lemma TrimDropsPadding(table: Bytes, padding: Bytes)
    requires |table| % 32 == 0 && |padding| < 32 && forall i :: 0 <= i < |padding| ==> padding[i] == 0
    ensures TrimZeroPadding(table + padding, 32) == Ok(table)
  {
    assert (table + padding)[..|table|] == table;
    assert forall i :: |table| <= i < |table + padding| ==> (table + padding)[i] == padding[i - |table|];
  }

  lemma NonceReadsBack(data: Bytes, offset: nat, n: SenderBaseNonce)
    requires IsU64(n.senderIndex) && IsU64(n.baseNonce) && StandsAt(data, offset, NonceBytes(n))
    ensures ReadUleb(data, offset) == Ok(Read(n.senderIndex, offset + |Uleb(n.senderIndex)|))
    ensures ReadUleb(data, offset + |Uleb(n.senderIndex)|) == Ok(Read(n.baseNonce, offset + |NonceBytes(n)|))
  {
    hide Uleb, ReadUleb, StandsAt;
    StandsInParts(data, offset, Uleb(n.senderIndex), Uleb(n.baseNonce));
    UlebRoundTrip(data, offset, n.senderIndex);
    UlebRoundTrip(data, offset + |Uleb(n.senderIndex)|, n.baseNonce);
  }

  lemma NoNonces(data: Bytes, offset: nat)
    requires offset >= |data|
    ensures NoncesFrom(data, offset) == Ok([])
  {
  }

  lemma FirstRowStands(data: Bytes, offset: nat, row: Bytes, rest: Bytes)
    requires offset <= |data| && data[offset..] == row + rest
    ensures StandsAt(data, offset, row)
  {
    assert data[offset..offset + |row|] == data[offset..][..|row|] == row;
  }

  lemma OneNonce(data: Bytes, offset: nat, n: SenderBaseNonce)
    requires IsU64(n.senderIndex) && IsU64(n.baseNonce) && StandsAt(data, offset, NonceBytes(n)) && offset < |data|
    ensures NoncesFrom(data, offset)
         == var rest := NoncesFrom(data, offset + |NonceBytes(n)|);
            if rest.Ok? then Ok([n] + rest.value) else Err(rest.error)
  {
    hide Uleb, ReadUleb, StandsAt, NonceBytes;
    NonceReadsBack(data, offset, n);
  }

  lemma {:induction false} NoncesReadBack(data: Bytes, offset: nat, nonces: seq<SenderBaseNonce>)
    requires forall n :: n in nonces ==> IsU64(n.senderIndex) && IsU64(n.baseNonce)
    requires offset <= |data| && data[offset..] == Concat(NonceRows(nonces))
    ensures NoncesFrom(data, offset) == Ok(nonces)
    decreases |nonces|
  {
    hide Uleb, ReadUleb, NonceBytes, NoncesFrom, StandsAt;
    if nonces == [] {
      NoNonces(data, offset);
    } else {
      var n := nonces[0];
      assert NonceRows(nonces)[1..] == NonceRows(nonces[1..]);
      var rest := Concat(NonceRows(nonces[1..]));
      assert n in nonces;
      FirstRowStands(data, offset, NonceBytes(n), rest);
      OneNonce(data, offset, n);
      var next := offset + |NonceBytes(n)|;
      assert data[next..] == data[offset..][|NonceBytes(n)|..] == rest;
      NoncesReadBack(data, next, nonces[1..]);
      assert nonces == [n] + nonces[1..];
    }
  }

  // ---------------------------------------------------------------------------------------------
  // The sections and where they start
  // ---------------------------------------------------------------------------------------------

  /** The zeros that bring a length to the next multiple of the alignment. */
  function Padding(length: nat, alignment: nat): (z: Bytes)
    requires alignment > 0
    ensures |z| < alignment && (length + |z|) % alignment == 0
    ensures forall i :: 0 <= i < |z| ==> z[i] == 0
  {
    PaddingFits(length, alignment);
    Zeros((alignment - length % alignment) % alignment)
  }

  lemma PaddingFits(length: nat, alignment: nat)
    requires alignment > 0
    ensures (length + (alignment - length % alignment) % alignment) % alignment == 0
  {
    var r := length % alignment;
    if r == 0 {
      MultipleHasNoRemainder(alignment, 1);
    } else {
      NextMultiple(length, alignment);
      SmallRemainder(alignment - r, alignment);
      MultipleHasNoRemainder(alignment, length / alignment + 1);
    }
  }

  lemma NextMultiple(length: nat, alignment: nat)
    requires alignment > 0
    ensures length + (alignment - length % alignment) == alignment * (length / alignment + 1)
  {
  }

  lemma SmallRemainder(n: nat, alignment: nat)
    requires n < alignment
    ensures n % alignment == n
  {
  }

  lemma MultipleHasNoRemainder(alignment: nat, n: nat)
    requires alignment > 0
    ensures (alignment * n) % alignment == 0
  {
    var q: int := (alignment * n) / alignment;
    var d: int := n - q;
    assert alignment * d == (alignment * n) % alignment;
    MultipleOutside(alignment, d);
  }

  lemma MultipleOutside(a: nat, e: int)
    ensures e >= 1 ==> a * e >= a
    ensures e < 0 ==> a * e + a <= 0
  {
    if e >= 1 {
      MulMonotone(1, e, a);
    } else if e < 0 {
      MulMonotone(1, -e, a);
      assert (-e) * a == -(a * e);
    }
  }
}
