/** The block body: fixed-size prefixes, the overflow tail behind them, and the bitmap of the records that overflow. */
module BlockBody {
  import opened Basics
  import opened Bits
  import opened Codec
  import opened WideCodec
  import opened BlockRecord

  // ---------------------------------------------------------------------------------------------
  // Packing
  // ---------------------------------------------------------------------------------------------

  predicate Overflows(record: Bytes, size: nat) {
    |record| > size
  }

  /** The record cut or zero-filled to `size` bytes. */
  function Prefix(record: Bytes, size: nat): (r: Bytes)
    ensures |r| == size
  {
    if Overflows(record, size) then record[..size] else record + Zeros(size - |record|)
  }

  /** The rest of the record behind its length, or nothing. */
  function Tail(record: Bytes, size: nat): Bytes {
    if Overflows(record, size) then Uleb(|record| - size) + record[size..] else []
  }

  function Prefixes(records: seq<Bytes>, size: nat): (r: Bytes)
    ensures |r| == |records| * size
  {
    if records == [] then [] else Prefix(records[0], size) + Prefixes(records[1..], size)
  }

  function Tails(records: seq<Bytes>, size: nat): Bytes {
    if records == [] then [] else Tail(records[0], size) + Tails(records[1..], size)
  }

  function Body(records: seq<Bytes>, size: nat): Bytes {
    Prefixes(records, size) + Tails(records, size)
  }

  function BitmapLen(count: nat): nat {
    (count + 7) / 8
  }

  /** The bitmap once the first `i` records have been marked. */
  function Bitmap(records: seq<Bytes>, size: nat, i: nat): (r: Bytes)
    requires i <= |records|
    ensures |r| == BitmapLen(|records|)
  {
    if i == 0 then
      Zeros(BitmapLen(|records|))
    else
      var before := Bitmap(records, size, i - 1);
      if Overflows(records[i - 1], size) then
        before[(i - 1) / 8 := SetBit(before[(i - 1) / 8], (i - 1) % 8)]
      else
        before
  }

  lemma NextRecord(records: seq<Bytes>, size: nat, i: nat)
    requires i < |records|
    ensures Prefixes(records[i..], size) == Prefix(records[i], size) + Prefixes(records[i + 1..], size)
    ensures Tails(records[i..], size) == Tail(records[i], size) + Tails(records[i + 1..], size)
  {
    hide Prefix, Tail;
    assert records[i..][1..] == records[i + 1..];
  }

  /** The prefix of one more record, its bytes and its zeros, behind those laid so far. */
  lemma PrefixLaid(records: seq<Bytes>, size: nat, i: nat, body: Bytes, all: Bytes)
    requires i < |records| && body + Prefixes(records[i..], size) == all
    ensures var n := Min(|records[i]|, size);
      (body + records[i][..n] + Zeros(size - n)) + Prefixes(records[i + 1..], size) == all
  {
    hide Prefixes, Zeros;
    var n := Min(|records[i]|, size);
    NextRecord(records, size, i);
    NoZeros();
    assert records[i][..n] + Zeros(size - n) == Prefix(records[i], size);
    Regrouped(body, records[i][..n], Zeros(size - n), Prefixes(records[i + 1..], size));
  }

  /** The tail of one more record, if it overflows. */
  lemma TailLaid(records: seq<Bytes>, size: nat, i: nat, overflow: Bytes, all: Bytes)
    requires i < |records| && overflow + Tails(records[i..], size) == all
    ensures Overflows(records[i], size) ==>
      (overflow + Uleb(|records[i]| - size) + records[i][size..]) + Tails(records[i + 1..], size) == all
    ensures !Overflows(records[i], size) ==> overflow + Tails(records[i + 1..], size) == all
  {
    hide Tails, Uleb;
    NextRecord(records, size, i);
    if Overflows(records[i], size) {
      Regrouped(overflow, Uleb(|records[i]| - size), records[i][size..], Tails(records[i + 1..], size));
    } else {
      assert [] + Tails(records[i + 1..], size) == Tails(records[i + 1..], size);
    }
  }

  lemma Regrouped(a: Bytes, b: Bytes, c: Bytes, d: Bytes)
    ensures a + ((b + c) + d) == (a + b + c) + d
  {
  }

  lemma BitmapStep(records: seq<Bytes>, size: nat, i: nat)
    requires i < |records|
    ensures Bitmap(records, size, i + 1)
         == if Overflows(records[i], size)
            then Bitmap(records, size, i)[i / 8 := SetBit(Bitmap(records, size, i)[i / 8], i % 8)]
            else Bitmap(records, size, i)
  {
    hide SetBit;
  }

  method PackBlockBody(records: seq<Bytes>, size: nat) returns (body: Bytes, bitmap: Bytes)
    ensures body == Body(records, size)
    ensures bitmap == Bitmap(records, size, |records|)
  {
    hide SetBit, Uleb, Zeros, Prefix, Prefixes, Tails, Bitmap;
    bitmap := Zeros((|records| + 7) / 8);
    body := [];
    var overflow: Bytes := [];
    assert records[0..] == records;
    NothingLaid(records, size);
    for i := 0 to |records|
      invariant bitmap == Bitmap(records, size, i)
      invariant body + Prefixes(records[i..], size) == Prefixes(records, size)
      invariant overflow + Tails(records[i..], size) == Tails(records, size)
    {
      BitmapStep(records, size, i);
      PrefixLaid(records, size, i, body, Prefixes(records, size));
      TailLaid(records, size, i, overflow, Tails(records, size));
      var record := records[i];
      if |record| > size {
        bitmap := bitmap[i / 8 := SetBit(bitmap[i / 8], i % 8)];
      }
      var prefixLen := Min(|record|, size);
      body := body + record[..prefixLen] + Zeros(size - prefixLen);
      if |record| > size {
        var rest := record[size..];
        overflow := overflow + Uleb(|rest|) + rest;
      }
    }
    EverythingLaid(records, size, body, overflow);
    body := body + overflow;
  }

  lemma NothingLaid(records: seq<Bytes>, size: nat)
    ensures Bitmap(records, size, 0) == Zeros((|records| + 7) / 8)
    ensures [] + Prefixes(records, size) == Prefixes(records, size)
    ensures [] + Tails(records, size) == Tails(records, size)
  {
  }

  lemma EverythingLaid(records: seq<Bytes>, size: nat, body: Bytes, overflow: Bytes)
    requires body + Prefixes(records[|records|..], size) == Prefixes(records, size)
    requires overflow + Tails(records[|records|..], size) == Tails(records, size)
    ensures body == Prefixes(records, size) && overflow == Tails(records, size)
  {
    assert records[|records|..] == [];
    NoRecords(size);
    assert body + [] == body && overflow + [] == overflow;
  }

  lemma NoRecords(size: nat)
    ensures Prefixes([], size) == [] && Tails([], size) == []
  {
  }

  lemma NoZeros()
    ensures Zeros(0) == []
  {
  }

  /** Bit `j` of the bitmap says whether record `j` overflows. */
  lemma {:induction false} BitmapMarksOverflow(records: seq<Bytes>, size: nat, i: nat, j: nat)
    requires i <= |records| && j < |records|
    ensures Bit(Bitmap(records, size, i)[j / 8], j % 8) == (j < i && Overflows(records[j], size))
    decreases i
  {
    if i == 0 {
      ZeroHasNoBits(j % 8);
    } else {
      BitmapMarksOverflow(records, size, i - 1, j);
    }
  }

  lemma {:induction false} ZeroHasNoBits(k: nat)
    ensures !BitOf(0, k)
  {
    if k > 0 {
      ZeroHasNoBits(k - 1);
    }
  }

  // ---------------------------------------------------------------------------------------------
  // Unpacking
  // ---------------------------------------------------------------------------------------------

  /** A record as the decoder holds it: the whole prefix and its tail, and the transaction offset peeked from them. */
  datatype DecodedRecord = DecodedRecord(bytes: Bytes, txOffsetUnits: nat)

  /** Where the block area lies: prefixes of `size` bytes from `body`, tails behind them, nothing beyond `limit`. */
  datatype Area = Area(body: nat, limit: nat, size: nat, count: nat)

  predicate AreaFits(a: Area, data: Bytes) {
    a.body + a.count * a.size <= a.limit <= |data|
  }

  function Slot(data: Bytes, a: Area, index: nat): (r: Bytes)
    requires AreaFits(a, data) && index < a.count
    ensures |r| == a.size
  {
    MulMonotone(index + 1, a.count, a.size);
    assert (index + 1) * a.size == index * a.size + a.size;
    data[a.body + index * a.size..a.body + (index + 1) * a.size]
  }

  /** The bytes of a record and the offset of the next tail. */
  function WithTail(data: Bytes, limit: nat, prefix: Bytes, marked: bool, at: nat): Result<(Bytes, nat)>
    requires limit <= |data|
  {
    if marked then
      var len :- ReadUleb(data, at);
      if len.next + len.value > limit then
        Err(OutOfBounds)
      else
        Ok((prefix + data[len.next..len.next + len.value], len.next + len.value))
    else
      Ok((prefix, at))
  }

  function RecordsFrom(data: Bytes, a: Area, bitmap: Bytes, index: nat, at: nat): Result<seq<DecodedRecord>>
    requires AreaFits(a, data) && index <= a.count && |bitmap| == BitmapLen(a.count)
    decreases a.count - index
  {
    if index == a.count then
      Ok([])
    else
      var r :- WithTail(data, a.limit, Slot(data, a, index), Bit(bitmap[index / 8], index % 8), at);
      var units :- TxOffsetUnits(r.0);
      var rest :- RecordsFrom(data, a, bitmap, index + 1, r.1);
      Ok([DecodedRecord(r.0, units)] + rest)
  }

  function Records(data: Bytes, header: nat, body: nat, limit: nat, size: nat): Result<seq<DecodedRecord>>
    requires limit <= |data|
  {
    var count :- ReadU32(data, header);
    var a := Area(body, limit, size, count);
    if header + 4 + BitmapLen(count) > |data| || !AreaFits(a, data) then
      Err(OutOfBounds)
    else
      RecordsFrom(data, a, data[header + 4..header + 4 + BitmapLen(count)], 0, body + count * size)
  }

  function Joined(front: seq<DecodedRecord>, rest: Result<seq<DecodedRecord>>): Result<seq<DecodedRecord>> {
    var back :- rest;
    Ok(front + back)
  }

  lemma JoinedToNothing(r: Result<seq<DecodedRecord>>)
    ensures Joined([], r) == r
  {
    if r.Ok? {
      assert [] + r.value == r.value;
    }
  }

  /** What the records read so far and the next one leave to read. */
  lemma ReadMore(data: Bytes, a: Area, bitmap: Bytes, index: nat, at: nat, front: seq<DecodedRecord>)
    requires AreaFits(a, data) && index < a.count && |bitmap| == BitmapLen(a.count)
    ensures var tail := WithTail(data, a.limit, Slot(data, a, index), Bit(bitmap[index / 8], index % 8), at);
      Joined(front, RecordsFrom(data, a, bitmap, index, at)) == (
        if tail.Err? then Err(tail.error)
        else if TxOffsetUnits(tail.value.0).Err? then Err(TxOffsetUnits(tail.value.0).error)
        else Joined(front + [DecodedRecord(tail.value.0, TxOffsetUnits(tail.value.0).value)],
                    RecordsFrom(data, a, bitmap, index + 1, tail.value.1)))
  {
    hide WithTail, Bit, TxOffsetUnits, Slot;
    var tail := WithTail(data, a.limit, Slot(data, a, index), Bit(bitmap[index / 8], index % 8), at);
    if tail.Ok? && TxOffsetUnits(tail.value.0).Ok? {
      var rest := RecordsFrom(data, a, bitmap, index + 1, tail.value.1);
      if rest.Ok? {
        var r := DecodedRecord(tail.value.0, TxOffsetUnits(tail.value.0).value);
        assert front + ([r] + rest.value) == (front + [r]) + rest.value;
      }
    }
  }

  lemma ReadAll(data: Bytes, a: Area, bitmap: Bytes, at: nat, front: seq<DecodedRecord>)
    requires AreaFits(a, data) && |bitmap| == BitmapLen(a.count)
    ensures Joined(front, RecordsFrom(data, a, bitmap, a.count, at)) == Ok(front)
  {
    assert front + [] == front;
  }

  method DecodeBlockRecords(data: Bytes, header: nat, body: nat, limit: nat, size: nat)
    returns (r: Result<seq<DecodedRecord>>)
    requires limit <= |data|
    ensures r == Records(data, header, body, limit, size)
  {
    hide ReadUleb, TxOffsetUnits, Bit, RecordsFrom, Joined, Slot;
    var count :- ReadU32(data, header);
    if header + 4 + (count + 7) / 8 > |data| {
      return Err(OutOfBounds);
    }
    var bitmap := data[header + 4..header + 4 + (count + 7) / 8];
    var prefixTotal := count * size;
    if body + prefixTotal > limit {
      return Err(OutOfBounds);
    }
    ghost var a := Area(body, limit, size, count);
    ghost var all := RecordsFrom(data, a, bitmap, 0, body + prefixTotal);
    var overflowOffset: nat := body + prefixTotal;
    var out: seq<DecodedRecord> := [];
    JoinedToNothing(all);
    for index := 0 to count
      invariant Joined(out, RecordsFrom(data, a, bitmap, index, overflowOffset)) == all
    {
      ReadMore(data, a, bitmap, index, overflowOffset, out);
      var bytes := Slot(data, Area(body, limit, size, count), index);
      if Bit(bitmap[index / 8], index % 8) {
        var len :- ReadUleb(data, overflowOffset);
        overflowOffset := len.next;
        if overflowOffset + len.value > limit {
          return Err(OutOfBounds);
        }
        bytes := bytes + data[overflowOffset..overflowOffset + len.value];
        overflowOffset := overflowOffset + len.value;
      }
      var units := PeekTxOffsetUnits(bytes);
      if units.Err? {
        return Err(units.error);
      }
      out := out + [DecodedRecord(bytes, units.value)];
    }
    ReadAll(data, a, bitmap, overflowOffset, out);
    return Ok(out);
  }

  // ---------------------------------------------------------------------------------------------
  // Round trip
  // ---------------------------------------------------------------------------------------------

  /** The record with the zeros that fill its prefix. */
  function Padded(record: Bytes, size: nat): (r: Bytes)
    ensures StandsAt(r, 0, record)
  {
    if Overflows(record, size) then record else record + Zeros(size - |record|)
  }

  predicate Peekable(records: seq<Bytes>, size: nat) {
    forall r :: r in records ==> |r| < U64 && TxOffsetUnits(Padded(r, size)).Ok?
  }

  function Unpacked(records: seq<Bytes>, size: nat): (r: seq<DecodedRecord>)
    requires Peekable(records, size)
    ensures |r| == |records|
    ensures forall i :: 0 <= i < |r| ==>
              && r[i].bytes == Padded(records[i], size)
              && TxOffsetUnits(Padded(records[i], size)) == Ok(r[i].txOffsetUnits)
  {
    if records == [] then
      []
    else
      var bytes := Padded(records[0], size);
      assert records[0] in records;
      [DecodedRecord(bytes, TxOffsetUnits(bytes).value)] + Unpacked(records[1..], size)
  }

  lemma {:induction false} SlotIsPrefix(data: Bytes, at: nat, records: seq<Bytes>, size: nat, i: nat)
    requires i < |records| && StandsAt(data, at, Prefixes(records, size))
    ensures StandsAt(data, at + i * size, Prefix(records[i], size))
    decreases i
  {
    hide Prefix, StandsAt;
    StandsInParts(data, at, Prefix(records[0], size), Prefixes(records[1..], size));
    if i > 0 {
      SlotIsPrefix(data, at + size, records[1..], size, i - 1);
      assert (i - 1) * size + size == i * size;
    }
  }

  lemma TailReadsBack(data: Bytes, limit: nat, record: Bytes, size: nat, at: nat)
    requires |record| < U64 && StandsAt(data, at, Tail(record, size)) && at + |Tail(record, size)| <= limit <= |data|
    ensures WithTail(data, limit, Prefix(record, size), Overflows(record, size), at)
         == Ok((Padded(record, size), at + |Tail(record, size)|))
  {
    hide Uleb, ReadUleb, StandsAt;
    if Overflows(record, size) {
      var rest := record[size..];
      StandsInParts(data, at, Uleb(|rest|), rest);
      UlebRoundTrip(data, at, |rest|);
      StandingPart(data, at + |Uleb(|rest|)|, rest);
      assert record[..size] + rest == record;
    }
  }

  lemma PeekableIsShort(records: seq<Bytes>, size: nat, i: nat)
    requires Peekable(records, size) && i < |records|
    ensures |records[i]| < U64
  {
    assert records[i] in records;
  }

  lemma {:induction false} RecordsReadBack(data: Bytes, a: Area, records: seq<Bytes>, index: nat, at: nat)
    requires AreaFits(a, data) && index <= a.count == |records| && Peekable(records, a.size)
    requires StandsAt(data, a.body, Prefixes(records, a.size))
    requires StandsAt(data, at, Tails(records[index..], a.size)) && at + |Tails(records[index..], a.size)| <= a.limit
    ensures RecordsFrom(data, a, Bitmap(records, a.size, a.count), index, at) == Ok(Unpacked(records, a.size)[index..])
    decreases a.count - index
  {
    hide Prefixes, Prefix, Tail, Tails, StandsAt, Bitmap, Padded, Overflows, TxOffsetUnits, WithTail, Bit, Unpacked,
      Peekable;
    if index < a.count {
      var record := records[index];
      NextRecord(records, a.size, index);
      PeekableIsShort(records, a.size, index);
      StandsInParts(data, at, Tail(record, a.size), Tails(records[index + 1..], a.size));
      SlotStands(data, a, records, index);
      BitmapMarksOverflow(records, a.size, a.count, index);
      TailReadsBack(data, a.limit, record, a.size, at);
      RecordsReadBack(data, a, records, index + 1, at + |Tail(record, a.size)|);
      var u := Unpacked(records, a.size);
      assert u[index..] == [u[index]] + u[index + 1..];
    } else {
      assert Unpacked(records, a.size)[index..] == [];
    }
  }

  lemma SlotStands(data: Bytes, a: Area, records: seq<Bytes>, index: nat)
    requires AreaFits(a, data) && index < a.count == |records| && StandsAt(data, a.body, Prefixes(records, a.size))
    ensures Slot(data, a, index) == Prefix(records[index], a.size)
  {
    hide Prefixes, Prefix;
    SlotIsPrefix(data, a.body, records, a.size, index);
    assert (index + 1) * a.size == index * a.size + a.size;
  }

  /** Whatever the lengths and the prefix size, the records come back, each behind at most its zero filling. */
  lemma BodyRoundTrip(data: Bytes, header: nat, body: nat, limit: nat, records: seq<Bytes>, size: nat)
    requires |records| < Pow256(4) && Peekable(records, size)
    requires StandsAt(data, header, LittleEndian(|records|, 4) + Bitmap(records, size, |records|))
    requires StandsAt(data, body, Body(records, size)) && body + |Body(records, size)| <= limit <= |data|
    ensures Records(data, header, body, limit, size) == Ok(Unpacked(records, size))
  {
    hide Bitmap, RecordsFrom, Peekable, Unpacked, ReadU32, StandsAt, LittleEndian, Prefixes, Tails, Pow256;
    HeaderReadsBack(data, header, |records|, Bitmap(records, size, |records|));
    StandsInParts(data, body, Prefixes(records, size), Tails(records, size));
    assert records[0..] == records;
    RecordsReadBack(data, Area(body, limit, size, |records|), records, 0, body + |records| * size);
  }

  lemma HeaderReadsBack(data: Bytes, header: nat, count: nat, bitmap: Bytes)
    requires count < Pow256(4) && StandsAt(data, header, LittleEndian(count, 4) + bitmap)
    ensures ReadU32(data, header) == Ok(count)
    ensures header + 4 + |bitmap| <= |data| && data[header + 4..header + 4 + |bitmap|] == bitmap
  {
    hide Pow256, LittleEndian, FromLittleEndian;
    StandsInParts(data, header, LittleEndian(count, 4), bitmap);
    LittleEndianRoundTrip(count, 4);
  }
}
