/** Encoding and decoding whole packets. */
module PacketCodec {
  import opened Basics
  import opened Bits
  import opened Codec
  import opened PacketModel
  import opened BlockRecord
  import opened BlockBody
  import opened Sections
  import opened Assembly
  import opened TxPayload
  import opened BackRefs
  import opened TxSegment
  import opened Epochs
  import opened PrefixSize

  // ---------------------------------------------------------------------------------------------
  // Encoding
  // ---------------------------------------------------------------------------------------------

  /** The payloads of the first `n` blocks. */
  function PayloadsUpTo(w: Wire, p: Packet, n: nat): (r: Result<seq<Bytes>>)
    requires n <= |p.blocks|
    ensures r.Ok? ==> |r.value| == n
  {
    if n == 0 then
      Ok([])
    else
      var before :- PayloadsUpTo(w, p, n - 1);
      var payload :- Payload(w, p.blocks[n - 1], p.tables, SeenBefore(w, p.blocks, n - 1));
      Ok(before + [payload])
  }

  lemma PayloadsStep(w: Wire, p: Packet, n: nat)
    requires n <= |p.blocks|
    ensures PayloadsUpTo(w, p, n)
         == if n == 0 then Ok([])
            else if PayloadsUpTo(w, p, n - 1).Err? then PayloadsUpTo(w, p, n - 1)
            else var payload := Payload(w, p.blocks[n - 1], p.tables, SeenBefore(w, p.blocks, n - 1));
              if payload.Err? then Err(payload.error) else Ok(PayloadsUpTo(w, p, n - 1).value + [payload.value])
  {
    hide Payload, SeenBefore;
  }

  /** The record of block `k`, with the flags and the unit offset its payload gives it. */
  function RecordOf(w: Wire, p: Packet, payloads: seq<Bytes>, k: nat): Result<Bytes>
    requires k < |p.blocks| == |payloads|
  {
    var b := p.blocks[k];
    EncodeBlockRecord(b, WrittenFlags(b.flags, payloads[k]), Units(w, payloads, k), p.header, p.tables)
  }

  function RecordsUpTo(w: Wire, p: Packet, payloads: seq<Bytes>, n: nat): (r: Result<seq<Bytes>>)
    requires n <= |p.blocks| == |payloads|
    ensures r.Ok? ==> |r.value| == n
  {
    if n == 0 then
      Ok([])
    else
      var before :- RecordsUpTo(w, p, payloads, n - 1);
      var record :- RecordOf(w, p, payloads, n - 1);
      Ok(before + [record])
  }

  datatype EncodedBlocks = EncodedBlocks(records: seq<Bytes>, txSegment: Bytes)

  function BlocksEncoded(w: Wire, p: Packet): Result<EncodedBlocks> {
    var payloads :- PayloadsUpTo(w, p, |p.blocks|);
    var records :- RecordsUpTo(w, p, payloads, |p.blocks|);
    Ok(EncodedBlocks(records, Segment(w, payloads, |p.blocks|)))
  }

  function BlockDataOf(e: EncodedBlocks): BlockData {
    var size := Chosen(e.records);
    BlockData(|e.records|, Bitmap(e.records, size, |e.records|), Body(e.records, size), e.txSegment)
  }

  function Encoded(w: Wire, p: Packet): Result<Bytes> {
    if !IsValid(p.blocks) then
      Err(Malformed)
    else
      var e :- BlocksEncoded(w, p);
      Assembled(p.header, p.tables, Chosen(e.records), BlockDataOf(e))
  }

  lemma {:induction false} PayloadsStop(w: Wire, p: Packet, i: nat, n: nat)
    requires i <= n <= |p.blocks| && PayloadsUpTo(w, p, i).Err?
    ensures PayloadsUpTo(w, p, n) == PayloadsUpTo(w, p, i)
    decreases n
  {
    hide Payload, SeenBefore;
    if i < n {
      PayloadsStop(w, p, i, n - 1);
    }
  }

  lemma {:induction false} RecordsStop(w: Wire, p: Packet, payloads: seq<Bytes>, i: nat, n: nat)
    requires i <= n <= |p.blocks| == |payloads| && RecordsUpTo(w, p, payloads, i).Err?
    ensures RecordsUpTo(w, p, payloads, n) == RecordsUpTo(w, p, payloads, i)
    decreases n
  {
    hide RecordOf;
    if i < n {
      RecordsStop(w, p, payloads, i, n - 1);
    }
  }

  lemma NothingEncoded(w: Wire, p: Packet)
    ensures SeenBefore(w, p.blocks, 0) == map[] && PayloadsUpTo(w, p, 0) == Ok([])
  {
  }

  lemma NothingRecorded(w: Wire, p: Packet, payloads: seq<Bytes>)
    requires |payloads| == |p.blocks|
    ensures RecordsUpTo(w, p, payloads, 0) == Ok([]) && Segment(w, payloads, 0) == []
  {
  }

  lemma SeenStep(w: Wire, blocks: seq<Block>, i: nat)
    requires i < |blocks|
    ensures SeenBefore(w, blocks, i + 1) == SeenAfter(w, blocks[i], SeenBefore(w, blocks, i))
  {
    hide SeenAfter;
  }

  lemma RecordsStep(w: Wire, p: Packet, payloads: seq<Bytes>, i: nat)
    requires i < |p.blocks| == |payloads| && RecordsUpTo(w, p, payloads, i).Ok?
    ensures RecordsUpTo(w, p, payloads, i + 1) == (
      if RecordOf(w, p, payloads, i).Err? then Err(RecordOf(w, p, payloads, i).error)
      else Ok(RecordsUpTo(w, p, payloads, i).value + [RecordOf(w, p, payloads, i).value]))
  {
    hide RecordOf;
  }

  lemma SegmentStep(w: Wire, payloads: seq<Bytes>, i: nat)
    requires i < |payloads|
    ensures Segment(w, payloads, i + 1)
         == if payloads[i] == [] then Segment(w, payloads, i)
            else ToUnit(Segment(w, payloads, i)) + Framed(w, payloads[i])
  {
    hide ToUnit, Framed;
  }

  /** Behind the segment, at a unit boundary, unless there is no payload. */
  method AppendPayload(w: Wire, segment: Bytes, payload: Bytes) returns (longer: Bytes, offset: nat)
    ensures longer == if payload == [] then segment else ToUnit(segment) + Framed(w, payload)
    ensures offset == if payload == [] then 0 else |ToUnit(segment)| / 4
  {
    hide Uleb, Padding, Stored, IsCompressed;
    if payload == [] {
      return segment, 0;
    }
    longer := AlignTo(segment, 4);
    offset := |longer| / 4;
    ghost var aligned := longer;
    var stored := Stored(w, payload);
    longer := PutUleb128(longer, |stored|);
    longer := longer + stored;
    assert longer == aligned + Framed(w, payload);
  }

  method EncodeBlocks(w: Wire, p: Packet) returns (r: Result<EncodedBlocks>)
    ensures r == BlocksEncoded(w, p)
  {
    hide Payload, SeenAfter, SeenBefore, EncodeBlockRecord, WrittenFlags, ToUnit, Framed, PayloadsUpTo, RecordsUpTo,
      Segment;
    NothingEncoded(w, p);
    var txPayloads: seq<Bytes> := [];
    var seenTxs: Seen := map[];
    for i := 0 to |p.blocks|
      invariant seenTxs == SeenBefore(w, p.blocks, i)
      invariant PayloadsUpTo(w, p, i) == Ok(txPayloads)
    {
      PayloadsStep(w, p, i + 1);
      SeenStep(w, p.blocks, i);
      var payload, seen := EncodeTxPayload(w, p.blocks[i], p.tables, seenTxs);
      if payload.Err? {
        PayloadsStop(w, p, i + 1, |p.blocks|);
        return Err(payload.error);
      }
      txPayloads := txPayloads + [payload.value];
      seenTxs := seen;
    }
    var blockRecords: seq<Bytes> := [];
    var txSegment: Bytes := [];
    NothingRecorded(w, p, txPayloads);
    for i := 0 to |p.blocks|
      invariant RecordsUpTo(w, p, txPayloads, i) == Ok(blockRecords)
      invariant txSegment == Segment(w, txPayloads, i)
    {
      RecordsStep(w, p, txPayloads, i);
      SegmentStep(w, txPayloads, i);
      var payload := txPayloads[i];
      var offset;
      txSegment, offset := AppendPayload(w, txSegment, payload);
      var flags := WrittenFlags(p.blocks[i].flags, payload);
      var record := EncodeBlockRecord(p.blocks[i], flags, offset, p.header, p.tables);
      assert record == RecordOf(w, p, txPayloads, i);
      if record.Err? {
        RecordsStop(w, p, txPayloads, i + 1, |p.blocks|);
        return Err(record.error);
      }
      blockRecords := blockRecords + [record.value];
    }
    return Ok(EncodedBlocks(blockRecords, txSegment));
  }

  method EncodePacket(w: Wire, p: Packet) returns (r: Result<Bytes>)
    ensures r == Encoded(w, p)
  {
    hide IsValid, BlocksEncoded, Chosen, Bitmap, Body, Assembled;
    var valid := ValidateInput(p.blocks);
    if !valid {
      return Err(Malformed);
    }
    var e := EncodeBlocks(w, p);
    if e.Err? {
      return Err(e.error);
    }
    var size := ChoosePrefixSize(e.value.records);
    var body, bitmap := PackBlockBody(e.value.records, size);
    r := AssemblePacket(p.header, p.tables, size, BlockData(|e.value.records|, bitmap, body, e.value.txSegment));
  }

  // ---------------------------------------------------------------------------------------------
  // Decoding
  // ---------------------------------------------------------------------------------------------

  /** The header fields, the tables and the block area, as the fixed header and the offset table give them. */
  function HeaderOf(data: Bytes): Header
    requires |data| >= HEADER_LEN
  {
    Header(data[..32], data[32..64], FromLittleEndian(data[64..72]), FromLittleEndian(data[72..80]),
           FromLittleEndian(data[80..88]), FromLittleEndian(data[88..92]))
  }

  function TablesAt(data: Bytes, o: seq<nat>): Result<Tables>
    requires |o| == HEADER_OFFSET_COUNT && OffsetsOk(o, |data|)
  {
    OffsetsAreSorted(o, |data|);
    var addresses :- DecodeAddresses(data[o[0]..o[1]]);
    var posEntries :- DecodePosEntries(data[o[1]..o[2]]);
    var difficulties :- DecodeWideTable(data[o[2]..o[3]]);
    var nonces :- NoncesFrom(data[o[3]..o[4]], 0);
    var gasPrices :- DecodeWideTable(data[o[4]..o[5]]);
    Ok(Tables(addresses, posEntries, difficulties, nonces, gasPrices))
  }

  lemma OffsetsAreSorted(o: seq<nat>, len: nat)
    requires |o| == HEADER_OFFSET_COUNT && OffsetsOk(o, len)
    ensures o[0] <= o[1] <= o[2] <= o[3] <= o[4] <= o[5] <= o[6] <= o[7] <= len
  {
    assert OffsetOk(o, len, 1) && OffsetOk(o, len, 2) && OffsetOk(o, len, 3) && OffsetOk(o, len, 4);
    assert OffsetOk(o, len, 5) && OffsetOk(o, len, 6) && OffsetOk(o, len, 7);
  }

  /** The first `n` blocks without their epochs and transactions. */
  function HeadersUpTo(records: seq<DecodedRecord>, n: nat, h: Header, enableHeight: nat, t: Tables)
    : (r: Result<seq<Block>>)
    requires n <= |records|
    ensures r.Ok? ==> |r.value| == n
  {
    if n == 0 then
      Ok([])
    else
      var before :- HeadersUpTo(records, n - 1, h, enableHeight, t);
      var b :- DecodeBlockRecord(records[n - 1].bytes, n - 1, h, enableHeight, t);
      Ok(before + [b])
  }

  function TransactionsOf(blocks: seq<Block>): (r: seq<seq<Tx>>)
    ensures |r| == |blocks| && forall j :: 0 <= j < |r| ==> r[j] == blocks[j].transactions
  {
    seq(|blocks|, j requires 0 <= j < |blocks| => blocks[j].transactions)
  }

  function Filled(b: Block, c: Contents): Block {
    b.(transactions := c.transactions, transactionRefs := c.refs, posRewards := c.posRewards,
       unlockEvents := c.unlockEvents)
  }

  /** Block `k` with the contents of its payload, given the finished blocks before it. */
  function Finished(w: Wire, data: Bytes, segment: nat, record: DecodedRecord, b: Block, t: Tables,
                    before: seq<Block>): Result<Block> {
    if Bit(b.flags, HAS_TRANSACTIONS) then
      var c :- ContentsAt(w, data, segment, record.txOffsetUnits, b.flags, b.epoch, t, TransactionsOf(before));
      Ok(Filled(b, c))
    else
      Ok(b)
  }

  function BlocksUpTo(w: Wire, data: Bytes, segment: nat, records: seq<DecodedRecord>, blocks: seq<Block>, t: Tables,
                      n: nat): (r: Result<seq<Block>>)
    requires n <= |records| == |blocks|
    ensures r.Ok? ==> |r.value| == n
  {
    if n == 0 then
      Ok([])
    else
      var before :- BlocksUpTo(w, data, segment, records, blocks, t, n - 1);
      var b :- Finished(w, data, segment, records[n - 1], blocks[n - 1], t, before);
      Ok(before + [b])
  }

  function BlocksAt(w: Wire, data: Bytes, o: seq<nat>, size: nat, h: Header, t: Tables, enableHeight: nat)
    : Result<seq<Block>>
    requires |o| == HEADER_OFFSET_COUNT && OffsetsOk(o, |data|)
  {
    OffsetsAreSorted(o, |data|);
    var records :- Records(data, o[5], o[6], o[7], size);
    var headers :- HeadersUpTo(records, |records|, h, enableHeight, t);
    if !AllPivoted(headers) then
      Err(Malformed)
    else
      BlocksUpTo(w, data, o[7], records, WithEpochs(headers), t, |records|)
  }

  function Decoded(w: Wire, data: Bytes, enableHeight: nat): Result<Packet> {
    if |data| < HEADER_LEN || !IsCandidate(data[92]) || !OffsetsOk(Offsets(data), |data|) then
      Err(Malformed)
    else
      var h, o := HeaderOf(data), Offsets(data);
      var t :- TablesAt(data, o);
      var blocks :- BlocksAt(w, data, o, data[92], h, t, enableHeight);
      Ok(Packet(h, t, blocks))
  }

  lemma {:induction false} HeadersStop(records: seq<DecodedRecord>, i: nat, n: nat, h: Header, enableHeight: nat,
                                       t: Tables)
    requires i <= n <= |records| && HeadersUpTo(records, i, h, enableHeight, t).Err?
    ensures HeadersUpTo(records, n, h, enableHeight, t) == HeadersUpTo(records, i, h, enableHeight, t)
    decreases n
  {
    hide DecodeBlockRecord;
    if i < n {
      HeadersStop(records, i, n - 1, h, enableHeight, t);
    }
  }

  lemma {:induction false} BlocksStop(w: Wire, data: Bytes, segment: nat, records: seq<DecodedRecord>,
                                      blocks: seq<Block>, t: Tables, i: nat, n: nat)
    requires i <= n <= |records| == |blocks| && BlocksUpTo(w, data, segment, records, blocks, t, i).Err?
    ensures BlocksUpTo(w, data, segment, records, blocks, t, n) == BlocksUpTo(w, data, segment, records, blocks, t, i)
    decreases n
  {
    hide Finished;
    if i < n {
      BlocksStop(w, data, segment, records, blocks, t, i, n - 1);
    }
  }

  method DecodeHeaders(records: seq<DecodedRecord>, h: Header, enableHeight: nat, t: Tables)
    returns (r: Result<seq<Block>>)
    ensures r == HeadersUpTo(records, |records|, h, enableHeight, t)
  {
    hide DecodeBlockRecord;
    var blocks: seq<Block> := [];
    for index := 0 to |records|
      invariant HeadersUpTo(records, index, h, enableHeight, t) == Ok(blocks)
    {
      var block := DecodeBlockRecord(records[index].bytes, index, h, enableHeight, t);
      if block.Err? {
        HeadersStop(records, index + 1, |records|, h, enableHeight, t);
        return Err(block.error);
      }
      blocks := blocks + [block.value];
    }
    return Ok(blocks);
  }

  /** Fill the blocks in place, each from its payload and the transactions decoded before it. */
  method DecodeTransactions(w: Wire, data: Bytes, segment: nat, records: seq<DecodedRecord>, blocks: array<Block>,
                            t: Tables)
    returns (failed: Option<Error>)
    requires |records| == blocks.Length
    modifies blocks
    ensures BlocksUpTo(w, data, segment, records, old(blocks[..]), t, |records|)
         == (if failed.Some? then Err(failed.value) else Ok(blocks[..]))
  {
    hide ContentsAt;
    ghost var was := blocks[..];
    var decodedTxs: seq<seq<Tx>> := [];
    for index := 0 to blocks.Length
      invariant decodedTxs == TransactionsOf(blocks[..index])
      invariant BlocksUpTo(w, data, segment, records, was, t, index) == Ok(blocks[..index])
      invariant blocks[index..] == was[index..]
    {
      var block := blocks[index];
      assert block == blocks[index..][0] == was[index..][0] == was[index];
      ghost var before := blocks[..index];
      if Bit(block.flags, HAS_TRANSACTIONS) {
        var units := records[index].txOffsetUnits;
        var contents := DecodeTxPayload(w, data, segment, units, block.flags, block.epoch, t, decodedTxs);
        if contents.Err? {
          BlocksStop(w, data, segment, records, was, t, index + 1, |records|);
          return Some(contents.error);
        }
        blocks[index] := Filled(block, contents.value);
      }
      decodedTxs := decodedTxs + [blocks[index].transactions];
      assert blocks[..index + 1] == before + [blocks[index]];
      assert blocks[index + 1..] == was[index..][1..] == was[index + 1..];
    }
    assert blocks[..blocks.Length] == blocks[..];
    return None;
  }

  method DecodePacketExt(w: Wire, data: Bytes, enableHeight: nat) returns (r: Result<Packet>)
    ensures r == Decoded(w, data, enableHeight)
  {
    hide FromLittleEndian, Offsets, OffsetsOk, DecodeAddresses, DecodePosEntries, DecodeWideTable, NoncesFrom,
      Records, HeadersUpTo, BlocksUpTo, AllPivoted, WithEpochs;
    if |data| < HEADER_LEN {
      return Err(Malformed);
    }
    var h := HeaderOf(data);
    var size := data[92];
    if !IsCandidate(size) {
      return Err(Malformed);
    }
    var o := ReadOffsets(data);
    var ordered := EnsureOffsets(o, |data|);
    if !ordered {
      return Err(Malformed);
    }
    OffsetsAreSorted(o, |data|);
    var addresses :- DecodeAddresses(data[o[0]..o[1]]);
    var posEntries :- DecodePosEntries(data[o[1]..o[2]]);
    var difficulties :- DecodeWideTable(data[o[2]..o[3]]);
    var nonces :- DecodeSenderBaseNonces(data[o[3]..o[4]]);
    var gasPrices :- DecodeWideTable(data[o[4]..o[5]]);
    var t := Tables(addresses, posEntries, difficulties, nonces, gasPrices);
    var records :- DecodeBlockRecords(data, o[5], o[6], o[7], size);
    var headers :- DecodeHeaders(records, h, enableHeight, t);
    var blocks := new Block[|headers|](i requires 0 <= i < |headers| => headers[i]);
    assert blocks[..] == headers;
    var pivoted := AssignEpochFromPivots(blocks);
    if !pivoted {
      return Err(Malformed);
    }
    var failed := DecodeTransactions(w, data, o[7], records, blocks, t);
    if failed.Some? {
      return Err(failed.value);
    }
    return Ok(Packet(h, t, blocks[..]));
  }
}
