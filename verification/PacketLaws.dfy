/** What encoding and decoding a packet gives back, and when. */
module PacketLaws {
  import opened Basics
  import opened Bits
  import opened Codec
  import opened PacketModel
  import opened BlockRecord
  import opened BlockBody
  import opened Sections
  import opened Assembly
  import opened TxItems
  import opened TxPayload
  import opened BackRefs
  import opened TxSegment
  import opened Epochs
  import opened PrefixSize
  import opened PacketCodec

  // ---------------------------------------------------------------------------------------------
  // The packet that comes back
  // ---------------------------------------------------------------------------------------------

  /** Every block as its record keeps it. */
  function Bare(p: Packet, payloads: seq<Bytes>): (r: seq<Block>)
    requires |payloads| == |p.blocks|
    ensures |r| == |p.blocks|
    ensures forall k :: 0 <= k < |r| ==> r[k] == Recorded(p.blocks[k], WrittenFlags(p.blocks[k].flags, payloads[k]), k)
  {
    seq(|p.blocks|, k requires 0 <= k < |p.blocks| =>
      Recorded(p.blocks[k], WrittenFlags(p.blocks[k].flags, payloads[k]), k))
  }

  /**
   * A block as it comes back: the deferred roots cut to four bytes, the two transaction flags saying what
   * the payload was, and every transaction with the reference it was written as.
   */
  function NormalBlock(w: Wire, p: Packet, payloads: seq<Bytes>, k: nat): Block
    requires k < |p.blocks| == |payloads|
  {
    var b := p.blocks[k];
    Filled(Recorded(b, WrittenFlags(b.flags, payloads[k]), k).(epoch := b.epoch),
           BlockContents(w, b, SeenBefore(w, p.blocks, k)))
  }

  function NormalBlocks(w: Wire, p: Packet, payloads: seq<Bytes>): (r: seq<Block>)
    requires |payloads| == |p.blocks|
    ensures |r| == |p.blocks| && forall k :: 0 <= k < |r| ==> r[k] == NormalBlock(w, p, payloads, k)
  {
    seq(|p.blocks|, k requires 0 <= k < |p.blocks| => NormalBlock(w, p, payloads, k))
  }

  function Normal(w: Wire, p: Packet): Packet
    requires PayloadsUpTo(w, p, |p.blocks|).Ok?
  {
    Packet(p.header, p.tables, NormalBlocks(w, p, PayloadsUpTo(w, p, |p.blocks|).value))
  }

  /** Block `k` fits its machine words, its view and references are consistent, and its transactions survive. */
  predicate BlockIsStorable(p: Packet, k: nat, enableHeight: nat)
    requires k < |p.blocks|
  {
    && BlockFits(p.blocks[k])
    && PosViewMatches(p.blocks[k], p.header, enableHeight)
    && RefsPointBack(p.blocks, k)
    && TransactionsSurvive(p.blocks[k], p.tables)
  }

  ghost predicate IsStorable(w: Wire, p: Packet, enableHeight: nat) {
    && HeaderFits(p.header) && p.header.minPosHeight < U32
    && TablesFit(p.tables) && OneBaseEach(p.tables)
    && HashesIdentify(w, p.blocks) && PlacesFit(p.blocks)
    && forall k :: 0 <= k < |p.blocks| ==> BlockIsStorable(p, k, enableHeight)
  }

  /** No block below `n` repeats a hash that appears in it for the first time. */
  predicate RepeatsAreOldBelow(w: Wire, blocks: seq<Block>, n: nat)
    requires n <= |blocks|
  {
    forall k :: 0 <= k < n ==> RepeatsAreOld(w, blocks[k], SeenBefore(w, blocks, k))
  }

  // ---------------------------------------------------------------------------------------------
  // Header and tables
  // ---------------------------------------------------------------------------------------------

  lemma HeaderReadsBack(h: Header, size: Byte, data: Bytes)
    requires HeaderFits(h) && h.minPosHeight < U32
    requires |data| >= HEADER_LEN && data[..HEADER_FIXED_LEN] == FixedHeader(h, size)
    ensures HeaderOf(data) == h && data[92] == size
  {
    hide FromLittleEndian, LittleEndian;
    WordsAre();
    LittleEndianRoundTrip(h.firstBlockNumber, 8);
    LittleEndianRoundTrip(h.minTimestamp, 8);
    LittleEndianRoundTrip(h.minHeight, 8);
    LittleEndianRoundTrip(h.minPosHeight, 4);
    var f := data[..HEADER_FIXED_LEN];
    assert data[..32] == f[..32] == h.prevLastHash;
    assert data[32..64] == f[32..64] == h.prevLastDeferredStateRoot;
    assert data[64..72] == f[64..72] == LittleEndian(h.firstBlockNumber, 8);
    assert data[72..80] == f[72..80] == LittleEndian(h.minTimestamp, 8);
    assert data[80..88] == f[80..88] == LittleEndian(h.minHeight, 8);
    assert data[88..92] == f[88..92] == LittleEndian(h.minPosHeight, 4);
    assert data[92] == f[92] == size;
  }

  lemma WordsAre()
    ensures Pow256(8) == U64 && Pow256(4) == U32
  {
    assert Pow256(4) == U32;
    assert Pow256(8) == 256 * (256 * (256 * (256 * Pow256(4))));
  }

  lemma TablesReadBack(t: Tables, b: BlockData, data: Bytes, o: seq<nat>)
    requires TablesFit(t) && |o| == 8 && OffsetsOk(o, |data|)
    requires forall i :: 0 <= i < 8 ==> StandsAt(data, o[i], SectionsOf(t, b)[i])
    requires forall i :: 0 <= i < 7 ==> o[i + 1] == o[i] + |SectionsOf(t, b)[i]|
    ensures TablesAt(data, o) == Ok(t)
  {
    hide SectionsOf, DecodeAddresses, DecodePosEntries, DecodeWideTable, NoncesFrom, OffsetsOk, TablesFit;
    OffsetsAreSorted(o, |data|);
    var s := SectionsOf(t, b);
    assert o[1] == o[0] + |s[0]| && o[2] == o[1] + |s[1]| && o[3] == o[2] + |s[2]|;
    assert o[4] == o[3] + |s[3]| && o[5] == o[4] + |s[4]|;
    assert data[o[0]..o[1]] == s[0] && data[o[1]..o[2]] == s[1] && data[o[2]..o[3]] == s[2];
    assert data[o[3]..o[4]] == s[3] && data[o[4]..o[5]] == s[4];
    SectionsReadBack(t, b);
  }

  lemma SectionsReadBack(t: Tables, b: BlockData)
    requires TablesFit(t)
    ensures var s := SectionsOf(t, b);
      && DecodeAddresses(s[0]) == Ok(t.addresses)
      && DecodePosEntries(s[1]) == Ok(t.posEntries)
      && DecodeWideTable(s[2]) == Ok(t.difficulties)
      && NoncesFrom(s[3], 0) == Ok(t.senderBaseNonces)
      && DecodeWideTable(s[4]) == Ok(t.gasPrices)
  {
    hide Concat, PosRows, WideRows, NonceRows, Padding, DecodeAddresses, DecodePosEntries, DecodeWideTable,
      NoncesFrom;
    var s := SectionsOf(t, b);
    AddressesReadBack(t.addresses);
    PosEntriesReadBack(t.posEntries);
    WideTableReadsBack(t.difficulties, []);
    assert s[2] + [] == s[2];
    assert s[3][0..] == s[3];
    NoncesReadBack(s[3], 0, t.senderBaseNonces);
    var start := HEADER_LEN + |s[0]| + |s[1]| + |s[2]| + |s[3]|;
    WideTableReadsBack(t.gasPrices, Padding(start + |Concat(WideRows(t.gasPrices))|, 32));
  }

  // ---------------------------------------------------------------------------------------------
  // Records
  // ---------------------------------------------------------------------------------------------

  lemma {:induction false} RecordsAre(w: Wire, p: Packet, payloads: seq<Bytes>, n: nat, k: nat)
    requires k < n <= |p.blocks| == |payloads| && RecordsUpTo(w, p, payloads, n).Ok?
    ensures RecordOf(w, p, payloads, k) == Ok(RecordsUpTo(w, p, payloads, n).value[k])
    decreases n
  {
    hide RecordOf;
    if k < n - 1 {
      RecordsAre(w, p, payloads, n - 1, k);
    }
  }

  lemma {:induction false} PayloadsAre(w: Wire, p: Packet, n: nat, k: nat)
    requires k < n <= |p.blocks| && PayloadsUpTo(w, p, n).Ok?
    ensures Payload(w, p.blocks[k], p.tables, SeenBefore(w, p.blocks, k)) == Ok(PayloadsUpTo(w, p, n).value[k])
    decreases n
  {
    hide Payload, SeenBefore;
    if k < n - 1 {
      PayloadsAre(w, p, n - 1, k);
    }
  }

  /** Any record is no longer than the body it is laid into. */
  lemma BodyHolds(records: seq<Bytes>, size: nat, i: nat)
    requires i < |records|
    ensures |records[i]| <= |Body(records, size)|
  {
    hide Prefixes, Tails;
    MulMonotone(1, |records|, size);
    TailsHold(records, size, i);
  }

  lemma {:induction false} TailsHold(records: seq<Bytes>, size: nat, i: nat)
    requires i < |records|
    ensures |Tails(records, size)| >= |Tail(records[i], size)|
    decreases i
  {
    hide Tail;
    if i > 0 {
      TailsHold(records[1..], size, i - 1);
    }
  }

  /** A zero-filled record shows its offset and decodes to its block. */
  lemma RecordDecodes(w: Wire, p: Packet, payloads: seq<Bytes>, records: seq<Bytes>, k: nat, size: nat,
                      enableHeight: nat)
    requires k < |p.blocks| == |payloads| == |records| && RecordOf(w, p, payloads, k) == Ok(records[k])
    requires HeaderFits(p.header) && TablesFit(p.tables) && BlockIsStorable(p, k, enableHeight)
    requires IsU64(|Segment(w, payloads, |payloads|)|)
    ensures TxOffsetUnits(Padded(records[k], size)) == Ok(Units(w, payloads, k))
    ensures DecodeBlockRecord(Padded(records[k], size), k, p.header, enableHeight, p.tables)
         == Ok(Recorded(p.blocks[k], WrittenFlags(p.blocks[k].flags, payloads[k]), k))
  {
    hide EncodeBlockRecord, DecodeBlockRecord, TxOffsetUnits, Recorded, WrittenFlags, Segment, Units, StandsAt,
      HeaderFits, TablesFit, BlockFits, PosViewMatches, RefsPointBack, TransactionsSurvive;
    UnitsAreWords(w, payloads, k);
    RecordRoundTrip(p.blocks[k], WrittenFlags(p.blocks[k].flags, payloads[k]), Units(w, payloads, k), k, p.header,
                    enableHeight, p.tables, Padded(records[k], size));
  }

  /** All records, as laid out, decode to the bare blocks. */
  predicate AllDecode(w: Wire, p: Packet, payloads: seq<Bytes>, records: seq<Bytes>, size: nat, enableHeight: nat) {
    && |records| == |p.blocks| == |payloads|
    && forall k :: 0 <= k < |records| ==>
         && TxOffsetUnits(Padded(records[k], size)) == Ok(Units(w, payloads, k))
         && DecodeBlockRecord(Padded(records[k], size), k, p.header, enableHeight, p.tables) == Ok(Bare(p, payloads)[k])
  }

  lemma RecordsDecode(w: Wire, p: Packet, payloads: seq<Bytes>, records: seq<Bytes>, size: nat, enableHeight: nat)
    requires |payloads| == |p.blocks| && RecordsUpTo(w, p, payloads, |p.blocks|) == Ok(records)
    requires IsStorable(w, p, enableHeight) && IsU64(|Segment(w, payloads, |payloads|)|)
    requires IsU64(|Body(records, size)|)
    ensures AllDecode(w, p, payloads, records, size, enableHeight)
    ensures Peekable(records, size)
  {
    hide RecordOf, RecordsUpTo, DecodeBlockRecord, TxOffsetUnits, Recorded, WrittenFlags, Segment, Units, Padded,
      HeaderFits, TablesFit, BlockIsStorable, HashesIdentify, OneBaseEach, Body;
    forall k | 0 <= k < |records|
      ensures TxOffsetUnits(Padded(records[k], size)) == Ok(Units(w, payloads, k))
      ensures DecodeBlockRecord(Padded(records[k], size), k, p.header, enableHeight, p.tables)
           == Ok(Bare(p, payloads)[k])
      ensures |records[k]| < U64
    {
      RecordsAre(w, p, payloads, |p.blocks|, k);
      RecordDecodes(w, p, payloads, records, k, size, enableHeight);
      BodyHolds(records, size, k);
    }
  }

  lemma TakeOneMore(blocks: seq<Block>, n: nat)
    requires 0 < n <= |blocks|
    ensures blocks[..n] == blocks[..n - 1] + [blocks[n - 1]]
  {
  }

  lemma {:induction false} HeadersReadBack(w: Wire, p: Packet, payloads: seq<Bytes>, records: seq<Bytes>, size: nat,
                                           enableHeight: nat, n: nat)
    requires AllDecode(w, p, payloads, records, size, enableHeight) && Peekable(records, size) && n <= |records|
    ensures HeadersUpTo(Unpacked(records, size), n, p.header, enableHeight, p.tables) == Ok(Bare(p, payloads)[..n])
    decreases n
  {
    hide DecodeBlockRecord, TxOffsetUnits, Padded, Units, Peekable, Unpacked, Recorded, WrittenFlags;
    if n > 0 {
      HeadersReadBack(w, p, payloads, records, size, enableHeight, n - 1);
      var bare := Bare(p, payloads);
      TakeOneMore(bare, n);
    }
  }

  // ---------------------------------------------------------------------------------------------
  // Epochs
  // ---------------------------------------------------------------------------------------------

  /** Pivots and heights survive, so the epochs rebuilt are the ones that were validated. */
  lemma EpochsReadBack(p: Packet, payloads: seq<Bytes>)
    requires |payloads| == |p.blocks| && IsValid(p.blocks)
    ensures AllPivoted(Bare(p, payloads))
    ensures forall k :: 0 <= k < |p.blocks| ==>
              WithEpochs(Bare(p, payloads))[k] == Bare(p, payloads)[k].(epoch := p.blocks[k].epoch)
  {
    hide WrittenFlags, Bit, RootPrefix, PivotFrom;
    var bare := Bare(p, payloads);
    assert SamePivots(bare, p.blocks);
    forall k | 0 <= k < |bare|
      ensures PivotFrom(bare, k) == PivotFrom(p.blocks, k) && PivotFrom(bare, k).Some?
      ensures p.blocks[k].epoch == p.blocks[PivotFrom(p.blocks, k).value].height
    {
      PivotsAgree(bare, p.blocks, k);
      assert BlockIsValid(p.blocks, k);
    }
  }

  // ---------------------------------------------------------------------------------------------
  // Transactions
  // ---------------------------------------------------------------------------------------------

  lemma PreviousAre(w: Wire, p: Packet, payloads: seq<Bytes>, k: nat)
    requires k <= |p.blocks| == |payloads|
    ensures TransactionsOf(NormalBlocks(w, p, payloads)[..k]) == Previous(p.blocks, k)
  {
    hide SeenBefore, WrittenFlags, RootPrefix;
  }

  /** Block `k` comes back whole if its repeats are old, and fails otherwise. */
  lemma BlockFinishes(w: Wire, p: Packet, payloads: seq<Bytes>, k: nat, enableHeight: nat, data: Bytes, start: nat,
                      record: DecodedRecord, b: Block)
    requires RoundTrips(w) && IsStorable(w, p, enableHeight) && IsValid(p.blocks) && k < |p.blocks|
    requires PayloadsUpTo(w, p, |p.blocks|) == Ok(payloads)
    requires IsU64(|data|) && StandsAt(data, start, Segment(w, payloads, |payloads|))
    requires |payloads| == |p.blocks| && IsRebuilt(w, p, payloads, record, b, k)
    ensures var r := Finished(w, data, start, record, b, p.tables, NormalBlocks(w, p, payloads)[..k]);
      && (RepeatsAreOld(w, p.blocks[k], SeenBefore(w, p.blocks, k)) ==> r == Ok(NormalBlock(w, p, payloads, k)))
      && (!RepeatsAreOld(w, p.blocks[k], SeenBefore(w, p.blocks, k)) ==> r.Err?)
  {
    hide RoundTrips, Segment, Units, StandsAt, PayloadAt, BlockItems, Collected, SeenBefore, RepeatsAreOld,
      RootPrefix, WrittenFlags, PayloadsUpTo, TablesFit, OneBaseEach, HashesIdentify, RefsPointBack,
      TransactionsSurvive, PosViewMatches, StrippedAll, RefsOf, IsCompressed, PivotFrom, PlacesFit;
    var seen := SeenBefore(w, p.blocks, k);
    PayloadsAre(w, p, |p.blocks|, k);
    PreviousAre(w, p, payloads, k);
    ValidIsSequential(p.blocks);
    assert BlockIsStorable(p, k, enableHeight);
    PayloadIsList(w, p, k);
    if HasItems(p.blocks[k]) {
      PayloadReadsBack(w, payloads, k, p.blocks[k].flags, data, start);
      BlockDecodesExactlyWhen(w, p.blocks, p.tables, k);
    } else {
      NothingRepeats(w, p.blocks[k], seen);
    }
  }

  lemma EncodedHasPayloads(w: Wire, p: Packet)
    requires Encoded(w, p).Ok?
    ensures PayloadsUpTo(w, p, |p.blocks|).Ok?
  {
    hide IsValid, PayloadsUpTo, RecordsUpTo, Segment, Assembled;
  }

  lemma ValidIsSequential(blocks: seq<Block>)
    requires IsValid(blocks)
    ensures IsSequential(blocks)
  {
    forall k | 0 <= k < |blocks|
      ensures blocks[k].index == k
    {
      assert BlockIsValid(blocks, k);
    }
  }

  lemma PayloadIsList(w: Wire, p: Packet, k: nat)
    requires RoundTrips(w) && k < |p.blocks| && IsSequential(p.blocks) && PlacesFit(p.blocks)
    requires RefsPointBack(p.blocks, k) && TransactionsSurvive(p.blocks[k], p.tables)
    requires IsU64(p.blocks[k].epoch) && TablesFit(p.tables)
    requires Payload(w, p.blocks[k], p.tables, SeenBefore(w, p.blocks, k)).Ok?
    ensures var b, seen := p.blocks[k], SeenBefore(w, p.blocks, k); var payload := Payload(w, b, p.tables, seen).value;
      && (HasItems(b) <==> payload != [])
      && (HasItems(b) ==> BlockItems(w, b, p.tables, seen).Ok?)
      && (HasItems(b) ==> w.get(payload) == Ok(BlockItems(w, b, p.tables, seen).value))
  {
    hide BlockItems, SeenBefore, PlacesFit, RefsPointBack, TransactionsSurvive, TablesFit, AllFit;
    if HasItems(p.blocks[k]) {
      ItemsFit(w, p.blocks, p.tables, k);
    }
  }

  lemma NothingRepeats(w: Wire, b: Block, seen: Seen)
    requires !HasItems(b)
    ensures RepeatsAreOld(w, b, seen) && BlockContents(w, b, seen) == Contents([], [], [], [])
  {
  }

  /** The records' offsets are the payloads', and the blocks are the bare ones with their epochs. */
  predicate Rebuilt(w: Wire, p: Packet, payloads: seq<Bytes>, records: seq<DecodedRecord>, blocks: seq<Block>) {
    && |records| == |blocks| == |payloads| == |p.blocks|
    && forall k :: 0 <= k < |blocks| ==> IsRebuilt(w, p, payloads, records[k], blocks[k], k)
  }

  predicate IsRebuilt(w: Wire, p: Packet, payloads: seq<Bytes>, record: DecodedRecord, b: Block, k: nat)
    requires k < |payloads| == |p.blocks|
  {
    record.txOffsetUnits == Units(w, payloads, k) && b == Bare(p, payloads)[k].(epoch := p.blocks[k].epoch)
  }

  lemma {:induction false} BlocksReadBack(w: Wire, p: Packet, payloads: seq<Bytes>, enableHeight: nat, data: Bytes,
                                          start: nat, records: seq<DecodedRecord>, blocks: seq<Block>, n: nat)
    requires RoundTrips(w) && IsStorable(w, p, enableHeight) && IsValid(p.blocks)
    requires PayloadsUpTo(w, p, |p.blocks|) == Ok(payloads)
    requires IsU64(|data|) && StandsAt(data, start, Segment(w, payloads, |payloads|))
    requires Rebuilt(w, p, payloads, records, blocks) && n <= |records|
    ensures var r := BlocksUpTo(w, data, start, records, blocks, p.tables, n);
      && (RepeatsAreOldBelow(w, p.blocks, n) ==> r == Ok(NormalBlocks(w, p, payloads)[..n]))
      && (!RepeatsAreOldBelow(w, p.blocks, n) ==> r.Err?)
    decreases n
  {
    hide RoundTrips, IsStorable, IsValid, Segment, StandsAt, Finished, RepeatsAreOld, SeenBefore, NormalBlock,
      NormalBlocks, PayloadsUpTo, IsRebuilt;
    if n > 0 {
      BlocksReadBack(w, p, payloads, enableHeight, data, start, records, blocks, n - 1);
      assert IsRebuilt(w, p, payloads, records[n - 1], blocks[n - 1], n - 1);
      BlockFinishes(w, p, payloads, n - 1, enableHeight, data, start, records[n - 1], blocks[n - 1]);
      var all := NormalBlocks(w, p, payloads);
      TakeOneMore(all, n);
    }
  }

  // ---------------------------------------------------------------------------------------------
  // The whole packet
  // ---------------------------------------------------------------------------------------------

  /** The records read from an encoded packet are the ones written. */
  lemma RecordsReadBack(t: Tables, e: EncodedBlocks, data: Bytes, o: seq<nat>)
    requires |o| == 8 && o[7] < U32 && o[7] <= |data| && Peekable(e.records, Chosen(e.records))
    requires forall i :: 0 <= i < 8 ==> StandsAt(data, o[i], SectionsOf(t, BlockDataOf(e))[i])
    requires forall i :: 0 <= i < 7 ==> o[i + 1] == o[i] + |SectionsOf(t, BlockDataOf(e))[i]|
    ensures Records(data, o[5], o[6], o[7], Chosen(e.records)) == Ok(Unpacked(e.records, Chosen(e.records)))
  {
    hide Concat, PosRows, WideRows, NonceRows, LittleEndian, Bitmap, Prefixes, Tails, Chosen, Records, Unpacked,
      Peekable, StandsAt, Padding;
    var size := Chosen(e.records);
    var s := SectionsOf(t, BlockDataOf(e));
    var header := LittleEndian(|e.records|, 4) + Bitmap(e.records, size, |e.records|);
    var body := Body(e.records, size);
    StandsInParts(data, o[5], header, s[5][|header|..]);
    assert s[5] == header + s[5][|header|..];
    StandsInParts(data, o[6], body, s[6][|body|..]);
    assert s[6] == body + s[6][|body|..];
    assert o[7] == o[6] + |s[6]|;
    MulMonotone(1, size, |e.records|);
    WordsAre();
    BodyRoundTrip(data, o[5], o[6], o[7], e.records, size);
  }

  /**
   * Encoding a packet and decoding the bytes gives the packet back, up to what the format does not keep,
   * exactly when no block repeats a transaction hash that appears in it for the first time; otherwise
   * decoding fails. This holds for any record lengths, overflow pattern and prefix size.
   */
  lemma PacketRoundTrip(w: Wire, p: Packet, enableHeight: nat)
    requires RoundTrips(w) && IsStorable(w, p, enableHeight)
    requires Encoded(w, p).Ok? && IsU64(|Encoded(w, p).value|)
    ensures RepeatsAreOldBelow(w, p.blocks, |p.blocks|) ==>
              Decoded(w, Encoded(w, p).value, enableHeight) == Ok(Normal(w, p))
    ensures !RepeatsAreOldBelow(w, p.blocks, |p.blocks|) ==> Decoded(w, Encoded(w, p).value, enableHeight).Err?
  {
    hide RoundTrips, IsStorable, IsValid, PayloadsUpTo, RecordsUpTo, Segment, FixedHeader, SectionsOf, OffsetTable,
      Start, Concat, Offsets, OffsetsOk, TablesAt, HeaderOf, BlocksAt, RepeatsAreOldBelow, StandsAt, NormalBlocks,
      Chosen;
    var data := Encoded(w, p).value;
    var payloads := PayloadsUpTo(w, p, |p.blocks|).value;
    var e := BlocksEncoded(w, p).value;
    var b := BlockDataOf(e);
    var o := Offsets(data);
    SectionsRoundTrip(p.header, p.tables, Chosen(e.records), b);
    StorableHeader(w, p, enableHeight);
    HeaderReadsBack(p.header, Chosen(e.records), data);
    TablesReadBack(p.tables, b, data, o);
    SectionSizes(p.tables, e);
    RecordsDecode(w, p, payloads, e.records, Chosen(e.records), enableHeight);
    RecordsReadBack(p.tables, e, data, o);
    BlocksComeBack(w, p, payloads, e, data, o, enableHeight);
  }

  lemma StorableHeader(w: Wire, p: Packet, enableHeight: nat)
    requires IsStorable(w, p, enableHeight)
    ensures HeaderFits(p.header) && p.header.minPosHeight < U32 && TablesFit(p.tables)
  {
  }

  lemma SectionSizes(t: Tables, e: EncodedBlocks)
    ensures var s := SectionsOf(t, BlockDataOf(e));
      && s[7] == e.txSegment && Body(e.records, Chosen(e.records)) <= s[6]
  {
  }

  lemma BlocksComeBack(w: Wire, p: Packet, payloads: seq<Bytes>, e: EncodedBlocks, data: Bytes, o: seq<nat>,
                       enableHeight: nat)
    requires RoundTrips(w) && IsStorable(w, p, enableHeight) && IsValid(p.blocks)
    requires PayloadsUpTo(w, p, |p.blocks|) == Ok(payloads)
    requires AllDecode(w, p, payloads, e.records, Chosen(e.records), enableHeight)
    requires Peekable(e.records, Chosen(e.records))
    requires |o| == 8 && OffsetsOk(o, |data|) && o[7] <= |data| && IsU64(|data|)
    requires Records(data, o[5], o[6], o[7], Chosen(e.records)) == Ok(Unpacked(e.records, Chosen(e.records)))
    requires StandsAt(data, o[7], Segment(w, payloads, |payloads|))
    ensures var r := BlocksAt(w, data, o, Chosen(e.records), p.header, p.tables, enableHeight);
      && (RepeatsAreOldBelow(w, p.blocks, |p.blocks|) ==> r == Ok(NormalBlocks(w, p, payloads)))
      && (!RepeatsAreOldBelow(w, p.blocks, |p.blocks|) ==> r.Err?)
  {
    hide RoundTrips, IsStorable, IsValid, PayloadsUpTo, Segment, StandsAt, Peekable, Records, TxOffsetUnits, Padded,
      Units, DecodeBlockRecord, Bare, AllPivoted, WithEpochs, HeadersUpTo, BlocksUpTo, RepeatsAreOldBelow,
      NormalBlocks, Chosen, OffsetsOk;
    var n := |p.blocks|;
    var records := Unpacked(e.records, Chosen(e.records));
    var bare := Bare(p, payloads);
    HeadersReadBack(w, p, payloads, e.records, Chosen(e.records), enableHeight, n);
    assert bare[..n] == bare;
    EpochsReadBack(p, payloads);
    BlocksReadBack(w, p, payloads, enableHeight, data, o[7], records, WithEpochs(bare), n);
    assert NormalBlocks(w, p, payloads)[..n] == NormalBlocks(w, p, payloads);
  }
}
