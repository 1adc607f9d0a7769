/** A packet that encodes and cannot be decoded: one block with the same transaction twice. */
module RepeatedHash {
  import opened Basics
  import opened Bits
  import opened Codec
  import opened WideCodec
  import opened PacketModel
  import opened BlockRecord
  import opened BlockBody
  import opened Sections
  import opened Assembly
  import opened TxItems
  import opened TxPayload
  import opened BackRefs
  import opened TxSegment
  import opened Epochs
  import opened PrefixSize
  import opened PacketCodec
  import opened PacketLaws

  function ZeroHash(): H256 {
    Zeros(32)
  }

  /** A native transaction of the first kind that creates a contract from no code. */
  function PlainTx(): Tx {
    Tx(Native, 0, ZERO_ADDRESS, 0, 0, 0, 0, Create, 0, 0, 0, [], [], [], 0, [])
  }

  /** A pivot block with that transaction twice and no references given. */
  function RepeatingBlock(enableHeight: nat): Block {
    Block(0, 0, ZeroHash(), ZeroHash(), ZeroHash(), ZeroHash(), 2, ZERO_ADDRESS, 0, 0, 0, 0, 0, 0, 0, 0, 0,
          [PlainTx(), PlainTx()], [], [], [], if enableHeight == 0 then Some(0) else None)
  }

  /** The packet of that block, its sender, author and difficulty in the tables. */
  function RepeatingPacket(enableHeight: nat): Packet {
    Packet(Header(ZeroHash(), ZeroHash(), 0, 0, 0, 0), Tables([ZERO_ADDRESS], [], [0], [], []),
           [RepeatingBlock(enableHeight)])
  }

  lemma BlockIsPivot()
    ensures Bit(2, PIVOT) && !Bit(2, RESERVED)
  {
    assert BitOf(2, 1) == BitOf(1, 0);
    assert BitOf(2, 7) == BitOf(1, 6) == BitOf(0, 5);
    ZeroHasNoBits(5);
  }

  lemma PacketIsValid(h: nat)
    ensures IsValid(RepeatingPacket(h).blocks)
  {
    hide Bit, ZeroHash;
    BlockIsPivot();
    var blocks := RepeatingPacket(h).blocks;
    assert PivotFrom(blocks, 0) == Some(0);
  }

  lemma PacketIsStorable(w: Wire, h: nat)
    ensures IsStorable(w, RepeatingPacket(h), h)
  {
    hide ZeroHash;
    ZeroIsWide();
    var p := RepeatingPacket(h);
    hide Pow256;
    assert TransactionsSurvive(p.blocks[0], p.tables);
    assert BlockIsStorable(p, 0, h);
  }

  lemma ZeroIsWide()
    ensures IsU256(0)
  {
  }

  /** The first copy is written out and the second as a reference to it. */
  lemma PayloadIsWritten(w: Wire, h: nat)
    ensures BlockItems(w, RepeatingBlock(h), RepeatingPacket(h).tables, map[]).Ok?
    ensures PayloadsUpTo(w, RepeatingPacket(h), 1).Ok?
    ensures !RepeatsAreOld(w, RepeatingBlock(h), map[])
  {
    hide ZeroHash;
    var p, b := RepeatingPacket(h), RepeatingBlock(h);
    var hash := w.hash(PlainTx());
    assert b.transactions[0] == b.transactions[1] == PlainTx();
    assert SeenAt(w, b, map[], 0) == map[];
    assert SeenAt(w, b, map[], 1) == map[hash := (0, 0)];
    assert ItemAt(w, b, p.tables, map[], 0).Ok? && ItemAt(w, b, p.tables, map[], 1).Ok?;
    assert ItemsUpTo(w, b, p.tables, map[], 0).Ok?;
    assert ItemsUpTo(w, b, p.tables, map[], 1).Ok?;
    assert ItemsUpTo(w, b, p.tables, map[], 2).Ok?;
    assert SeenBefore(w, p.blocks, 0) == map[];
  }

  /** Its record takes at most 64 bytes. */
  lemma RecordIsShort(w: Wire, h: nat, payloads: seq<Bytes>)
    requires |payloads| == 1
    ensures var r := RecordOf(w, RepeatingPacket(h), payloads, 0); r.Ok? && |r.value| <= 64
  {
    hide FieldsOf, FieldBytes, ZeroHash, WrittenFlags, Front;
    FirstUnitIsZero(w, payloads);
    FieldsAreShort(h);
  }

  lemma FieldsAreShort(h: nat)
    ensures var p := RepeatingPacket(h); var f := FieldsOf(RepeatingBlock(h), 0, p.header, p.tables);
      && f.Ok?
      && FieldBytes(RepeatingBlock(h), f.value).Ok?
      && |FieldBytes(RepeatingBlock(h), f.value).value| <= 19
  {
    hide ZeroHash, PutQc8;
    var p, b := RepeatingPacket(h), RepeatingBlock(h);
    var f := Fields(0, 0, 0, 0, 0, if h == 0 then Some(0) else None);
    assert FieldsOf(b, 0, p.header, p.tables) == Ok(f);
    ZeroRewardIsShort();
    ZerosAreShort();
  }

  lemma ZerosAreShort()
    ensures Uleb(0) == [0] && PutGasLimit(0) == Ok([0])
    ensures PutBasePrice(0, false) == Ok([0]) && PutBasePrice(0, true) == Ok([0])
  {
  }

  lemma FirstUnitIsZero(w: Wire, payloads: seq<Bytes>)
    requires |payloads| == 1
    ensures Units(w, payloads, 0) == 0
  {
    assert Segment(w, payloads, 0) == [];
    assert Padding(0, 4) == [];
  }

  lemma ZeroRewardIsShort()
    ensures PutQc8(0).Ok? && |PutQc8(0).value| == 8
  {
    hide Compact, ModePayload, BitLen, Pow256, Pow2;
    ZeroIsWide();
    ZeroFits();
    BitLenFits(0, 62);
    PayloadRoundTrip(0, 8, 0);
  }

  lemma ZeroFits()
    ensures 0 < Pow2(62)
  {
  }

  lemma PacketEncodes(w: Wire, h: nat)
    ensures Encoded(w, RepeatingPacket(h)).Ok?
  {
    hide IsValid, Payload, RecordOf, Segment, SectionsOf, Start, ZeroHash, Chosen, BlockDataOf, FixedHeader,
      OffsetTable, SeenBefore;
    var p := RepeatingPacket(h);
    PacketIsValid(h);
    PayloadIsWritten(w, h);
    var payloads := PayloadsUpTo(w, p, 1).value;
    RecordIsShort(w, h, payloads);
    assert RecordsUpTo(w, p, payloads, 0) == Ok([]);
    var record := RecordOf(w, p, payloads, 0).value;
    assert [] + [record] == [record];
    assert RecordsUpTo(w, p, payloads, 1) == Ok([record]);
    var e := EncodedBlocks([record], Segment(w, payloads, 1));
    assert BlocksEncoded(w, p) == Ok(e);
    SmallPacketFits(p.tables, e);
  }

  /** Tables of one address and one difficulty and one short record leave the segment far below 2^32. */
  lemma SmallPacketFits(t: Tables, e: EncodedBlocks)
    requires t == Tables([ZERO_ADDRESS], [], [0], [], [])
    requires |e.records| == 1 && |e.records[0]| <= 64
    ensures Start(SectionsOf(t, BlockDataOf(e)), 7) < U32
  {
    hide Start, BigEndian, LittleEndian, Padding, Chosen, Bitmap;
    var s := SectionsOf(t, BlockDataOf(e));
    StartsAre(s);
    var size := Chosen(e.records);
    assert Concat(t.addresses) == ZERO_ADDRESS + Concat([]);
    assert Concat(PosRows([])) == [];
    assert WideRows([0]) == [BigEndian(0, 32)];
    assert Concat([BigEndian(0, 32)]) == BigEndian(0, 32) + Concat([]);
    assert NonceRows([]) == [] && WideRows([]) == [];
    assert Concat([]) == [];
    assert Tails(e.records, size) == Tail(e.records[0], size) + Tails(e.records[1..], size);
    assert |Body(e.records, size)| <= 96;
  }

  /**
   * Such a packet is storable and encodes without an error, whatever the outside codecs, and its bytes
   * cannot be decoded.
   */
  lemma EncodesButCannotBeDecoded(w: Wire, enableHeight: nat)
    requires RoundTrips(w)
    ensures var p := RepeatingPacket(enableHeight);
      && IsStorable(w, p, enableHeight)
      && Encoded(w, p).Ok?
      && (IsU64(|Encoded(w, p).value|) ==> Decoded(w, Encoded(w, p).value, enableHeight).Err?)
  {
    hide RoundTrips, IsStorable, Encoded, Decoded, RepeatsAreOld;
    var p := RepeatingPacket(enableHeight);
    PacketIsStorable(w, enableHeight);
    PacketEncodes(w, enableHeight);
    PayloadIsWritten(w, enableHeight);
    assert SeenBefore(w, p.blocks, 0) == map[];
    assert !RepeatsAreOld(w, p.blocks[0], SeenBefore(w, p.blocks, 0));
    if IsU64(|Encoded(w, p).value|) {
      PacketRoundTrip(w, p, enableHeight);
    }
  }
}
