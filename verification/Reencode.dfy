/** Encoding what was decoded: the same bytes again. */
module Reencode {
  import opened Basics
  import opened Bits
  import opened PacketModel
  import opened BlockRecord
  import opened TxItems
  import opened TxPayload
  import opened BackRefs
  import opened TxSegment
  import opened Epochs
  import opened PacketCodec
  import opened PacketLaws

  /** The transactions of a block that came back are written with the references it came back with. */
  lemma {:induction false} ItemsAgree(w: Wire, b: Block, c: Block, t: Tables, seen: Seen, other: Seen, n: nat)
    requires c.transactions == StrippedAll(b.transactions) && c.transactionRefs == RefsOf(w, b, seen)
    requires c.epoch == b.epoch && n <= |b.transactions|
    ensures ItemsUpTo(w, c, t, other, n) == ItemsUpTo(w, b, t, seen, n)
    decreases n
  {
    hide AppendTx;
    if n > 0 {
      ItemsAgree(w, b, c, t, seen, other, n - 1);
      StrippedEncodesAlike(b.epoch, b.transactions[n - 1], t);
      assert RefAt(w, c, other, n - 1) == RefAt(w, b, seen, n - 1);
    }
  }

  lemma PayloadsAgree(w: Wire, b: Block, c: Block, t: Tables, seen: Seen, other: Seen)
    requires c.transactions == StrippedAll(b.transactions) && c.transactionRefs == RefsOf(w, b, seen)
    requires c.epoch == b.epoch && c.posRewards == b.posRewards && c.unlockEvents == b.unlockEvents
    ensures Payload(w, c, t, other) == Payload(w, b, t, seen)
  {
    hide ItemsUpTo, StrippedAll, RefsOf;
    ItemsAgree(w, b, c, t, seen, other, |b.transactions|);
  }

  /** The flags written depend only on the bits that are not recomputed. */
  lemma WrittenTwice(flags: Byte, payload: Bytes)
    ensures WrittenFlags(WrittenFlags(flags, payload), payload) == WrittenFlags(flags, payload)
  {
    hide WrittenFlags, Bit;
    ByteIsItsBits(WrittenFlags(WrittenFlags(flags, payload), payload), WrittenFlags(flags, payload));
  }

  lemma RecordsAgree(b: Block, c: Block, flags: Byte, units: nat, h: Header, t: Tables, k: nat)
    requires var contents := Contents(c.transactions, c.transactionRefs, c.posRewards, c.unlockEvents);
      c == Filled(Recorded(b, flags, k).(epoch := b.epoch), contents)
    ensures EncodeBlockRecord(c, flags, units, h, t) == EncodeBlockRecord(b, flags, units, h, t)
  {
    hide IndexOf, FieldBytes;
    assert FieldsOf(c, units, h, t) == FieldsOf(b, units, h, t);
    if FieldsOf(b, units, h, t).Ok? {
      FieldBytesAgree(b, c, FieldsOf(b, units, h, t).value);
    }
  }

  lemma FieldBytesAgree(b: Block, c: Block, f: Fields)
    requires c.gasLimit == b.gasLimit && c.basePriceCore == b.basePriceCore && c.basePriceEspace == b.basePriceEspace
    requires c.blame == b.blame && c.finalizedEpoch == b.finalizedEpoch && c.baseReward == b.baseReward
    ensures FieldBytes(c, f) == FieldBytes(b, f)
  {
  }

  lemma {:induction false} AllPayloadsAgree(w: Wire, p: Packet, payloads: seq<Bytes>, n: nat)
    requires PayloadsUpTo(w, p, |p.blocks|) == Ok(payloads) && n <= |p.blocks|
    ensures PayloadsUpTo(w, Packet(p.header, p.tables, NormalBlocks(w, p, payloads)), n) == PayloadsUpTo(w, p, n)
    decreases n
  {
    hide Payload, SeenBefore, RootPrefix, WrittenFlags, StrippedAll, RefsOf, PayloadsUpTo;
    var q := Packet(p.header, p.tables, NormalBlocks(w, p, payloads));
    PayloadsStep(w, p, n);
    PayloadsStep(w, q, n);
    if n > 0 {
      AllPayloadsAgree(w, p, payloads, n - 1);
      PayloadsAgree(w, p.blocks[n - 1], q.blocks[n - 1], p.tables, SeenBefore(w, p.blocks, n - 1),
                    SeenBefore(w, q.blocks, n - 1));
    }
  }

  lemma {:induction false} AllRecordsAgree(w: Wire, p: Packet, payloads: seq<Bytes>, n: nat)
    requires |payloads| == |p.blocks| && n <= |p.blocks|
    ensures RecordsUpTo(w, Packet(p.header, p.tables, NormalBlocks(w, p, payloads)), payloads, n)
         == RecordsUpTo(w, p, payloads, n)
    decreases n
  {
    hide RecordOf, NormalBlocks;
    if n > 0 {
      AllRecordsAgree(w, p, payloads, n - 1);
      RecordAgrees(w, p, payloads, n - 1);
    }
  }

  lemma RecordAgrees(w: Wire, p: Packet, payloads: seq<Bytes>, k: nat)
    requires k < |p.blocks| == |payloads|
    ensures RecordOf(w, Packet(p.header, p.tables, NormalBlocks(w, p, payloads)), payloads, k)
         == RecordOf(w, p, payloads, k)
  {
    hide EncodeBlockRecord, SeenBefore, RootPrefix, WrittenFlags, StrippedAll, RefsOf, Units, Recorded, NormalBlocks;
    var b := p.blocks[k];
    var c := NormalBlock(w, p, payloads, k);
    WrittenTwice(b.flags, payloads[k]);
    RecordsAgree(b, c, WrittenFlags(b.flags, payloads[k]), Units(w, payloads, k), p.header, p.tables, k);
    KeepsFlags(w, p, payloads, k);
  }

  lemma KeepsFlags(w: Wire, p: Packet, payloads: seq<Bytes>, k: nat)
    requires k < |p.blocks| == |payloads|
    ensures var c := NormalBlock(w, p, payloads, k);
      && c.flags == WrittenFlags(p.blocks[k].flags, payloads[k])
      && c.height == p.blocks[k].height && c.index == k && c.epoch == p.blocks[k].epoch
  {
    hide SeenBefore, RootPrefix, WrittenFlags, BlockContents;
  }

  lemma StaysValid(w: Wire, p: Packet, payloads: seq<Bytes>)
    requires |payloads| == |p.blocks| && IsValid(p.blocks)
    ensures IsValid(NormalBlocks(w, p, payloads))
  {
    hide NormalBlock, WrittenFlags, Bit, PivotFrom;
    var blocks := NormalBlocks(w, p, payloads);
    forall k | 0 <= k < |blocks|
      ensures IsPivot(blocks[k]) == IsPivot(p.blocks[k]) && blocks[k].height == p.blocks[k].height
      ensures blocks[k].index == k && blocks[k].epoch == p.blocks[k].epoch
      ensures Bit(blocks[k].flags, RESERVED) == Bit(p.blocks[k].flags, RESERVED)
    {
      KeepsFlags(w, p, payloads, k);
    }
    assert SamePivots(blocks, p.blocks);
    forall k | 0 <= k < |blocks|
      ensures BlockIsValid(blocks, k)
    {
      PivotsAgree(blocks, p.blocks, k);
      assert BlockIsValid(p.blocks, k);
    }
  }

  /** The encoder cannot tell a packet from the one that comes back for it. */
  lemma NormalEncodesAlike(w: Wire, p: Packet)
    requires Encoded(w, p).Ok?
    ensures Encoded(w, Normal(w, p)) == Encoded(w, p)
  {
    hide IsValid, PayloadsUpTo, RecordsUpTo, Segment, NormalBlocks;
    var payloads := PayloadsUpTo(w, p, |p.blocks|).value;
    StaysValid(w, p, payloads);
    AllPayloadsAgree(w, p, payloads, |p.blocks|);
    AllRecordsAgree(w, p, payloads, |p.blocks|);
  }

  /** Decoding an encoded packet and encoding the result reproduces the bytes. */
  lemma DecodeThenEncode(w: Wire, p: Packet, enableHeight: nat)
    requires RoundTrips(w) && IsStorable(w, p, enableHeight)
    requires Encoded(w, p).Ok? && IsU64(|Encoded(w, p).value|)
    ensures var d := Decoded(w, Encoded(w, p).value, enableHeight);
      d.Ok? ==> Encoded(w, d.value) == Encoded(w, p)
  {
    hide RoundTrips, IsStorable, Encoded, Decoded, Normal, RepeatsAreOldBelow;
    PacketRoundTrip(w, p, enableHeight);
    NormalEncodesAlike(w, p);
  }

  /** Every reference that comes back points to a strictly earlier block, to the transaction it stands for. */
  lemma ReferencesPointBack(w: Wire, p: Packet, enableHeight: nat, k: nat, i: nat)
    requires IsStorable(w, p, enableHeight) && IsValid(p.blocks) && PayloadsUpTo(w, p, |p.blocks|).Ok?
    requires RepeatsAreOldBelow(w, p.blocks, |p.blocks|)
    requires k < |p.blocks| && i < |p.blocks[k].transactions|
    ensures var q := Normal(w, p);
      && |q.blocks[k].transactionRefs| == |q.blocks[k].transactions| == |p.blocks[k].transactions|
      && q.blocks[k].transactions[i] == Stripped(p.blocks[k].transactions[i])
      && (q.blocks[k].transactionRefs[i].Some? ==>
            var place := q.blocks[k].transactionRefs[i].value;
            && place.0 < k
            && place.1 < |q.blocks[place.0].transactions|
            && q.blocks[place.0].transactions[place.1] == q.blocks[k].transactions[i])
  {
    hide PayloadsUpTo, SeenBefore, RefAt, RepeatsAreOld, RefsPointBack, TransactionsSurvive, HashesIdentify,
      TablesFit, OneBaseEach, Recorded, Stripped, IsValid;
    var seen := SeenBefore(w, p.blocks, k);
    ValidIsSequential(p.blocks);
    assert BlockIsStorable(p, k, enableHeight) && RepeatsAreOld(w, p.blocks[k], seen);
    BlockResolves(w, p.blocks, p.tables, k);
    assert ResolvesAt(w, p.blocks[k], p.tables, seen, Previous(p.blocks, k), i);
  }
}
