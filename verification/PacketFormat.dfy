/** The bytes of a packet: where each thing stands, and what a decoded packet keeps. */
module PacketFormat {
  import opened Basics
  import opened Bits
  import opened Codec
  import opened WideCodec
  import opened PacketModel
  import opened BlockRecord
  import opened BlockBody
  import opened Sections
  import opened Assembly
  import opened TxItems
  import opened TxPayload
  import opened BackRefs
  import opened TxSegment
  import opened Epochs
  import opened PrefixSize
  import opened PacketCodec
  import opened PacketLaws
  import opened CodecFormat
  import ContainerFormat

  // ---------------------------------------------------------------------------------------------
  // Records
  // ---------------------------------------------------------------------------------------------

  /** The hash, four bytes of each root, the flags; then indices, distances from the header's minima and amounts. */
  lemma RecordLayout(b: Block, flags: Byte, units: nat, h: Header, t: Tables)
    requires EncodeBlockRecord(b, flags, units, h, t).Ok?
    ensures var r := EncodeBlockRecord(b, flags, units, h, t).value;
      && |r| >= 45
      && r[..32] == b.hash && r[32..36] == b.deferredStateRoot[..4] && r[36..40] == b.deferredReceiptsRoot[..4]
      && r[40..44] == b.deferredLogsBloomHash[..4] && r[44] == flags
    ensures b.timestamp >= h.minTimestamp && b.height >= h.minHeight
    ensures PutGasLimit(b.gasLimit).Ok? && PutBasePrice(b.basePriceCore, false).Ok?
    ensures PutBasePrice(b.basePriceEspace, true).Ok? && PutQc8(b.baseReward).Ok?
    ensures exists author: nat, difficulty: nat ::
      && author < |t.addresses| && t.addresses[author] == b.author
      && difficulty < |t.difficulties| && t.difficulties[difficulty] == b.difficulty
      && IsBehindFront(EncodeBlockRecord(b, flags, units, h, t).value[45..], b, author, difficulty, units, h)
  {
    hide Uleb, PutGasLimit, PutBasePrice, PutQc8, IndexOf;
    var author, difficulty := IndexOf(t.addresses, b.author).value, IndexOf(t.difficulties, b.difficulty).value;
    var r := EncodeBlockRecord(b, flags, units, h, t).value;
    FrontLayout(b, flags);
    var fields := FieldBytes(b, FieldsOf(b, units, h, t).value).value;
    assert r == Front(b, flags) + fields && r[45..] == fields;
    assert r[..45] == Front(b, flags);
    assert r[..32] == r[..45][..32] && r[32..36] == r[..45][32..36] && r[36..40] == r[..45][36..40];
    assert r[40..44] == r[..45][40..44] && r[44] == r[..45][44];
    assert IsBehindFront(fields, b, author, difficulty, units, h);
  }

  lemma FrontLayout(b: Block, flags: Byte)
    ensures var f := Front(b, flags);
      && f[..32] == b.hash && f[32..36] == b.deferredStateRoot[..4] && f[36..40] == b.deferredReceiptsRoot[..4]
      && f[40..44] == b.deferredLogsBloomHash[..4] && f[44] == flags
  {
  }

  ghost predicate IsBehindFront(fields: Bytes, b: Block, author: nat, difficulty: nat, units: nat, h: Header)
    requires b.timestamp >= h.minTimestamp && b.height >= h.minHeight
    requires PutGasLimit(b.gasLimit).Ok? && PutBasePrice(b.basePriceCore, false).Ok?
    requires PutBasePrice(b.basePriceEspace, true).Ok? && PutQc8(b.baseReward).Ok?
  {
    fields ==
      Uleb(author) + (Uleb(b.timestamp - h.minTimestamp) + (Uleb(difficulty) + (PutGasLimit(b.gasLimit).value +
      (PutBasePrice(b.basePriceCore, false).value + (PutBasePrice(b.basePriceEspace, true).value +
      (Uleb(b.height - h.minHeight) + (Uleb(b.blame) + (Uleb(b.finalizedEpoch) + (Uleb(units) +
      (PutQc8(b.baseReward).value +
       match b.posView
       case Some(v) => Uleb(if v >= h.minPosHeight then v - h.minPosHeight else 0)
       case None => []))))))))))
  }

  // ---------------------------------------------------------------------------------------------
  // The block area
  // ---------------------------------------------------------------------------------------------

  /** Byte `j` of prefix `i` is byte `j` of the record, or zero behind its end. */
  lemma {:induction false} PrefixLayout(records: seq<Bytes>, size: nat, i: nat, j: nat)
    requires i < |records| && j < size
    ensures i * size + j < |Prefixes(records, size)|
    ensures Prefixes(records, size)[i * size + j] == if j < |records[i]| then records[i][j] else 0
    decreases i
  {
    hide Prefixes, Prefix;
    PrefixesUnfold(records, size);
    PrefixByte(records[0], size, j);
    if i > 0 {
      PrefixLayout(records[1..], size, i - 1, j);
      Distribute(i - 1, 1, size);
      var at := (i - 1) * size;
      assert i * size + j == size + (at + j);
    }
  }

  lemma PrefixesUnfold(records: seq<Bytes>, size: nat)
    requires records != []
    ensures Prefixes(records, size) == Prefix(records[0], size) + Prefixes(records[1..], size)
  {
    hide Prefix;
  }

  lemma PrefixByte(record: Bytes, size: nat, j: nat)
    requires j < size
    ensures |Prefix(record, size)| == size
    ensures Prefix(record, size)[j] == if j < |record| then record[j] else 0
  {
  }

  /** Behind all prefixes stand the tails of the long records in order: a length, and what the prefix has not. */
  lemma BodyLayout(records: seq<Bytes>, size: nat, i: nat, j: nat)
    requires i < |records| && j < size
    ensures i * size + j < |records| * size <= |Body(records, size)|
    ensures Body(records, size)[i * size + j] == if j < |records[i]| then records[i][j] else 0
    ensures Body(records, size)[|records| * size..] == Tails(records, size)
  {
    hide Prefixes, Tails;
    PrefixLayout(records, size, i, j);
    assert Body(records, size)[i * size + j] == Prefixes(records, size)[i * size + j];
  }

  lemma TailsLayout(records: seq<Bytes>, size: nat)
    ensures Tails(records, size)
         == if records == [] then []
            else (if |records[0]| > size then Uleb(|records[0]| - size) + records[0][size..] else [])
                 + Tails(records[1..], size)
  {
    hide Uleb;
  }

  // ---------------------------------------------------------------------------------------------
  // Sections
  // ---------------------------------------------------------------------------------------------

  /** The next multiple. */
  function RoundUp(n: nat, alignment: nat): nat
    requires alignment > 0
  {
    (n + alignment - 1) / alignment * alignment
  }

  lemma AlignedLength(start: nat, section: Bytes, alignment: nat)
    requires alignment == 32 || alignment == 64
    ensures start + |Aligned(start, section, alignment)| == RoundUp(start + |section|, alignment)
    ensures forall i :: |section| <= i < |Aligned(start, section, alignment)| ==>
              Aligned(start, section, alignment)[i] == 0
  {
    hide Padding;
  }

  /** Rows of one width stand one behind the other. */
  lemma {:induction false} RowStands(rows: seq<Bytes>, width: nat, i: nat)
    requires i < |rows| && forall r :: r in rows ==> |r| == width
    ensures |Concat(rows)| == |rows| * width
    ensures StandsAt(Concat(rows), i * width, rows[i])
    decreases |rows|
  {
    hide Concat, StandsAt;
    assert rows[0] in rows;
    Distribute(|rows| - 1, 1, width);
    FirstStands(rows);
    if |rows| > 1 {
      RowStands(rows[1..], width, if i == 0 then 0 else i - 1);
      if i > 0 {
        Distribute(i - 1, 1, width);
        ContainerFormat.StandsBehind(rows[0], Concat(rows[1..]), (i - 1) * width, rows[i]);
      }
    }
  }

  lemma FirstStands(rows: seq<Bytes>)
    requires rows != []
    ensures Concat(rows) == rows[0] + Concat(rows[1..]) && StandsAt(Concat(rows), 0, rows[0])
    ensures |rows| == 1 ==> Concat(rows[1..]) == []
  {
  }

  /** Where each section starts. */
  datatype Starts = Starts(addresses: nat, posEntries: nat, difficulties: nat, nonces: nat, gasPrices: nat,
                           blockHeader: nat, body: nat, txSegment: nat)

  function StartsOf(t: Tables, b: BlockData): Starts {
    var posEntries := 125 + 20 * |t.addresses|;
    var difficulties := posEntries + 34 * |t.posEntries|;
    var nonces := difficulties + 32 * |t.difficulties|;
    var gasPrices := nonces + |Concat(NonceRows(t.senderBaseNonces))|;
    var blockHeader := RoundUp(gasPrices + 32 * |t.gasPrices|, 32);
    var body := RoundUp(blockHeader + 4 + |b.bitmap|, 32);
    Starts(125, posEntries, difficulties, nonces, gasPrices, blockHeader, body, RoundUp(body + |b.body|, 64))
  }

  lemma RowsLength(t: Tables)
    ensures |Concat(t.addresses)| == 20 * |t.addresses|
    ensures |Concat(PosRows(t.posEntries))| == 34 * |t.posEntries|
    ensures |Concat(WideRows(t.difficulties))| == 32 * |t.difficulties|
    ensures |Concat(WideRows(t.gasPrices))| == 32 * |t.gasPrices|
  {
    hide Concat, Chunks, BigEndian;
    ChunksUndoConcat(t.addresses, 20);
    ChunksUndoConcat(PosRows(t.posEntries), 34);
    ChunksUndoConcat(WideRows(t.difficulties), 32);
    ChunksUndoConcat(WideRows(t.gasPrices), 32);
  }

  /** The eight sections start where the rows before them, rounded up behind gas prices, bitmap and body, end. */
  lemma SectionStarts(t: Tables, b: BlockData)
    ensures var s := SectionsOf(t, b); var at := StartsOf(t, b);
      && Start(s, 0) == at.addresses && Start(s, 1) == at.posEntries && Start(s, 2) == at.difficulties
      && Start(s, 3) == at.nonces && Start(s, 4) == at.gasPrices && Start(s, 5) == at.blockHeader
      && Start(s, 6) == at.body && Start(s, 7) == at.txSegment
  {
    hide Concat, Aligned, RoundUp;
    RowsLength(t);
    var gasStart := 125 + |Concat(t.addresses)| + |Concat(PosRows(t.posEntries))| + |Concat(WideRows(t.difficulties))|
                    + |Concat(NonceRows(t.senderBaseNonces))|;
    var gas := Concat(WideRows(t.gasPrices));
    AlignedLength(gasStart, gas, 32);
    var headerStart := gasStart + |Aligned(gasStart, gas, 32)|;
    var header := LittleEndian(b.count, 4) + b.bitmap;
    AlignedLength(headerStart, header, 32);
    var bodyStart := headerStart + |Aligned(headerStart, header, 32)|;
    AlignedLength(bodyStart, b.body, 64);
    StartsUnfold(SectionsOf(t, b));
  }

  lemma StartsUnfold(s: seq<Bytes>)
    requires |s| == 8
    ensures Start(s, 0) == 125 && Start(s, 1) == 125 + |s[0]| && Start(s, 2) == Start(s, 1) + |s[1]|
    ensures Start(s, 3) == Start(s, 2) + |s[2]| && Start(s, 4) == Start(s, 3) + |s[3]|
    ensures Start(s, 5) == Start(s, 4) + |s[4]| && Start(s, 6) == Start(s, 5) + |s[5]|
    ensures Start(s, 7) == Start(s, 6) + |s[6]|
  {
  }

  /** The first 93 bytes: two roots, three numbers of eight bytes, one of four, and the prefix size. */
  lemma HeaderLayout(h: Header, size: Byte)
    ensures FixedHeader(h, size)
         == h.prevLastHash + h.prevLastDeferredStateRoot + LittleEndian(h.firstBlockNumber, 8)
            + LittleEndian(h.minTimestamp, 8) + LittleEndian(h.minHeight, 8) + LittleEndian(h.minPosHeight, 4) + [size]
  {
  }

  /** Which section starts where. */
  function StartAt(at: Starts, i: nat): nat {
    if i == 0 then at.addresses
    else if i == 1 then at.posEntries
    else if i == 2 then at.difficulties
    else if i == 3 then at.nonces
    else if i == 4 then at.gasPrices
    else if i == 5 then at.blockHeader
    else if i == 6 then at.body
    else at.txSegment
  }

  /** The offset of section `i` stands at 93 + 4 * i, and the sections stand there, the segment to the end. */
  lemma SectionLayout(h: Header, t: Tables, size: Byte, b: BlockData)
    requires Assembled(h, t, size, b).Ok?
    ensures var data := Assembled(h, t, size, b).value; var at := StartsOf(t, b);
      && |data| >= 125 && data[..93] == FixedHeader(h, size)
      && (forall i :: 0 <= i < 8 ==> data[93 + 4 * i..97 + 4 * i] == LittleEndian(StartAt(at, i), 4))
      && StandsAt(data, at.addresses, Concat(t.addresses))
      && StandsAt(data, at.posEntries, Concat(PosRows(t.posEntries)))
      && StandsAt(data, at.difficulties, Concat(WideRows(t.difficulties)))
      && StandsAt(data, at.nonces, Concat(NonceRows(t.senderBaseNonces)))
      && StandsAt(data, at.gasPrices, Concat(WideRows(t.gasPrices)))
      && StandsAt(data, at.blockHeader, LittleEndian(b.count, 4) + b.bitmap)
      && StandsAt(data, at.body, b.body)
      && StandsAt(data, at.txSegment, b.txSegment) && at.txSegment + |b.txSegment| == |data|
  {
    hide FixedHeader, OffsetTable, Concat, Start, LittleEndian, StandsAt, StartsOf, Aligned, OffsetsOk, Offsets;
    SectionsRoundTrip(h, t, size, b);
    SectionStarts(t, b);
    var data, s := Assembled(h, t, size, b).value, SectionsOf(t, b);
    forall i | 0 <= i < 8
      ensures data[93 + 4 * i..97 + 4 * i] == LittleEndian(StartAt(StartsOf(t, b), i), 4)
    {
      OffsetStands(s, i, 8);
      assert data[93 + 4 * i..97 + 4 * i] == OffsetTable(s, 8)[4 * i..4 * i + 4];
    }
    AlignedFront(data, Start(s, 4), Concat(WideRows(t.gasPrices)), s[4]);
    AlignedFront(data, Start(s, 5), LittleEndian(b.count, 4) + b.bitmap, s[5]);
    AlignedFront(data, Start(s, 6), b.body, s[6]);
  }

  lemma AlignedFront(data: Bytes, at: nat, part: Bytes, padded: Bytes)
    requires StandsAt(data, at, padded) && part <= padded
    ensures StandsAt(data, at, part)
  {
    assert data[at..at + |part|] == data[at..at + |padded|][..|part|];
  }

  /** The rows of the tables: addresses of 20 bytes, hashes with two bytes of height, big-endian numbers of 32. */
  lemma RowLayout(t: Tables, i: nat)
    ensures i < |t.addresses| ==> StandsAt(Concat(t.addresses), 20 * i, t.addresses[i])
    ensures i < |t.posEntries| ==>
      StandsAt(Concat(PosRows(t.posEntries)), 34 * i,
               t.posEntries[i].hash + LittleEndian(t.posEntries[i].heightOffset, 2))
    ensures i < |t.difficulties| ==>
      StandsAt(Concat(WideRows(t.difficulties)), 32 * i, BigEndian(t.difficulties[i], 32))
    ensures i < |t.gasPrices| ==> StandsAt(Concat(WideRows(t.gasPrices)), 32 * i, BigEndian(t.gasPrices[i], 32))
  {
    hide Concat, StandsAt, BigEndian, LittleEndian;
    if i < |t.addresses| { RowStands(t.addresses, 20, i); }
    if i < |t.posEntries| { RowStands(PosRows(t.posEntries), 34, i); }
    WideRowLayout(t.difficulties, i);
    WideRowLayout(t.gasPrices, i);
  }

  lemma WideRowLayout(values: seq<nat>, i: nat)
    ensures i < |values| ==> StandsAt(Concat(WideRows(values)), 32 * i, BigEndian(values[i], 32))
  {
    hide Concat, StandsAt, BigEndian;
    if i < |values| { RowStands(WideRows(values), 32, i); }
  }

  /** Nonce rows have no fixed width: an index and a base nonce, one row behind the other. */
  lemma NonceLayout(nonces: seq<SenderBaseNonce>)
    ensures Concat(NonceRows(nonces))
         == if nonces == [] then []
            else Uleb(nonces[0].senderIndex) + Uleb(nonces[0].baseNonce) + Concat(NonceRows(nonces[1..]))
  {
    hide Uleb;
    if nonces != [] {
      assert NonceRows(nonces)[1..] == NonceRows(nonces[1..]);
    }
  }

  /** A payload stands at four times its units behind its length, compressed if it has more than 512 bytes. */
  lemma SegmentLayout(w: Wire, payloads: seq<Bytes>, k: nat)
    requires k < |payloads| && payloads[k] != []
    ensures var stored := if |payloads[k]| > 512 then w.compress(payloads[k]) else payloads[k];
      StandsAt(Segment(w, payloads, |payloads|), 4 * Units(w, payloads, k), Uleb(|stored|) + stored)
  {
    hide Uleb, Segment, Units, StandsAt;
    PayloadStands(w, payloads, k);
  }

  /** A payload starts at the next unit behind the one before, and the bytes skipped are zeros. */
  lemma SegmentSpacing(w: Wire, payloads: seq<Bytes>, k: nat)
    requires k < |payloads| && payloads[k] != []
    ensures var before, after := Segment(w, payloads, k), Segment(w, payloads, k + 1);
      && 4 * Units(w, payloads, k) == (|before| + 3) / 4 * 4
      && before <= after && (forall i :: |before| <= i < 4 * Units(w, payloads, k) ==> after[i] == 0)
      && |after| == 4 * Units(w, payloads, k) + |Framed(w, payloads[k])|
  {
    hide Padding, Framed;
    var before, pad := Segment(w, payloads, k), Padding(|Segment(w, payloads, k)|, 4);
    assert ToUnit(before) == before + pad;
    assert forall i :: |before| <= i < |before + pad| ==> (before + pad)[i] == pad[i - |before|];
  }

  /** Bit 3 says that there is a payload and bit 4 that it is compressed; the other six are the block's own. */
  lemma FlagLayout(flags: Byte, payload: Bytes, k: nat)
    requires k < 8
    ensures (WrittenFlags(flags, payload) / Pow2(k)) % 2 == 1 <==>
      if k == 3 then payload != [] else if k == 4 then |payload| > 512 else (flags / Pow2(k)) % 2 == 1
  {
    hide WrittenFlags, BitOf, WithBit, WithoutBit, Pow2;
    BitInNumbers(WrittenFlags(flags, payload), k);
    BitInNumbers(flags, k);
    assert Bit(WrittenFlags(flags, payload), k) == if k == 3 then payload != [] else if k == 4 then |payload| > 512
                                                   else Bit(flags, k);
  }

  // ---------------------------------------------------------------------------------------------
  // Transactions
  // ---------------------------------------------------------------------------------------------

  /** A price by its last place in the table, or as it is if the table lacks it. */
  ghost predicate IsPriceOf(price: Price, value: nat, t: Tables) {
    match price
    case Interned(i) => i < |t.gasPrices| && t.gasPrices[i] == value && value !in t.gasPrices[i + 1..]
    case Inline(v) => v == value && value !in t.gasPrices
  }

  lemma {:induction false} LastIndex<T>(table: seq<T>, v: T)
    ensures match IndexOf(table, v)
      case Some(i) => i < |table| && table[i] == v && v !in table[i + 1..]
      case None => v !in table
  {
    if table != [] && table[|table| - 1] != v {
      var front := table[..|table| - 1];
      LastIndex(front, v);
      match IndexOf(front, v)
      case Some(i) => assert table[i + 1..] == front[i + 1..] + [table[|table| - 1]];
      case None => assert table == front + [table[|table| - 1]];
    }
  }

  /** The base nonce is that of the last row for the sender. */
  lemma {:induction false} LastBaseIs(nonces: seq<SenderBaseNonce>, sender: nat, i: nat)
    requires i < |nonces| && nonces[i].senderIndex == sender
    requires forall j :: i < j < |nonces| ==> nonces[j].senderIndex != sender
    ensures LastBase(nonces, sender) == Some(nonces[i].baseNonce)
    decreases |nonces|
  {
    if i < |nonces| - 1 {
      LastBaseIs(nonces[..|nonces| - 1], sender, i);
    }
  }

  lemma {:induction false} NoBaseIs(nonces: seq<SenderBaseNonce>, sender: nat)
    requires forall j :: 0 <= j < |nonces| ==> nonces[j].senderIndex != sender
    ensures LastBase(nonces, sender) == None
    decreases |nonces|
  {
    if nonces != [] {
      NoBaseIs(nonces[..|nonces| - 1], sender);
    }
  }

  /** What each field of a written transaction says of the transaction. */
  lemma BodyMeans(blockEpoch: nat, tx: Tx, t: Tables)
    requires AppendTx(blockEpoch, tx, t).Ok?
    ensures var b := AppendTx(blockEpoch, tx, t).value;
      && b.space == tx.space && b.kind == tx.kind && b.value == tx.value && b.data == tx.data && b.gas == tx.gas % U64
      && b.sender < |t.addresses| && t.addresses[b.sender] == tx.sender && tx.sender !in t.addresses[b.sender + 1..]
      && IsPriceOf(b.gasPrice, tx.gasPrice, t) && IsPriceOf(b.priorityPrice, tx.priorityPrice, t)
      && (b.action.CreateItem? <==> tx.action.Create?)
      && (b.action.CallItem? ==> b.action.index < |t.addresses| && t.addresses[b.action.index] == tx.action.to)
      && b.storageLimit == (if tx.space == Native then tx.storageLimit else 0)
      && b.accessList == (if tx.kind != 0 then Some(tx.accessList) else None)
      && b.authorizations == (if tx.space == Ethereum && tx.kind == 4 then Some(tx.authorizations) else None)
  {
    hide EncodeEpochOffset, LastBase, IndexOf;
    LastIndex(t.addresses, tx.sender);
    LastIndex(t.gasPrices, tx.gasPrice);
    LastIndex(t.gasPrices, tx.priorityPrice);
  }

  /** The nonce is the distance from the base of the sender's last row, and the nonce itself if there is no row. */
  lemma NonceMeans(blockEpoch: nat, tx: Tx, t: Tables, i: nat)
    requires AppendTx(blockEpoch, tx, t).Ok?
    ensures var b := AppendTx(blockEpoch, tx, t).value; var rows, nonce := t.senderBaseNonces, tx.nonce % U64;
      && (i < |rows| && rows[i].senderIndex == b.sender
          && (forall j :: i < j < |rows| ==> rows[j].senderIndex != b.sender) ==>
            b.nonce == if nonce >= rows[i].baseNonce then nonce - rows[i].baseNonce else 0)
      && ((forall j :: 0 <= j < |rows| ==> rows[j].senderIndex != b.sender) ==> b.nonce == nonce)
  {
    hide EncodeEpochOffset, LastBase, IndexOf, AppendPrice, AppendAction;
    var b, rows := AppendTx(blockEpoch, tx, t).value, t.senderBaseNonces;
    if i < |rows| && rows[i].senderIndex == b.sender && forall j :: i < j < |rows| ==> rows[j].senderIndex != b.sender {
      LastBaseIs(rows, b.sender, i);
    }
    if forall j :: 0 <= j < |rows| ==> rows[j].senderIndex != b.sender {
      NoBaseIs(rows, b.sender);
    }
  }

  /** The epoch height of a native transaction is written as twice its distance from the block's epoch, odd if below. */
  lemma EpochMeans(blockEpoch: nat, tx: Tx, t: Tables)
    requires AppendTx(blockEpoch, tx, t).Ok? && blockEpoch < U64 / 2 && tx.epochHeight < U64 / 2
    ensures AppendTx(blockEpoch, tx, t).value.epochOffset
         == if tx.space == Ethereum then 0
            else if tx.epochHeight >= blockEpoch then 2 * (tx.epochHeight - blockEpoch)
            else 2 * (blockEpoch - tx.epochHeight) - 1
  {
    hide EncodeEpochOffset, LastBase, IndexOf, AppendPrice, AppendAction;
    if tx.space == Native {
      OffsetMeans(tx.epochHeight, blockEpoch);
    }
  }

  lemma OffsetMeans(epochHeight: nat, blockEpoch: nat)
    requires epochHeight < U64 / 2 && blockEpoch < U64 / 2
    ensures EncodeEpochOffset(epochHeight, blockEpoch)
         == if epochHeight >= blockEpoch then 2 * (epochHeight - blockEpoch) else 2 * (blockEpoch - epochHeight) - 1
  {
    hide ZigzagEncode, Wrap64;
    var d := epochHeight - blockEpoch;
    WrappedDistance(d);
    ZigzagNumber(d);
  }

  lemma WrappedDistance(d: int)
    requires IsSigned64(d)
    ensures AsSigned(Wrap64(d)) == d
  {
  }

  /** The base nonce the decoder adds is that of the first row. */
  lemma {:induction false} FirstBaseIs(nonces: seq<SenderBaseNonce>, sender: nat, i: nat)
    requires i < |nonces| && nonces[i].senderIndex == sender
    requires forall j :: 0 <= j < i ==> nonces[j].senderIndex != sender
    ensures FirstBase(nonces, sender) == Some(nonces[i].baseNonce)
    decreases i
  {
    if i > 0 {
      FirstBaseIs(nonces[1..], sender, i - 1);
    }
  }

  /** What a decoder makes of any transaction it accepts, whoever wrote it. */
  lemma DecodedMeans(b: TxBody, blockEpoch: nat, t: Tables, i: nat)
    requires DecodeTx(b, blockEpoch, t).Ok?
    ensures var tx := DecodeTx(b, blockEpoch, t).value; var rows := t.senderBaseNonces;
      && (b.kind <= 2 || (b.space == Ethereum && b.kind == 4)) && tx.space == b.space && tx.kind == b.kind
      && b.sender < |t.addresses| && tx.sender == t.addresses[b.sender]
      && tx.gas == b.gas && tx.value == b.value && tx.data == b.data && tx.chainId == 0 && tx.signature == []
      && (i < |rows| && rows[i].senderIndex == b.sender && (forall j :: 0 <= j < i ==> rows[j].senderIndex != b.sender)
          ==> tx.nonce == (rows[i].baseNonce + b.nonce) % U64)
      && (b.gasPrice.Inline? ==> tx.gasPrice == b.gasPrice.value)
      && (b.gasPrice.Interned? ==> b.gasPrice.index < |t.gasPrices| && tx.gasPrice == t.gasPrices[b.gasPrice.index])
      && (b.kind <= 1 ==> tx.priorityPrice == tx.gasPrice)
      && (b.action.CallItem? ==>
            b.action.index < |t.addresses| && tx.action == Call(t.addresses[b.action.index]))
      && (b.action.CreateItem? ==> tx.action == if b.kind == 4 then Call(seq(20, i => 0)) else Create)
      && (b.space == Ethereum ==> tx.storageLimit == 0 && tx.epochHeight == 0)
      && (b.space == Native ==> tx.storageLimit == b.storageLimit)
  {
    hide DecodeEpochOffset, FirstBase;
    var rows := t.senderBaseNonces;
    if i < |rows| && rows[i].senderIndex == b.sender && forall j :: 0 <= j < i ==> rows[j].senderIndex != b.sender {
      FirstBaseIs(rows, b.sender, i);
    }
    assert ZERO_ADDRESS == seq(20, i => 0);
  }

  // ---------------------------------------------------------------------------------------------
  // What is accepted
  // ---------------------------------------------------------------------------------------------

  /** Block `m` is the first pivot, bit 1, from block `k` on. */
  ghost predicate IsPivotOf(blocks: seq<Block>, k: nat, m: nat) {
    && k <= m < |blocks| && (blocks[m].flags / 2) % 2 == 1
    && forall i :: k <= i < m ==> (blocks[i].flags / 2) % 2 == 0
  }

  lemma {:induction false} PivotIs(blocks: seq<Block>, k: nat)
    requires k <= |blocks|
    ensures match PivotFrom(blocks, k)
      case Some(m) => IsPivotOf(blocks, k, m)
      case None => forall m: nat :: !IsPivotOf(blocks, k, m)
    decreases |blocks| - k
  {
    if k < |blocks| {
      SecondBit(blocks[k].flags);
      PivotIs(blocks, k + 1);
      if PivotFrom(blocks, k).None? {
        forall m: nat ensures !IsPivotOf(blocks, k, m) {
          LaterPivot(blocks, k, m);
        }
      }
    }
  }

  lemma LaterPivot(blocks: seq<Block>, k: nat, m: nat)
    requires k < |blocks| && (blocks[k].flags / 2) % 2 == 0
    ensures IsPivotOf(blocks, k, m) <==> IsPivotOf(blocks, k + 1, m)
  {
  }

  lemma SecondBit(b: Byte)
    ensures Bit(b, 1) <==> (b / 2) % 2 == 1
  {
    assert BitOf(b, 1) == BitOf(b / 2, 0);
  }

  lemma LastBit(b: Byte)
    ensures Bit(b, 7) <==> b >= 128
  {
    hide BitOf, WithBit, WithoutBit, Pow2;
    BitInNumbers(b, 7);
    Pow2Is16();
  }

  /** Sequential blocks in groups that end with a pivot, each block with its pivot's height as epoch and bit 7 clear. */
  lemma ValidExactlyWhen(blocks: seq<Block>)
    ensures IsValid(blocks) <==>
      && blocks != [] && blocks[0].epoch + 2000 < 0x1_0000_0000_0000_0000
      && forall k :: 0 <= k < |blocks| ==>
           && blocks[k].index == k && blocks[k].flags < 128
           && exists m: nat :: IsPivotOf(blocks, k, m) && blocks[k].epoch == blocks[m].height
  {
    hide Bit, PivotFrom;
    forall k | 0 <= k < |blocks|
      ensures BlockIsValid(blocks, k) <==>
        && blocks[k].index == k && blocks[k].flags < 128
        && exists m: nat :: IsPivotOf(blocks, k, m) && blocks[k].epoch == blocks[m].height
    {
      PivotIs(blocks, k);
      LastBit(blocks[k].flags);
      OnePivot(blocks, k);
    }
  }

  lemma OnePivot(blocks: seq<Block>, k: nat)
    ensures forall m: nat, n: nat :: IsPivotOf(blocks, k, m) && IsPivotOf(blocks, k, n) ==> m == n
  {
  }

  /** The records that fit a prefix of `n` bytes. */
  function Fitting(records: seq<Bytes>, n: nat): set<nat> {
    set i: nat | i < |records| && |records[i]| <= n
  }

  lemma {:induction false} FitCountIs(records: seq<Bytes>, n: nat)
    ensures FitCount(records, n) == |Fitting(records, n)|
    decreases |records|
  {
    if records != [] {
      var last := |records| - 1;
      FitCountIs(records[..last], n);
      assert Fitting(records, n) == Fitting(records[..last], n) + if |records[last]| <= n then {last} else {};
    }
  }

  /** Enough records fit: nine tenths below 80 bytes, seven tenths below 96, any number at 96. */
  predicate IsEnough(records: seq<Bytes>, n: nat) {
    10 * |Fitting(records, n)| >= (if n < 80 then 9 else if n < 96 then 7 else 0) * |records|
  }

  /** The prefix size is the first of 64, 72, 80, 88 and 96 that enough records fit. */
  lemma PrefixSizeIs(records: seq<Bytes>)
    ensures var n := Chosen(records);
      && n in {64, 72, 80, 88, 96} && IsEnough(records, n)
      && forall m :: m in {64, 72, 80, 88, 96} && m < n ==> !IsEnough(records, m)
  {
    hide FirstFit, IsEnough, FitsEnough;
    EnoughIs(records, 64);
    EnoughIs(records, 72);
    EnoughIs(records, 80);
    EnoughIs(records, 88);
    EnoughIs(records, 96);
  }

  lemma EnoughIs(records: seq<Bytes>, n: nat)
    requires n <= 96
    ensures FitsEnough(records, n) <==> IsEnough(records, n)
  {
    hide FitCount, Fitting;
    FitCountIs(records, n);
  }

  /** Of any record the decoder takes a view exactly from the enable height on, and the block's own index. */
  lemma RecordReads(record: Bytes, index: nat, h: Header, enableHeight: nat, t: Tables)
    requires DecodeBlockRecord(record, index, h, enableHeight, t).Ok?
    ensures var b := DecodeBlockRecord(record, index, h, enableHeight, t).value;
      && |record| >= 45 && b.index == index && b.hash == record[..32] && b.flags == record[44]
      && (b.posView.Some? <==> b.height >= enableHeight)
      && b.author in t.addresses && b.difficulty in t.difficulties
      && b.transactions == [] && b.transactionRefs == [] && b.posRewards == [] && b.unlockEvents == []
  {
    hide ReadUleb, ReadQc5e, ReadQc8, RootPrefix, GasLimit, BasePrice, Added;
  }

  /** A packet that decodes has a whole header, a known prefix size, ordered offsets inside, and whole table rows. */
  lemma DecodedNeeds(w: Wire, data: Bytes, enableHeight: nat)
    requires Decoded(w, data, enableHeight).Ok?
    ensures |data| >= 125 && data[92] in {64, 72, 80, 88, 96}
    ensures var o := (i: int) requires 0 <= i < 8 => FromLittleEndian(data[93 + i * 4..97 + i * 4]);
      && 125 <= o(0) <= o(1) <= o(2) <= o(3) <= o(4) <= o(5) <= o(6) <= o(7) <= |data|
      && (o(1) - o(0)) % 20 == 0 && (o(2) - o(1)) % 34 == 0
  {
    hide FromLittleEndian, BlocksAt, HeaderOf, TablesAt, OffsetsOk;
    var o := Offsets(data);
    OffsetsAreSorted(o, |data|);
    FirstOffset(o, |data|);
    TablesNeed(data, o);
  }

  lemma FirstOffset(o: seq<nat>, len: nat)
    requires |o| == 8 && OffsetsOk(o, len)
    ensures o[0] >= 125
  {
    assert OffsetOk(o, len, 0);
  }

  lemma TablesNeed(data: Bytes, o: seq<nat>)
    requires |o| == 8 && OffsetsOk(o, |data|) && TablesAt(data, o).Ok?
    ensures o[0] <= o[1] <= o[2] && (o[1] - o[0]) % 20 == 0 && (o[2] - o[1]) % 34 == 0
  {
    hide OffsetsOk, DecodeAddresses, DecodePosEntries, DecodeWideTable, NoncesFrom;
    OffsetsAreSorted(o, |data|);
    WholeRows(data[o[0]..o[1]]);
    WholeRows(data[o[1]..o[2]]);
  }

  lemma WholeRows(data: Bytes)
    ensures DecodeAddresses(data).Ok? ==> |data| % 20 == 0
    ensures DecodePosEntries(data).Ok? ==> |data| % 34 == 0
  {
    hide Chunks;
  }

  // ---------------------------------------------------------------------------------------------
  // What comes back
  // ---------------------------------------------------------------------------------------------

  /** Field by field: everything a decoded block shares with the block encoded, and the transactions it holds. */
  lemma DecodedKeeps(w: Wire, p: Packet, enableHeight: nat, k: nat)
    requires RoundTrips(w) && IsStorable(w, p, enableHeight)
    requires Encoded(w, p).Ok? && IsU64(|Encoded(w, p).value|) && Decoded(w, Encoded(w, p).value, enableHeight).Ok?
    requires k < |p.blocks|
    ensures var q := Decoded(w, Encoded(w, p).value, enableHeight).value;
      && q.header == p.header && q.tables == p.tables && |q.blocks| == |p.blocks|
      && var b, c := p.blocks[k], q.blocks[k];
      && c.epoch == b.epoch && c.index == k && c.hash == b.hash && c.author == b.author && c.timestamp == b.timestamp
      && c.difficulty == b.difficulty && c.gasLimit == b.gasLimit && c.basePriceCore == b.basePriceCore
      && c.basePriceEspace == b.basePriceEspace && c.height == b.height && c.blame == b.blame
      && c.finalizedEpoch == b.finalizedEpoch && c.baseReward == b.baseReward && c.posView == b.posView
      && c.deferredStateRoot == b.deferredStateRoot[..4] + Zeros(28)
      && c.deferredReceiptsRoot == b.deferredReceiptsRoot[..4] + Zeros(28)
      && c.deferredLogsBloomHash == b.deferredLogsBloomHash[..4] + Zeros(28)
      && c.posRewards == b.posRewards && c.unlockEvents == b.unlockEvents
      && |c.transactions| == |b.transactions|
      && forall i :: 0 <= i < |b.transactions| ==>
           c.transactions[i] == b.transactions[i].(chainId := 0, signature := [])
  {
    hide IsStorable, RoundTrips, Decoded, Encoded, SeenBefore, RefsOf, RepeatsAreOldBelow, WrittenFlags, Zeros,
      PayloadsUpTo;
    PacketRoundTrip(w, p, enableHeight);
    EncodedHasPayloads(w, p);
  }
}
