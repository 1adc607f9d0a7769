/** One block record: a fixed front of 45 bytes and variable-length fields after it. */
module BlockRecord {
  import opened Basics
  import opened Codec
  import opened WideCodec
  import opened PacketModel

  const FRONT_LEN: nat := 45
  const FLAGS_AT: nat := 44

  // ---------------------------------------------------------------------------------------------
  // Encoding
  // ---------------------------------------------------------------------------------------------

  /** Hash, the first four bytes of each deferred root, and the flags. */
  function Front(b: Block, flags: Byte): (r: Bytes)
    ensures |r| == FRONT_LEN
  {
    b.hash + b.deferredStateRoot[..4] + b.deferredReceiptsRoot[..4] + b.deferredLogsBloomHash[..4] + [flags]
  }

  /** The values behind the front, as they are written: table indices and offsets from the header's minima. */
  datatype Fields = Fields(
    author: nat,
    timestamp: nat,
    difficulty: nat,
    height: nat,
    txOffset: nat,
    posView: Option<nat>)

  function FieldsOf(b: Block, txOffset: nat, h: Header, t: Tables): Result<Fields> {
    var author :- Required(IndexOf(t.addresses, b.author));
    var timestamp :- CheckedSub(b.timestamp, h.minTimestamp);
    var difficulty :- Required(IndexOf(t.difficulties, b.difficulty));
    var height :- CheckedSub(b.height, h.minHeight);
    var posView := match b.posView case Some(v) => Some(SaturatingSub(v, h.minPosHeight)) case None => None;
    Ok(Fields(author, timestamp, difficulty, height, txOffset, posView))
  }

  function PosViewBytes(posView: Option<nat>): Bytes {
    match posView
    case Some(v) => Uleb(v)
    case None => []
  }

  function FieldBytes(b: Block, f: Fields): Result<Bytes> {
    var gasLimit :- PutGasLimit(b.gasLimit);
    var core :- PutBasePrice(b.basePriceCore, false);
    var espace :- PutBasePrice(b.basePriceEspace, true);
    var reward :- PutQc8(b.baseReward);
    Ok(Uleb(f.author) + (Uleb(f.timestamp) + (Uleb(f.difficulty) + (gasLimit + (core + (espace +
       (Uleb(f.height) + (Uleb(b.blame) + (Uleb(b.finalizedEpoch) + (Uleb(f.txOffset) + (reward +
       PosViewBytes(f.posView))))))))))))
  }

  function EncodeBlockRecord(b: Block, flags: Byte, txOffset: nat, h: Header, t: Tables): (r: Result<Bytes>)
    ensures r.Ok? ==> |r.value| >= FRONT_LEN && r.value[..FRONT_LEN] == Front(b, flags)
  {
    var f :- FieldsOf(b, txOffset, h, t);
    var fields :- FieldBytes(b, f);
    Ok(Front(b, flags) + fields)
  }

  // ---------------------------------------------------------------------------------------------
  // Decoding
  // ---------------------------------------------------------------------------------------------

  /** Four bytes of a root and 28 zeros. */
  function RootPrefix(prefix: Bytes): H256
    requires |prefix| == 4
  {
    prefix + Zeros(28)
  }

  function Added(min: nat, offset: nat): nat {
    (min + offset) % U64
  }

  function DecodeBlockRecord(record: Bytes, index: nat, h: Header, enableHeight: nat, t: Tables): Result<Block> {
    if |record| < FRONT_LEN then
      Err(OutOfBounds)
    else
      var author :- ReadUleb(record, FRONT_LEN);
      var address :- TableGet(t.addresses, author.value);
      var timestamp :- ReadUleb(record, author.next);
      var difficulty :- ReadUleb(record, timestamp.next);
      var difficultyValue :- TableGet(t.difficulties, difficulty.value);
      var gasLimit :- ReadQc5e(record, difficulty.next);
      var core :- ReadQc5e(record, gasLimit.next);
      var espace :- ReadQc5e(record, core.next);
      var heightOffset :- ReadUleb(record, espace.next);
      var blame :- ReadUleb(record, heightOffset.next);
      var finalizedEpoch :- ReadUleb(record, blame.next);
      var txOffset :- ReadUleb(record, finalizedEpoch.next);
      var baseReward :- ReadQc8(record, txOffset.next);
      var height := Added(h.minHeight, heightOffset.value);
      var posView :- ReadPosView(record, baseReward.next, height >= enableHeight, h.minPosHeight);
      Ok(Block(0, index, record[..32], RootPrefix(record[32..36]), RootPrefix(record[36..40]),
               RootPrefix(record[40..44]), record[FLAGS_AT], address, Added(h.minTimestamp, timestamp.value),
               difficultyValue, GasLimit(gasLimit.value), BasePrice(core.value, false), BasePrice(espace.value, true),
               height, blame.value, finalizedEpoch.value, baseReward.value, [], [], [], [], posView))
  }

  function ReadPosView(record: Bytes, offset: nat, enabled: bool, minPosHeight: nat): Result<Option<nat>> {
    if enabled then
      var view :- ReadUleb(record, offset);
      Ok(Some(Added(minPosHeight, view.value)))
    else
      Ok(None)
  }

  function SkipUleb(record: Bytes, offset: nat, count: nat): Result<nat>
    decreases count
  {
    if count == 0 then
      Ok(offset)
    else
      var r :- ReadUleb(record, offset);
      SkipUleb(record, r.next, count - 1)
  }

  function SkipQc5e(record: Bytes, offset: nat, count: nat): Result<nat>
    decreases count
  {
    if count == 0 then
      Ok(offset)
    else
      var r :- ReadQc5e(record, offset);
      SkipQc5e(record, r.next, count - 1)
  }

  /** The transaction offset, found by skipping what stands before it. */
  function TxOffsetUnits(record: Bytes): Result<nat> {
    var a :- SkipUleb(record, FRONT_LEN, 3);
    var b :- SkipQc5e(record, a, 3);
    var c :- SkipUleb(record, b, 3);
    var r :- ReadUleb(record, c);
    Ok(r.value)
  }

  method PeekTxOffsetUnits(record: Bytes) returns (r: Result<nat>)
    ensures r == TxOffsetUnits(record)
  {
    hide ReadUleb, ReadQc5e;
    var offset := FRONT_LEN;
    for i := 0 to 3
      invariant SkipUleb(record, offset, 3 - i) == SkipUleb(record, FRONT_LEN, 3)
    {
      var skipped :- ReadUleb(record, offset);
      offset := skipped.next;
    }
    ghost var a := offset;
    for i := 0 to 3
      invariant SkipQc5e(record, offset, 3 - i) == SkipQc5e(record, a, 3)
    {
      var skipped :- ReadQc5e(record, offset);
      offset := skipped.next;
    }
    ghost var b := offset;
    for i := 0 to 3
      invariant SkipUleb(record, offset, 3 - i) == SkipUleb(record, b, 3)
    {
      var skipped :- ReadUleb(record, offset);
      offset := skipped.next;
    }
    var units :- ReadUleb(record, offset);
    return Ok(units.value);
  }

  // ---------------------------------------------------------------------------------------------
  // Round trip
  // ---------------------------------------------------------------------------------------------

  /** What a record keeps of a block: everything but the epoch, the transactions and the tails of the roots. */
  function Recorded(b: Block, flags: Byte, index: nat): Block {
    b.(epoch := 0, index := index, flags := flags,
       deferredStateRoot := RootPrefix(b.deferredStateRoot[..4]),
       deferredReceiptsRoot := RootPrefix(b.deferredReceiptsRoot[..4]),
       deferredLogsBloomHash := RootPrefix(b.deferredLogsBloomHash[..4]),
       transactions := [], transactionRefs := [], posRewards := [], unlockEvents := [])
  }

  /** A view is stored exactly from the enable height on, and not below the header's minimum. */
  predicate PosViewMatches(b: Block, h: Header, enableHeight: nat) {
    && (b.posView.Some? <==> b.height >= enableHeight)
    && (b.posView.Some? ==> b.posView.value >= h.minPosHeight)
  }

  /** A value as it is written in `part`, and read back from `offset` with `part` passed. */
  predicate ReadsUleb(data: Bytes, offset: nat, value: nat) {
    ReadUleb(data, offset) == Ok(Read(value, offset + |Uleb(value)|))
  }

  lemma NextUleb(data: Bytes, offset: nat, value: nat, rest: Bytes)
    requires IsU64(value) && StandsAt(data, offset, Uleb(value) + rest)
    ensures ReadsUleb(data, offset, value) && StandsAt(data, offset + |Uleb(value)|, rest)
  {
    StandsInParts(data, offset, Uleb(value), rest);
    UlebRoundTrip(data, offset, value);
  }

  predicate ReadsGasLimit(data: Bytes, offset: nat, value: nat, part: Bytes) {
    var r := ReadQc5e(data, offset);
    r.Ok? && GasLimit(r.value.value) == value && r.value.next == offset + |part|
  }

  predicate ReadsBasePrice(data: Bytes, offset: nat, value: nat, espace: bool, part: Bytes) {
    var r := ReadQc5e(data, offset);
    r.Ok? && BasePrice(r.value.value, espace) == value && r.value.next == offset + |part|
  }

  lemma NextGasLimit(data: Bytes, offset: nat, value: nat, part: Bytes, rest: Bytes)
    requires IsU256(value) && PutGasLimit(value) == Ok(part) && StandsAt(data, offset, part + rest)
    ensures ReadsGasLimit(data, offset, value, part) && StandsAt(data, offset + |part|, rest)
  {
    StandsInParts(data, offset, part, rest);
    GasLimitRoundTrip(value, data, offset);
  }

  lemma NextBasePrice(data: Bytes, offset: nat, value: nat, espace: bool, part: Bytes, rest: Bytes)
    requires IsU256(value) && PutBasePrice(value, espace) == Ok(part) && StandsAt(data, offset, part + rest)
    ensures ReadsBasePrice(data, offset, value, espace, part) && StandsAt(data, offset + |part|, rest)
  {
    StandsInParts(data, offset, part, rest);
    BasePriceRoundTrip(value, espace, data, offset);
  }

  lemma NextQc8(data: Bytes, offset: nat, value: nat, part: Bytes, rest: Bytes)
    requires IsU256(value) && PutQc8(value) == Ok(part) && StandsAt(data, offset, part + rest)
    ensures ReadQc8(data, offset) == Ok(Read(value, offset + |part|)) && StandsAt(data, offset + |part|, rest)
  {
    hide PutQc8, ReadQc8, Pow256, Pow2, StandsAt;
    StandsInParts(data, offset, part, rest);
    Qc8RoundTrip(value, data, offset);
  }

  /** The fields behind the front read back as the values written, for the whole block and for the peek. */
  lemma FieldsReadBack(b: Block, f: Fields, txOffset: nat, index: nat, h: Header, enableHeight: nat, t: Tables,
                       record: Bytes)
    requires |record| >= FRONT_LEN && BlockFits(b) && HeaderFits(h) && TablesFit(t) && IsU64(txOffset)
    requires FieldsOf(b, txOffset, h, t) == Ok(f) && PosViewMatches(b, h, enableHeight)
    requires FieldBytes(b, f).Ok? && StandsAt(record, FRONT_LEN, FieldBytes(b, f).value)
    ensures TxOffsetUnits(record) == Ok(txOffset)
    ensures DecodeBlockRecord(record, index, h, enableHeight, t) == Ok(b.(
        epoch := 0, index := index, flags := record[FLAGS_AT], hash := record[..32],
        deferredStateRoot := RootPrefix(record[32..36]),
        deferredReceiptsRoot := RootPrefix(record[36..40]),
        deferredLogsBloomHash := RootPrefix(record[40..44]),
        transactions := [], transactionRefs := [], posRewards := [], unlockEvents := []))
  {
    hide StandsAt, Uleb, ReadUleb, ReadQc5e, ReadQc8, PutGasLimit, PutBasePrice, PutQc8, GasLimit, BasePrice, Pow256,
      SkipUleb, SkipQc5e, RootPrefix, IndexOf;
    var gasLimit, core, espace := PutGasLimit(b.gasLimit).value, PutBasePrice(b.basePriceCore, false).value,
                                  PutBasePrice(b.basePriceEspace, true).value;
    var reward, view := PutQc8(b.baseReward).value, PosViewBytes(f.posView);
    var rest := Uleb(f.height) + (Uleb(b.blame) + (Uleb(b.finalizedEpoch) + (Uleb(txOffset) + (reward + view))));
    LeadingFieldsReadBack(b, f, gasLimit, core, espace, record, FRONT_LEN, rest);
    var at := FRONT_LEN + |Uleb(f.author)| + |Uleb(f.timestamp)| + |Uleb(f.difficulty)|
              + |gasLimit| + |core| + |espace|;
    TrailingFieldsReadBack(b, f, txOffset, reward, view, record, at);
    var viewAt := at + |Uleb(f.height)| + |Uleb(b.blame)| + |Uleb(b.finalizedEpoch)| + |Uleb(txOffset)| + |reward|;
    PosViewReadsBack(record, viewAt, b, h, enableHeight);
  }

  lemma LeadingFieldsReadBack(b: Block, f: Fields, gasLimit: Bytes, core: Bytes, espace: Bytes,
                              record: Bytes, at: nat, rest: Bytes)
    requires IsU64(f.author) && IsU64(f.timestamp) && IsU64(f.difficulty) && BlockFits(b)
    requires PutGasLimit(b.gasLimit) == Ok(gasLimit)
    requires PutBasePrice(b.basePriceCore, false) == Ok(core) && PutBasePrice(b.basePriceEspace, true) == Ok(espace)
    requires StandsAt(record, at, Uleb(f.author) + (Uleb(f.timestamp) + (Uleb(f.difficulty) +
                                    (gasLimit + (core + (espace + rest))))))
    ensures var a := at + |Uleb(f.author)|; var t := a + |Uleb(f.timestamp)|; var d := t + |Uleb(f.difficulty)|;
      && ReadsUleb(record, at, f.author) && ReadsUleb(record, a, f.timestamp) && ReadsUleb(record, t, f.difficulty)
      && ReadsGasLimit(record, d, b.gasLimit, gasLimit)
      && ReadsBasePrice(record, d + |gasLimit|, b.basePriceCore, false, core)
      && ReadsBasePrice(record, d + |gasLimit| + |core|, b.basePriceEspace, true, espace)
      && SkipUleb(record, at, 3) == Ok(d)
      && SkipQc5e(record, d, 3) == Ok(d + |gasLimit| + |core| + |espace|)
      && StandsAt(record, d + |gasLimit| + |core| + |espace|, rest)
  {
    hide StandsAt, Uleb, ReadUleb, ReadQc5e, PutGasLimit, PutBasePrice, GasLimit, BasePrice, Pow256;
    var a := at + |Uleb(f.author)|;
    var t := a + |Uleb(f.timestamp)|;
    var d := t + |Uleb(f.difficulty)|;
    var c := d + |gasLimit|;
    var e := c + |core|;
    NextUleb(record, at, f.author, Uleb(f.timestamp) + (Uleb(f.difficulty) + (gasLimit + (core + (espace + rest)))));
    NextUleb(record, a, f.timestamp, Uleb(f.difficulty) + (gasLimit + (core + (espace + rest))));
    NextUleb(record, t, f.difficulty, gasLimit + (core + (espace + rest)));
    NextGasLimit(record, d, b.gasLimit, gasLimit, core + (espace + rest));
    NextBasePrice(record, c, b.basePriceCore, false, core, espace + rest);
    NextBasePrice(record, e, b.basePriceEspace, true, espace, rest);
    SkipsReach(record, at, a, t, d);
    assert SkipQc5e(record, d, 3) == SkipQc5e(record, c, 2) == SkipQc5e(record, e, 1);
  }

  lemma TrailingFieldsReadBack(b: Block, f: Fields, txOffset: nat, reward: Bytes, view: Bytes, record: Bytes, at: nat)
    requires IsU64(f.height) && IsU64(txOffset) && BlockFits(b) && PutQc8(b.baseReward) == Ok(reward)
    requires StandsAt(record, at, Uleb(f.height) + (Uleb(b.blame) + (Uleb(b.finalizedEpoch) +
                                    (Uleb(txOffset) + (reward + view)))))
    ensures var h := at + |Uleb(f.height)|; var l := h + |Uleb(b.blame)|; var e := l + |Uleb(b.finalizedEpoch)|;
      && ReadsUleb(record, at, f.height) && ReadsUleb(record, h, b.blame) && ReadsUleb(record, l, b.finalizedEpoch)
      && ReadsUleb(record, e, txOffset) && SkipUleb(record, at, 3) == Ok(e)
      && ReadQc8(record, e + |Uleb(txOffset)|) == Ok(Read(b.baseReward, e + |Uleb(txOffset)| + |reward|))
      && StandsAt(record, e + |Uleb(txOffset)| + |reward|, view)
  {
    hide StandsAt, Uleb, ReadUleb, ReadQc8, PutQc8, Pow256;
    var h := at + |Uleb(f.height)|;
    var l := h + |Uleb(b.blame)|;
    var e := l + |Uleb(b.finalizedEpoch)|;
    NextUleb(record, at, f.height, Uleb(b.blame) + (Uleb(b.finalizedEpoch) + (Uleb(txOffset) + (reward + view))));
    NextUleb(record, h, b.blame, Uleb(b.finalizedEpoch) + (Uleb(txOffset) + (reward + view)));
    NextUleb(record, l, b.finalizedEpoch, Uleb(txOffset) + (reward + view));
    NextUleb(record, e, txOffset, reward + view);
    NextQc8(record, e + |Uleb(txOffset)|, b.baseReward, reward, view);
    SkipsReach(record, at, h, l, e);
  }

  lemma SkipsReach(record: Bytes, a: nat, b: nat, c: nat, d: nat)
    requires ReadUleb(record, a).Ok? && ReadUleb(record, a).value.next == b
    requires ReadUleb(record, b).Ok? && ReadUleb(record, b).value.next == c
    requires ReadUleb(record, c).Ok? && ReadUleb(record, c).value.next == d
    ensures SkipUleb(record, a, 3) == Ok(d)
  {
    hide ReadUleb;
    assert SkipUleb(record, a, 3) == SkipUleb(record, b, 2) == SkipUleb(record, c, 1) == SkipUleb(record, d, 0);
  }

  lemma PosViewReadsBack(record: Bytes, offset: nat, b: Block, h: Header, enableHeight: nat)
    requires BlockFits(b) && HeaderFits(h) && PosViewMatches(b, h, enableHeight)
    requires b.posView.Some? ==> StandsAt(record, offset, Uleb(SaturatingSub(b.posView.value, h.minPosHeight)))
    ensures ReadPosView(record, offset, b.height >= enableHeight, h.minPosHeight) == Ok(b.posView)
  {
    hide StandsAt, Uleb, ReadUleb, Pow256;
    if b.posView.Some? {
      UlebRoundTrip(record, offset, b.posView.value - h.minPosHeight);
    }
  }

  /** A record decodes to everything it keeps of its block, whatever follows it, and shows its offset to the peek. */
  lemma RecordRoundTrip(b: Block, flags: Byte, txOffset: nat, index: nat, h: Header, enableHeight: nat, t: Tables,
                        record: Bytes)
    requires BlockFits(b) && HeaderFits(h) && TablesFit(t) && IsU64(txOffset) && PosViewMatches(b, h, enableHeight)
    requires EncodeBlockRecord(b, flags, txOffset, h, t).Ok?
    requires StandsAt(record, 0, EncodeBlockRecord(b, flags, txOffset, h, t).value)
    ensures TxOffsetUnits(record) == Ok(txOffset)
    ensures DecodeBlockRecord(record, index, h, enableHeight, t) == Ok(Recorded(b, flags, index))
  {
    hide FieldBytes, TxOffsetUnits, DecodeBlockRecord, RootPrefix, BlockFits, HeaderFits, TablesFit, PosViewMatches;
    var f := FieldsOf(b, txOffset, h, t).value;
    var front, fields := Front(b, flags), FieldBytes(b, f).value;
    StandsInParts(record, 0, front, fields);
    FieldsReadBack(b, f, txOffset, index, h, enableHeight, t, record);
    assert record[0..FRONT_LEN] == front;
    FrontReadsBack(b, flags, record);
  }

  lemma FrontReadsBack(b: Block, flags: Byte, record: Bytes)
    requires |record| >= FRONT_LEN && record[..FRONT_LEN] == Front(b, flags)
    ensures record[..32] == b.hash && record[FLAGS_AT] == flags
    ensures record[32..36] == b.deferredStateRoot[..4]
    ensures record[36..40] == b.deferredReceiptsRoot[..4]
    ensures record[40..44] == b.deferredLogsBloomHash[..4]
  {
    var front := record[..FRONT_LEN];
    assert record[..32] == front[..32];
    assert record[32..36] == front[32..36];
    assert record[36..40] == front[36..40];
    assert record[40..44] == front[40..44];
    assert record[FLAGS_AT] == front[FLAGS_AT];
  }
}
