/** A block's transaction payload: repeated transactions become references to the place they first appeared. */
module TxPayload {
  import opened Basics
  import opened Bits
  import opened Codec
  import opened PacketModel
  import opened TxItems

  /** The outside codecs: the item list as bytes, the compressor, and the hash a transaction carries. */
  datatype Wire = Wire(
    put: seq<Item> -> Bytes,
    get: Bytes -> Result<seq<Item>>,
    compress: Bytes -> Bytes,
    decompress: Bytes -> Result<Bytes>,
    hash: Tx -> H256)

  /** Lists of items that fit and compressed bytes come back, and such a list is never written as nothing. */
  ghost predicate RoundTrips(w: Wire) {
    && (forall items :: AllFit(items) ==> w.get(w.put(items)) == Ok(items) && w.put(items) != [])
    && (forall bytes :: w.decompress(w.compress(bytes)) == Ok(bytes))
  }

  type Seen = map<H256, Place>

  // ---------------------------------------------------------------------------------------------
  // Encoding
  // ---------------------------------------------------------------------------------------------

  /** A block that came with one reference entry a transaction is written with those. */
  predicate HasRefs(b: Block) {
    |b.transactionRefs| == |b.transactions|
  }

  /** The places known once the first `i` transactions of the block have been written. */
  function SeenAt(w: Wire, b: Block, seen: Seen, i: nat): Seen
    requires i <= |b.transactions|
  {
    if i == 0 then
      seen
    else
      var before := SeenAt(w, b, seen, i - 1);
      var h := w.hash(b.transactions[i - 1]);
      if HasRefs(b) || h in before then before else before[h := (b.index, i - 1)]
  }

  function SeenAfter(w: Wire, b: Block, seen: Seen): Seen {
    SeenAt(w, b, seen, |b.transactions|)
  }

  /** The reference written for transaction `i`, if it is not written out. */
  function RefAt(w: Wire, b: Block, seen: Seen, i: nat): Option<Place>
    requires i < |b.transactions|
  {
    if HasRefs(b) then
      b.transactionRefs[i]
    else
      var h := w.hash(b.transactions[i]);
      var before := SeenAt(w, b, seen, i);
      if h in before then Some(before[h]) else None
  }

  function ItemAt(w: Wire, b: Block, t: Tables, seen: Seen, i: nat): Result<Item>
    requires i < |b.transactions|
  {
    match RefAt(w, b, seen, i)
    case Some(place) => Ok(RefItem(place.0, place.1))
    case None =>
      var body :- AppendTx(b.epoch, b.transactions[i], t);
      Ok(TxItem(body))
  }

  /** The items of the first `i` transactions. */
  function ItemsUpTo(w: Wire, b: Block, t: Tables, seen: Seen, i: nat): (r: Result<seq<Item>>)
    requires i <= |b.transactions|
    ensures r.Ok? ==> |r.value| == i
  {
    if i == 0 then
      Ok([])
    else
      var before :- ItemsUpTo(w, b, t, seen, i - 1);
      var item :- ItemAt(w, b, t, seen, i - 1);
      Ok(before + [item])
  }

  function RewardItems(rewards: seq<PosReward>): (items: seq<Item>)
    ensures |items| == |rewards| && forall i :: 0 <= i < |items| ==> items[i] == RewardItem(rewards[i])
  {
    seq(|rewards|, i requires 0 <= i < |rewards| => RewardItem(rewards[i]))
  }

  function UnlockItems(unlocks: seq<Unlock>): (items: seq<Item>)
    ensures |items| == |unlocks| && forall i :: 0 <= i < |items| ==> items[i] == UnlockItem(unlocks[i])
  {
    seq(|unlocks|, i requires 0 <= i < |unlocks| => UnlockItem(unlocks[i]))
  }

  predicate HasItems(b: Block) {
    b.transactions != [] || b.posRewards != [] || b.unlockEvents != []
  }

  function BlockItems(w: Wire, b: Block, t: Tables, seen: Seen): Result<seq<Item>> {
    var items :- ItemsUpTo(w, b, t, seen, |b.transactions|);
    Ok(items + RewardItems(b.posRewards) + UnlockItems(b.unlockEvents))
  }

  /** The payload before compression; empty for a block with no items. */
  function Payload(w: Wire, b: Block, t: Tables, seen: Seen): Result<Bytes> {
    if !HasItems(b) then
      Ok([])
    else
      var items :- BlockItems(w, b, t, seen);
      Ok(w.put(items))
  }

  method EncodeTxPayload(w: Wire, b: Block, t: Tables, seenTxs: Seen) returns (r: Result<Bytes>, seen: Seen)
    ensures r == Payload(w, b, t, seenTxs)
    ensures r.Ok? ==> seen == SeenAfter(w, b, seenTxs)
  {
    hide AppendTx;
    seen := seenTxs;
    if b.transactions == [] && b.posRewards == [] && b.unlockEvents == [] {
      return Ok([]), seen;
    }
    var stream: seq<Item> := [];
    for i := 0 to |b.transactions|
      invariant seen == SeenAt(w, b, seenTxs, i)
      invariant ItemsUpTo(w, b, t, seenTxs, i) == Ok(stream)
    {
      var tx := b.transactions[i];
      var duplicate: Option<Place> := None;
      if HasRefs(b) {
        duplicate := b.transactionRefs[i];
      } else if w.hash(tx) in seen {
        duplicate := Some(seen[w.hash(tx)]);
      }
      assert duplicate == RefAt(w, b, seenTxs, i);
      if duplicate.Some? {
        stream := stream + [RefItem(duplicate.value.0, duplicate.value.1)];
      } else {
        if !HasRefs(b) {
          seen := seen[w.hash(tx) := (b.index, i)];
        }
        var body := AppendTx(b.epoch, tx, t);
        if body.Err? {
          ItemsStop(w, b, t, seenTxs, i, |b.transactions|);
          return Err(body.error), seen;
        }
        stream := stream + [TxItem(body.value)];
      }
    }
    stream := stream + RewardItems(b.posRewards);
    stream := stream + UnlockItems(b.unlockEvents);
    return Ok(w.put(stream)), seen;
  }

  /** The first transaction that cannot be written decides the result. */
  lemma {:induction false} ItemsStop(w: Wire, b: Block, t: Tables, seen: Seen, i: nat, n: nat)
    requires i < n <= |b.transactions|
    requires ItemsUpTo(w, b, t, seen, i).Ok? && ItemAt(w, b, t, seen, i).Err?
    ensures ItemsUpTo(w, b, t, seen, n) == Err(ItemAt(w, b, t, seen, i).error)
    decreases n
  {
    hide ItemAt;
    if i < n - 1 {
      ItemsStop(w, b, t, seen, i, n - 1);
    }
  }

  lemma {:induction false} ItemsAre(w: Wire, b: Block, t: Tables, seen: Seen, n: nat, i: nat)
    requires i < n <= |b.transactions| && ItemsUpTo(w, b, t, seen, n).Ok?
    ensures ItemAt(w, b, t, seen, i) == Ok(ItemsUpTo(w, b, t, seen, n).value[i])
    decreases n
  {
    hide ItemAt;
    if i < n - 1 {
      ItemsAre(w, b, t, seen, n - 1, i);
    }
  }

  // ---------------------------------------------------------------------------------------------
  // Decoding
  // ---------------------------------------------------------------------------------------------

  datatype Contents = Contents(
    transactions: seq<Tx>,
    refs: seq<Option<Place>>,
    posRewards: seq<PosReward>,
    unlockEvents: seq<Unlock>)

  /** The transaction at an earlier place, if that place exists. */
  function Lookup(previous: seq<seq<Tx>>, block: nat, tx: nat): Result<Tx> {
    var txs :- TableGet(previous, block);
    TableGet(txs, tx)
  }

  function Add(c: Contents, item: Item, epoch: nat, t: Tables, previous: seq<seq<Tx>>): Result<Contents> {
    match item
    case RefItem(block, tx) =>
      var original :- Lookup(previous, block, tx);
      Ok(c.(transactions := c.transactions + [original], refs := c.refs + [Some((block, tx))]))
    case TxItem(body) =>
      var decoded :- DecodeTx(body, epoch, t);
      Ok(c.(transactions := c.transactions + [decoded], refs := c.refs + [None]))
    case RewardItem(reward) => Ok(c.(posRewards := c.posRewards + [reward]))
    case UnlockItem(unlock) => Ok(c.(unlockEvents := c.unlockEvents + [unlock]))
  }

  /** The contents once the first `n` items have been read. */
  function Collected(items: seq<Item>, n: nat, epoch: nat, t: Tables, previous: seq<seq<Tx>>): Result<Contents>
    requires n <= |items|
  {
    if n == 0 then
      Ok(Contents([], [], [], []))
    else
      var c :- Collected(items, n - 1, epoch, t, previous);
      Add(c, items[n - 1], epoch, t, previous)
  }

  lemma {:induction false} CollectionStops(items: seq<Item>, n: nat, m: nat, epoch: nat, t: Tables,
                                           previous: seq<seq<Tx>>)
    requires n <= m <= |items| && Collected(items, n, epoch, t, previous).Err?
    ensures Collected(items, m, epoch, t, previous) == Collected(items, n, epoch, t, previous)
    decreases m
  {
    hide Add;
    if n < m {
      CollectionStops(items, n, m - 1, epoch, t, previous);
    }
  }

  /** The payload standing at a unit offset of the segment, decompressed if the flags say so. */
  function PayloadAt(w: Wire, data: Bytes, segment: nat, units: nat, flags: Byte): Result<Bytes> {
    var absolute := segment + units * 4;
    if absolute >= |data| then
      Err(OutOfBounds)
    else
      var len :- ReadUleb(data, absolute);
      if len.next + len.value > |data| then
        Err(OutOfBounds)
      else
        var payload := data[len.next..len.next + len.value];
        if Bit(flags, TX_COMPRESSED) then w.decompress(payload) else Ok(payload)
  }

  function ContentsAt(w: Wire, data: Bytes, segment: nat, units: nat, flags: Byte, epoch: nat, t: Tables,
                      previous: seq<seq<Tx>>): Result<Contents> {
    var bytes :- PayloadAt(w, data, segment, units, flags);
    var items :- w.get(bytes);
    Collected(items, |items|, epoch, t, previous)
  }

  method DecodeTxPayload(w: Wire, data: Bytes, segment: nat, units: nat, flags: Byte, epoch: nat, t: Tables,
                         previous: seq<seq<Tx>>) returns (r: Result<Contents>)
    ensures r == ContentsAt(w, data, segment, units, flags, epoch, t, previous)
  {
    hide PayloadAt, Lookup, DecodeTx;
    var bytes :- PayloadAt(w, data, segment, units, flags);
    var items :- w.get(bytes);
    var out: seq<Tx> := [];
    var refs: seq<Option<Place>> := [];
    var posRewards: seq<PosReward> := [];
    var unlockEvents: seq<Unlock> := [];
    for i := 0 to |items|
      invariant Collected(items, i, epoch, t, previous) == Ok(Contents(out, refs, posRewards, unlockEvents))
    {
      var next := Add(Contents(out, refs, posRewards, unlockEvents), items[i], epoch, t, previous);
      if next.Err? {
        CollectionStops(items, i + 1, |items|, epoch, t, previous);
        return Err(next.error);
      }
      match items[i] {
        case RefItem(block, tx) =>
          out := out + [Lookup(previous, block, tx).value];
          refs := refs + [Some((block, tx))];
        case TxItem(body) =>
          out := out + [DecodeTx(body, epoch, t).value];
          refs := refs + [None];
        case RewardItem(reward) =>
          posRewards := posRewards + [reward];
        case UnlockItem(unlock) =>
          unlockEvents := unlockEvents + [unlock];
      }
    }
    return Ok(Contents(out, refs, posRewards, unlockEvents));
  }
}
