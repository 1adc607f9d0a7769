/** Back-references: what a payload decodes to, and when every reference finds the transaction it stands for. */
module BackRefs {
  import opened Basics
  import opened PacketModel
  import opened TxItems
  import opened TxPayload

  function StrippedAll(txs: seq<Tx>): (r: seq<Tx>)
    ensures |r| == |txs| && forall i :: 0 <= i < |r| ==> r[i] == Stripped(txs[i])
  {
    seq(|txs|, i requires 0 <= i < |txs| => Stripped(txs[i]))
  }

  /** The references a block is written with. */
  function RefsOf(w: Wire, b: Block, seen: Seen): (r: seq<Option<Place>>)
    ensures |r| == |b.transactions| && forall i :: 0 <= i < |r| ==> r[i] == RefAt(w, b, seen, i)
  {
    seq(|b.transactions|, i requires 0 <= i < |b.transactions| => RefAt(w, b, seen, i))
  }

  // ---------------------------------------------------------------------------------------------
  // One block
  // ---------------------------------------------------------------------------------------------

  /** Transaction `i` is found where its reference points, or survives being written out. */
  predicate ResolvesAt(w: Wire, b: Block, t: Tables, seen: Seen, previous: seq<seq<Tx>>, i: nat)
    requires i < |b.transactions|
  {
    match RefAt(w, b, seen, i)
    case Some(place) => Lookup(previous, place.0, place.1) == Ok(Stripped(b.transactions[i]))
    case None => IsTyped(b.transactions[i]) && Survives(b.transactions[i], t)
  }

  predicate Resolves(w: Wire, b: Block, t: Tables, seen: Seen, previous: seq<seq<Tx>>) {
    forall i :: 0 <= i < |b.transactions| ==> ResolvesAt(w, b, t, seen, previous, i)
  }

  function WithTransactions(w: Wire, b: Block, seen: Seen, n: nat): Contents
    requires n <= |b.transactions|
  {
    Contents(StrippedAll(b.transactions)[..n], RefsOf(w, b, seen)[..n], [], [])
  }

  lemma ItemAdds(w: Wire, b: Block, t: Tables, seen: Seen, previous: seq<seq<Tx>>, i: nat)
    requires IsU64(b.epoch) && TablesFit(t) && OneBaseEach(t) && i < |b.transactions|
    requires ResolvesAt(w, b, t, seen, previous, i) && ItemAt(w, b, t, seen, i).Ok?
    ensures Add(WithTransactions(w, b, seen, i), ItemAt(w, b, t, seen, i).value, b.epoch, t, previous)
         == Ok(WithTransactions(w, b, seen, i + 1))
  {
    hide Lookup, DecodeTx, AppendTx, RefAt, IsTyped, Survives, TablesFit;
    var tx := b.transactions[i];
    if RefAt(w, b, seen, i).None? {
      TxRoundTrip(b.epoch, tx, t);
    }
    var all, refs := StrippedAll(b.transactions), RefsOf(w, b, seen);
    assert all[..i + 1] == all[..i] + [all[i]];
    assert refs[..i + 1] == refs[..i] + [refs[i]];
  }

  lemma {:induction false} TransactionsReadBack(w: Wire, b: Block, t: Tables, seen: Seen, previous: seq<seq<Tx>>,
                                                items: seq<Item>, n: nat)
    requires IsU64(b.epoch) && TablesFit(t) && OneBaseEach(t) && n <= |b.transactions| <= |items|
    requires Resolves(w, b, t, seen, previous) && ItemsUpTo(w, b, t, seen, |b.transactions|).Ok?
    requires items[..|b.transactions|] == ItemsUpTo(w, b, t, seen, |b.transactions|).value
    ensures Collected(items, n, b.epoch, t, previous) == Ok(WithTransactions(w, b, seen, n))
    decreases n
  {
    hide Add, ItemAt, ResolvesAt, ItemsUpTo, TablesFit;
    if n > 0 {
      TransactionsReadBack(w, b, t, seen, previous, items, n - 1);
      ItemsAre(w, b, t, seen, |b.transactions|, n - 1);
      assert items[n - 1] == items[..|b.transactions|][n - 1];
      ItemAdds(w, b, t, seen, previous, n - 1);
    }
  }

  lemma {:induction false} RewardsReadBack(items: seq<Item>, start: nat, rewards: seq<PosReward>, n: nat,
                                           epoch: nat, t: Tables, previous: seq<seq<Tx>>, c: Contents)
    requires start + |rewards| <= |items| && n <= |rewards|
    requires items[start..start + |rewards|] == RewardItems(rewards)
    requires Collected(items, start, epoch, t, previous) == Ok(c) && c.posRewards == []
    ensures Collected(items, start + n, epoch, t, previous) == Ok(c.(posRewards := rewards[..n]))
    decreases n
  {
    hide Lookup, DecodeTx;
    if n > 0 {
      RewardsReadBack(items, start, rewards, n - 1, epoch, t, previous, c);
      assert items[start + n - 1] == items[start..start + |rewards|][n - 1];
      assert rewards[..n] == rewards[..n - 1] + [rewards[n - 1]];
    }
  }

  lemma {:induction false} UnlocksReadBack(items: seq<Item>, start: nat, unlocks: seq<Unlock>, n: nat,
                                           epoch: nat, t: Tables, previous: seq<seq<Tx>>, c: Contents)
    requires start + |unlocks| <= |items| && n <= |unlocks|
    requires items[start..start + |unlocks|] == UnlockItems(unlocks)
    requires Collected(items, start, epoch, t, previous) == Ok(c) && c.unlockEvents == []
    ensures Collected(items, start + n, epoch, t, previous) == Ok(c.(unlockEvents := unlocks[..n]))
    decreases n
  {
    hide Lookup, DecodeTx;
    if n > 0 {
      UnlocksReadBack(items, start, unlocks, n - 1, epoch, t, previous, c);
      assert items[start + n - 1] == items[start..start + |unlocks|][n - 1];
      assert unlocks[..n] == unlocks[..n - 1] + [unlocks[n - 1]];
    }
  }

  function BlockContents(w: Wire, b: Block, seen: Seen): Contents {
    Contents(StrippedAll(b.transactions), RefsOf(w, b, seen), b.posRewards, b.unlockEvents)
  }

  /** When everything resolves, the items give back the block's transactions, references, rewards and unlocks. */
  lemma ContentsReadBack(w: Wire, b: Block, t: Tables, seen: Seen, previous: seq<seq<Tx>>)
    requires IsU64(b.epoch) && TablesFit(t) && OneBaseEach(t)
    requires Resolves(w, b, t, seen, previous) && BlockItems(w, b, t, seen).Ok?
    ensures var items := BlockItems(w, b, t, seen).value;
      Collected(items, |items|, b.epoch, t, previous) == Ok(BlockContents(w, b, seen))
  {
    hide Resolves, ItemsUpTo, Collected, TablesFit;
    var n, r, u := |b.transactions|, |b.posRewards|, |b.unlockEvents|;
    var items := BlockItems(w, b, t, seen).value;
    assert items[..n] == ItemsUpTo(w, b, t, seen, n).value;
    assert items[n..n + r] == RewardItems(b.posRewards);
    assert items[n + r..n + r + u] == UnlockItems(b.unlockEvents);
    TransactionsReadBack(w, b, t, seen, previous, items, n);
    var c := WithTransactions(w, b, seen, n);
    RewardsReadBack(items, n, b.posRewards, r, b.epoch, t, previous, c);
    assert b.posRewards[..r] == b.posRewards && b.unlockEvents[..u] == b.unlockEvents;
    UnlocksReadBack(items, n + r, b.unlockEvents, u, b.epoch, t, previous, c.(posRewards := b.posRewards));
    assert StrippedAll(b.transactions)[..n] == StrippedAll(b.transactions);
    assert RefsOf(w, b, seen)[..n] == RefsOf(w, b, seen);
  }

  // ---------------------------------------------------------------------------------------------
  // A run of blocks
  // ---------------------------------------------------------------------------------------------

  /** The places known when block `k` is written. */
  function SeenBefore(w: Wire, blocks: seq<Block>, k: nat): Seen
    requires k <= |blocks|
  {
    if k == 0 then map[] else SeenAfter(w, blocks[k - 1], SeenBefore(w, blocks, k - 1))
  }

  /** What the decoder holds of the blocks before block `k`. */
  function Previous(blocks: seq<Block>, k: nat): (r: seq<seq<Tx>>)
    requires k <= |blocks|
    ensures |r| == k && forall j :: 0 <= j < k ==> r[j] == StrippedAll(blocks[j].transactions)
  {
    seq(k, j requires 0 <= j < k => StrippedAll(blocks[j].transactions))
  }

  predicate IsSequential(blocks: seq<Block>) {
    forall k :: 0 <= k < |blocks| ==> blocks[k].index == k
  }

  predicate Holds(w: Wire, blocks: seq<Block>, place: Place, h: H256) {
    && place.0 < |blocks|
    && place.1 < |blocks[place.0].transactions|
    && w.hash(blocks[place.0].transactions[place.1]) == h
  }

  lemma {:induction false} SeenInBlock(w: Wire, b: Block, seen: Seen, i: nat, h: H256)
    requires i <= |b.transactions| && h in SeenAt(w, b, seen, i)
    ensures var place := SeenAt(w, b, seen, i)[h];
      || (h in seen && place == seen[h])
      || (h !in seen && place.0 == b.index && place.1 < i && w.hash(b.transactions[place.1]) == h)
    decreases i
  {
    if i > 0 && h in SeenAt(w, b, seen, i - 1) {
      SeenInBlock(w, b, seen, i - 1, h);
    } else if i > 0 {
      SeenStays(w, b, seen, i - 1, h);
    }
  }

  lemma {:induction false} SeenStays(w: Wire, b: Block, seen: Seen, i: nat, h: H256)
    requires i <= |b.transactions|
    ensures h in seen ==> h in SeenAt(w, b, seen, i) && SeenAt(w, b, seen, i)[h] == seen[h]
    ensures !HasRefs(b) ==> forall j :: 0 <= j < i ==> w.hash(b.transactions[j]) in SeenAt(w, b, seen, i)
    decreases i
  {
    if i > 0 {
      SeenStays(w, b, seen, i - 1, h);
    }
  }

  /** Every place known before block `k` lies in an earlier block and holds a transaction with that hash. */
  lemma {:induction false} SeenIsEarlier(w: Wire, blocks: seq<Block>, k: nat, h: H256)
    requires k <= |blocks| && IsSequential(blocks) && h in SeenBefore(w, blocks, k)
    ensures SeenBefore(w, blocks, k)[h].0 < k && Holds(w, blocks, SeenBefore(w, blocks, k)[h], h)
    decreases k
  {
    hide SeenAt;
    if k > 0 {
      var before := SeenBefore(w, blocks, k - 1);
      SeenInBlock(w, blocks[k - 1], before, |blocks[k - 1].transactions|, h);
      if h in before {
        SeenIsEarlier(w, blocks, k - 1, h);
      }
    }
  }

  /** Equal hashes mean equal transactions, up to what is not encoded. */
  predicate HashesIdentify(w: Wire, blocks: seq<Block>) {
    forall i, j :: 0 <= i < |blocks| && 0 <= j < |blocks| ==> HashesTell(w, blocks[i], blocks[j])
  }

  predicate HashesTell(w: Wire, b: Block, c: Block) {
    forall x, y :: 0 <= x < |b.transactions| && 0 <= y < |c.transactions|
                   && w.hash(b.transactions[x]) == w.hash(c.transactions[y]) ==>
      Stripped(b.transactions[x]) == Stripped(c.transactions[y])
  }

  /** References a block came with point to the same transaction in an earlier block. */
  predicate RefsPointBack(blocks: seq<Block>, k: nat)
    requires k < |blocks|
  {
    HasRefs(blocks[k]) ==> forall i :: 0 <= i < |blocks[k].transactions| && blocks[k].transactionRefs[i].Some? ==>
      Lookup(Previous(blocks, k), blocks[k].transactionRefs[i].value.0, blocks[k].transactionRefs[i].value.1)
        == Ok(Stripped(blocks[k].transactions[i]))
  }

  predicate TransactionsSurvive(b: Block, t: Tables) {
    forall x :: x in b.transactions ==> IsTyped(x) && Survives(x, t)
  }

  /** A hash that a block repeats has already appeared in an earlier block. */
  predicate RepeatsAreOld(w: Wire, b: Block, seen: Seen) {
    HasRefs(b) || forall i, j ::
      0 <= i < j < |b.transactions| && w.hash(b.transactions[i]) == w.hash(b.transactions[j]) ==>
      w.hash(b.transactions[j]) in seen
  }

  /** References computed by the encoder resolve to earlier blocks if a repeated hash is old. */
  lemma BlockResolves(w: Wire, blocks: seq<Block>, t: Tables, k: nat)
    requires k < |blocks| && IsSequential(blocks) && HashesIdentify(w, blocks)
    requires RefsPointBack(blocks, k) && TransactionsSurvive(blocks[k], t)
    requires RepeatsAreOld(w, blocks[k], SeenBefore(w, blocks, k))
    ensures Resolves(w, blocks[k], t, SeenBefore(w, blocks, k), Previous(blocks, k))
  {
    hide SeenBefore, SeenAt, IsTyped, Survives, Stripped;
    var b, seen := blocks[k], SeenBefore(w, blocks, k);
    forall i | 0 <= i < |b.transactions|
      ensures ResolvesAt(w, b, t, seen, Previous(blocks, k), i)
    {
      var h := w.hash(b.transactions[i]);
      if !HasRefs(b) && h in SeenAt(w, b, seen, i) {
        SeenInBlock(w, b, seen, i, h);
        SeenIsEarlierIfOld(w, blocks, k, h);
        assert HashesTell(w, blocks[seen[h].0], blocks[k]);
      }
    }
  }

  lemma SeenIsEarlierIfOld(w: Wire, blocks: seq<Block>, k: nat, h: H256)
    requires k <= |blocks| && IsSequential(blocks)
    ensures h in SeenBefore(w, blocks, k) ==>
              SeenBefore(w, blocks, k)[h].0 < k && Holds(w, blocks, SeenBefore(w, blocks, k)[h], h)
  {
    if h in SeenBefore(w, blocks, k) {
      SeenIsEarlier(w, blocks, k, h);
    }
  }

  /** A hash that appears first in this block and again later in it is written as a reference into the block itself. */
  lemma FreshRepeatRefersToItself(w: Wire, b: Block, seen: Seen)
    requires !RepeatsAreOld(w, b, seen)
    ensures exists j ::
      0 <= j < |b.transactions| && RefAt(w, b, seen, j).Some? && RefAt(w, b, seen, j).value.0 == b.index
  {
    hide SeenAt;
    var i, j :| 0 <= i < j < |b.transactions| && w.hash(b.transactions[i]) == w.hash(b.transactions[j])
                && w.hash(b.transactions[j]) !in seen;
    var h := w.hash(b.transactions[j]);
    SeenStays(w, b, seen, j, h);
    assert h in SeenAt(w, b, seen, j);
    SeenInBlock(w, b, seen, j, h);
    assert RefAt(w, b, seen, j) == Some(SeenAt(w, b, seen, j)[h]);
  }

  /** Such a payload cannot be decoded: the block itself is not among the blocks decoded before it. */
  lemma FreshRepeatFails(w: Wire, b: Block, t: Tables, seen: Seen, previous: seq<seq<Tx>>)
    requires b.index == |previous| && !RepeatsAreOld(w, b, seen) && BlockItems(w, b, t, seen).Ok?
    ensures var items := BlockItems(w, b, t, seen).value;
      Collected(items, |items|, b.epoch, t, previous).Err?
  {
    hide RefAt, RepeatsAreOld, ItemsUpTo, DecodeTx;
    var items := BlockItems(w, b, t, seen).value;
    FreshRepeatRefersToItself(w, b, seen);
    var j :| 0 <= j < |b.transactions| && RefAt(w, b, seen, j).Some? && RefAt(w, b, seen, j).value.0 == b.index;
    ItemsAre(w, b, t, seen, |b.transactions|, j);
    assert items[j] == ItemsUpTo(w, b, t, seen, |b.transactions|).value[j];
    assert Collected(items, j + 1, b.epoch, t, previous).Err?;
    CollectionStops(items, j + 1, |items|, b.epoch, t, previous);
  }

  /** A block's payload decodes to what was written exactly when every hash it repeats is old. */
  lemma BlockDecodesExactlyWhen(w: Wire, blocks: seq<Block>, t: Tables, k: nat)
    requires k < |blocks| && IsSequential(blocks) && HashesIdentify(w, blocks)
    requires IsU64(blocks[k].epoch) && TablesFit(t) && OneBaseEach(t)
    requires RefsPointBack(blocks, k) && TransactionsSurvive(blocks[k], t)
    requires BlockItems(w, blocks[k], t, SeenBefore(w, blocks, k)).Ok?
    ensures var seen := SeenBefore(w, blocks, k); var items := BlockItems(w, blocks[k], t, seen).value;
      && (RepeatsAreOld(w, blocks[k], seen) ==>
            Collected(items, |items|, blocks[k].epoch, t, Previous(blocks, k)) == Ok(BlockContents(w, blocks[k], seen)))
      && (!RepeatsAreOld(w, blocks[k], seen) ==>
            Collected(items, |items|, blocks[k].epoch, t, Previous(blocks, k)).Err?)
  {
    hide SeenBefore, Resolves, RepeatsAreOld, BlockItems, Collected, TablesFit, HashesIdentify, RefsPointBack,
      TransactionsSurvive, BlockContents;
    var seen := SeenBefore(w, blocks, k);
    if RepeatsAreOld(w, blocks[k], seen) {
      BlockResolves(w, blocks, t, k);
      ContentsReadBack(w, blocks[k], t, seen, Previous(blocks, k));
    } else {
      FreshRepeatFails(w, blocks[k], t, seen, Previous(blocks, k));
    }
  }

  // ---------------------------------------------------------------------------------------------
  // The items fit their machine words
  // ---------------------------------------------------------------------------------------------

  predicate ContentsFit(b: Block) {
    && IsU64(|b.transactions|)
    && (forall i :: 0 <= i < |b.transactions| ==> TxFits(b.transactions[i]))
    && (forall i :: 0 <= i < |b.posRewards| ==> RewardFits(b.posRewards[i]))
    && (forall i :: 0 <= i < |b.unlockEvents| ==> IsU64(b.unlockEvents[i].unlocked))
  }

  predicate PlacesFit(blocks: seq<Block>) {
    IsU64(|blocks|) && forall k :: 0 <= k < |blocks| ==> ContentsFit(blocks[k])
  }

  /** A reference names a block and a place in it, whether it was computed or came with the block. */
  lemma RefFits(w: Wire, blocks: seq<Block>, k: nat, i: nat)
    requires k < |blocks| && i < |blocks[k].transactions| && IsSequential(blocks) && PlacesFit(blocks)
    requires RefsPointBack(blocks, k)
    ensures var r := RefAt(w, blocks[k], SeenBefore(w, blocks, k), i);
      r.Some? ==> IsU64(r.value.0) && IsU64(r.value.1)
  {
    hide SeenBefore, SeenAt, TxFits, RewardFits, Stripped;
    var b, seen := blocks[k], SeenBefore(w, blocks, k);
    var r := RefAt(w, b, seen, i);
    if r.Some? {
      if !HasRefs(b) {
        SeenInBlock(w, b, seen, i, w.hash(b.transactions[i]));
        SeenIsEarlierIfOld(w, blocks, k, w.hash(b.transactions[i]));
      }
      assert r.value.0 <= k;
      assert ContentsFit(blocks[r.value.0]);
    }
  }

  lemma ItemsFit(w: Wire, blocks: seq<Block>, t: Tables, k: nat)
    requires k < |blocks| && IsSequential(blocks) && PlacesFit(blocks) && RefsPointBack(blocks, k)
    requires IsU64(blocks[k].epoch) && TablesFit(t) && TransactionsSurvive(blocks[k], t)
    requires BlockItems(w, blocks[k], t, SeenBefore(w, blocks, k)).Ok?
    ensures AllFit(BlockItems(w, blocks[k], t, SeenBefore(w, blocks, k)).value)
  {
    hide SeenBefore, RefAt, RefsPointBack, IsTyped, Survives, TablesFit, TxFits, RewardFits, BodyFits, AppendTx;
    var b, seen := blocks[k], SeenBefore(w, blocks, k);
    var n, r := |b.transactions|, |b.posRewards|;
    var items := BlockItems(w, b, t, seen).value;
    assert ContentsFit(b);
    forall i | 0 <= i < |items|
      ensures ItemFits(items[i])
    {
      if i < n {
        ItemsAre(w, b, t, seen, n, i);
        assert b.transactions[i] in b.transactions;
        RefFits(w, blocks, k, i);
        if RefAt(w, b, seen, i).None? {
          BodyOfTxFits(b.epoch, b.transactions[i], t);
        }
      } else if i < n + r {
        assert items[i] == RewardItem(b.posRewards[i - n]);
      } else {
        assert items[i] == UnlockItem(b.unlockEvents[i - n - r]);
      }
    }
  }
}
