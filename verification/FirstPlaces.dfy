/** References name the first place of a hash: said over the transactions alone, not the table of places. */
module FirstPlaces {
  import opened Basics
  import opened PacketModel
  import opened BlockRecord
  import opened Assembly
  import opened Epochs
  import opened TxItems
  import opened TxPayload
  import opened BackRefs
  import opened TxSegment
  import opened PacketCodec
  import opened PacketLaws

  // ---------------------------------------------------------------------------------------------
  // Places
  // ---------------------------------------------------------------------------------------------

  /** Block order, and transaction order within a block. */
  predicate Precedes(a: Place, b: Place) {
    a.0 < b.0 || (a.0 == b.0 && a.1 < b.1)
  }

  /** A transaction with this hash stands at the place, in a block whose references are not given. */
  predicate Occurs(w: Wire, blocks: seq<Block>, place: Place, h: H256) {
    && place.0 < |blocks| && place.1 < |blocks[place.0].transactions|
    && |blocks[place.0].transactionRefs| != |blocks[place.0].transactions|
    && w.hash(blocks[place.0].transactions[place.1]) == h
  }

  /** `place` is the first of all places with this hash, and it lies before `at`. */
  ghost predicate IsFirst(w: Wire, blocks: seq<Block>, at: Place, h: H256, place: Place) {
    && Precedes(place, at) && Occurs(w, blocks, place, h)
    && forall q: Place :: Precedes(q, place) ==> !Occurs(w, blocks, q, h)
  }

  ghost predicate IsFresh(w: Wire, blocks: seq<Block>, at: Place, h: H256) {
    forall q: Place :: Precedes(q, at) ==> !Occurs(w, blocks, q, h)
  }

  lemma OneFirst(w: Wire, blocks: seq<Block>, at: Place, h: H256, a: Place, b: Place)
    requires IsFirst(w, blocks, at, h, a)
    ensures IsFirst(w, blocks, at, h, b) <==> a == b
    ensures !IsFresh(w, blocks, at, h)
  {
    hide Occurs;
    if a != b {
      assert Precedes(a, b) || Precedes(b, a);
    }
  }

  /** What the table of places says of a hash. */
  ghost predicate IsTold(w: Wire, blocks: seq<Block>, at: Place, h: H256, seen: Seen) {
    if h in seen then IsFirst(w, blocks, at, h, seen[h]) else IsFresh(w, blocks, at, h)
  }

  /** Nothing stands between the end of a block and the start of the next. */
  lemma NextBlock(w: Wire, blocks: seq<Block>, k: nat, h: H256, seen: Seen)
    requires k < |blocks| && IsTold(w, blocks, (k, |blocks[k].transactions|), h, seen)
    ensures IsTold(w, blocks, (k + 1, 0), h, seen)
  {
    forall q: Place | Precedes(q, (k + 1, 0)) && !Precedes(q, (k, |blocks[k].transactions|))
      ensures !Occurs(w, blocks, q, h)
    {
    }
  }

  /** One more transaction written. */
  lemma NextPlace(w: Wire, blocks: seq<Block>, k: nat, i: nat, h: H256, seen: Seen)
    requires k < |blocks| && i < |blocks[k].transactions| && blocks[k].index == k
    requires IsTold(w, blocks, (k, i), h, seen)
    ensures var hash := w.hash(blocks[k].transactions[i]);
      IsTold(w, blocks, (k, i + 1), h,
             if HasRefs(blocks[k]) || hash in seen then seen else seen[hash := (k, i)])
  {
    forall q: Place | Precedes(q, (k, i + 1)) && !Precedes(q, (k, i))
      ensures q == (k, i)
    {
    }
  }

  lemma {:induction false} SeenIsTold(w: Wire, blocks: seq<Block>, k: nat, i: nat, h: H256)
    requires k < |blocks| && IsSequential(blocks) && i <= |blocks[k].transactions|
    ensures IsTold(w, blocks, (k, i), h, SeenAt(w, blocks[k], SeenBefore(w, blocks, k), i))
    decreases k, i + 1
  {
    hide IsTold, SeenBefore;
    if i > 0 {
      SeenIsTold(w, blocks, k, i - 1, h);
      NextPlace(w, blocks, k, i - 1, h, SeenAt(w, blocks[k], SeenBefore(w, blocks, k), i - 1));
    } else {
      BeforeIsTold(w, blocks, k, h);
    }
  }

  lemma {:induction false} BeforeIsTold(w: Wire, blocks: seq<Block>, k: nat, h: H256)
    requires k < |blocks| && IsSequential(blocks)
    ensures IsTold(w, blocks, (k, 0), h, SeenBefore(w, blocks, k))
    decreases k, 0
  {
    hide IsTold, SeenAt;
    if k > 0 {
      var last := |blocks[k - 1].transactions|;
      SeenIsTold(w, blocks, k - 1, last, h);
      NextBlock(w, blocks, k - 1, h, SeenAt(w, blocks[k - 1], SeenBefore(w, blocks, k - 1), last));
    } else {
      NothingTold(w, blocks, h);
    }
  }

  lemma NothingTold(w: Wire, blocks: seq<Block>, h: H256)
    ensures IsTold(w, blocks, (0, 0), h, map[])
  {
  }

  // ---------------------------------------------------------------------------------------------
  // Items
  // ---------------------------------------------------------------------------------------------

  /** A reference to the first place of the hash if there is one before, else the transaction itself. */
  ghost predicate NamesFirst(w: Wire, blocks: seq<Block>, k: nat, i: nat, item: Item)
    requires k < |blocks| && i < |blocks[k].transactions|
  {
    var h := w.hash(blocks[k].transactions[i]);
    && (forall place: Place :: item == RefItem(place.0, place.1) <==> IsFirst(w, blocks, (k, i), h, place))
    && (item.TxItem? <==> IsFresh(w, blocks, (k, i), h))
  }

  ghost predicate AllNameFirst(w: Wire, blocks: seq<Block>, k: nat, items: seq<Item>)
    requires k < |blocks|
  {
    && |items| >= |blocks[k].transactions|
    && forall i :: 0 <= i < |blocks[k].transactions| ==> NamesFirst(w, blocks, k, i, items[i])
  }

  lemma RefIsFirst(w: Wire, blocks: seq<Block>, k: nat, i: nat)
    requires k < |blocks| && i < |blocks[k].transactions| && IsSequential(blocks) && !HasRefs(blocks[k])
    ensures var h := w.hash(blocks[k].transactions[i]); var ref := RefAt(w, blocks[k], SeenBefore(w, blocks, k), i);
      && (forall place: Place :: ref == Some(place) <==> IsFirst(w, blocks, (k, i), h, place))
      && (ref == None <==> IsFresh(w, blocks, (k, i), h))
  {
    hide SeenAt, SeenBefore, IsFirst, IsFresh;
    var h := w.hash(blocks[k].transactions[i]);
    var seen := SeenAt(w, blocks[k], SeenBefore(w, blocks, k), i);
    SeenIsTold(w, blocks, k, i, h);
    forall place: Place
      ensures h in seen ==> (IsFirst(w, blocks, (k, i), h, place) <==> seen[h] == place)
      ensures h !in seen ==> !IsFirst(w, blocks, (k, i), h, place)
    {
      if h in seen {
        OneFirst(w, blocks, (k, i), h, seen[h], place);
      } else {
        FreshHasNoFirst(w, blocks, (k, i), h, place);
      }
    }
    if h in seen {
      OneFirst(w, blocks, (k, i), h, seen[h], seen[h]);
    }
  }

  lemma FreshHasNoFirst(w: Wire, blocks: seq<Block>, at: Place, h: H256, place: Place)
    requires IsFresh(w, blocks, at, h)
    ensures !IsFirst(w, blocks, at, h, place)
  {
  }

  lemma ItemNamesFirst(w: Wire, blocks: seq<Block>, t: Tables, k: nat, i: nat)
    requires k < |blocks| && i < |blocks[k].transactions| && IsSequential(blocks) && !HasRefs(blocks[k])
    requires ItemAt(w, blocks[k], t, SeenBefore(w, blocks, k), i).Ok?
    ensures NamesFirst(w, blocks, k, i, ItemAt(w, blocks[k], t, SeenBefore(w, blocks, k), i).value)
  {
    hide SeenBefore, IsFirst, IsFresh, RefAt, AppendTx;
    RefIsFirst(w, blocks, k, i);
  }

  /** Item `i` of the list is the item of transaction `i`. */
  lemma {:induction false} ItemOfTx(w: Wire, b: Block, t: Tables, seen: Seen, n: nat, i: nat)
    requires i < n <= |b.transactions| && ItemsUpTo(w, b, t, seen, n).Ok?
    ensures ItemAt(w, b, t, seen, i) == Ok(ItemsUpTo(w, b, t, seen, n).value[i])
    decreases n
  {
    hide ItemAt;
    if i < n - 1 {
      ItemOfTx(w, b, t, seen, n - 1, i);
    }
  }

  lemma {:induction false} PayloadAt(w: Wire, p: Packet, n: nat, k: nat)
    requires k < n <= |p.blocks| && PayloadsUpTo(w, p, n).Ok?
    ensures Payload(w, p.blocks[k], p.tables, SeenBefore(w, p.blocks, k)) == Ok(PayloadsUpTo(w, p, n).value[k])
    decreases n
  {
    hide Payload, SeenBefore;
    if k < n - 1 {
      PayloadAt(w, p, n - 1, k);
    }
  }

  /**
   * The payload of a block that comes without references is the list of its items, and item `i` refers to the first
   * place of its hash in all blocks, if that lies before, and is the transaction itself otherwise.
   */
  lemma PayloadNamesFirst(w: Wire, p: Packet, k: nat)
    requires PayloadsUpTo(w, p, |p.blocks|).Ok? && IsSequential(p.blocks) && k < |p.blocks|
    requires p.blocks[k].transactions != [] && p.blocks[k].transactionRefs == []
    ensures exists items ::
      PayloadsUpTo(w, p, |p.blocks|).value[k] == w.put(items) && AllNameFirst(w, p.blocks, k, items)
  {
    hide PayloadsUpTo, SeenBefore, ItemsUpTo, ItemAt, NamesFirst;
    PayloadAt(w, p, |p.blocks|, k);
    var b, seen := p.blocks[k], SeenBefore(w, p.blocks, k);
    var items := BlockItems(w, b, p.tables, seen).value;
    forall i | 0 <= i < |b.transactions|
      ensures NamesFirst(w, p.blocks, k, i, items[i])
    {
      ItemOfTx(w, b, p.tables, seen, |b.transactions|, i);
      ItemNamesFirst(w, p.blocks, p.tables, k, i);
    }
  }

  /** The reference that came with the transaction if there is one, else the transaction itself. */
  predicate IsAsGiven(given: Option<Place>, item: Item) {
    match given
    case Some(place) => item == RefItem(place.0, place.1)
    case None => item.TxItem?
  }

  predicate AllAsGiven(b: Block, items: seq<Item>) {
    && |items| >= |b.transactions| == |b.transactionRefs|
    && forall i :: 0 <= i < |b.transactions| ==> IsAsGiven(b.transactionRefs[i], items[i])
  }

  /** A block that comes with references is written with those. */
  lemma PayloadAsGiven(w: Wire, p: Packet, k: nat)
    requires PayloadsUpTo(w, p, |p.blocks|).Ok? && k < |p.blocks|
    requires p.blocks[k].transactions != [] && |p.blocks[k].transactionRefs| == |p.blocks[k].transactions|
    ensures exists items :: PayloadsUpTo(w, p, |p.blocks|).value[k] == w.put(items) && AllAsGiven(p.blocks[k], items)
  {
    hide PayloadsUpTo, SeenBefore, ItemsUpTo, AppendTx;
    PayloadAt(w, p, |p.blocks|, k);
    var b, seen := p.blocks[k], SeenBefore(w, p.blocks, k);
    var items := BlockItems(w, b, p.tables, seen).value;
    forall i | 0 <= i < |b.transactions|
      ensures IsAsGiven(b.transactionRefs[i], items[i])
    {
      ItemOfTx(w, b, p.tables, seen, |b.transactions|, i);
    }
    assert AllAsGiven(b, items);
  }

  // ---------------------------------------------------------------------------------------------
  // Decoded references
  // ---------------------------------------------------------------------------------------------

  /** So too the references that a decoder gives. */
  lemma DecodedNamesFirst(w: Wire, p: Packet, enableHeight: nat, k: nat, i: nat)
    requires RoundTrips(w) && IsStorable(w, p, enableHeight)
    requires Encoded(w, p).Ok? && IsU64(|Encoded(w, p).value|) && Decoded(w, Encoded(w, p).value, enableHeight).Ok?
    requires k < |p.blocks| && i < |p.blocks[k].transactions| && p.blocks[k].transactionRefs == []
    ensures var q := Decoded(w, Encoded(w, p).value, enableHeight).value; var h := w.hash(p.blocks[k].transactions[i]);
      && |q.blocks| == |p.blocks| && |q.blocks[k].transactionRefs| == |p.blocks[k].transactions|
      && (forall place: Place ::
            q.blocks[k].transactionRefs[i] == Some(place) <==> IsFirst(w, p.blocks, (k, i), h, place))
      && (q.blocks[k].transactionRefs[i] == None <==> IsFresh(w, p.blocks, (k, i), h))
  {
    hide IsStorable, RoundTrips, Decoded, BlocksEncoded, SeenBefore, RefAt, IsFirst, IsFresh, RepeatsAreOldBelow,
      Recorded, WrittenFlags, StrippedAll, Assembled;
    EncodedIsSequential(w, p);
    PacketRoundTrip(w, p, enableHeight);
    RefIsFirst(w, p.blocks, k, i);
  }

  lemma EncodedIsSequential(w: Wire, p: Packet)
    requires Encoded(w, p).Ok?
    ensures IsSequential(p.blocks) && PayloadsUpTo(w, p, |p.blocks|).Ok?
  {
    hide PayloadsUpTo, BlocksEncoded, Assembled, IsValid, BlockDataOf;
    EncodedHasPayloads(w, p);
    ValidIsSequential(p.blocks);
  }
}
