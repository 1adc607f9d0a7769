/**
 * The three-layer state as a value: delta over intermediate over snapshot, with the operations as functions.
 * The `State` class is proved to compute these; what the state promises is proved about them.
 */
module StateSpec {
  import opened Basics
  import opened TrieSpec
  import opened KeyCodec

  datatype CommitRoot = CommitRoot(
    snapshotRoot: H256,
    intermediateDeltaRoot: H256,
    deltaRoot: H256,
    stateRootHash: H256,
    deltaMptKeyPadding: Padding)

  function MakeCommitRoot(K: Keccak, snapshotRoot: H256, intermediateRoot: H256, deltaRoot: H256, padding: Padding)
    : CommitRoot
  {
    CommitRoot(snapshotRoot, intermediateRoot, deltaRoot, K(snapshotRoot + intermediateRoot + deltaRoot), padding)
  }

  datatype KeyValue = KeyValue(key: Bytes, value: Bytes)

  type Snapshot = map<Bytes, Bytes>

  /** The three layers, their stored roots and paddings, and the commit counters. */
  datatype Layers = Layers(
    snapshot: Snapshot,
    intermediate: EntryMap,
    delta: EntryMap,
    snapshotRoot: H256,
    intermediateRoot: H256,
    intermediatePadding: Padding,
    deltaPadding: Padding,
    height: nat,
    epochCount: nat,
    lastRoot: Option<CommitRoot>)

  const DEFAULT_SNAPSHOT_EPOCH_COUNT: nat := 2000

  /** A snapshot as trie entries: every value is live. */
  function LiveEntries(snapshot: Snapshot): EntryMap {
    map k | k in snapshot :: Live(snapshot[k])
  }

  // ---------------------------------------------------------------------------------------------
  // The state invariant
  // ---------------------------------------------------------------------------------------------

  predicate IsDeltaKey(K: Keccak, raw: Bytes, padding: Padding) {
    match FromDeltaKey(raw)
    case Ok(k) => WellFormed(k) && ToDeltaKeyBytes(K, k, padding) == Ok(raw)
    case Err(_) => false
  }

  predicate IsCanonicalKey(raw: Bytes) {
    match FromKeyBytes(raw)
    case Ok(k) => WellFormed(k) && ToKeyBytes(k) == Ok(raw)
    case Err(_) => false
  }

  /** The logical key of a raw delta key; meaningful where `IsDeltaKey` holds. */
  function KeyOfDelta(raw: Bytes): SpacedKey {
    match FromDeltaKey(raw)
    case Ok(k) => k
    case Err(_) => SpacedKey(Empty, Native)
  }

  function KeyOfCanonical(raw: Bytes): SpacedKey {
    match FromKeyBytes(raw)
    case Ok(k) => k
    case Err(_) => SpacedKey(Empty, Native)
  }

  ghost predicate DeltaKeys(K: Keccak, keys: set<Bytes>, padding: Padding) {
    forall raw :: raw in keys ==> IsDeltaKey(K, raw, padding)
  }

  ghost predicate CanonicalKeys(keys: set<Bytes>) {
    forall raw :: raw in keys ==> IsCanonicalKey(raw)
  }

  /**
   * Every raw key is the encoding of a well-formed key under its layer's padding, the stored roots are the
   * stateless roots of their layers, and the delta padding is the hash of the two roots below the delta.
   */
  ghost predicate Inv(K: Keccak, s: Layers) {
    && DeltaKeys(K, s.delta.Keys, s.deltaPadding)
    && DeltaKeys(K, s.intermediate.Keys, s.intermediatePadding)
    && CanonicalKeys(s.snapshot.Keys)
    && RootsHold(K, s)
  }

  ghost predicate RootsHold(K: Keccak, s: Layers) {
    && s.snapshotRoot == TrieRoot(K, LiveEntries(s.snapshot))
    && s.intermediateRoot == TrieRoot(K, s.intermediate)
    && s.deltaPadding == PaddingFromRoots(K, s.snapshotRoot, s.intermediateRoot)
    && s.epochCount > 0
  }

  predicate AllRekey(keys: set<Bytes>) {
    forall raw :: raw in keys ==> Rekey(raw).Ok?
  }

  predicate AllDecode(keys: set<Bytes>) {
    forall raw :: raw in keys ==> FromKeyBytes(raw).Ok?
  }

  /**
   * The weaker invariant that writes of any keys keep: every raw key can be re-keyed or decoded, whatever logical
   * key it gives, and roots and padding are as they should be.
   */
  ghost predicate Sound(K: Keccak, s: Layers) {
    && AllRekey(s.delta.Keys)
    && AllRekey(s.intermediate.Keys)
    && AllDecode(s.snapshot.Keys)
    && RootsHold(K, s)
  }

  // ---------------------------------------------------------------------------------------------
  // Reading one key
  // ---------------------------------------------------------------------------------------------

  /** What one delta-encoded layer says about a key: nothing, a value, or a deletion. */
  function InLayer(K: Keccak, m: EntryMap, padding: Padding, k: SpacedKey): Option<MptValue>
    requires WellFormed(k)
  {
    var raw := Delta(K, k, padding);
    if raw in m then Some(m[raw]) else None
  }

  function InSnapshot(snapshot: Snapshot, k: SpacedKey): Option<Bytes>
    requires WellFormed(k)
  {
    if Canonical(k) in snapshot then Some(snapshot[Canonical(k)]) else None
  }

  /** A layer's answer hides the answer from below, also when it is a deletion. */
  function Over(upper: Option<MptValue>, lower: Option<Bytes>): Option<Bytes> {
    match upper
    case Some(v) => v.VisibleValue()
    case None => lower
  }

  /** The value below the delta. */
  function Below(K: Keccak, s: Layers, k: SpacedKey): Option<Bytes>
    requires WellFormed(k)
  {
    Over(InLayer(K, s.intermediate, s.intermediatePadding, k), InSnapshot(s.snapshot, k))
  }

  function View(K: Keccak, s: Layers, k: SpacedKey): Option<Bytes>
    requires WellFormed(k)
  {
    Over(InLayer(K, s.delta, s.deltaPadding, k), Below(K, s, k))
  }

  /** `get`, with its error branches, for any key at all. */
  function Get(K: Keccak, s: Layers, k: SpacedKey): Result<Option<Bytes>> {
    var deltaKey :- ToDeltaKeyBytes(K, k, s.deltaPadding);
    if deltaKey in s.delta then
      Ok(s.delta[deltaKey].VisibleValue())
    else
      var intermediateKey :- ToDeltaKeyBytes(K, k, s.intermediatePadding);
      if intermediateKey in s.intermediate then
        Ok(s.intermediate[intermediateKey].VisibleValue())
      else
        var canonical :- ToKeyBytes(k);
        Ok(if canonical in s.snapshot then Some(s.snapshot[canonical]) else None)
  }

  // ---------------------------------------------------------------------------------------------
  // Writing one key
  // ---------------------------------------------------------------------------------------------

  /** An empty value is a deletion. */
  function Stored(value: Bytes): MptValue {
    if value == [] then Tombstone else Live(value)
  }

  function Set(K: Keccak, s: Layers, k: SpacedKey, value: Bytes): Result<Layers> {
    var raw :- ToDeltaKeyBytes(K, k, s.deltaPadding);
    Ok(s.(delta := s.delta[raw := Stored(value)]))
  }

  // ---------------------------------------------------------------------------------------------
  // Commit and rotation
  // ---------------------------------------------------------------------------------------------

  datatype Update = Update(key: Bytes, value: MptValue)

  /** Re-keying one raw key after the other fails at the first that cannot be. */
  function RekeyAll(keys: seq<Bytes>): Result<()> {
    if keys == [] then
      Ok(())
    else
      var _ :- Rekey(keys[0]);
      RekeyAll(keys[1..])
  }

  lemma {:induction false} RekeyAllOk(keys: seq<Bytes>)
    ensures RekeyAll(keys).Ok? <==> forall i :: 0 <= i < |keys| ==> Rekey(keys[i]).Ok?
  {
    hide Rekey;
    if keys != [] {
      RekeyAllOk(keys[1..]);
      assert keys == [keys[0]] + keys[1..];
    }
  }

  /** The entries of a layer under their canonical keys, in the order of the raw keys. */
  function Rekeyed(m: EntryMap, keys: seq<Bytes>): seq<Update>
    requires forall i :: 0 <= i < |keys| ==> keys[i] in m
  {
    if keys == [] then [] else [Update(CanonicalOf(keys[0]), m[keys[0]])] + Rekeyed(m, keys[1..])
  }

  function ApplyUpdate(snapshot: Snapshot, u: Update): Snapshot {
    match u.value
    case Live(v) => snapshot[u.key := v]
    case Tombstone => snapshot - {u.key}
  }

  function ApplyUpdates(snapshot: Snapshot, updates: seq<Update>): Snapshot
    decreases updates
  {
    if updates == [] then snapshot else ApplyUpdates(ApplyUpdate(snapshot, updates[0]), updates[1..])
  }

  lemma RekeyDefined(K: Keccak, m: EntryMap, padding: Padding)
    requires DeltaKeys(K, m.Keys, padding)
    ensures forall i :: 0 <= i < |SortedKeys(m.Keys)| ==>
      SortedKeys(m.Keys)[i] in m && Rekey(SortedKeys(m.Keys)[i]).Ok?
  {
    forall i | 0 <= i < |SortedKeys(m.Keys)|
      ensures SortedKeys(m.Keys)[i] in m && Rekey(SortedKeys(m.Keys)[i]).Ok?
    {
      var raw := SortedKeys(m.Keys)[i];
      assert raw in SortedKeys(m.Keys);
      RekeyOfDelta(K, raw, padding);
    }
  }

  lemma RekeyOfDelta(K: Keccak, raw: Bytes, padding: Padding)
    requires IsDeltaKey(K, raw, padding)
    ensures WellFormed(KeyOfDelta(raw)) && Delta(K, KeyOfDelta(raw), padding) == raw
    ensures Rekey(raw) == Ok(Canonical(KeyOfDelta(raw)))
  {
    RekeyIsCanonical(K, KeyOfDelta(raw), padding);
  }

  /** The snapshot with the intermediate layer absorbed. */
  function Merged(s: Layers): Snapshot {
    SortedIsInside(s.intermediate.Keys);
    ApplyUpdates(s.snapshot, Rekeyed(s.intermediate, SortedKeys(s.intermediate.Keys)))
  }

  lemma SortedIsInside(keys: set<Bytes>)
    ensures forall i :: 0 <= i < |SortedKeys(keys)| ==> SortedKeys(keys)[i] in keys
  {
    hide SortedKeys, Sorted;
    forall i | 0 <= i < |SortedKeys(keys)|
      ensures SortedKeys(keys)[i] in keys
    {
      assert SortedKeys(keys)[i] in SortedKeys(keys);
    }
  }

  predicate AtBoundary(s: Layers) {
    s.height != 0 && s.epochCount != 0 && s.height % s.epochCount == 0
  }

  /** Re-keying the layer to be merged: the only step of a commit that can fail. */
  function Rotation(s: Layers): Result<()> {
    if AtBoundary(s) then RekeyAll(SortedKeys(s.intermediate.Keys)) else Ok(())
  }

  /**
   * At a period boundary every layer moves down by one; the padding changes with the roots. A rotation that fails
   * has already taken the intermediate layer.
   */
  ghost function Advance(K: Keccak, s: Layers, deltaRoot: H256): Layers {
    if !AtBoundary(s) then
      s
    else if Rotation(s).Err? then
      s.(intermediate := map[])
    else
      var snapshot := Merged(s);
      var snapshotRoot := TrieRoot(K, LiveEntries(snapshot));
      s.(snapshot := snapshot,
         snapshotRoot := snapshotRoot,
         intermediate := s.delta,
         delta := map[],
         intermediateRoot := deltaRoot,
         intermediatePadding := s.deltaPadding,
         deltaPadding := PaddingFromRoots(K, snapshotRoot, deltaRoot))
  }

  ghost function RootToCommit(K: Keccak, s: Layers): CommitRoot {
    MakeCommitRoot(K, s.snapshotRoot, s.intermediateRoot, TrieRoot(K, s.delta), s.deltaPadding)
  }

  /** The root is recorded and the height counted before the rotation is tried. */
  ghost function Counted(K: Keccak, s: Layers): Layers {
    s.(lastRoot := Some(RootToCommit(K, s)), height := s.height + 1)
  }

  ghost function Committed(K: Keccak, s: Layers): Layers {
    Advance(K, Counted(K, s), TrieRoot(K, s.delta))
  }

  ghost function Commit(K: Keccak, s: Layers): Result<CommitRoot> {
    var _ :- Rotation(Counted(K, s));
    Ok(RootToCommit(K, s))
  }

  // ---------------------------------------------------------------------------------------------
  // Reading and deleting by prefix
  // ---------------------------------------------------------------------------------------------

  /** The keys that start with `prefix`, in order. */
  function ScanKeys(keys: set<Bytes>, prefix: Bytes): (r: seq<Bytes>)
    ensures Sorted(r)
    ensures forall k :: k in r <==> k in keys && prefix <= k
  {
    SortedKeys(set k | k in keys && prefix <= k)
  }

  /** Only `AddressPrefix` reads filter on the canonical key: its delta prefix is empty. */
  function AddressFilter(p: SpacedKey): Option<Bytes> {
    match p.key
    case AddressPrefix(prefix) => Some(prefix)
    case _ => None
  }

  predicate Passes(filter: Option<Bytes>, canonical: Bytes) {
    filter.Some? ==> filter.value <= canonical
  }

  /** The list under construction and the canonical keys already decided by a higher layer. */
  datatype Found = Found(result: seq<KeyValue>, seen: set<Bytes>)

  function FoundOne(f: Found, canonical: Bytes, value: Option<Bytes>): Found {
    if canonical in f.seen then
      f
    else
      Found(f.result + (if value.Some? then [KeyValue(canonical, value.value)] else []), f.seen + {canonical})
  }

  function FoundAgain(f: Found, canonical: Bytes, value: Option<Bytes>): Found {
    Found(f.result + (if value.Some? then [KeyValue(canonical, value.value)] else []), f.seen + {canonical})
  }

  function CanonicalOf(raw: Bytes): Bytes {
    match Rekey(raw)
    case Ok(c) => c
    case Err(_) => []
  }

  function ReadLayer(m: EntryMap, keys: seq<Bytes>, filter: Option<Bytes>, f: Found): Found
    requires forall i :: 0 <= i < |keys| ==> keys[i] in m
    decreases keys
  {
    if keys == [] then
      f
    else
      var canonical := CanonicalOf(keys[0]);
      ReadLayer(m, keys[1..], filter,
                if Passes(filter, canonical) then FoundOne(f, canonical, m[keys[0]].VisibleValue()) else f)
  }

  /** The delta's matches: each decides its key, whatever was seen before. */
  function ReadTop(m: EntryMap, keys: seq<Bytes>, filter: Option<Bytes>, f: Found): Found
    requires forall i :: 0 <= i < |keys| ==> keys[i] in m
    decreases keys
  {
    if keys == [] then
      f
    else
      var canonical := CanonicalOf(keys[0]);
      ReadTop(m, keys[1..], filter,
              if Passes(filter, canonical) then FoundAgain(f, canonical, m[keys[0]].VisibleValue()) else f)
  }

  function ReadSnapshot(snapshot: Snapshot, keys: seq<Bytes>, f: Found): Found
    requires forall i :: 0 <= i < |keys| ==> keys[i] in snapshot
    decreases keys
  {
    if keys == [] then f else ReadSnapshot(snapshot, keys[1..], FoundOne(f, keys[0], Some(snapshot[keys[0]])))
  }

  lemma ScanIsInside(keys: set<Bytes>, prefix: Bytes)
    ensures forall i :: 0 <= i < |ScanKeys(keys, prefix)| ==> ScanKeys(keys, prefix)[i] in keys
  {
    forall i | 0 <= i < |ScanKeys(keys, prefix)|
      ensures ScanKeys(keys, prefix)[i] in keys
    {
      assert ScanKeys(keys, prefix)[i] in ScanKeys(keys, prefix);
    }
  }

  /** The list a prefix read returns once the three encoded prefixes are known. */
  function ListFound(s: Layers, canonicalPrefix: Bytes, deltaPrefix: Bytes, intermediatePrefix: Bytes,
                     filter: Option<Bytes>): seq<KeyValue> {
    ScanIsInside(s.delta.Keys, deltaPrefix);
    ScanIsInside(s.intermediate.Keys, intermediatePrefix);
    ScanIsInside(s.snapshot.Keys, canonicalPrefix);
    var d := ReadTop(s.delta, ScanKeys(s.delta.Keys, deltaPrefix), filter, Found([], {}));
    var i := ReadLayer(s.intermediate, ScanKeys(s.intermediate.Keys, intermediatePrefix), filter, d);
    ReadSnapshot(s.snapshot, ScanKeys(s.snapshot.Keys, canonicalPrefix), i).result
  }

  /** What a pass found, or the error of the keys it went through. */
  function Checked(keys: Result<()>, f: Found): Result<Found> {
    var _ :- keys;
    Ok(f)
  }

  function ReadPrefix(K: Keccak, s: Layers, p: SpacedKey): Result<seq<KeyValue>> {
    var canonicalPrefix :- ToKeyBytes(p);
    var deltaPrefix :- ToDeltaKeyBytes(K, p, s.deltaPadding);
    var intermediatePrefix :- ToDeltaKeyBytes(K, p, s.intermediatePadding);
    var _ :- RekeyAll(ScanKeys(s.delta.Keys, deltaPrefix));
    var _ :- RekeyAll(ScanKeys(s.intermediate.Keys, intermediatePrefix));
    Ok(ListFound(s, canonicalPrefix, deltaPrefix, intermediatePrefix, AddressFilter(p)))
  }

  /** Tombstones for the live intermediate entries under a prefix. */
  function HideIntermediate(K: Keccak, m: EntryMap, keys: seq<Bytes>, filter: Option<Bytes>, padding: Padding,
                            delta: EntryMap): EntryMap
    requires forall i :: 0 <= i < |keys| ==> keys[i] in m
    decreases keys
  {
    if keys == [] then
      delta
    else
      HideIntermediate(K, m, keys[1..], filter, padding,
        if Passes(filter, CanonicalOf(keys[0])) && m[keys[0]].VisibleValue().Some?
        then HideKey(K, KeyOfDelta(keys[0]), padding, delta) else delta)
  }

  function HideKey(K: Keccak, k: SpacedKey, padding: Padding, delta: EntryMap): EntryMap {
    match ToDeltaKeyBytes(K, k, padding)
    case Ok(raw) => delta[raw := Tombstone]
    case Err(_) => delta
  }

  /** Tombstones for the snapshot entries under a prefix. */
  function HideSnapshot(K: Keccak, keys: seq<Bytes>, padding: Padding, delta: EntryMap): EntryMap
    decreases keys
  {
    if keys == [] then
      delta
    else
      HideSnapshot(K, keys[1..], padding, HideKey(K, KeyOfCanonical(keys[0]), padding, delta))
  }

  /** Decoding one canonical key after the other fails at the first that cannot be. */
  function DecodeAll(keys: seq<Bytes>): Result<()> {
    if keys == [] then
      Ok(())
    else
      var _ :- FromKeyBytes(keys[0]);
      DecodeAll(keys[1..])
  }

  lemma {:induction false} DecodeAllOk(keys: seq<Bytes>)
    ensures DecodeAll(keys).Ok? <==> forall i :: 0 <= i < |keys| ==> FromKeyBytes(keys[i]).Ok?
  {
    hide FromKeyBytes;
    if keys != [] {
      DecodeAllOk(keys[1..]);
      assert keys == [keys[0]] + keys[1..];
    }
  }

  /** The raw keys in front of the first that cannot be re-keyed. */
  function Rekeyable(keys: seq<Bytes>): (front: seq<Bytes>)
    ensures front <= keys
  {
    if keys == [] || Rekey(keys[0]).Err? then [] else [keys[0]] + Rekeyable(keys[1..])
  }

  /** The canonical keys in front of the first that cannot be decoded. */
  function Decodable(keys: seq<Bytes>): (front: seq<Bytes>)
    ensures front <= keys
  {
    if keys == [] || FromKeyBytes(keys[0]).Err? then [] else [keys[0]] + Decodable(keys[1..])
  }

  /** The delta after a prefix deletion: its own matches dropped, tombstones over the matches below. */
  function DeltaAfterDelete(K: Keccak, s: Layers, canonicalPrefix: Bytes, deltaPrefix: Bytes, intermediatePrefix: Bytes,
                            filter: Option<Bytes>): EntryMap {
    ScanIsInside(s.intermediate.Keys, intermediatePrefix);
    var dropped := s.delta - (set k | k in s.delta && deltaPrefix <= k);
    var hidden := HideIntermediate(K, s.intermediate, ScanKeys(s.intermediate.Keys, intermediatePrefix), filter,
                                   s.deltaPadding, dropped);
    HideSnapshot(K, ScanKeys(s.snapshot.Keys, canonicalPrefix), s.deltaPadding, hidden)
  }

  datatype Deleted = Deleted(list: seq<KeyValue>, after: Layers)

  function DeletePrefix(K: Keccak, s: Layers, p: SpacedKey): Result<Deleted> {
    var canonicalPrefix :- ToKeyBytes(p);
    var deltaPrefix :- ToDeltaKeyBytes(K, p, s.deltaPadding);
    var intermediatePrefix :- ToDeltaKeyBytes(K, p, s.intermediatePadding);
    var _ :- RekeyAll(ScanKeys(s.delta.Keys, deltaPrefix));
    var _ :- RekeyAll(ScanKeys(s.intermediate.Keys, intermediatePrefix));
    var _ :- DecodeAll(ScanKeys(s.snapshot.Keys, canonicalPrefix));
    var filter := AddressFilter(p);
    Ok(Deleted(ListFound(s, canonicalPrefix, deltaPrefix, intermediatePrefix, filter),
               s.(delta := DeltaAfterDelete(K, s, canonicalPrefix, deltaPrefix, intermediatePrefix, filter))))
  }

  /** What a failed deletion leaves: the matches dropped from the delta, and tombstones up to the key that failed. */
  function AfterFailedDelete(K: Keccak, s: Layers, p: SpacedKey): Layers {
    match (ToKeyBytes(p), ToDeltaKeyBytes(K, p, s.deltaPadding), ToDeltaKeyBytes(K, p, s.intermediatePadding))
    case (Ok(canonicalPrefix), Ok(deltaPrefix), Ok(intermediatePrefix)) =>
      var dropped := s.delta - (set k | k in s.delta && deltaPrefix <= k);
      var ik := ScanKeys(s.intermediate.Keys, intermediatePrefix);
      ScanIsInside(s.intermediate.Keys, intermediatePrefix);
      var hidden := HideIntermediate(K, s.intermediate, Rekeyable(ik), AddressFilter(p), s.deltaPadding, dropped);
      if RekeyAll(ScanKeys(s.delta.Keys, deltaPrefix)).Err? then
        s.(delta := dropped)
      else if RekeyAll(ik).Err? then
        s.(delta := hidden)
      else
        s.(delta := HideSnapshot(K, Decodable(ScanKeys(s.snapshot.Keys, canonicalPrefix)), s.deltaPadding, hidden))
    case _ => s
  }

  // ---------------------------------------------------------------------------------------------
  // Writing below the delta
  // ---------------------------------------------------------------------------------------------

  /** A raw entry put into the intermediate layer; the delta padding follows the new root, the delta's keys do not. */
  ghost function PutRaw(K: Keccak, s: Layers, raw: Bytes, value: MptValue): Layers {
    var m := s.intermediate[raw := value];
    s.(intermediate := m, intermediateRoot := TrieRoot(K, m),
       deltaPadding := PaddingFromRoots(K, s.snapshotRoot, TrieRoot(K, m)))
  }

  // ---------------------------------------------------------------------------------------------
  // Starting states and checkpoints
  // ---------------------------------------------------------------------------------------------

  ghost function FromSnapshot(K: Keccak, snapshot: Snapshot, epochCount: nat): Layers {
    var root := TrieRoot(K, LiveEntries(snapshot));
    Layers(snapshot, map[], map[], root, NullNode(K), GenesisPadding(K), PaddingFromRoots(K, root, NullNode(K)),
           0, epochCount, None)
  }

  /** What a checkpoint keeps: no roots of layers, no caches. */
  datatype PersistedState = PersistedState(
    snapshot: Snapshot,
    intermediate: EntryMap,
    delta: EntryMap,
    intermediatePadding: Padding,
    deltaPadding: Padding,
    height: nat,
    epochCount: nat,
    lastRoot: Option<CommitRoot>)

  function Persist(s: Layers): PersistedState {
    PersistedState(s.snapshot, s.intermediate, s.delta, s.intermediatePadding, s.deltaPadding, s.height, s.epochCount,
                   s.lastRoot)
  }

  ghost function Restore(K: Keccak, p: PersistedState): Layers {
    Layers(p.snapshot, p.intermediate, p.delta, TrieRoot(K, LiveEntries(p.snapshot)), TrieRoot(K, p.intermediate),
           p.intermediatePadding, p.deltaPadding, p.height,
           if p.epochCount == 0 then DEFAULT_SNAPSHOT_EPOCH_COUNT else p.epochCount, p.lastRoot)
  }
}
