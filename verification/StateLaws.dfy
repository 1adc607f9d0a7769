/** The layered, re-keyed state behaves as one flat map: reads, writes, commits and rotations. */
module StateLaws {
  import opened Basics
  import opened TrieSpec
  import opened KeyCodec
  import opened StateSpec

  // ---------------------------------------------------------------------------------------------
  // The flat map
  // ---------------------------------------------------------------------------------------------

  function StoredKeys(s: Layers): set<SpacedKey> {
    (set raw | raw in s.delta :: KeyOfDelta(raw)) +
    (set raw | raw in s.intermediate :: KeyOfDelta(raw)) +
    (set raw | raw in s.snapshot :: KeyOfCanonical(raw))
  }

  /** The state as one map from logical keys to visible values. */
  function Flat(K: Keccak, s: Layers): map<SpacedKey, Bytes> {
    map k | k in StoredKeys(s) && WellFormed(k) && View(K, s, k).Some? :: View(K, s, k).value
  }

  function Lookup(flat: map<SpacedKey, Bytes>, k: SpacedKey): Option<Bytes> {
    if k in flat then Some(flat[k]) else None
  }

  lemma FlatIsView(K: Keccak, s: Layers, k: SpacedKey)
    requires WellFormed(k)
    ensures Lookup(Flat(K, s), k) == View(K, s, k)
  {
    DeltaRoundTrip(K, k, s.deltaPadding);
    DeltaRoundTrip(K, k, s.intermediatePadding);
    CanonicalRoundTrip(k);
    if View(K, s, k).Some? {
      if Delta(K, k, s.deltaPadding) in s.delta {
        assert KeyOfDelta(Delta(K, k, s.deltaPadding)) == k;
      } else if Delta(K, k, s.intermediatePadding) in s.intermediate {
        assert KeyOfDelta(Delta(K, k, s.intermediatePadding)) == k;
      } else {
        assert KeyOfCanonical(Canonical(k)) == k;
      }
    }
  }

  lemma FlatHasWellFormedKeys(K: Keccak, s: Layers)
    ensures forall k :: k in Flat(K, s) ==> WellFormed(k)
  {
  }

  /** A map that answers every well-formed key as the state does is the flat map. */
  lemma FlatEquals(K: Keccak, s: Layers, flat: map<SpacedKey, Bytes>)
    requires forall k :: k in flat ==> WellFormed(k)
    requires forall k :: WellFormed(k) ==> Lookup(flat, k) == View(K, s, k)
    ensures Flat(K, s) == flat
  {
    hide Flat, View;
    FlatHasWellFormedKeys(K, s);
    forall k | k in flat || k in Flat(K, s)
      ensures k in flat && k in Flat(K, s) && flat[k] == Flat(K, s)[k]
    {
      FlatIsView(K, s, k);
      assert Lookup(flat, k) == Lookup(Flat(K, s), k);
    }
  }

  // ---------------------------------------------------------------------------------------------
  // Get and set
  // ---------------------------------------------------------------------------------------------

  /** `get` on a well-formed key never fails and answers as the flat map. */
  lemma GetAnswersFlat(K: Keccak, s: Layers, k: SpacedKey)
    requires WellFormed(k)
    ensures Get(K, s, k) == Ok(Lookup(Flat(K, s), k))
  {
    DeltaRoundTrip(K, k, s.deltaPadding);
    DeltaRoundTrip(K, k, s.intermediatePadding);
    CanonicalRoundTrip(k);
    FlatIsView(K, s, k);
  }

  lemma InLayerAfterWrite(K: Keccak, m: EntryMap, padding: Padding, k: SpacedKey, v: MptValue, q: SpacedKey)
    requires WellFormed(k) && WellFormed(q)
    ensures InLayer(K, m[Delta(K, k, padding) := v], padding, q)
         == if q == k then Some(v) else InLayer(K, m, padding, q)
  {
    if q != k && Delta(K, k, padding) == Delta(K, q, padding) {
      EncodingsInjective(K, k, q, padding);
    }
  }

  /** `set` writes or, with an empty value, removes one key of the flat map and keeps the invariant. */
  lemma SetActsOnFlat(K: Keccak, s: Layers, k: SpacedKey, value: Bytes)
    requires Inv(K, s) && WellFormed(k)
    ensures Set(K, s, k, value).Ok?
    ensures Inv(K, Set(K, s, k, value).value)
    ensures Flat(K, Set(K, s, k, value).value) == if value == [] then Flat(K, s) - {k} else Flat(K, s)[k := value]
  {
    hide Delta, Inv, View, Flat, InLayer;
    SetIsWrite(K, s, k, value);
    var t := Set(K, s, k, value).value;
    var flat := if value == [] then Flat(K, s) - {k} else Flat(K, s)[k := value];
    FlatHasWellFormedKeys(K, s);
    forall q | WellFormed(q)
      ensures Lookup(flat, q) == View(K, t, q)
    {
      SetChangesView(K, s, k, value, q);
      FlatIsView(K, s, q);
    }
    FlatEquals(K, t, flat);
  }

  lemma RejectedSet(K: Keccak, s: Layers, k: SpacedKey, value: Bytes)
    requires HasBadAddress(k)
    ensures Set(K, s, k, value) == Err(InvalidKey)
  {
  }

  /** A Code key without a hash writes the CodeRoot entry. */
  lemma AliasedSet(K: Keccak, s: Layers, k: SpacedKey, value: Bytes)
    requires IsCodeAlias(k)
    ensures Set(K, s, k, value) == Set(K, s, Unaliased(k), value)
  {
    hide ToDeltaKeyBytes;
    AliasEncodesAlike(K, k, s.deltaPadding);
  }

  /** A write keeps the invariant exactly when its key is stored under a well-formed key's encoding, or rejected. */
  lemma SetKeepsInvExactlyWhen(K: Keccak, s: Layers, k: SpacedKey, value: Bytes)
    requires Inv(K, s)
    ensures (Set(K, s, k, value).Ok? ==> Inv(K, Set(K, s, k, value).value)) <==> Writable(k)
    ensures Writable(k) && Set(K, s, k, value).Err? ==> HasBadAddress(k)
  {
    if WellFormed(k) {
      SetIsWrite(K, s, k, value);
    } else if HasBadAddress(k) {
      RejectedSet(K, s, k, value);
    } else if IsCodeAlias(k) {
      AliasedSet(K, s, k, value);
      SetIsWrite(K, s, Unaliased(k), value);
    } else {
      UnwritableSet(K, s, k, value);
    }
  }

  lemma UnwritableSet(K: Keccak, s: Layers, k: SpacedKey, value: Bytes)
    requires !Writable(k)
    ensures Set(K, s, k, value).Ok? && !Inv(K, Set(K, s, k, value).value)
  {
    hide ToDeltaKeyBytes, FromDeltaKey, WellFormed, TrieRoot;
    UnwritableDecodes(K, k, s.deltaPadding);
    var raw := ToDeltaKeyBytes(K, k, s.deltaPadding).value;
    assert raw in Set(K, s, k, value).value.delta.Keys && !IsDeltaKey(K, raw, s.deltaPadding);
  }

  lemma SetIsWrite(K: Keccak, s: Layers, k: SpacedKey, value: Bytes)
    requires WellFormed(k)
    ensures Set(K, s, k, value) == Ok(s.(delta := s.delta[Delta(K, k, s.deltaPadding) := Stored(value)]))
    ensures Inv(K, s) ==> Inv(K, Set(K, s, k, value).value)
  {
    hide TrieRoot;
    DeltaRoundTrip(K, k, s.deltaPadding);
  }

  lemma SetChangesView(K: Keccak, s: Layers, k: SpacedKey, value: Bytes, q: SpacedKey)
    requires WellFormed(k) && WellFormed(q)
    ensures Set(K, s, k, value).Ok?
    ensures View(K, Set(K, s, k, value).value, q) == if q == k then Stored(value).VisibleValue() else View(K, s, q)
  {
    hide Delta;
    SetIsWrite(K, s, k, value);
    InLayerAfterWrite(K, s.delta, s.deltaPadding, k, Stored(value), q);
  }

  // ---------------------------------------------------------------------------------------------
  // The merge of the intermediate layer into the snapshot
  // ---------------------------------------------------------------------------------------------

  lemma ApplyUpdateAt(K: Keccak, snapshot: Snapshot, raw: Bytes, v: MptValue, padding: Padding, k: SpacedKey)
    requires IsDeltaKey(K, raw, padding) && WellFormed(k)
    ensures InSnapshot(ApplyUpdate(snapshot, Update(CanonicalOf(raw), v)), k)
         == if Delta(K, k, padding) == raw then v.VisibleValue() else InSnapshot(snapshot, k)
  {
    hide Canonical, Delta, KeyOfDelta, IsDeltaKey, Rekey;
    RekeyOfDelta(K, raw, padding);
    if Canonical(k) == Canonical(KeyOfDelta(raw)) || Delta(K, k, padding) == raw {
      EncodingsInjective(K, k, KeyOfDelta(raw), padding);
    }
  }

  ghost predicate KeysOfLayer(K: Keccak, m: EntryMap, keys: seq<Bytes>, padding: Padding) {
    forall i :: 0 <= i < |keys| ==> keys[i] in m && Rekey(keys[i]).Ok? && IsDeltaKey(K, keys[i], padding)
  }

  /** Re-keying and applying a layer in order answers each key from the layer first, then from the snapshot. */
  lemma {:induction false} ApplyRekeyedAt(K: Keccak, m: EntryMap, keys: seq<Bytes>, padding: Padding,
                                          snapshot: Snapshot, k: SpacedKey)
    requires Sorted(keys) && WellFormed(k)
    requires KeysOfLayer(K, m, keys, padding)
    ensures InSnapshot(ApplyUpdates(snapshot, Rekeyed(m, keys)), k)
         == Over(if Delta(K, k, padding) in keys then Some(m[Delta(K, k, padding)]) else None, InSnapshot(snapshot, k))
  {
    if keys != [] {
      var u := Update(CanonicalOf(keys[0]), m[keys[0]]);
      var rest := keys[1..];
      assert Sorted(rest);
      ApplyUpdateAt(K, snapshot, keys[0], m[keys[0]], padding, k);
      ApplyRekeyedAt(K, m, rest, padding, ApplyUpdate(snapshot, u), k);
      assert Rekeyed(m, keys)[1..] == Rekeyed(m, rest);
      HeadIsNotInTail(keys);
      assert keys == [keys[0]] + rest;
    }
  }

  lemma HeadIsNotInTail(keys: seq<Bytes>)
    requires Sorted(keys) && keys != []
    ensures keys[0] !in keys[1..]
  {
  }

  lemma SortedDeltaKeys(K: Keccak, m: EntryMap, padding: Padding)
    requires DeltaKeys(K, m.Keys, padding)
    ensures KeysOfLayer(K, m, SortedKeys(m.Keys), padding)
  {
    RekeyDefined(K, m, padding);
  }

  /** The merged snapshot answers every key as intermediate over snapshot did. */
  lemma MergedAnswersBelow(K: Keccak, s: Layers, k: SpacedKey)
    requires DeltaKeys(K, s.intermediate.Keys, s.intermediatePadding) && WellFormed(k)
    ensures InSnapshot(Merged(s), k) == Below(K, s, k)
  {
    hide Canonical, Delta, Rekey, IsDeltaKey, Sorted, ApplyUpdates, Rekeyed;
    SortedDeltaKeys(K, s.intermediate, s.intermediatePadding);
    ApplyRekeyedAt(K, s.intermediate, SortedKeys(s.intermediate.Keys), s.intermediatePadding, s.snapshot, k);
  }

  lemma {:induction false} ApplyRekeyedKeepsCanonical(K: Keccak, m: EntryMap, keys: seq<Bytes>, padding: Padding,
                                                      snapshot: Snapshot)
    requires KeysOfLayer(K, m, keys, padding)
    requires CanonicalKeys(snapshot.Keys)
    ensures CanonicalKeys(ApplyUpdates(snapshot, Rekeyed(m, keys)).Keys)
  {
    if keys != [] {
      var u := Update(CanonicalOf(keys[0]), m[keys[0]]);
      RekeyOfDelta(K, keys[0], padding);
      CanonicalRoundTrip(KeyOfDelta(keys[0]));
      assert IsCanonicalKey(u.key);
      ApplyRekeyedKeepsCanonical(K, m, keys[1..], padding, ApplyUpdate(snapshot, u));
      assert Rekeyed(m, keys)[1..] == Rekeyed(m, keys[1..]);
    }
  }

  lemma MergedIsCanonical(K: Keccak, s: Layers)
    requires DeltaKeys(K, s.intermediate.Keys, s.intermediatePadding) && CanonicalKeys(s.snapshot.Keys)
    ensures CanonicalKeys(Merged(s).Keys)
  {
    hide Rekey, IsDeltaKey, IsCanonicalKey, Sorted, ApplyUpdates, Rekeyed;
    SortedDeltaKeys(K, s.intermediate, s.intermediatePadding);
    ApplyRekeyedKeepsCanonical(K, s.intermediate, SortedKeys(s.intermediate.Keys), s.intermediatePadding, s.snapshot);
  }

  // ---------------------------------------------------------------------------------------------
  // Commit
  // ---------------------------------------------------------------------------------------------

  /** A commit, rotating or not, changes no visible value and keeps the invariant. */
  lemma CommitKeepsFlat(K: Keccak, s: Layers)
    requires Inv(K, s)
    ensures Commit(K, s) == Ok(RootToCommit(K, s))
    ensures Inv(K, Committed(K, s))
    ensures Flat(K, Committed(K, s)) == Flat(K, s)
  {
    CommitKeepsInv(K, s);
    FlatHasWellFormedKeys(K, s);
    forall k | WellFormed(k)
      ensures Lookup(Flat(K, s), k) == View(K, Committed(K, s), k)
    {
      CommitKeepsView(K, s, k);
      FlatIsView(K, s, k);
    }
    FlatEquals(K, Committed(K, s), Flat(K, s));
  }

  lemma CommitKeepsInv(K: Keccak, s: Layers)
    requires Inv(K, s)
    ensures Commit(K, s) == Ok(RootToCommit(K, s)) && Inv(K, Committed(K, s))
  {
    hide TrieRoot, Merged, Rotation, DeltaKeys, CanonicalKeys, AllRekey, AllDecode;
    InvIsSound(K, s);
    RotationSucceeds(Counted(K, s));
    MergedIsCanonical(K, Counted(K, s));
    if AtBoundary(Counted(K, s)) {
      NoDeltaKeys(K, Committed(K, s).delta, Committed(K, s).deltaPadding);
    }
  }

  lemma NoDeltaKeys(K: Keccak, m: EntryMap, padding: Padding)
    requires m == map[]
    ensures DeltaKeys(K, m.Keys, padding)
  {
  }

  lemma RotationSucceeds(s: Layers)
    requires AllRekey(s.intermediate.Keys)
    ensures Rotation(s).Ok?
  {
    hide Rekey;
    RekeyAllOk(SortedKeys(s.intermediate.Keys));
    SortedIsInside(s.intermediate.Keys);
  }

  lemma InvIsSound(K: Keccak, s: Layers)
    requires Inv(K, s)
    ensures Sound(K, s)
  {
    hide RootsHold, AllRekey, AllDecode, DeltaKeys, CanonicalKeys;
    DeltaKeysRekey(K, s.delta.Keys, s.deltaPadding);
    DeltaKeysRekey(K, s.intermediate.Keys, s.intermediatePadding);
    CanonicalKeysDecode(s.snapshot.Keys);
  }

  lemma CanonicalKeysDecode(keys: set<Bytes>)
    requires CanonicalKeys(keys)
    ensures AllDecode(keys)
  {
    hide FromKeyBytes;
    forall raw | raw in keys
      ensures FromKeyBytes(raw).Ok?
    {
      assert IsCanonicalKey(raw);
    }
  }

  lemma DeltaKeysRekey(K: Keccak, keys: set<Bytes>, padding: Padding)
    requires DeltaKeys(K, keys, padding)
    ensures AllRekey(keys)
  {
    hide Rekey, IsDeltaKey;
    forall raw | raw in keys
      ensures Rekey(raw).Ok?
    {
      RekeyOfDelta(K, raw, padding);
    }
  }

  /** The merge leaves only keys that decode, whatever keys were written. */
  lemma {:induction false} ApplyRekeyedDecodes(m: EntryMap, keys: seq<Bytes>, snapshot: Snapshot)
    requires forall i :: 0 <= i < |keys| ==> keys[i] in m && Rekey(keys[i]).Ok?
    requires AllDecode(snapshot.Keys)
    ensures AllDecode(ApplyUpdates(snapshot, Rekeyed(m, keys)).Keys)
  {
    hide Rekey, FromKeyBytes;
    if keys != [] {
      RekeyedDecodes(keys[0]);
      ApplyRekeyedDecodes(m, keys[1..], ApplyUpdate(snapshot, Update(CanonicalOf(keys[0]), m[keys[0]])));
      assert Rekeyed(m, keys)[1..] == Rekeyed(m, keys[1..]);
    }
  }

  lemma MergedDecodes(s: Layers)
    requires AllRekey(s.intermediate.Keys) && AllDecode(s.snapshot.Keys)
    ensures AllDecode(Merged(s).Keys)
  {
    hide Rekey, AllDecode, ApplyUpdates, Rekeyed;
    SortedIsInside(s.intermediate.Keys);
    ApplyRekeyedDecodes(s.intermediate, SortedKeys(s.intermediate.Keys), s.snapshot);
  }

  /**
   * On any state at all a commit fails exactly at a period boundary with a raw key that cannot be re-keyed, and then
   * the intermediate layer is lost while its stored root stays.
   */
  lemma CommitFailsExactlyWhen(K: Keccak, s: Layers)
    ensures Commit(K, s).Err? <==> AtBoundary(Counted(K, s)) && !AllRekey(s.intermediate.Keys)
    ensures Commit(K, s).Err? ==> Committed(K, s) == Counted(K, s).(intermediate := map[])
  {
    hide Rekey, TrieRoot, Merged, AtBoundary;
    RekeyAllOk(SortedKeys(s.intermediate.Keys));
    SortedIsInside(s.intermediate.Keys);
    if raw :| raw in s.intermediate && Rekey(raw).Err? {
      assert raw in SortedKeys(s.intermediate.Keys);
    }
  }

  /** In a sound state a commit never fails, and it leaves a sound state. */
  lemma CommitKeepsSound(K: Keccak, s: Layers)
    requires Sound(K, s)
    ensures Commit(K, s) == Ok(RootToCommit(K, s)) && Sound(K, Committed(K, s))
  {
    hide TrieRoot, Merged, AllDecode, Rotation;
    RotationSucceeds(Counted(K, s));
    MergedDecodes(Counted(K, s));
  }

  /** A raw entry below the delta keeps a sound state sound exactly if it can be re-keyed. */
  lemma PutRawKeepsSoundExactlyWhen(K: Keccak, s: Layers, raw: Bytes, value: MptValue)
    requires Sound(K, s)
    ensures Sound(K, PutRaw(K, s, raw, value)) <==> Rekey(raw).Ok?
  {
    hide Rekey, TrieRoot, LiveEntries, FromKeyBytes;
    var keys := PutRaw(K, s, raw, value).intermediate.Keys;
    assert raw in keys && forall k :: k in keys <==> k == raw || k in s.intermediate.Keys;
  }

  /** A write of any key keeps a sound state sound, and fails only for a bad address. */
  lemma SetKeepsSound(K: Keccak, s: Layers, k: SpacedKey, value: Bytes)
    requires Sound(K, s)
    ensures Set(K, s, k, value).Err? <==> HasBadAddress(k)
    ensures Set(K, s, k, value).Ok? ==> Sound(K, Set(K, s, k, value).value)
  {
    hide TrieRoot, Rekey, ToDeltaKeyBytes, FromKeyBytes;
    RejectedExactlyWhen(K, k, s.deltaPadding);
    if !HasBadAddress(k) {
      EncodedRekeys(K, k, s.deltaPadding);
    }
  }

  lemma CommitKeepsView(K: Keccak, s: Layers, k: SpacedKey)
    requires Inv(K, s) && WellFormed(k)
    ensures View(K, Committed(K, s), k) == View(K, s, k)
  {
    hide TrieRoot, Merged, Rotation;
    CommitKeepsInv(K, s);
    MergedAnswersBelow(K, Counted(K, s), k);
  }

  /**
   * Commit returns the stateless roots of the three layers as they stand before any rotation, and the padding
   * is the hash of the two lower roots. Equal layers therefore commit to one root, whatever was written when.
   */
  lemma CommitReturnsStatelessRoots(K: Keccak, s: Layers)
    requires RootsHold(K, s)
    ensures RootToCommit(K, s).snapshotRoot == TrieRoot(K, LiveEntries(s.snapshot))
    ensures RootToCommit(K, s).intermediateDeltaRoot == TrieRoot(K, s.intermediate)
    ensures RootToCommit(K, s).deltaRoot == TrieRoot(K, s.delta)
    ensures RootToCommit(K, s).deltaMptKeyPadding
         == K(TrieRoot(K, LiveEntries(s.snapshot)) + TrieRoot(K, s.intermediate))
    ensures Committed(K, s).lastRoot == Some(RootToCommit(K, s))
  {
    hide Merged, TrieRoot, Rotation;
  }

  // ---------------------------------------------------------------------------------------------
  // Starting states and checkpoints
  // ---------------------------------------------------------------------------------------------

  lemma FreshStateHolds(K: Keccak, snapshot: Snapshot, epochCount: nat)
    requires CanonicalKeys(snapshot.Keys) && epochCount > 0
    ensures Inv(K, FromSnapshot(K, snapshot, epochCount))
    ensures forall k :: WellFormed(k) ==> View(K, FromSnapshot(K, snapshot, epochCount), k) == InSnapshot(snapshot, k)
  {
    hide LiveEntries, Canonical, Delta, NibbleMap;
    EmptyTrieRoot(K);
  }

  lemma EmptyTrieRoot(K: Keccak)
    ensures TrieRoot(K, map[]) == NullNode(K)
  {
    assert NibbleMap(map[]) == map[];
  }

  /** Over any snapshot whose keys decode the state is sound. */
  lemma FreshStateIsSound(K: Keccak, snapshot: Snapshot, epochCount: nat)
    requires AllDecode(snapshot.Keys) && epochCount > 0
    ensures Sound(K, FromSnapshot(K, snapshot, epochCount))
  {
    hide LiveEntries, NibbleMap, FromKeyBytes;
    EmptyTrieRoot(K);
  }

  /** A checkpoint drops stored roots and every cache, and restoring it gives the very same state. */
  lemma RestartIsUnobservable(K: Keccak, s: Layers)
    requires RootsHold(K, s)
    ensures Restore(K, Persist(s)) == s
  {
  }
}
