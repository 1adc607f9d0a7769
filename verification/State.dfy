/** The three-layer state as the object that the replay updates in place. */
module States {
  import opened Basics
  import opened TrieSpec
  import opened Incremental
  import opened KeyCodec
  import opened StateSpec
  import opened Snapshots
  import Trie
  import TrieRuns
  import StateLaws

  // ---------------------------------------------------------------------------------------------
  // Scanning one layer
  // ---------------------------------------------------------------------------------------------

  /** `list` gives the entries of `m` for `keys`, in their order. */
  ghost predicate IsListing(list: seq<Trie.Entry>, m: EntryMap, keys: seq<Bytes>) {
    |list| == |keys| && forall i :: 0 <= i < |list| ==> keys[i] in m && list[i] == Trie.Entry(keys[i], m[keys[i]])
  }

  /** From the first key not below `prefix`, while keys start with it: the matches are contiguous in key order. */
  method ScanPrefix(m: EntryMap, prefix: Bytes) returns (list: seq<Trie.Entry>)
    ensures IsListing(list, m, ScanKeys(m.Keys, prefix))
  {
    hide Sorted, ScanKeys, Less, SortedKeys;
    var keys := SortedKeys(m.Keys);
    var start := 0;
    while start < |keys| && Less(keys[start], prefix)
      invariant start <= |keys|
      invariant forall i :: 0 <= i < start ==> Less(keys[i], prefix)
    {
      start := start + 1;
    }
    var end := start;
    list := [];
    while end < |keys| && prefix <= keys[end]
      invariant start <= end <= |keys|
      invariant forall i :: start <= i < end ==> prefix <= keys[i]
      invariant IsListing(list, m, keys[start..end])
    {
      assert keys[end] in keys;
      assert keys[start..end + 1] == keys[start..end] + [keys[end]];
      list := list + [Trie.Entry(keys[end], m[keys[end]])];
      end := end + 1;
    }
    SliceIsScan(m.Keys, keys, prefix, start, end);
  }

  lemma SliceIsScan(s: set<Bytes>, keys: seq<Bytes>, prefix: Bytes, start: nat, end: nat)
    requires Sorted(keys) && forall k :: k in keys <==> k in s
    requires start <= end <= |keys|
    requires forall i :: 0 <= i < start ==> Less(keys[i], prefix)
    requires start < |keys| ==> !Less(keys[start], prefix)
    requires forall i :: start <= i < end ==> prefix <= keys[i]
    requires end < |keys| ==> !(prefix <= keys[end])
    ensures keys[start..end] == ScanKeys(s, prefix)
  {
    hide Less, ScanKeys;
    var slice := keys[start..end];
    forall k
      ensures k in slice ==> k in ScanKeys(s, prefix)
      ensures k in ScanKeys(s, prefix) ==> k in slice
    {
      if k in slice {
        var i :| 0 <= i < |slice| && slice[i] == k;
        assert keys[start + i] in keys;
      }
      if k in ScanKeys(s, prefix) {
        var i :| 0 <= i < |keys| && keys[i] == k;
        MatchIsInSlice(keys, prefix, start, end, i);
        assert slice[i - start] == k;
      }
    }
    SortedIsUnique(slice, ScanKeys(s, prefix));
  }

  lemma MatchIsInSlice(keys: seq<Bytes>, prefix: Bytes, start: nat, end: nat, i: nat)
    requires Sorted(keys) && i < |keys| && prefix <= keys[i] && start <= end <= |keys|
    requires forall j :: 0 <= j < start ==> Less(keys[j], prefix)
    requires start < |keys| ==> !Less(keys[start], prefix)
    requires end < |keys| ==> !(prefix <= keys[end])
    ensures start <= i < end
  {
    hide Less;
    if prefix != keys[i] {
      PrefixIsLess(prefix, keys[i]);
    } else {
      LessIsTotal(prefix, prefix);
    }
    assert start <= i;
    if end <= i {
      if start < end {
        LessIsTransitiveFrom(keys, prefix, start, end);
      }
      LessIsTotal(prefix, keys[end]);
      BetweenSharesPrefix(prefix, prefix, keys[end], keys[i]);
    }
  }

  lemma LessIsTransitiveFrom(keys: seq<Bytes>, prefix: Bytes, start: nat, end: nat)
    requires Sorted(keys) && start < end < |keys| && !Less(keys[start], prefix)
    ensures !Less(keys[end], prefix)
  {
    hide Less;
    if Less(keys[end], prefix) {
      LessIsTransitive(keys[start], keys[end], prefix);
    }
  }

  // ---------------------------------------------------------------------------------------------
  // Collecting the answers of one layer
  // ---------------------------------------------------------------------------------------------

  /** The delta's matches: every one that passes the filter decides its key; one that cannot be re-keyed is an error. */
  method CollectTop(list: seq<Trie.Entry>, filter: Option<Bytes>, ghost m: EntryMap, ghost keys: seq<Bytes>)
    returns (r: Result<Found>)
    requires IsListing(list, m, keys)
    requires forall i :: 0 <= i < |keys| ==> keys[i] in m
    ensures r == Checked(RekeyAll(keys), ReadTop(m, keys, filter, Found([], {})))
  {
    hide CanonicalOf, Rekey, ReadTop, RekeyAll, IsListing;
    var result: seq<KeyValue>, seen: set<Bytes> := [], {};
    assert keys[0..] == keys;
    ListingLength(list, m, keys);
    for i := 0 to |list|
      invariant Checked(RekeyAll(keys[i..]), ReadTop(m, keys[i..], filter, Found(result, seen)))
             == Checked(RekeyAll(keys), ReadTop(m, keys, filter, Found([], {})))
    {
      ReadTopStep(m, keys, i, filter, Found(result, seen));
      ListedAt(list, m, keys, i);
      var canonical := Rekey(list[i].key);
      if canonical.Err? {
        return Err(canonical.error);
      }
      RekeyedValue(list[i].key);
      if filter.Some? && !(filter.value <= canonical.value) {
        continue;
      }
      seen := seen + {canonical.value};
      var value := list[i].value.VisibleValue();
      if value.Some? {
        result := result + [KeyValue(canonical.value, value.value)];
      }
    }
    ReadNothing(m, keys[|list|..], filter, Found(result, seen));
    r := Ok(Found(result, seen));
  }

  lemma RekeyedValue(raw: Bytes)
    requires Rekey(raw).Ok?
    ensures CanonicalOf(raw) == Rekey(raw).value
  {
  }

  lemma ReadNothing(m: EntryMap, keys: seq<Bytes>, filter: Option<Bytes>, f: Found)
    requires keys == []
    ensures RekeyAll(keys).Ok? && ReadLayer(m, keys, filter, f) == f && ReadTop(m, keys, filter, f) == f
  {
  }

  lemma RekeyAllStep(keys: seq<Bytes>, i: nat)
    requires i < |keys|
    ensures RekeyAll(keys[i..])
         == if Rekey(keys[i]).Err? then Err(Rekey(keys[i]).error) else RekeyAll(keys[i + 1..])
  {
    hide Rekey;
    assert keys[i..][0] == keys[i] && keys[i..][1..] == keys[i + 1..];
  }

  lemma ReadTopStep(m: EntryMap, keys: seq<Bytes>, i: nat, filter: Option<Bytes>, f: Found)
    requires i < |keys| && forall j :: 0 <= j < |keys| ==> keys[j] in m
    ensures Checked(RekeyAll(keys[i..]), ReadTop(m, keys[i..], filter, f)) == (
      if Rekey(keys[i]).Err? then Err(Rekey(keys[i]).error)
      else Checked(RekeyAll(keys[i + 1..]), ReadTop(m, keys[i + 1..], filter,
        if !Passes(filter, CanonicalOf(keys[i])) then f
        else if m[keys[i]].Live?
        then Found(f.result + [KeyValue(CanonicalOf(keys[i]), m[keys[i]].bytes)], f.seen + {CanonicalOf(keys[i])})
        else Found(f.result, f.seen + {CanonicalOf(keys[i])}))))
  {
    hide CanonicalOf, Rekey, RekeyAll;
    RekeyAllStep(keys, i);
    assert keys[i..][0] == keys[i] && keys[i..][1..] == keys[i + 1..];
    assert f.result + [] == f.result;
  }

  lemma ReadLayerStep(m: EntryMap, keys: seq<Bytes>, i: nat, filter: Option<Bytes>, f: Found)
    requires i < |keys| && forall j :: 0 <= j < |keys| ==> keys[j] in m
    ensures Checked(RekeyAll(keys[i..]), ReadLayer(m, keys[i..], filter, f)) == (
      if Rekey(keys[i]).Err? then Err(Rekey(keys[i]).error)
      else Checked(RekeyAll(keys[i + 1..]), ReadLayer(m, keys[i + 1..], filter,
        if !Passes(filter, CanonicalOf(keys[i])) || CanonicalOf(keys[i]) in f.seen then f
        else if m[keys[i]].Live?
        then Found(f.result + [KeyValue(CanonicalOf(keys[i]), m[keys[i]].bytes)], f.seen + {CanonicalOf(keys[i])})
        else Found(f.result, f.seen + {CanonicalOf(keys[i])}))))
  {
    hide CanonicalOf, Rekey, RekeyAll;
    RekeyAllStep(keys, i);
    assert keys[i..][0] == keys[i] && keys[i..][1..] == keys[i + 1..];
    assert f.result + [] == f.result;
  }

  /** A lower layer's matches decide only the keys that no higher layer decided. */
  method CollectBelow(list: seq<Trie.Entry>, filter: Option<Bytes>, above: Found, ghost m: EntryMap,
                      ghost keys: seq<Bytes>)
    returns (r: Result<Found>)
    requires IsListing(list, m, keys)
    requires forall i :: 0 <= i < |keys| ==> keys[i] in m
    ensures r == Checked(RekeyAll(keys), ReadLayer(m, keys, filter, above))
  {
    hide CanonicalOf, Rekey, ReadLayer, RekeyAll, IsListing;
    var result, seen := above.result, above.seen;
    assert keys[0..] == keys;
    ListingLength(list, m, keys);
    for i := 0 to |list|
      invariant Checked(RekeyAll(keys[i..]), ReadLayer(m, keys[i..], filter, Found(result, seen)))
             == Checked(RekeyAll(keys), ReadLayer(m, keys, filter, above))
    {
      ReadLayerStep(m, keys, i, filter, Found(result, seen));
      ListedAt(list, m, keys, i);
      var canonical := Rekey(list[i].key);
      if canonical.Err? {
        return Err(canonical.error);
      }
      RekeyedValue(list[i].key);
      if filter.Some? && !(filter.value <= canonical.value) {
        continue;
      }
      if canonical.value !in seen {
        seen := seen + {canonical.value};
        var value := list[i].value.VisibleValue();
        if value.Some? {
          result := result + [KeyValue(canonical.value, value.value)];
        }
      }
    }
    ReadNothing(m, keys[|list|..], filter, Found(result, seen));
    r := Ok(Found(result, seen));
  }

  method CollectSnapshot(list: seq<KeyValue>, above: seq<KeyValue>, aboveSeen: set<Bytes>,
                         ghost snapshot: Snapshot, ghost keys: seq<Bytes>)
    returns (result: seq<KeyValue>)
    requires ListsSnapshot(list, snapshot, keys)
    requires forall i :: 0 <= i < |keys| ==> keys[i] in snapshot
    ensures result == ReadSnapshot(snapshot, keys, Found(above, aboveSeen)).result
  {
    result := above;
    var seen := aboveSeen;
    assert keys[0..] == keys;
    for i := 0 to |list|
      invariant ReadSnapshot(snapshot, keys[i..], Found(result, seen))
             == ReadSnapshot(snapshot, keys, Found(above, aboveSeen))
    {
      assert keys[i..][0] == keys[i] && keys[i..][1..] == keys[i + 1..];
      if list[i].key !in seen {
        seen := seen + {list[i].key};
        result := result + [list[i]];
      }
    }
    assert keys[|list|..] == [];
  }

  // ---------------------------------------------------------------------------------------------
  // The state
  // ---------------------------------------------------------------------------------------------

  /** A snapshot trie of its own with its root. */
  method HashedSnapshot(K: Keccak, contents: Snapshot) returns (trie: SnapshotTrie, root: H256)
    ensures fresh(trie) && fresh(trie.inner) && trie.Valid() && trie.inner.K == K
    ensures trie.contents == contents && root == TrieRoot(K, LiveEntries(contents))
  {
    hide NibbleMap, LiveEntries, TrieRoot, IncrementalTrie.Valid;
    trie := new SnapshotTrie(K, contents);
    root := trie.RootWithPolicy(SkipSingleton);
  }

  /** The account caches of two layers: empty, and objects of their own. */
  method EmptyAccountCaches(K: Keccak) returns (cache: AccountKeyCache, lowerCache: AccountKeyCache)
    ensures fresh(cache) && fresh(lowerCache) && cache != lowerCache
    ensures cache.Valid() && cache.K == K && lowerCache.Valid() && lowerCache.K == K
  {
    hide AccountKeyCache.Valid;
    cache := new AccountKeyCache(K);
    lowerCache := new AccountKeyCache(K);
  }

  class State {
    const K: Keccak
    var snapshot: SnapshotTrie
    var intermediate: EntryMap
    var delta: EntryMap
    var snapshotRoot: H256
    var intermediateRoot: H256
    var intermediatePadding: Padding
    var deltaPadding: Padding
    var height: nat
    var snapshotEpochCount: nat
    var lastRoot: Option<CommitRoot>
    var deltaInc: IncrementalTrie
    var deltaAccountCache: AccountKeyCache
    var intermediateAccountCache: AccountKeyCache

    /** The layers that the object holds now. */
    ghost function Now(): Layers
      reads this, snapshot
    {
      Layers(snapshot.contents, intermediate, delta, snapshotRoot, intermediateRoot, intermediatePadding, deltaPadding,
             height, snapshotEpochCount, lastRoot)
    }

    ghost function Repr(): set<object>
      reads this, snapshot
    {
      {this, snapshot, snapshot.inner, deltaInc, deltaAccountCache, intermediateAccountCache}
    }

    /** The parts are separate objects, each valid; the cached trie holds exactly the delta, in nibbles. */
    ghost predicate Linked()
      reads this, snapshot, snapshot.inner, deltaInc, deltaAccountCache, intermediateAccountCache
    {
      && snapshot.Valid() && snapshot.inner.K == K
      && deltaInc.Valid() && deltaInc.K == K && deltaInc != snapshot.inner
      && deltaInc.entries == NibbleMap(delta)
      && deltaAccountCache != intermediateAccountCache
      && deltaAccountCache.Valid() && deltaAccountCache.K == K
      && intermediateAccountCache.Valid() && intermediateAccountCache.K == K
    }

    ghost predicate Valid()
      reads this, snapshot, snapshot.inner, deltaInc, deltaAccountCache, intermediateAccountCache
    {
      Linked() && Inv(K, Now())
    }

    constructor WithSnapshotEpochCount(K: Keccak, snapshotEpochCount: nat)
      ensures Valid() && this.K == K && fresh(Repr())
      ensures Now() == StateSpec.FromSnapshot(K, map[], Max(snapshotEpochCount, 1))
    {
      hide NibbleMap, IsNibbleForm, LiveEntries, TrieRoot, IncrementalTrie.Valid, SnapshotTrie.Valid,
        AccountKeyCache.Valid, Inv;
      var trie := new SnapshotTrie(K, map[]);
      var inc := new IncrementalTrie(K);
      var cache, lowerCache := EmptyAccountCaches(K);
      this.K := K;
      snapshot := trie;
      intermediate, delta := map[], map[];
      snapshotRoot, intermediateRoot := NullNode(K), NullNode(K);
      intermediatePadding, deltaPadding := GenesisPadding(K), GenesisPadding(K);
      height, this.snapshotEpochCount, lastRoot := 0, Max(snapshotEpochCount, 1), None;
      deltaInc, deltaAccountCache, intermediateAccountCache := inc, cache, lowerCache;
      new;
      NothingLive();
      Trie.EmptyNibbleMap();
      StateLaws.EmptyTrieRoot(K);
      StateLaws.FreshStateHolds(K, map[], this.snapshotEpochCount);
    }

    /** Any snapshot with nothing above it; the state invariant holds if its keys are canonical. */
    constructor FromSnapshot(K: Keccak, contents: Snapshot)
      ensures Linked() && this.K == K && fresh(Repr())
      ensures StateSpec.CanonicalKeys(contents.Keys) ==> Valid()
      ensures Now() == StateSpec.FromSnapshot(K, contents, DEFAULT_SNAPSHOT_EPOCH_COUNT)
    {
      hide NibbleMap, IsNibbleForm, LiveEntries, TrieRoot, IncrementalTrie.Valid, SnapshotTrie.Valid,
        AccountKeyCache.Valid, Inv;
      var trie, root := HashedSnapshot(K, contents);
      var inc := new IncrementalTrie(K);
      var cache, lowerCache := EmptyAccountCaches(K);
      this.K := K;
      snapshot := trie;
      intermediate, delta := map[], map[];
      snapshotRoot, intermediateRoot := root, NullNode(K);
      intermediatePadding, deltaPadding := GenesisPadding(K), PaddingFromRoots(K, root, NullNode(K));
      height, snapshotEpochCount, lastRoot := 0, DEFAULT_SNAPSHOT_EPOCH_COUNT, None;
      deltaInc, deltaAccountCache, intermediateAccountCache := inc, cache, lowerCache;
      new;
      Trie.EmptyNibbleMap();
      if StateSpec.CanonicalKeys(contents.Keys) {
        StateLaws.FreshStateHolds(K, contents, snapshotEpochCount);
      }
    }

    /** Rebuilds everything that a checkpoint does not keep: roots, trie caches, account caches. */
    constructor FromPersisted(K: Keccak, p: PersistedState)
      ensures Linked() && this.K == K && fresh(Repr())
      ensures Now() == Restore(K, p)
    {
      hide NibbleMap, IsNibbleForm, LiveEntries, TrieRoot, IncrementalTrie.Valid, SnapshotTrie.Valid,
        AccountKeyCache.Valid, Inv;
      var lower := Trie.TrieRootOf(K, p.intermediate);
      var inc := new IncrementalTrie.FromDelta(K, p.delta);
      var cache, lowerCache := EmptyAccountCaches(K);
      var trie, root := HashedSnapshot(K, p.snapshot);
      this.K := K;
      snapshot := trie;
      intermediate, delta := p.intermediate, p.delta;
      snapshotRoot, intermediateRoot := root, lower;
      intermediatePadding, deltaPadding := p.intermediatePadding, p.deltaPadding;
      height, lastRoot := p.height, p.lastRoot;
      snapshotEpochCount := if p.epochCount == 0 then DEFAULT_SNAPSHOT_EPOCH_COUNT else p.epochCount;
      deltaInc, deltaAccountCache, intermediateAccountCache := inc, cache, lowerCache;
    }

    method Persisted() returns (p: PersistedState)
      requires Linked()
      ensures p == Persist(Now())
    {
      hide Inv, NibbleMap, IsNibbleForm, IncrementalTrie.Valid;
      var contents := snapshot.ToCanonicalMap();
      p := PersistedState(contents, intermediate, delta, intermediatePadding, deltaPadding, height, snapshotEpochCount,
                          lastRoot);
    }

    /** Delta over intermediate over snapshot; only the account caches may change. */
    method Get(k: SpacedKey) returns (r: Result<Option<Bytes>>)
      requires Linked()
      modifies deltaAccountCache, intermediateAccountCache
      ensures Linked() && Now() == old(Now())
      ensures r == StateSpec.Get(K, Now(), k)
    {
      hide Inv, NibbleMap, IsNibbleForm, IncrementalTrie.Valid, ToDeltaKeyBytes, ToKeyBytes, AccountKeyCache.Valid;
      var deltaKey := deltaAccountCache.ToDeltaMptKeyBytes(k, deltaPadding);
      if deltaKey.Err? {
        return Err(deltaKey.error);
      }
      if deltaKey.value in delta {
        return Ok(delta[deltaKey.value].VisibleValue());
      }
      var intermediateKey := intermediateAccountCache.ToDeltaMptKeyBytes(k, intermediatePadding);
      if intermediateKey.Err? {
        return Err(intermediateKey.error);
      }
      if intermediateKey.value in intermediate {
        return Ok(intermediate[intermediateKey.value].VisibleValue());
      }
      var canonical := ToKeyBytes(k);
      if canonical.Err? {
        return Err(canonical.error);
      }
      var value := snapshot.Get(canonical.value);
      r := Ok(value);
    }

    /** Writes the delta and the cached trie together; a key that does not encode changes nothing. */
    method Set(k: SpacedKey, value: Bytes) returns (r: Result<()>)
      requires Linked()
      modifies this`delta, deltaInc`entries, deltaInc`dirty, deltaAccountCache
      ensures Linked()
      ensures match StateSpec.Set(K, old(Now()), k, value)
        case Ok(after) => r == Ok(()) && Now() == after
        case Err(e) => r == Err(e) && Now() == old(Now())
    {
      hide Inv, NibbleMap, IsNibbleForm, IncrementalTrie.Valid, ToDeltaKeyBytes, AccountKeyCache.Valid, ToNibbles;
      var raw := deltaAccountCache.ToDeltaMptKeyBytes(k, deltaPadding);
      if raw.Err? {
        return Err(raw.error);
      }
      WriteDelta(raw.value, if value == [] then Tombstone else Live(value));
      r := Ok(());
    }

    method WriteDelta(raw: Bytes, stored: MptValue)
      requires Linked()
      modifies this`delta, deltaInc`entries, deltaInc`dirty
      ensures Linked() && Now() == old(Now()).(delta := old(delta)[raw := stored])
    {
      hide NibbleMap, IsNibbleForm, IncrementalTrie.Valid, SnapshotTrie.Valid, AccountKeyCache.Valid, ToNibbles,
        LiveEntries;
      TrieRuns.NibbleMapAfterInsert(delta, raw, stored);
      deltaInc.Insert(raw, stored);
      delta := delta[raw := stored];
    }

    /**
     * The stored roots and the root of the delta as they stand, then, at a period boundary, the shift of the layers;
     * if that fails the root is recorded and counted all the same.
     */
    method Commit() returns (r: Result<CommitRoot>)
      requires Linked()
      modifies Repr()
      ensures Linked() && fresh(Repr() - old(Repr()))
      ensures r == old(StateSpec.Commit(K, Now()))
      ensures Now() == old(Committed(K, Now()))
    {
      hide NibbleMap, IsNibbleForm, IncrementalTrie.Valid, SnapshotTrie.Valid, AccountKeyCache.Valid, Advance, Rotation,
        TrieRoot;
      var deltaRoot := deltaInc.Root();
      DeltaRootIsTrieRoot(K, delta);
      var root := MakeCommitRoot(K, snapshotRoot, intermediateRoot, deltaRoot, deltaPadding);
      RecordCommit(root);
      var _ :- AdvanceAfterCommit(deltaRoot);
      r := Ok(root);
    }

    method RecordCommit(root: CommitRoot)
      requires Linked()
      modifies this`lastRoot, this`height
      ensures Linked() && Now() == old(Now()).(lastRoot := Some(root), height := old(height) + 1)
    {
      hide NibbleMap, IsNibbleForm, IncrementalTrie.Valid, SnapshotTrie.Valid, AccountKeyCache.Valid, LiveEntries;
      lastRoot := Some(root);
      height := height + 1;
    }

    method AdvanceAfterCommit(deltaRoot: H256) returns (r: Result<()>)
      requires Linked()
      modifies Repr()
      ensures Linked() && fresh(Repr() - old(Repr()))
      ensures match old(Rotation(Now())) case Ok(_) => r.Ok? case Err(e) => r == Err(e)
      ensures Now() == old(Advance(K, Now(), deltaRoot))
    {
      hide NibbleMap, IsNibbleForm, IncrementalTrie.Valid, AccountKeyCache.Valid, SnapshotTrie.Valid, RekeyAll, Rekeyed,
        TrieRoot, LiveEntries, StateSpec.ApplyUpdates, SortedKeys;
      if height == 0 || snapshotEpochCount == 0 || height % snapshotEpochCount != 0 {
        return Ok(());
      }
      SortedIsInside(intermediate.Keys);
      var updates :- RekeyIntermediate();
      AbsorbUpdates(updates);
      ShiftLayers(deltaRoot);
      r := Ok(());
    }

    /** The snapshot absorbs the updates and is hashed again. */
    method AbsorbUpdates(updates: seq<Update>)
      requires Linked()
      modifies this`snapshotRoot, snapshot, snapshot.inner
      ensures Linked()
      ensures var snapshot' := StateSpec.ApplyUpdates(old(snapshot.contents), updates);
        Now() == old(Now()).(snapshot := snapshot', snapshotRoot := TrieRoot(K, LiveEntries(snapshot')))
    {
      hide NibbleMap, IsNibbleForm, IncrementalTrie.Valid, AccountKeyCache.Valid, TrieRoot, LiveEntries,
        StateSpec.ApplyUpdates;
      snapshot.ApplyUpdates(updates);
      snapshotRoot := snapshot.RootWithPolicy(SkipSingleton);
    }

    /** The delta becomes the intermediate layer, its account cache goes with it, and the delta starts fresh. */
    method ShiftLayers(deltaRoot: H256)
      requires Linked()
      modifies this`intermediate, this`delta, this`intermediateRoot, this`intermediatePadding, this`deltaPadding,
        this`intermediateAccountCache, this`deltaAccountCache, deltaInc
      ensures Linked() && fresh(Repr() - old(Repr()))
      ensures Now() == old(Now()).(
        intermediate := old(delta), delta := map[], intermediateRoot := deltaRoot,
        intermediatePadding := old(deltaPadding), deltaPadding := PaddingFromRoots(K, old(snapshotRoot), deltaRoot))
    {
      hide NibbleMap, IsNibbleForm, IncrementalTrie.Valid, SnapshotTrie.Valid, AccountKeyCache.Valid, LiveEntries;
      DeltaBecomesIntermediate(deltaRoot);
      ClearDelta();
      RotateAccountCaches();
    }

    method DeltaBecomesIntermediate(deltaRoot: H256)
      requires Linked()
      modifies this`intermediate, this`intermediateRoot, this`intermediatePadding, this`deltaPadding
      ensures Linked()
      ensures Now() == old(Now()).(
        intermediate := old(delta), intermediateRoot := deltaRoot, intermediatePadding := old(deltaPadding),
        deltaPadding := PaddingFromRoots(K, old(snapshotRoot), deltaRoot))
    {
      hide NibbleMap, IsNibbleForm, IncrementalTrie.Valid, SnapshotTrie.Valid, AccountKeyCache.Valid, LiveEntries;
      intermediate := delta;
      intermediateRoot := deltaRoot;
      intermediatePadding := deltaPadding;
      deltaPadding := PaddingFromRoots(K, snapshotRoot, intermediateRoot);
    }

    method ClearDelta()
      requires Linked()
      modifies this`delta, deltaInc
      ensures Linked() && Now() == old(Now()).(delta := map[])
    {
      hide NibbleMap, IsNibbleForm, IncrementalTrie.Valid, SnapshotTrie.Valid, AccountKeyCache.Valid, LiveEntries;
      delta := map[];
      Trie.EmptyNibbleMap();
      deltaInc.Clear();
    }

    /** The old delta cache is exactly valid for the new intermediate padding. */
    method RotateAccountCaches()
      requires Linked()
      modifies this`intermediateAccountCache, this`deltaAccountCache
      ensures Linked() && Now() == old(Now())
      ensures intermediateAccountCache == old(deltaAccountCache) && fresh(deltaAccountCache)
    {
      hide NibbleMap, IsNibbleForm, IncrementalTrie.Valid, SnapshotTrie.Valid, AccountKeyCache.Valid, LiveEntries;
      intermediateAccountCache := deltaAccountCache;
      deltaAccountCache := new AccountKeyCache(K);
    }

    /** Any raw entry below the delta: the layer is hashed again and the delta padding follows. */
    method PutIntermediateRaw(raw: Bytes, value: MptValue)
      requires Linked()
      modifies this`intermediate, this`intermediateRoot, this`deltaPadding
      ensures Linked() && Now() == old(PutRaw(K, Now(), raw, value))
    {
      hide NibbleMap, IsNibbleForm, IncrementalTrie.Valid, SnapshotTrie.Valid, AccountKeyCache.Valid, LiveEntries,
        TrieRoot;
      intermediate := intermediate[raw := value];
      intermediateRoot := Trie.TrieRootOf(K, intermediate);
      deltaPadding := PaddingFromRoots(K, snapshotRoot, intermediateRoot);
    }

    /** The matches of all three layers, the first layer to name a canonical key deciding it. */
    method ReadPrefix(p: SpacedKey) returns (r: Result<seq<KeyValue>>)
      requires Linked()
      ensures r == StateSpec.ReadPrefix(K, Now(), p)
    {
      hide NibbleMap, IsNibbleForm, IncrementalTrie.Valid, AccountKeyCache.Valid, LiveEntries, ScanKeys, IsListing,
        ListsSnapshot, ToKeyBytes, ToDeltaKeyBytes, ReadTop, ReadLayer, ReadSnapshot, RekeyAll, Passes;
      var canonicalPrefix :- ToKeyBytes(p);
      var deltaPrefix :- ToDeltaKeyBytes(K, p, deltaPadding);
      var intermediatePrefix :- ToDeltaKeyBytes(K, p, intermediatePadding);
      var filter := AddressFilter(p);
      var list := ScanPrefix(delta, deltaPrefix);
      ScanIsInside(delta.Keys, deltaPrefix);
      var found :- CollectTop(list, filter, delta, ScanKeys(delta.Keys, deltaPrefix));
      list := ScanPrefix(intermediate, intermediatePrefix);
      ScanIsInside(intermediate.Keys, intermediatePrefix);
      found :- CollectBelow(list, filter, found, intermediate, ScanKeys(intermediate.Keys, intermediatePrefix));
      var entries := snapshot.ScanPrefix(canonicalPrefix);
      ScanIsInside(snapshot.contents.Keys, canonicalPrefix);
      var result := CollectSnapshot(entries, found.result, found.seen, snapshot.contents,
                                    ScanKeys(snapshot.contents.Keys, canonicalPrefix));
      r := Ok(result);
    }

    /**
     * Drops the delta's matches, writes tombstones over live matches below, and returns what a read would have
     * returned just before. A key that cannot be decoded ends it where it stands.
     */
    method DeletePrefix(p: SpacedKey) returns (r: Result<seq<KeyValue>>)
      requires Linked()
      modifies this`delta, deltaInc`entries, deltaInc`dirty, deltaAccountCache
      ensures Linked()
      ensures match old(StateSpec.DeletePrefix(K, Now(), p))
        case Ok(d) => r == Ok(d.list) && Now() == d.after
        case Err(e) => r == Err(e) && Now() == old(AfterFailedDelete(K, Now(), p))
      ensures r.Ok? ==> r == old(StateSpec.ReadPrefix(K, Now(), p))
    {
      hide NibbleMap, IsNibbleForm, IncrementalTrie.Valid, AccountKeyCache.Valid, LiveEntries, ScanKeys, IsListing,
        ListsSnapshot, ToKeyBytes, ToDeltaKeyBytes, ReadTop, ReadLayer, ReadSnapshot, RekeyAll, DecodeAll, Passes,
        HideIntermediate, HideSnapshot, Rekeyable, Decodable, Linked;
      var canonicalPrefix :- ToKeyBytes(p);
      var deltaPrefix :- ToDeltaKeyBytes(K, p, deltaPadding);
      var intermediatePrefix :- ToDeltaKeyBytes(K, p, intermediatePadding);
      var filter := AddressFilter(p);
      ghost var s := Now();
      ghost var dk, ik := ScanKeys(s.delta.Keys, deltaPrefix), ScanKeys(s.intermediate.Keys, intermediatePrefix);
      ghost var sk := ScanKeys(s.snapshot.Keys, canonicalPrefix);
      ScanIsInside(s.delta.Keys, deltaPrefix);
      ScanIsInside(s.intermediate.Keys, intermediatePrefix);
      ScanIsInside(s.snapshot.Keys, canonicalPrefix);
      var dropped := DropDelta(deltaPrefix);
      var list := ScanPrefix(intermediate, intermediatePrefix);
      var entries := SnapshotMatches(canonicalPrefix);

      var found :- CollectTop(dropped, filter, s.delta, dk);
      HideIntermediateMatches(list, filter, ik);
      found :- CollectBelow(list, filter, found, intermediate, ik);
      RekeyableAll(ik);
      var _ :- HideSnapshotMatches(entries, sk);
      DecodableAll(sk);
      var result := CollectSnapshot(entries, found.result, found.seen, s.snapshot, sk);
      r := Ok(result);
    }

    method SnapshotMatches(canonicalPrefix: Bytes) returns (entries: seq<KeyValue>)
      requires Linked()
      ensures ListsSnapshot(entries, snapshot.contents, ScanKeys(snapshot.contents.Keys, canonicalPrefix))
    {
      hide NibbleMap, IsNibbleForm, IncrementalTrie.Valid, AccountKeyCache.Valid, ScanKeys, ListsSnapshot;
      entries := snapshot.ScanPrefix(canonicalPrefix);
    }

    /** Removes every delta entry whose raw key starts with the prefix, from the map and from the cached trie. */
    method DropDelta(deltaPrefix: Bytes) returns (dropped: seq<Trie.Entry>)
      requires Linked()
      modifies this`delta, deltaInc`entries, deltaInc`dirty
      ensures Linked()
      ensures IsListing(dropped, old(delta), ScanKeys(old(delta).Keys, deltaPrefix))
      ensures Now() == old(Now()).(delta := old(delta) - (set k | k in old(delta) && deltaPrefix <= k))
    {
      hide NibbleMap, IsNibbleForm, IncrementalTrie.Valid, SnapshotTrie.Valid, AccountKeyCache.Valid, ScanKeys,
        IsListing, Sorted, ToNibbles, KeysUpTo;
      dropped := ScanPrefix(delta, deltaPrefix);
      NoneDropped(delta, dropped);
      for i := 0 to |dropped|
        invariant Linked()
        invariant Now() == old(Now()).(delta := delta)
        invariant delta == old(delta) - KeysUpTo(dropped, i)
      {
        OneDropped(old(delta), dropped, i);
        TrieRuns.NibbleMapAfterRemove(delta, dropped[i].key);
        deltaInc.Remove(dropped[i].key);
        delta := delta - {dropped[i].key};
      }
      DroppedAll(old(delta), deltaPrefix, dropped);
    }

    /** Tombstones over the live intermediate matches, up to the first raw key that cannot be re-keyed. */
    method HideIntermediateMatches(list: seq<Trie.Entry>, filter: Option<Bytes>, ghost keys: seq<Bytes>)
      requires Linked() && IsListing(list, intermediate, keys)
      requires forall i :: 0 <= i < |keys| ==> keys[i] in intermediate
      modifies this`delta, deltaInc`entries, deltaInc`dirty, deltaAccountCache
      ensures Linked()
      ensures Now() == old(Now()).(
        delta := old(HideIntermediate(K, intermediate, Rekeyable(keys), filter, deltaPadding, delta)))
    {
      hide Linked, CanonicalOf, Rekey, KeyOfDelta, HideKey, HideIntermediate, IsListing, Rekeyable;
      assert keys[0..] == keys;
      ListingLength(list, intermediate, keys);
      for i := 0 to |list|
        invariant Linked()
        invariant Now() == old(Now()).(delta := delta)
        invariant HideIntermediate(K, intermediate, Rekeyable(keys[i..]), filter, deltaPadding, delta)
               == HideIntermediate(K, intermediate, Rekeyable(keys), filter, deltaPadding, old(delta))
      {
        HideIntermediateStep(K, intermediate, keys, i, filter, deltaPadding, delta);
        ListedAt(list, intermediate, keys, i);
        if Rekey(list[i].key).Err? {
          return;
        }
        HideMatch(list[i], filter);
      }
      HideNothing(K, intermediate, keys[|list|..], filter, deltaPadding, delta);
    }

    /** A tombstone over one live match. */
    method HideMatch(entry: Trie.Entry, filter: Option<Bytes>)
      requires Linked() && Rekey(entry.key).Ok?
      modifies this`delta, deltaInc`entries, deltaInc`dirty, deltaAccountCache
      ensures Linked()
      ensures Now() == old(Now()).(
        delta := if Passes(filter, CanonicalOf(entry.key)) && entry.value.VisibleValue().Some?
                 then HideKey(K, KeyOfDelta(entry.key), deltaPadding, old(delta)) else old(delta))
    {
      hide Linked, Rekey, KeyOfDelta, HideKey, CanonicalOf, HasBadAddress;
      RekeyedValue(entry.key);
      DecodedEncodes(entry.key);
      DecodedKeys(entry.key);
      var canonical := Rekey(entry.key).value;
      if filter.Some? && !(filter.value <= canonical) {
        return;
      }
      if entry.value.VisibleValue().Some? {
        WriteTombstone(KeyOfDelta(entry.key));
      }
    }

    /** Tombstones over the snapshot matches, up to the first key that cannot be decoded. */
    method HideSnapshotMatches(entries: seq<KeyValue>, ghost keys: seq<Bytes>) returns (r: Result<()>)
      requires Linked() && ListsSnapshot(entries, snapshot.contents, keys)
      modifies this`delta, deltaInc`entries, deltaInc`dirty, deltaAccountCache
      ensures Linked()
      ensures Now() == old(Now()).(delta := old(HideSnapshot(K, Decodable(keys), deltaPadding, delta)))
      ensures match DecodeAll(keys) case Ok(_) => r.Ok? case Err(e) => r == Err(e)
    {
      hide Linked, FromKeyBytes, KeyOfCanonical, HideKey, HideSnapshot, Decodable, DecodeAll, HasBadAddress;
      assert keys[0..] == keys;
      for i := 0 to |entries|
        invariant Linked()
        invariant Now() == old(Now()).(delta := delta)
        invariant HideSnapshot(K, Decodable(keys[i..]), deltaPadding, delta)
               == HideSnapshot(K, Decodable(keys), deltaPadding, old(delta))
        invariant DecodeAll(keys[i..]) == DecodeAll(keys)
      {
        HideSnapshotStep(K, keys, i, deltaPadding, delta);
        var key := FromKeyBytes(entries[i].key);
        if key.Err? {
          return Err(key.error);
        }
        DecodedEncodes(entries[i].key);
        DecodedKeys(entries[i].key);
        WriteTombstone(KeyOfCanonical(entries[i].key));
      }
      HideNoSnapshot(K, keys[|entries|..], deltaPadding, delta);
      r := Ok(());
    }

    /** `set` with an empty value. */
    method WriteTombstone(k: SpacedKey)
      requires Linked() && !HasBadAddress(k)
      modifies this`delta, deltaInc`entries, deltaInc`dirty, deltaAccountCache
      ensures Linked()
      ensures Now() == old(Now()).(delta := HideKey(K, k, deltaPadding, old(delta)))
    {
      hide Linked, ToDeltaKeyBytes, HasBadAddress;
      RejectedExactlyWhen(K, k, deltaPadding);
      var r := Set(k, []);
      assert r.Ok?;
    }

    /** Takes the intermediate layer and gives its entries under canonical keys, in the order of the raw keys. */
    method RekeyIntermediate() returns (r: Result<seq<Update>>)
      requires Linked()
      modifies this`intermediate
      ensures Linked() && Now() == old(Now()).(intermediate := map[])
      ensures AllInside(old(intermediate))
      ensures match RekeyAll(SortedKeys(old(intermediate).Keys))
        case Ok(_) => r == Ok(Rekeyed(old(intermediate), SortedKeys(old(intermediate).Keys)))
        case Err(e) => r == Err(e)
    {
      hide Rekey, Sorted, SortedKeys, Rekeyed, RekeyAll, NibbleMap, IsNibbleForm, IncrementalTrie.Valid,
        SnapshotTrie.Valid, AccountKeyCache.Valid, LiveEntries;
      r := RekeyEntries(intermediate);
      intermediate := map[];
    }
  }

  predicate AllInside(m: EntryMap) {
    forall i :: 0 <= i < |SortedKeys(m.Keys)| ==> SortedKeys(m.Keys)[i] in m
  }

  /** The entries under canonical keys, in the order of the raw keys; the first that cannot be re-keyed is an error. */
  method RekeyEntries(m: EntryMap) returns (r: Result<seq<Update>>)
    ensures AllInside(m)
    ensures match RekeyAll(SortedKeys(m.Keys))
      case Ok(_) => r == Ok(Rekeyed(m, SortedKeys(m.Keys)))
      case Err(e) => r == Err(e)
  {
    hide Rekey, CanonicalOf, Sorted, SortedKeys, Rekeyed, RekeyAll;
    SortedIsInside(m.Keys);
    var keys := SortedKeys(m.Keys);
    var updates: seq<Update> := [];
    assert keys[0..] == keys && [] + Rekeyed(m, keys) == Rekeyed(m, keys);
    for i := 0 to |keys|
      invariant updates + Rekeyed(m, keys[i..]) == Rekeyed(m, keys)
      invariant RekeyAll(keys[i..]) == RekeyAll(keys)
    {
      RekeyAllStep(keys, i);
      RekeyedMore(m, keys, i, updates);
      var canonical := Rekey(keys[i]);
      if canonical.Err? {
        return Err(canonical.error);
      }
      RekeyedValue(keys[i]);
      updates := updates + [Update(canonical.value, m[keys[i]])];
    }
    RekeyedAll(m, keys[|keys|..], updates);
    r := Ok(updates);
  }

  lemma DecodedKeys(raw: Bytes)
    ensures FromKeyBytes(raw).Ok? ==> KeyOfCanonical(raw) == FromKeyBytes(raw).value
    ensures Rekey(raw).Ok? ==> KeyOfDelta(raw) == FromDeltaKey(raw).value
  {
    hide FromKeyBytes, FromDeltaKey;
  }

  lemma RekeyedMore(m: EntryMap, keys: seq<Bytes>, i: nat, updates: seq<Update>)
    requires i < |keys| && forall j :: 0 <= j < |keys| ==> keys[j] in m
    ensures updates + Rekeyed(m, keys[i..])
         == (updates + [Update(CanonicalOf(keys[i]), m[keys[i]])]) + Rekeyed(m, keys[i + 1..])
  {
    hide CanonicalOf;
    assert keys[i..][0] == keys[i] && keys[i..][1..] == keys[i + 1..];
  }

  lemma RekeyedAll(m: EntryMap, keys: seq<Bytes>, updates: seq<Update>)
    requires keys == []
    ensures updates + Rekeyed(m, keys) == updates && RekeyAll(keys).Ok?
  {
  }

  lemma {:induction false} RekeyableAll(keys: seq<Bytes>)
    ensures RekeyAll(keys).Ok? ==> Rekeyable(keys) == keys
  {
    hide Rekey;
    if keys != [] {
      RekeyableAll(keys[1..]);
    }
  }

  lemma {:induction false} DecodableAll(keys: seq<Bytes>)
    ensures DecodeAll(keys).Ok? ==> Decodable(keys) == keys
  {
    hide FromKeyBytes;
    if keys != [] {
      DecodableAll(keys[1..]);
    }
  }

  lemma ListingLength(list: seq<Trie.Entry>, m: EntryMap, keys: seq<Bytes>)
    requires IsListing(list, m, keys)
    ensures |list| == |keys|
  {
  }

  lemma ListedAt(list: seq<Trie.Entry>, m: EntryMap, keys: seq<Bytes>, i: nat)
    requires IsListing(list, m, keys) && i < |keys|
    ensures |list| == |keys| && keys[i] in m && list[i] == Trie.Entry(keys[i], m[keys[i]])
  {
  }

  lemma HideIntermediateStep(K: Keccak, m: EntryMap, keys: seq<Bytes>, i: nat, filter: Option<Bytes>,
                             padding: Padding, delta: EntryMap)
    requires i < |keys| && forall j :: 0 <= j < |keys| ==> keys[j] in m
    ensures HideIntermediate(K, m, Rekeyable(keys[i..]), filter, padding, delta) == (
      if Rekey(keys[i]).Err? then delta
      else HideIntermediate(K, m, Rekeyable(keys[i + 1..]), filter, padding,
             if Passes(filter, CanonicalOf(keys[i])) && m[keys[i]].VisibleValue().Some?
             then HideKey(K, KeyOfDelta(keys[i]), padding, delta) else delta))
  {
    hide CanonicalOf, KeyOfDelta, HideKey, Passes, Rekey;
    assert keys[i..][0] == keys[i] && keys[i..][1..] == keys[i + 1..];
  }

  lemma HideNothing(K: Keccak, m: EntryMap, keys: seq<Bytes>, filter: Option<Bytes>, padding: Padding,
                    delta: EntryMap)
    requires keys == []
    ensures HideIntermediate(K, m, Rekeyable(keys), filter, padding, delta) == delta
  {
  }

  lemma HideSnapshotStep(K: Keccak, keys: seq<Bytes>, i: nat, padding: Padding, delta: EntryMap)
    requires i < |keys|
    ensures HideSnapshot(K, Decodable(keys[i..]), padding, delta) == (
      if FromKeyBytes(keys[i]).Err? then delta
      else HideSnapshot(K, Decodable(keys[i + 1..]), padding, HideKey(K, KeyOfCanonical(keys[i]), padding, delta)))
    ensures DecodeAll(keys[i..])
         == if FromKeyBytes(keys[i]).Err? then Err(FromKeyBytes(keys[i]).error) else DecodeAll(keys[i + 1..])
  {
    hide KeyOfCanonical, HideKey, FromKeyBytes;
    assert keys[i..][0] == keys[i] && keys[i..][1..] == keys[i + 1..];
  }

  lemma HideNoSnapshot(K: Keccak, keys: seq<Bytes>, padding: Padding, delta: EntryMap)
    requires keys == []
    ensures HideSnapshot(K, Decodable(keys), padding, delta) == delta && DecodeAll(keys).Ok?
  {
  }

  ghost function KeysUpTo(list: seq<Trie.Entry>, n: nat): set<Bytes>
    requires n <= |list|
  {
    set i | 0 <= i < n :: list[i].key
  }

  lemma NoneDropped(m: EntryMap, list: seq<Trie.Entry>)
    ensures m - KeysUpTo(list, 0) == m
  {
  }

  lemma OneDropped(m: EntryMap, list: seq<Trie.Entry>, n: nat)
    requires n < |list|
    ensures m - KeysUpTo(list, n + 1) == (m - KeysUpTo(list, n)) - {list[n].key}
  {
    assert KeysUpTo(list, n + 1) == KeysUpTo(list, n) + {list[n].key};
  }

  lemma DroppedAll(m: EntryMap, prefix: Bytes, list: seq<Trie.Entry>)
    requires IsListing(list, m, ScanKeys(m.Keys, prefix))
    ensures KeysUpTo(list, |list|) == set k | k in m && prefix <= k
  {
    hide ScanKeys;
    var keys := ScanKeys(m.Keys, prefix);
    forall k
      ensures k in KeysUpTo(list, |list|) <==> k in m && prefix <= k
    {
      if k in m && prefix <= k {
        assert k in keys;
        var i :| 0 <= i < |keys| && keys[i] == k;
        assert list[i].key == k;
      }
      if k in KeysUpTo(list, |list|) {
        var i :| 0 <= i < |list| && list[i].key == k;
        assert keys[i] in keys;
      }
    }
  }

  lemma NothingLive()
    ensures LiveEntries(map[]) == map[]
  {
  }

  lemma DeltaRootIsTrieRoot(K: Keccak, m: EntryMap)
    ensures RootOf(K, NibbleMap(m)) == TrieRoot(K, m)
  {
  }
}
