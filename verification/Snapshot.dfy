/** The snapshot layer: a cached trie over canonical keys, all values live. */
module Snapshots {
  import opened Basics
  import opened TrieSpec
  import opened Incremental
  import opened StateSpec
  import Trie
  import TrieRuns

  class SnapshotTrie {
    const inner: IncrementalTrie
    /** The canonical map that the trie stands for. */
    ghost var contents: Snapshot

    ghost predicate Valid()
      reads this, inner
    {
      inner.Valid() && inner.entries == NibbleMap(LiveEntries(contents))
    }

    constructor (K: Keccak, snapshot: Snapshot)
      ensures Valid() && inner.K == K && contents == snapshot && fresh(inner)
    {
      inner := new IncrementalTrie.FromDelta(K, LiveEntries(snapshot));
      contents := snapshot;
    }

    method Insert(key: Bytes, value: Bytes)
      requires Valid()
      modifies this, inner`entries, inner`dirty
      ensures Valid() && contents == old(contents)[key := value]
    {
      hide NibbleMap, LiveEntries, ToNibbles, IncrementalTrie.Valid;
      inner.Insert(key, Live(value));
      EntriesAfterInsert(contents, key, value);
      contents := contents[key := value];
    }

    method Remove(key: Bytes)
      requires Valid()
      modifies this, inner`entries, inner`dirty
      ensures Valid() && contents == old(contents) - {key}
    {
      hide NibbleMap, LiveEntries, ToNibbles, IncrementalTrie.Valid;
      inner.Remove(key);
      EntriesAfterRemove(contents, key);
      contents := contents - {key};
    }

    /** Live updates insert, tombstones remove, in order. */
    method ApplyUpdates(updates: seq<Update>)
      requires Valid()
      modifies this, inner`entries, inner`dirty
      ensures Valid() && contents == StateSpec.ApplyUpdates(old(contents), updates)
    {
      hide Valid;
      assert updates[0..] == updates;
      for i := 0 to |updates|
        invariant Valid()
        invariant StateSpec.ApplyUpdates(contents, updates[i..]) == StateSpec.ApplyUpdates(old(contents), updates)
      {
        assert updates[i..][1..] == updates[i + 1..];
        match updates[i].value {
          case Live(value) => Insert(updates[i].key, value);
          case Tombstone => Remove(updates[i].key);
        }
      }
    }

    method RootWithPolicy(policy: CachePolicy) returns (root: H256)
      requires Valid()
      modifies inner`cache, inner`dirty
      ensures Valid() && root == TrieRoot(inner.K, LiveEntries(contents))
    {
      hide NibbleMap, IncrementalTrie.Valid;
      root := inner.RootWithPolicy(policy);
    }

    method Get(canonical: Bytes) returns (value: Option<Bytes>)
      requires Valid()
      ensures value == if canonical in contents then Some(contents[canonical]) else None
    {
      hide IncrementalTrie.Valid, NibbleMap;
      var nibbles := Trie.BytesToNibbles(canonical);
      value := if nibbles in inner.entries then inner.entries[nibbles].VisibleValue() else None;
    }

    /** The entries under a canonical prefix, found by the nibble range and turned back into bytes, in key order. */
    method ScanPrefix(prefix: Bytes) returns (list: seq<KeyValue>)
      requires Valid()
      ensures ListsSnapshot(list, contents, ScanKeys(contents.Keys, prefix))
    {
      hide IncrementalTrie.Valid, NibbleMap, LiveEntries, ToNibbles, FromNibbles, IsNibbles, RangeKeys, Block, Sorted,
        ScanKeys, ListsSnapshot, InContents;
      var nibblePrefix := Trie.BytesToNibbles(prefix);
      NibbleFormKeys(contents);
      RangeIsBlock(inner.entries, nibblePrefix);
      var range := SortedKeys(RangeKeys(inner.entries, nibblePrefix, PrefixUpper(nibblePrefix)));
      list := [];
      for i := 0 to |range|
        invariant |list| == i
        invariant forall j :: 0 <= j < i ==> InContents(contents, range[j], list[j])
      {
        assert range[i] in range;
        BlockIsInside(inner.entries, nibblePrefix, range[i]);
        LiveNibbleEntry(contents, inner.entries, range[i]);
        PairInContents(contents, range[i]);
        list := list + [KeyValue(FromNibbles(range[i]), inner.entries[range[i]].bytes)];
      }
      RangeListsScan(contents, inner.entries, prefix, range, list);
    }

    /** The canonical byte-keyed map, for a checkpoint. */
    method ToCanonicalMap() returns (m: Snapshot)
      requires Valid()
      ensures m == contents
    {
      hide IncrementalTrie.Valid, NibbleMap, LiveEntries, ToNibbles, FromNibbles, IsNibbles, Sorted, IsPart;
      var keys := SortedKeys(inner.entries.Keys);
      m := map[];
      NothingConverted(contents, keys);
      for i := 0 to |keys|
        invariant IsPart(m, contents, keys, i)
      {
        assert keys[i] in keys;
        LiveNibbleEntry(contents, inner.entries, keys[i]);
        OneConverted(m, contents, keys, i);
        m := m[FromNibbles(keys[i]) := inner.entries[keys[i]].bytes];
      }
      AllConverted(m, contents, inner.entries, keys);
    }
  }

  /** `m` holds exactly the entries whose nibble keys are among the first `n`. */
  ghost predicate IsPart(m: Snapshot, contents: Snapshot, keys: seq<Bytes>, n: nat)
    requires n <= |keys|
  {
    && (forall k :: k in m ==> k in contents && m[k] == contents[k])
    && (forall i :: 0 <= i < n ==> IsNibbles(keys[i]) && FromNibbles(keys[i]) in m)
  }

  lemma NothingConverted(contents: Snapshot, keys: seq<Bytes>)
    ensures IsPart(map[], contents, keys, 0)
  {
  }

  lemma OneConverted(m: Snapshot, contents: Snapshot, keys: seq<Bytes>, i: nat)
    requires i < |keys| && IsPart(m, contents, keys, i)
    requires IsNibbles(keys[i]) && FromNibbles(keys[i]) in contents
    ensures IsPart(m[FromNibbles(keys[i]) := contents[FromNibbles(keys[i])]], contents, keys, i + 1)
  {
  }

  lemma AllConverted(m: Snapshot, contents: Snapshot, entries: EntryMap, keys: seq<Bytes>)
    requires IsPart(m, contents, keys, |keys|)
    requires entries == NibbleMap(LiveEntries(contents)) && forall q :: q in entries ==> q in keys
    ensures m == contents
  {
    hide NibbleMap, ToNibbles;
    forall k | k in contents
      ensures k in m
    {
      assert k in LiveEntries(contents);
      assert ToNibbles(k) in keys;
      var i :| 0 <= i < |keys| && keys[i] == ToNibbles(k);
      assert FromNibbles(keys[i]) == k;
    }
  }

  lemma EntriesAfterInsert(contents: Snapshot, key: Bytes, value: Bytes)
    ensures NibbleMap(LiveEntries(contents[key := value]))
         == NibbleMap(LiveEntries(contents))[ToNibbles(key) := Live(value)]
  {
    hide NibbleMap, ToNibbles, LiveEntries;
    LiveAfterInsert(contents, key, value);
    TrieRuns.NibbleMapAfterInsert(LiveEntries(contents), key, Live(value));
  }

  lemma LiveAfterInsert(contents: Snapshot, key: Bytes, value: Bytes)
    ensures LiveEntries(contents[key := value]) == LiveEntries(contents)[key := Live(value)]
  {
  }

  lemma EntriesAfterRemove(contents: Snapshot, key: Bytes)
    ensures NibbleMap(LiveEntries(contents - {key})) == NibbleMap(LiveEntries(contents)) - {ToNibbles(key)}
  {
    hide NibbleMap, ToNibbles;
    TrieRuns.NibbleMapAfterRemove(LiveEntries(contents), key);
    assert LiveEntries(contents - {key}) == LiveEntries(contents) - {key};
  }

  /** `list` gives the entries of `contents` for `keys`, in their order. */
  ghost predicate ListsSnapshot(list: seq<KeyValue>, contents: Snapshot, keys: seq<Bytes>) {
    && |list| == |keys|
    && forall i :: 0 <= i < |list| ==> keys[i] in contents && list[i] == KeyValue(keys[i], contents[keys[i]])
  }

  ghost predicate InContents(contents: Snapshot, nibbles: Bytes, kv: KeyValue) {
    kv.key in contents && kv.value == contents[kv.key] && ToNibbles(kv.key) == nibbles
  }

  lemma PairInContents(contents: Snapshot, q: Bytes)
    requires IsNibbles(q) && FromNibbles(q) in contents && ToNibbles(FromNibbles(q)) == q
    ensures InContents(contents, q, KeyValue(FromNibbles(q), contents[FromNibbles(q)]))
  {
  }

  lemma NibbleFormKeys(contents: Snapshot)
    ensures NibbleKeys(NibbleMap(LiveEntries(contents)).Keys)
  {
  }

  lemma BlockIsInside(entries: EntryMap, p: Bytes, q: Bytes)
    requires q in Block(entries, p)
    ensures q in entries
  {
  }

  lemma LiveNibbleEntry(contents: Snapshot, entries: EntryMap, q: Bytes)
    requires entries == NibbleMap(LiveEntries(contents)) && q in entries
    ensures IsNibbles(q) && FromNibbles(q) in contents && ToNibbles(FromNibbles(q)) == q
    ensures entries[q] == Live(contents[FromNibbles(q)])
  {
    hide NibbleMap;
    assert FromNibbles(q) in LiveEntries(contents);
  }

  lemma RangeListsScan(contents: Snapshot, entries: EntryMap, prefix: Bytes, range: seq<Bytes>, list: seq<KeyValue>)
    requires entries == NibbleMap(LiveEntries(contents))
    requires Sorted(range) && forall q :: q in range <==> q in Block(entries, ToNibbles(prefix)).Keys
    requires |list| == |range| && forall j :: 0 <= j < |list| ==> InContents(contents, range[j], list[j])
    ensures ListsSnapshot(list, contents, ScanKeys(contents.Keys, prefix))
  {
    hide NibbleMap, ScanKeys, Sorted, IsNibbles, ToNibbles, FromNibbles, Less;
    var keys := KeysOfList(list);
    KeysOfListSorted(contents, range, list);
    forall k
      ensures k in keys <==> k in ScanKeys(contents.Keys, prefix)
    {
      KeyListedIffScanned(contents, entries, prefix, range, list, k);
    }
    SortedIsUnique(keys, ScanKeys(contents.Keys, prefix));
  }

  ghost function KeysOfList(list: seq<KeyValue>): (keys: seq<Bytes>)
    ensures |keys| == |list| && forall i :: 0 <= i < |list| ==> keys[i] == list[i].key
  {
    seq(|list|, i requires 0 <= i < |list| => list[i].key)
  }

  lemma KeysOfListSorted(contents: Snapshot, range: seq<Bytes>, list: seq<KeyValue>)
    requires Sorted(range)
    requires |list| == |range| && forall j :: 0 <= j < |list| ==> InContents(contents, range[j], list[j])
    ensures Sorted(KeysOfList(list))
  {
    hide Less, ToNibbles, FromNibbles;
    forall i, j | 0 <= i < j < |list|
      ensures Less(list[i].key, list[j].key)
    {
      assert InContents(contents, range[i], list[i]) && InContents(contents, range[j], list[j]);
      ToNibblesKeepsOrder(list[i].key, list[j].key);
    }
  }

  lemma KeyListedIffScanned(contents: Snapshot, entries: EntryMap, prefix: Bytes, range: seq<Bytes>,
                            list: seq<KeyValue>, k: Bytes)
    requires entries == NibbleMap(LiveEntries(contents))
    requires forall q :: q in range <==> q in Block(entries, ToNibbles(prefix)).Keys
    requires |list| == |range| && forall j :: 0 <= j < |list| ==> InContents(contents, range[j], list[j])
    ensures k in KeysOfList(list) <==> k in ScanKeys(contents.Keys, prefix)
  {
    hide NibbleMap, ScanKeys;
    ToNibblesKeepsPrefixes(prefix, k);
    if k in ScanKeys(contents.Keys, prefix) {
      assert k in LiveEntries(contents);
      assert ToNibbles(k) in range;
      var j :| 0 <= j < |range| && range[j] == ToNibbles(k);
      assert InContents(contents, range[j], list[j]);
      ToNibblesKeepsPrefixes(list[j].key, k);
      assert KeysOfList(list)[j] == k;
    }
    if k in KeysOfList(list) {
      var j :| 0 <= j < |list| && KeysOfList(list)[j] == k;
      assert InContents(contents, range[j], list[j]);
      assert range[j] in range;
    }
  }
}
