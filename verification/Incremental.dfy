/** The cached trie: the same root, skipping every subtree whose hash is still known. */
module Incremental {
  import opened Basics
  import opened TrieSpec
  import opened Trie

  const PARALLEL_REBUILD_THRESHOLD: nat := 4096
  const PARALLEL_REBUILD_DEPTH: nat := 3

  /** Which subtree hashes are kept after a walk. */
  datatype CachePolicy = Full | SkipSingleton

  type Cache = map<Bytes, H256>

  datatype CacheEntry = CacheEntry(prefix: Bytes, hash: H256)

  // ---------------------------------------------------------------------------------------------
  // Ranges of the sorted map
  // ---------------------------------------------------------------------------------------------

  /** Exclusive upper bound of the keys under `rp`. */
  function PrefixUpper(rp: Bytes): Bytes {
    rp + [CHILDREN]
  }

  /** The keys that `entries.range(lo..hi)` visits. */
  function RangeKeys(entries: EntryMap, lo: Bytes, hi: Bytes): set<Bytes> {
    set k | k in entries && !Less(k, lo) && Less(k, hi)
  }

  lemma RangeBoundsArePrefix(k: Bytes, rp: Bytes)
    requires IsNibbles(k)
    ensures !Less(k, rp) && Less(k, PrefixUpper(rp)) <==> rp <= k
  {
    var hi := PrefixUpper(rp);
    if rp <= k {
      LcpIs(k, rp, |rp|);
      LcpIs(k, hi, |rp|);
    } else {
      var n := Lcp(k, rp);
      assert n < |rp|;
      LcpIs(k, hi, n);
      assert n == |k| || k[n] != rp[n];
    }
  }

  /** The half-open range from `rp` to `rp` followed by 16 is exactly the block under `rp`. */
  lemma RangeIsBlock(entries: EntryMap, rp: Bytes)
    requires NibbleKeys(entries.Keys)
    ensures RangeKeys(entries, rp, PrefixUpper(rp)) == Block(entries, rp).Keys
  {
    forall k | k in entries
      ensures k in RangeKeys(entries, rp, PrefixUpper(rp)) <==> k in Block(entries, rp)
    {
      RangeBoundsArePrefix(k, rp);
    }
  }

  /** Length of the shared prefix of the two end keys beyond `depth`. */
  function CommonPrefixOfEnds(first: Bytes, last: Bytes, depth: nat): (n: nat)
    requires depth <= |first| && depth <= |last|
    ensures depth + n <= |first| && depth + n <= |last|
    ensures forall i :: depth <= i < depth + n ==> first[i] == last[i]
    ensures depth + n < |first| && depth + n < |last| ==> first[depth + n] != last[depth + n]
    decreases |first| - depth
  {
    if depth < |first| && depth < |last| && first[depth] == last[depth] then
      1 + CommonPrefixOfEnds(first, last, depth + 1)
    else
      0
  }

  lemma BetweenSharesPrefix(p: Bytes, first: Bytes, k: Bytes, last: Bytes)
    requires p <= first && p <= last
    requires first == k || Less(first, k)
    requires k == last || Less(k, last)
    ensures p <= k
  {
    var n := Lcp(first, k);
    if first != k && n < |p| {
      assert first[n] == p[n] == last[n] && first[n] < k[n];
      GreaterAt(last, k, n);
      LessIsTotal(k, last);
    }
  }

  lemma GreaterAt(a: Bytes, b: Bytes, n: nat)
    requires n < |a| && n < |b| && a[n] < b[n]
    requires forall i :: 0 <= i < n ==> a[i] == b[i]
    ensures Less(a, b)
  {
    LcpIs(a, b, n);
  }

  /** The common prefix of a sorted block is that of its first and last key. */
  lemma EndsGiveNodeAt(s: set<Bytes>, rp: Bytes, first: Bytes, last: Bytes)
    requires s != {} && AllExtend(s, rp) && rp != []
    requires IsLeast(s, first) && IsGreatest(s, last)
    ensures |rp| <= |first| && |rp| <= |last|
    ensures first[..|rp| + CommonPrefixOfEnds(first, last, |rp|)] == NodeAt(s, rp)
  {
    hide NodeAt, Less;
    assert first in s && last in s && rp <= first && rp <= last;
    EndsAgree(rp, first, last);
    var n := |rp| + CommonPrefixOfEnds(first, last, |rp|);
    EndsBoundPrefix(s, first[..n], first, last);
    EndsStopPrefix(s, n, first, last);
    NodePrefixIsUnique(s, first[..n], NodeAt(s, rp));
  }

  lemma EndsAgree(rp: Bytes, first: Bytes, last: Bytes)
    requires rp <= first && rp <= last
    ensures var n := |rp| + CommonPrefixOfEnds(first, last, |rp|);
      && first[..n] <= first && first[..n] <= last && rp <= first[..n]
      && forall i :: 0 <= i < n ==> first[i] == last[i]
  {
    var n := |rp| + CommonPrefixOfEnds(first, last, |rp|);
    forall i | 0 <= i < n
      ensures first[i] == last[i]
    {
      if i < |rp| {
        assert first[i] == rp[i] == last[i];
      }
    }
  }

  lemma EndsStopPrefix(s: set<Bytes>, n: nat, first: Bytes, last: Bytes)
    requires first in s && last in s && n <= |first| && n <= |last|
    requires forall i :: 0 <= i < n ==> first[i] == last[i]
    requires n < |first| && n < |last| ==> first[n] != last[n]
    ensures first[..n] in s || Splits(s, first[..n], first, last)
  {
    assert n == |first| ==> first[..n] == first;
    assert n == |last| ==> first[..n] == last;
  }

  lemma EndsBoundPrefix(s: set<Bytes>, p: Bytes, first: Bytes, last: Bytes)
    requires IsLeast(s, first) && IsGreatest(s, last)
    requires p <= first && p <= last
    ensures AllExtend(s, p)
  {
    forall k | k in s
      ensures p <= k
    {
      BetweenSharesPrefix(p, first, k, last);
    }
  }

  // ---------------------------------------------------------------------------------------------
  // What a cached hash means
  // ---------------------------------------------------------------------------------------------

  /** Some entries lie under `p`, and `h` is the stateless hash of their block. */
  ghost predicate IsHashOf(K: Keccak, entries: EntryMap, p: Bytes, h: H256) {
    && NibbleKeys(entries.Keys)
    && Block(entries, p) != map[]
    && (BlockUnder(entries, p); h == BlockHash(K, Block(entries, p), p))
  }

  ghost predicate CacheHolds(K: Keccak, entries: EntryMap, cache: Cache) {
    forall p :: p in cache ==> IsHashOf(K, entries, p, cache[p])
  }

  lemma BlockUnder(entries: EntryMap, p: Bytes)
    requires NibbleKeys(entries.Keys) && Block(entries, p) != map[]
    ensures IsBlock(Block(entries, p), p)
  {
  }

  lemma BlockOfBlock(entries: EntryMap, p: Bytes, q: Bytes)
    requires p <= q
    ensures Block(Block(entries, p), q) == Block(entries, q)
  {
    forall k | k in entries && q <= k
      ensures p <= k
    {
    }
  }

  /** Changing the entry of one key leaves every block that the key is not under as it was. */
  lemma UntouchedBlock(K: Keccak, before: EntryMap, after: EntryMap, key: Bytes, p: Bytes, h: H256)
    requires forall k :: k != key ==> (k in before <==> k in after)
    requires forall k :: k != key && k in before ==> before[k] == after[k]
    requires NibbleKeys(after.Keys)
    requires IsHashOf(K, before, p, h) && !(p <= key)
    ensures IsHashOf(K, after, p, h)
  {
    assert Block(before, p) == Block(after, p);
  }

  /** `cache` with the entries of a cold walk added, in order. */
  function Extended(cache: Cache, added: seq<CacheEntry>): Cache
    decreases added
  {
    if added == [] then cache else Extended(cache[added[0].prefix := added[0].hash], added[1..])
  }

  /** Entries of a cold walk below `rp`: distinct prefixes, each with its block's hash. */
  ghost predicate CacheListHolds(K: Keccak, b: EntryMap, rp: Bytes, added: seq<CacheEntry>) {
    && (forall i :: 0 <= i < |added| ==> rp <= added[i].prefix && IsHashOf(K, b, added[i].prefix, added[i].hash))
    && (forall i, j :: 0 <= i < j < |added| ==> added[i].prefix != added[j].prefix)
  }

  lemma {:induction false} ExtendedHolds(K: Keccak, entries: EntryMap, cache: Cache, added: seq<CacheEntry>)
    requires CacheHolds(K, entries, cache)
    requires forall i :: 0 <= i < |added| ==> IsHashOf(K, entries, added[i].prefix, added[i].hash)
    ensures CacheHolds(K, entries, Extended(cache, added))
    decreases added
  {
    if added != [] {
      ExtendedHolds(K, entries, cache[added[0].prefix := added[0].hash], added[1..]);
    }
  }

  // ---------------------------------------------------------------------------------------------
  // The cold rebuild over a sorted slice
  // ---------------------------------------------------------------------------------------------

  /** Whatever the depth and the threshold at which children are handed to other threads. */
  method MemoNodeRebuild(K: Keccak, entries: seq<Entry>, rp: Bytes, compress: bool, policy: CachePolicy,
                         parallelDepth: nat, threshold: nat, ghost b: EntryMap)
    returns (hash: H256, added: seq<CacheEntry>)
    requires Lists(entries, b) && IsBlock(b, rp)
    requires compress == (rp != [])
    ensures hash == BlockHash(K, b, rp)
    ensures CacheListHolds(K, b, rp, added)
    decreases MaxLen(b.Keys) - |rp|, 1, 0
  {
    hide Lists, InOrder, Partitions, CacheListHolds, BlockInput, IsHashOf;
    ListsNonEmpty(entries, b, rp);
    var depth := |rp|;
    var firstKey := entries[0].key;
    var lastKey := entries[|entries| - 1].key;
    var isSingleton := firstKey == lastKey;
    var common := 0;
    ghost var np := NodeAt(b.Keys, rp);
    if compress {
      EndsOfList(entries, b);
      EndsGiveNodeAt(b.Keys, rp, firstKey, lastKey);
      common := CommonPrefixOfEnds(firstKey, lastKey, depth);
    }
    var nodeDepth := depth + common;
    var fullPrefix := firstKey[..nodeDepth];
    assert fullPrefix == np;

    var maybeValue := FindEnding(entries, nodeDepth);
    FindEndingIsValueAt(entries, b, np, 0);
    assert entries[0..] == entries;

    ListsNonEmpty(entries, b, np);
    var ranges := ChildRanges(entries, nodeDepth, np);
    var childDepth := if parallelDepth > 0 && |entries| >= threshold && |ranges| > 1
                      then parallelDepth - 1 else 0;
    var children, childEntries := RebuildChildren(K, entries, ranges, fullPrefix, policy, childDepth, threshold, b);

    hash := CombineNode(K, children, maybeValue, firstKey[depth..nodeDepth], depth, b, rp);
    added := childEntries;
    if policy == Full || !isSingleton {
      added := added + [CacheEntry(rp, hash)];
      OwnEntryAdded(K, b, rp, np, childEntries, hash);
    } else {
      ChildEntriesSuffice(K, b, rp, np, childEntries);
    }
  }

  /** Node hash, then path hash: the common end of both walks. */
  method CombineNode(K: Keccak, children: seq<H256>, maybeValue: Option<Bytes>, path: Bytes, depth: nat,
                     ghost b: EntryMap, ghost rp: Bytes)
    returns (hash: H256)
    requires IsBlock(b, rp) && |rp| == depth && path == NodeAt(b.Keys, rp)[|rp|..]
    requires children == ChildHashes(K, b, NodeAt(b.Keys, rp), 0)
    requires maybeValue == ValueAt(b, NodeAt(b.Keys, rp))
    ensures hash == BlockHash(K, b, rp)
  {
    var hasChildren := exists c :: 0 <= c < CHILDREN && children[c] != NullNode(K);
    if !hasChildren {
      assert children == NullSlots(K);
    }
    PathOfBlock(b, rp);
    var node := ComputeNodeMerkle(K, if hasChildren then Some(children) else None, maybeValue);
    hash := ComputePathMerkle(K, path, depth, node);
  }

  lemma PathOfBlock(b: EntryMap, rp: Bytes)
    requires IsBlock(b, rp)
    ensures IsNibbles(NodeAt(b.Keys, rp)[|rp|..])
  {
    var np := NodeAt(b.Keys, rp);
    var k :| k in b.Keys;
    assert np <= k;
    assert forall i :: 0 <= i < |np| ==> np[i] == k[i];
  }

  /** Every entry is below a child whose nibble is smaller than `bound`. */
  ghost predicate BelowChildren(np: Bytes, bound: nat, added: seq<CacheEntry>) {
    forall i :: 0 <= i < |added| ==>
      np < added[i].prefix && added[i].prefix[|np|] < bound
  }

  method RebuildChildren(K: Keccak, entries: seq<Entry>, ranges: seq<ChildRange>, np: Bytes, policy: CachePolicy,
                         parallelDepth: nat, threshold: nat, ghost b: EntryMap)
    returns (children: seq<H256>, added: seq<CacheEntry>)
    requires Lists(entries, b) && IsBlock(b, np)
    requires Partitions(entries, |np|, ranges)
    ensures children == ChildHashes(K, b, np, 0)
    ensures CacheListHolds(K, b, np, added) && BelowChildren(np, CHILDREN, added)
    decreases MaxLen(b.Keys) - |np|, 0, 1
  {
    hide Lists, InOrder, Partitions, SlotsFilled, CacheListHolds, BelowChildren, BlockHash, ChildHashes;
    children := NullSlots(K);
    added := [];
    ghost var bound: nat := 0;
    NoSlotsFilled(K, b, np, ranges);
    NothingAdded(K, b, np);
    for j := 0 to |ranges|
      invariant |children| == CHILDREN
      invariant SlotsFilled(K, b, np, ranges, j, children)
      invariant CacheListHolds(K, b, np, added) && BelowChildren(np, bound, added)
      invariant bound == if j == 0 then 0 else ranges[j - 1].child + 1
    {
      RangeIsInside(entries, |np|, ranges, j);
      var hash, childAdded := RebuildChild(K, entries, ranges, j, np, policy, parallelDepth, threshold, b);
      ChildListAppended(K, b, np, bound, ranges[j].child, added, childAdded);
      SlotFilled(K, b, np, ranges, j, children);
      added := added + childAdded;
      children := children[ranges[j].child := hash];
      bound := ranges[j].child + 1;
    }
    AllSlotsFilled(K, entries, b, np, ranges, children);
    if ranges != [] {
      RangeIsInside(entries, |np|, ranges, |ranges| - 1);
    }
    BelowAnyBound(np, bound, added);
  }

  method RebuildChild(K: Keccak, entries: seq<Entry>, ranges: seq<ChildRange>, j: nat, np: Bytes, policy: CachePolicy,
                      parallelDepth: nat, threshold: nat, ghost b: EntryMap)
    returns (hash: H256, added: seq<CacheEntry>)
    requires Lists(entries, b) && IsBlock(b, np)
    requires Partitions(entries, |np|, ranges) && j < |ranges|
    ensures ranges[j].child < CHILDREN && hash == ChildHash(K, b, np, ranges[j].child)
    ensures CacheListHolds(K, Block(b, np + [ranges[j].child]), np + [ranges[j].child], added)
    decreases MaxLen(b.Keys) - |np|, 0, 0
  {
    hide Lists, InOrder, Partitions, CacheListHolds, BlockHash, ChildHashes;
    var r := ranges[j];
    RangeIsInside(entries, |np|, ranges, j);
    SliceListsChild(entries, b, np, ranges, j);
    OccupiedChildHash(K, b, np, r.child);
    hash, added := MemoNodeRebuild(K, entries[r.start..r.end], np + [r.child], true, policy, parallelDepth,
                                   threshold, Block(b, np + [r.child]));
  }

  lemma NothingAdded(K: Keccak, b: EntryMap, np: Bytes)
    ensures CacheListHolds(K, b, np, []) && BelowChildren(np, 0, [])
  {
  }

  lemma BelowAnyBound(np: Bytes, bound: nat, added: seq<CacheEntry>)
    requires BelowChildren(np, bound, added) && bound <= CHILDREN
    ensures BelowChildren(np, CHILDREN, added)
  {
  }

  /** Appending one child's entries keeps prefixes distinct: they differ in the nibble that names the child. */
  lemma ChildListAppended(K: Keccak, b: EntryMap, np: Bytes, bound: nat, c: nat,
                          added: seq<CacheEntry>, childAdded: seq<CacheEntry>)
    requires IsBlock(b, np) && c < CHILDREN && bound <= c
    requires CacheListHolds(K, b, np, added) && BelowChildren(np, bound, added)
    requires CacheListHolds(K, Block(b, np + [c]), np + [c], childAdded)
    ensures CacheListHolds(K, b, np, added + childAdded)
    ensures BelowChildren(np, c + 1, added + childAdded)
  {
    var all := added + childAdded;
    forall i | 0 <= i < |all|
      ensures np < all[i].prefix && all[i].prefix[|np|] < c + 1
      ensures IsHashOf(K, b, all[i].prefix, all[i].hash)
      ensures i >= |added| ==> all[i].prefix[|np|] == c
    {
      if i >= |added| {
        ChildEntryHolds(K, b, np, c, childAdded[i - |added|]);
      }
    }
    forall i, j | 0 <= i < j < |all|
      ensures all[i].prefix != all[j].prefix
    {
      if i < |added| <= j {
        assert all[i].prefix[|np|] < bound <= c == all[j].prefix[|np|];
      } else if |added| <= i {
        assert all[i] == childAdded[i - |added|] && all[j] == childAdded[j - |added|];
      }
    }
  }

  lemma ChildEntryHolds(K: Keccak, b: EntryMap, np: Bytes, c: nat, e: CacheEntry)
    requires NibbleKeys(b.Keys) && c < CHILDREN
    requires np + [c] <= e.prefix && IsHashOf(K, Block(b, np + [c]), e.prefix, e.hash)
    ensures np < e.prefix && e.prefix[|np|] == c
    ensures IsHashOf(K, b, e.prefix, e.hash)
  {
    ExtendsByOne(np, c, e.prefix);
    BlockOfBlock(b, np + [c], e.prefix);
  }

  lemma ChildEntriesSuffice(K: Keccak, b: EntryMap, rp: Bytes, np: Bytes, added: seq<CacheEntry>)
    requires rp <= np && CacheListHolds(K, b, np, added)
    ensures CacheListHolds(K, b, rp, added)
  {
  }

  lemma OwnEntryAdded(K: Keccak, b: EntryMap, rp: Bytes, np: Bytes, added: seq<CacheEntry>, hash: H256)
    requires IsBlock(b, rp) && rp <= np
    requires CacheListHolds(K, b, np, added) && BelowChildren(np, CHILDREN, added)
    requires hash == BlockHash(K, b, rp)
    ensures CacheListHolds(K, b, rp, added + [CacheEntry(rp, hash)])
  {
    hide IsHashOf;
    OwnHash(K, b, rp);
    forall i | 0 <= i < |added|
      ensures rp <= added[i].prefix && rp != added[i].prefix
    {
      assert np < added[i].prefix;
    }
  }

  lemma OwnHash(K: Keccak, b: EntryMap, rp: Bytes)
    requires IsBlock(b, rp)
    ensures IsHashOf(K, b, rp, BlockHash(K, b, rp))
  {
    assert Block(b, rp) == b;
  }

  lemma EndsOfList(entries: seq<Entry>, b: EntryMap)
    requires Lists(entries, b) && entries != []
    ensures IsLeast(b.Keys, entries[0].key) && IsGreatest(b.Keys, entries[|entries| - 1].key)
  {
    forall q | q in b.Keys
      ensures q != entries[0].key ==> Less(entries[0].key, q)
      ensures q != entries[|entries| - 1].key ==> Less(q, entries[|entries| - 1].key)
    {
      var i :| 0 <= i < |entries| && entries[i].key == q;
    }
  }

  /** The entries of a map in key order. */
  method ListEntries(m: EntryMap) returns (list: seq<Entry>)
    ensures Lists(list, m)
  {
    hide Sorted, Lists;
    var keys := SortedKeys(m.Keys);
    list := [];
    for i := 0 to |keys|
      invariant |list| == i
      invariant forall j :: 0 <= j < i ==> list[j].key == keys[j] && keys[j] in m && m[keys[j]] == list[j].value
    {
      assert keys[i] in keys;
      list := list + [Entry(keys[i], m[keys[i]])];
    }
    SortedListLists(m, keys, list);
  }

  lemma SortedListLists(m: EntryMap, keys: seq<Bytes>, list: seq<Entry>)
    requires Sorted(keys) && |list| == |keys|
    requires forall k :: k in keys <==> k in m
    requires forall j :: 0 <= j < |keys| ==> list[j].key == keys[j] && keys[j] in m && m[keys[j]] == list[j].value
    ensures Lists(list, m)
  {
    forall k | k in m
      ensures exists i :: 0 <= i < |list| && list[i].key == k
    {
      assert k in keys;
      var i :| 0 <= i < |keys| && keys[i] == k;
      assert list[i].key == k;
    }
  }

  // ---------------------------------------------------------------------------------------------
  // The trie
  // ---------------------------------------------------------------------------------------------

  class IncrementalTrie {
    const K: Keccak
    var entries: EntryMap
    var cache: Cache
    var dirty: set<Bytes>

    /** Each cached prefix is a prefix of a dirty key, or holds the stateless hash of its non-empty block. */
    ghost predicate Valid()
      reads this
    {
      && NibbleKeys(entries.Keys)
      && forall p :: p in cache ==> UnderDirty(dirty, p) || IsHashOf(K, entries, p, cache[p])
    }

    constructor (K: Keccak)
      ensures Valid() && this.K == K && entries == map[] && cache == map[] && dirty == {}
    {
      this.K := K;
      entries := map[];
      cache := map[];
      dirty := {};
    }

    /** From an existing byte-keyed map; the cache starts empty. */
    constructor FromDelta(K: Keccak, delta: EntryMap)
      ensures Valid() && this.K == K && entries == NibbleMap(delta) && cache == map[] && dirty == {}
    {
      hide NibbleMap;
      this.K := K;
      entries := NibbleMap(delta);
      cache := map[];
      dirty := {};
    }

    method Insert(key: Bytes, value: MptValue)
      requires Valid()
      modifies this`entries, this`dirty
      ensures Valid()
      ensures entries == old(entries)[ToNibbles(key) := value]
      ensures dirty == old(dirty) + {ToNibbles(key)}
    {
      var nibbles := BytesToNibbles(key);
      dirty := dirty + {nibbles};
      entries := entries[nibbles := value];
      forall p | p in cache
        ensures UnderDirty(dirty, p) || IsHashOf(K, entries, p, cache[p])
      {
        StillCached(K, old(entries), entries, old(dirty), nibbles, p, cache[p]);
      }
    }

    method Remove(key: Bytes)
      requires Valid()
      modifies this`entries, this`dirty
      ensures Valid()
      ensures entries == old(entries) - {ToNibbles(key)}
      ensures dirty == old(dirty) + {ToNibbles(key)}
    {
      var nibbles := BytesToNibbles(key);
      entries := entries - {nibbles};
      dirty := dirty + {nibbles};
      forall p | p in cache
        ensures UnderDirty(dirty, p) || IsHashOf(K, entries, p, cache[p])
      {
        StillCached(K, old(entries), entries, old(dirty), nibbles, p, cache[p]);
      }
    }

    method Clear()
      modifies this
      ensures Valid() && entries == map[] && cache == map[] && dirty == {}
    {
      entries := map[];
      cache := map[];
      dirty := {};
    }

    method Root() returns (root: H256)
      requires Valid()
      modifies this`cache, this`dirty
      ensures Valid()
      ensures root == RootOf(K, entries)
    {
      root := RootWithPolicy(Full);
    }

    method RootWithPolicy(policy: CachePolicy) returns (root: H256)
      requires Valid()
      modifies this`cache, this`dirty
      ensures Valid() && dirty == {}
      ensures root == RootOf(K, entries)
    {
      if entries == map[] {
        cache := map[];
        dirty := {};
        return NullNode(K);
      }
      EvictDirty();
      dirty := {};
      assert Block(entries, []) == entries;
      if cache == map[] && |entries| >= PARALLEL_REBUILD_THRESHOLD {
        var list := ListEntries(entries);
        var added;
        root, added := MemoNodeRebuild(K, list, [], false, policy, PARALLEL_REBUILD_DEPTH,
                                       PARALLEL_REBUILD_THRESHOLD, entries);
        ExtendedHolds(K, entries, cache, added);
        cache := Extended(cache, added);
      } else {
        root := MemoNode([], false, policy);
      }
    }

    /** Evicts every prefix of every dirty key, whatever the shape of the trie is now, and nothing else. */
    method EvictDirty()
      requires Valid()
      modifies this`cache
      ensures cache == map p | p in old(cache) && !UnderDirty(dirty, p) :: old(cache)[p]
      ensures CacheHolds(K, entries, cache)
    {
      hide Sorted, SortedKeys, IsHashOf, Evicted;
      var keys := SortedKeys(dirty);
      NothingEvicted(cache, keys);
      for i := 0 to |keys|
        invariant Evicted(old(cache), cache, keys, i)
      {
        label Before:
        EvictPrefixes(keys[i]);
        OneEvicted(old(cache), old@Before(cache), cache, keys, i);
      }
      AllEvicted(old(cache), cache, dirty, keys);
    }

    method EvictPrefixes(nibbles: Bytes)
      modifies this`cache
      ensures cache == map p | p in old(cache) && !(p <= nibbles) :: old(cache)[p]
    {
      for len := 0 to |nibbles| + 1
        invariant cache == map p | p in old(cache) && !(p <= nibbles && |p| < len) :: old(cache)[p]
      {
        cache := cache - {nibbles[0..len]};
        assert forall p :: p <= nibbles && |p| == len ==> p == nibbles[0..len];
      }
    }

    /** The walk over the sorted map: a cached prefix returns at once, everything else is recomputed. */
    method MemoNode(rp: Bytes, compress: bool, policy: CachePolicy) returns (hash: H256)
      requires NibbleKeys(entries.Keys) && IsBlock(Block(entries, rp), rp)
      requires compress == (rp != [])
      requires CacheHolds(K, entries, cache)
      modifies this`cache
      ensures CacheHolds(K, entries, cache)
      ensures hash == BlockHash(K, Block(entries, rp), rp)
      decreases MaxLen(entries.Keys) - |rp|, 1
    {
      hide CacheHolds, IsHashOf, BlockHash, RangeKeys, NodeAt, ChildHashes, IsLeast, IsGreatest, Less;
      if rp in cache {
        CachedHash(K, entries, cache, rp);
        return cache[rp];
      }
      ghost var b := Block(entries, rp);
      var depth := |rp|;
      var range := RangeKeys(entries, rp, PrefixUpper(rp));
      RangeIsBlock(entries, rp);
      var firstKey := LeastKey(range);
      var lastKey := if compress || policy == SkipSingleton then GreatestKey(range) else firstKey;
      var isSingleton := firstKey == lastKey;
      var common := 0;
      if compress {
        EndsGiveNodeAt(b.Keys, rp, firstKey, lastKey);
        common := CommonPrefixOfEnds(firstKey, lastKey, depth);
      }
      var nodeDepth := depth + common;
      LeastIsMember(range, firstKey);
      PrefixOfFirst(b, rp, firstKey, nodeDepth, compress);
      var fullPrefix := firstKey[..nodeDepth];

      var maybeValue := if fullPrefix in entries then Some(entries[fullPrefix].MerkleValue()) else None;
      var children := MemoChildren(fullPrefix, policy, rp);
      hash := CombineNode(K, children, maybeValue, firstKey[depth..nodeDepth], depth, b, rp);
      if policy == Full || !isSingleton {
        CacheGrows(K, entries, cache, rp, hash);
        cache := cache[rp := hash];
      }
    }

    method MemoChildren(np: Bytes, policy: CachePolicy, ghost rp: Bytes) returns (children: seq<H256>)
      requires NibbleKeys(entries.Keys) && rp <= np
      requires IsBlock(Block(entries, rp), np)
      requires CacheHolds(K, entries, cache)
      modifies this`cache
      ensures CacheHolds(K, entries, cache)
      ensures children == ChildHashes(K, Block(entries, rp), np, 0)
      decreases MaxLen(entries.Keys) - |np|, 0
    {
      hide CacheHolds, IsHashOf, BlockHash, RangeKeys, ChildHash;
      ghost var b := Block(entries, rp);
      children := NullSlots(K);
      for c := 0 to CHILDREN
        invariant |children| == CHILDREN
        invariant CacheHolds(K, entries, cache)
        invariant forall i :: 0 <= i < c ==> children[i] == ChildHash(K, b, np, i)
        invariant forall i :: c <= i < CHILDREN ==> children[i] == NullNode(K)
      {
        var childRp := np + [c];
        ChildBlock(K, entries, rp, np, c);
        if childRp in cache {
          CachedHash(K, entries, cache, childRp);
          children := children[c := cache[childRp]];
          continue;
        }
        RangeIsBlock(entries, childRp);
        if RangeKeys(entries, childRp, PrefixUpper(childRp)) != {} {
          var hash := MemoNode(childRp, true, policy);
          children := children[c := hash];
        }
      }
    }
  }

  /** What is left of the cache once the prefixes of the first `n` keys are evicted. */
  ghost predicate Evicted(before: Cache, after: Cache, keys: seq<Bytes>, n: nat)
    requires n <= |keys|
  {
    after == map p | p in before && (forall j :: 0 <= j < n ==> !(p <= keys[j])) :: before[p]
  }

  lemma NothingEvicted(cache: Cache, keys: seq<Bytes>)
    ensures Evicted(cache, cache, keys, 0)
  {
  }

  lemma OneEvicted(before: Cache, middle: Cache, after: Cache, keys: seq<Bytes>, n: nat)
    requires n < |keys| && Evicted(before, middle, keys, n)
    requires after == map p | p in middle && !(p <= keys[n]) :: middle[p]
    ensures Evicted(before, after, keys, n + 1)
  {
  }

  lemma AllEvicted(before: Cache, after: Cache, dirty: set<Bytes>, keys: seq<Bytes>)
    requires forall d :: d in keys <==> d in dirty
    requires Evicted(before, after, keys, |keys|)
    ensures after == map p | p in before && !UnderDirty(dirty, p) :: before[p]
  {
    forall p | p in before
      ensures UnderDirty(dirty, p) <==> exists j :: 0 <= j < |keys| && p <= keys[j]
    {
      if d :| d in dirty && p <= d {
        var j :| 0 <= j < |keys| && keys[j] == d;
        assert p <= keys[j];
      }
      if j :| 0 <= j < |keys| && p <= keys[j] {
        assert keys[j] in dirty;
      }
    }
  }

  lemma CachedHash(K: Keccak, entries: EntryMap, cache: Cache, p: Bytes)
    requires CacheHolds(K, entries, cache) && p in cache
    ensures NibbleKeys(entries.Keys) && Block(entries, p) != map[] && IsBlock(Block(entries, p), p)
    ensures cache[p] == BlockHash(K, Block(entries, p), p)
  {
  }

  lemma CacheGrows(K: Keccak, entries: EntryMap, cache: Cache, p: Bytes, h: H256)
    requires CacheHolds(K, entries, cache)
    requires NibbleKeys(entries.Keys) && IsBlock(Block(entries, p), p)
    requires h == BlockHash(K, Block(entries, p), p)
    ensures CacheHolds(K, entries, cache[p := h])
  {
  }

  lemma PrefixOfFirst(b: EntryMap, rp: Bytes, first: Bytes, n: nat, compress: bool)
    requires IsBlock(b, rp) && first in b && compress == (rp != []) && |rp| <= n <= |first|
    requires compress ==> first[..n] == NodeAt(b.Keys, rp)
    requires !compress ==> n == 0
    ensures first[..n] == NodeAt(b.Keys, rp) && IsBlock(b, first[..n]) && rp <= first[..n]
    ensures first[|rp|..n] == NodeAt(b.Keys, rp)[|rp|..]
  {
  }

  lemma LeastIsMember(s: set<Bytes>, k: Bytes)
    requires IsLeast(s, k)
    ensures k in s
  {
  }

  /** What a child slot holds, in terms of the whole map. */
  lemma ChildBlock(K: Keccak, entries: EntryMap, rp: Bytes, np: Bytes, c: nat)
    requires NibbleKeys(entries.Keys) && rp <= np && c < CHILDREN
    requires IsBlock(Block(entries, rp), np)
    ensures var sub := Block(entries, np + [c]);
      if sub == map[] then ChildHash(K, Block(entries, rp), np, c) == NullNode(K)
      else
        && IsBlock(sub, np + [c])
        && ChildHash(K, Block(entries, rp), np, c) == BlockHash(K, sub, np + [c])
        && |np + [c]| <= MaxLen(entries.Keys)
  {
    BlockOfBlock(entries, rp, np + [c]);
    if Block(entries, np + [c]) != map[] {
      OccupiedChildHash(K, Block(entries, rp), np, c);
      MaxLenOfBlock(entries, np + [c]);
    }
  }

  lemma MaxLenOfBlock(entries: EntryMap, p: Bytes)
    requires Block(entries, p) != map[]
    ensures MaxLen(Block(entries, p).Keys) <= MaxLen(entries.Keys)
  {
    assert Block(entries, p).Keys != {};
  }

  ghost predicate UnderDirty(dirty: set<Bytes>, p: Bytes) {
    exists d :: d in dirty && p <= d
  }

  lemma StillCached(K: Keccak, before: EntryMap, after: EntryMap, dirty: set<Bytes>, key: Bytes, p: Bytes, h: H256)
    requires forall k :: k != key ==> (k in before <==> k in after)
    requires forall k :: k != key && k in before ==> before[k] == after[k]
    requires NibbleKeys(after.Keys)
    requires UnderDirty(dirty, p) || IsHashOf(K, before, p, h)
    ensures UnderDirty(dirty + {key}, p) || IsHashOf(K, after, p, h)
  {
    if UnderDirty(dirty, p) {
      var d :| d in dirty && p <= d;
      assert d in dirty + {key};
    } else if p <= key {
      assert key in dirty + {key};
    } else {
      UntouchedBlock(K, before, after, key, p, h);
    }
  }
}
