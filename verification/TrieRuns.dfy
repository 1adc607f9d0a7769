/** Whole histories of one cached trie. */
module TrieRuns {
  import opened Basics
  import opened TrieSpec
  import opened Incremental
  import Trie

  datatype TrieOp =
    | Insert(key: Bytes, value: MptValue)
    | Remove(key: Bytes)
    | Clear
    | TakeRoot(policy: CachePolicy)

  /** The entries after one operation, as a plain map. */
  function After(m: EntryMap, op: TrieOp): EntryMap {
    match op
    case Insert(key, value) => m[key := value]
    case Remove(key) => m - {key}
    case Clear => map[]
    case TakeRoot(_) => m
  }

  ghost function TakenRoot(K: Keccak, m: EntryMap, op: TrieOp): seq<H256> {
    if op.TakeRoot? then [TrieRoot(K, m)] else []
  }

  /** The stateless root of the current entries, once for every root that the history takes. */
  ghost function StatelessRoots(K: Keccak, m: EntryMap, ops: seq<TrieOp>): seq<H256>
    decreases |ops|
  {
    if ops == [] then [] else TakenRoot(K, m, ops[0]) + StatelessRoots(K, After(m, ops[0]), ops[1..])
  }

  lemma NibbleMapAfterInsert(m: EntryMap, key: Bytes, value: MptValue)
    ensures NibbleMap(m[key := value]) == NibbleMap(m)[ToNibbles(key) := value]
  {
    hide NibbleMap, IsNibbleForm;
    NibbleMapIsForm(m);
    InsertKeepsForm(m, NibbleMap(m), key, value);
    NibbleFormIsUnique(m[key := value], NibbleMap(m)[ToNibbles(key) := value]);
  }

  lemma NibbleMapIsForm(m: EntryMap)
    ensures IsNibbleForm(m, NibbleMap(m))
  {
  }

  lemma InsertKeepsForm(m: EntryMap, n: EntryMap, key: Bytes, value: MptValue)
    requires IsNibbleForm(m, n)
    ensures IsNibbleForm(m[key := value], n[ToNibbles(key) := value])
  {
    hide ToNibbles, FromNibbles, IsNibbles;
    var more, n' := m[key := value], n[ToNibbles(key) := value];
    forall q | q in n'
      ensures FromNibbles(q) in more && ToNibbles(FromNibbles(q)) == q && n'[q] == more[FromNibbles(q)]
    {
      if q != ToNibbles(key) {
        assert ToNibbles(FromNibbles(q)) == q;
        assert FromNibbles(q) != key;
      }
    }
  }

  lemma NibbleMapAfterRemove(m: EntryMap, key: Bytes)
    ensures NibbleMap(m - {key}) == NibbleMap(m) - {ToNibbles(key)}
  {
    hide NibbleMap, IsNibbleForm;
    NibbleMapIsForm(m);
    RemoveKeepsForm(m, NibbleMap(m), key);
    NibbleFormIsUnique(m - {key}, NibbleMap(m) - {ToNibbles(key)});
  }

  lemma RemoveKeepsForm(m: EntryMap, n: EntryMap, key: Bytes)
    requires IsNibbleForm(m, n)
    ensures IsNibbleForm(m - {key}, n - {ToNibbles(key)})
  {
    hide ToNibbles, FromNibbles, IsNibbles;
    var fewer, n' := m - {key}, n - {ToNibbles(key)};
    forall k | k in fewer
      ensures ToNibbles(k) in n'
    {
      assert FromNibbles(ToNibbles(k)) == k != key == FromNibbles(ToNibbles(key));
    }
    forall q | q in n'
      ensures FromNibbles(q) in fewer && ToNibbles(FromNibbles(q)) == q && n'[q] == fewer[FromNibbles(q)]
    {
    }
  }

  method Apply(trie: IncrementalTrie, op: TrieOp, ghost m: EntryMap) returns (taken: seq<H256>)
    requires trie.Valid() && trie.entries == NibbleMap(m)
    modifies trie
    ensures trie.Valid() && trie.entries == NibbleMap(After(m, op))
    ensures taken == TakenRoot(trie.K, m, op)
  {
    hide NibbleMap, IncrementalTrie.Valid;
    taken := [];
    match op {
      case Insert(key, value) =>
        NibbleMapAfterInsert(m, key, value);
        trie.Insert(key, value);
      case Remove(key) =>
        NibbleMapAfterRemove(m, key);
        trie.Remove(key);
      case Clear =>
        Trie.EmptyNibbleMap();
        trie.Clear();
      case TakeRoot(policy) =>
        var root := trie.RootWithPolicy(policy);
        taken := [root];
    }
  }

  /**
   * Runs any history. Every root taken, under either cache policy and after any mix of inserts, overwrites,
   * removals and clears, is the stateless root of the entries at that moment.
   */
  method Replay(trie: IncrementalTrie, ops: seq<TrieOp>, ghost m: EntryMap) returns (roots: seq<H256>)
    requires trie.Valid() && trie.entries == NibbleMap(m)
    modifies trie
    ensures trie.Valid()
    ensures roots == StatelessRoots(trie.K, m, ops)
  {
    hide NibbleMap, TakenRoot, IncrementalTrie.Valid;
    roots := [];
    ghost var now := m;
    assert ops[0..] == ops;
    for i := 0 to |ops|
      invariant trie.Valid() && trie.entries == NibbleMap(now)
      invariant roots + StatelessRoots(trie.K, now, ops[i..]) == StatelessRoots(trie.K, m, ops)
    {
      assert ops[i..][1..] == ops[i + 1..];
      var taken := Apply(trie, ops[i], now);
      roots := roots + taken;
      now := After(now, ops[i]);
    }
  }
}
