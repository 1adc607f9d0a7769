/**
 * What the Merkle root of a set of entries is, stated on finite maps: no sorted slices, no caches.
 * The stateless walk, the cached walk and the cold rebuild are each proved to compute this.
 */
module TrieSpec {
  import opened Basics

  const CHILDREN: nat := 16

  /** A delta entry: a live value, or the mark of a deletion that hides the layers below. */
  datatype MptValue = Live(bytes: Bytes) | Tombstone {
    function VisibleValue(): Option<Bytes> {
      match this
      case Live(v) => Some(v)
      case Tombstone => None
    }

    /** The bytes hashed for this entry: a tombstone is hashed as an empty value. */
    function MerkleValue(): Bytes {
      match this
      case Live(v) => v
      case Tombstone => []
    }
  }

  type EntryMap = map<Bytes, MptValue>

  predicate IsNibbles(k: Bytes) {
    forall i :: 0 <= i < |k| ==> k[i] < 16
  }

  /** Two nibbles per byte, high nibble first. */
  function ToNibbles(b: Bytes): (n: Bytes)
    ensures |n| == 2 * |b|
    ensures IsNibbles(n)
    ensures FromNibbles(n) == b
  {
    if b == [] then
      []
    else
      var n := [b[0] / 16, b[0] % 16] + ToNibbles(b[1..]);
      assert n[2..] == ToNibbles(b[1..]);
      n
  }

  /** Pairs of nibbles recombined into bytes; a last single nibble is dropped. */
  function FromNibbles(n: Bytes): Bytes
    requires IsNibbles(n)
  {
    if |n| < 2 then [] else [16 * n[0] + n[1]] + FromNibbles(n[2..])
  }

  // ---------------------------------------------------------------------------------------------
  // Hash inputs
  // ---------------------------------------------------------------------------------------------

  function Concat(parts: seq<H256>): (r: Bytes)
    ensures |r| == 32 * |parts|
  {
    if parts == [] then [] else parts[0] + Concat(parts[1..])
  }

  /** The bytes hashed for a node: tag, sixteen child slots, and the value if the node carries one. */
  function NodeInput(children: seq<H256>, value: Option<Bytes>): Bytes {
    ['n' as int] + Concat(children) + (if value.Some? then ['v' as int] + value.value else [])
  }

  function PackPairs(nibbles: Bytes): (r: Bytes)
    requires IsNibbles(nibbles)
    ensures |r| == (|nibbles| + 1) / 2
  {
    if nibbles == [] then
      []
    else if |nibbles| == 1 then
      [16 * nibbles[0]]
    else
      [16 * nibbles[0] + nibbles[1]] + PackPairs(nibbles[2..])
  }

  /** A path packed two nibbles to the byte; on an odd start depth the first nibble has a byte of its own. */
  function Compress(nibbles: Bytes, withoutFirst: bool): Bytes
    requires IsNibbles(nibbles) && nibbles != []
  {
    if withoutFirst then [nibbles[0]] + PackPairs(nibbles[1..]) else PackPairs(nibbles)
  }

  /** 128, plus 64 on an odd start depth, plus the length cast to a byte and reduced modulo 63. */
  function PathInfo(length: nat, withoutFirst: bool): Byte {
    128 + (if withoutFirst then 64 else 0) + (length % 256) % 63
  }

  /** The bytes hashed for a compressed path above a node. */
  function PathInput(path: Bytes, startDepth: nat, node: H256): Bytes
    requires IsNibbles(path) && path != []
  {
    [PathInfo(|path|, startDepth % 2 == 1)] + Compress(path, startDepth % 2 == 1) + node
  }

  // ---------------------------------------------------------------------------------------------
  // Blocks of entries
  // ---------------------------------------------------------------------------------------------

  ghost predicate AllExtend(s: set<Bytes>, p: Bytes) {
    forall k :: k in s ==> p <= k
  }

  ghost predicate NibbleKeys(s: set<Bytes>) {
    forall k :: k in s ==> IsNibbles(k)
  }

  /** The entries under a routing prefix. */
  function Block<V>(m: map<Bytes, V>, p: Bytes): map<Bytes, V> {
    map k | k in m && p <= k :: m[k]
  }

  ghost function MaxLen(s: set<Bytes>): (n: nat)
    ensures forall k :: k in s ==> |k| <= n
    ensures s != {} ==> exists k :: k in s && |k| == n
  {
    if s == {} then 0 else var k :| k in s; Max(|k|, MaxLen(s - {k}))
  }

  /** A block that a node exists for: some entries, nibble keys, all under the routing prefix. */
  ghost predicate IsBlock(b: EntryMap, rp: Bytes) {
    b != map[] && NibbleKeys(b.Keys) && AllExtend(b.Keys, rp)
  }

  ghost predicate Splits(s: set<Bytes>, p: Bytes, k: Bytes, q: Bytes) {
    k in s && q in s && |p| < |k| && |p| < |q| && k[|p|] != q[|p|]
  }

  /** `p` is the longest prefix that all keys of `s` share. */
  ghost predicate IsNodePrefix(s: set<Bytes>, p: Bytes) {
    AllExtend(s, p) && (p in s || exists k, q :: Splits(s, p, k, q))
  }

  lemma {:induction false} NodePrefixExists(s: set<Bytes>, rp: Bytes)
    requires s != {} && AllExtend(s, rp)
    ensures exists p :: IsNodePrefix(s, p) && rp <= p
    decreases MaxLen(s) - |rp|
  {
    if rp in s {
      assert IsNodePrefix(s, rp) && rp <= rp;
    } else {
      forall k | k in s
        ensures |rp| < |k|
      {
        assert |k| == |rp| ==> k == rp;
      }
      var k :| k in s;
      var next := rp + [k[|rp|]];
      if AllExtend(s, next) {
        NodePrefixExists(s, next);
      } else {
        var q :| q in s && !(next <= q);
        assert rp <= q;
        assert Splits(s, rp, k, q);
        assert IsNodePrefix(s, rp) && rp <= rp;
      }
    }
  }

  lemma NodePrefixIsUnique(s: set<Bytes>, p: Bytes, q: Bytes)
    requires s != {}
    requires IsNodePrefix(s, p) && IsNodePrefix(s, q)
    ensures p == q
  {
    var k :| k in s;
    assert p <= k && q <= k;
    if |p| < |q| {
      NodePrefixIsLongest(s, p, q);
    } else if |q| < |p| {
      NodePrefixIsLongest(s, q, p);
    }
  }

  lemma NodePrefixIsLongest(s: set<Bytes>, p: Bytes, q: Bytes)
    requires s != {}
    requires IsNodePrefix(s, p) && AllExtend(s, q)
    ensures q <= p
  {
    var k :| k in s;
    assert |q| <= |p|;
    PrefixOfPrefix(q, p, k);
  }

  /** The full prefix of the node reached through `rp`. The root node takes no path compression. */
  ghost function NodeAt(s: set<Bytes>, rp: Bytes): (p: Bytes)
    requires s != {} && AllExtend(s, rp)
    ensures rp <= p && AllExtend(s, p)
    ensures rp == [] ==> p == []
    ensures rp != [] ==> IsNodePrefix(s, p)
  {
    if rp == [] then
      []
    else
      NodePrefixExists(s, rp);
      var p :| IsNodePrefix(s, p) && rp <= p;
      p
  }

  function ValueAt(b: EntryMap, np: Bytes): Option<Bytes> {
    if np in b then Some(b[np].MerkleValue()) else None
  }

  // ---------------------------------------------------------------------------------------------
  // The hash of a block
  // ---------------------------------------------------------------------------------------------

  lemma SubBlockIsSmaller(b: EntryMap, np: Bytes, c: nat)
    requires NibbleKeys(b.Keys) && AllExtend(b.Keys, np) && c < CHILDREN
    requires Block(b, np + [c]) != map[]
    ensures IsBlock(Block(b, np + [c]), np + [c])
    ensures |np| < MaxLen(Block(b, np + [c]).Keys) <= MaxLen(b.Keys)
  {
    var sub := Block(b, np + [c]);
    assert sub.Keys != {};
    var k :| k in sub.Keys;
    assert np + [c] <= k;
    assert |np + [c]| <= |k| <= MaxLen(sub.Keys);
  }

  /** The outermost byte string hashed for a block: its path if it has one, else its node. */
  ghost function BlockInput(K: Keccak, b: EntryMap, rp: Bytes): (input: Bytes)
    requires IsBlock(b, rp)
    decreases MaxLen(b.Keys) - |rp|, 1, 0
  {
    var np := NodeAt(b.Keys, rp);
    var path := np[|rp|..];
    var k :| k in b.Keys;
    assert np <= k && IsNibbles(path) by {
      assert forall i :: 0 <= i < |path| ==> path[i] == k[|rp| + i];
    }
    var node := NodeInput(ChildHashes(K, b, np, 0), ValueAt(b, np));
    if path == [] then node else PathInput(path, |rp|, K(node))
  }

  /** The hashes in the child slots `c..16` of the node at `np`; an empty child has the null hash. */
  ghost function ChildHashes(K: Keccak, b: EntryMap, np: Bytes, c: nat): (r: seq<H256>)
    requires IsBlock(b, np) && c <= CHILDREN
    ensures |r| == CHILDREN - c
    ensures forall i :: 0 <= i < |r| ==> r[i] == ChildHash(K, b, np, c + i)
    decreases MaxLen(b.Keys) - |np|, 0, CHILDREN + 1 - c
  {
    if c == CHILDREN then
      []
    else
      [ChildHash(K, b, np, c)] + ChildHashes(K, b, np, c + 1)
  }

  ghost function ChildHash(K: Keccak, b: EntryMap, np: Bytes, c: nat): H256
    requires IsBlock(b, np) && c < CHILDREN
    decreases MaxLen(b.Keys) - |np|, 0, 0
  {
    var sub := Block(b, np + [c]);
    if sub == map[] then
      NullNode(K)
    else
      SubBlockIsSmaller(b, np, c);
      K(BlockInput(K, sub, np + [c]))
  }

  ghost function BlockHash(K: Keccak, b: EntryMap, rp: Bytes): H256
    requires IsBlock(b, rp)
  {
    K(BlockInput(K, b, rp))
  }

  /** A child slot with entries holds the hash of their block. */
  lemma OccupiedChildHash(K: Keccak, b: EntryMap, np: Bytes, c: nat)
    requires IsBlock(b, np) && c < CHILDREN && Block(b, np + [c]) != map[]
    ensures IsBlock(Block(b, np + [c]), np + [c])
    ensures |np| < MaxLen(Block(b, np + [c]).Keys) <= MaxLen(b.Keys)
    ensures ChildHash(K, b, np, c) == BlockHash(K, Block(b, np + [c]), np + [c])
  {
    SubBlockIsSmaller(b, np, c);
  }

  /** The root over nibble-keyed entries. */
  ghost function RootOf(K: Keccak, entries: EntryMap): H256
    requires NibbleKeys(entries.Keys)
  {
    if entries == map[] then NullNode(K) else BlockHash(K, entries, [])
  }

  // ---------------------------------------------------------------------------------------------
  // Byte keys and nibble keys
  // ---------------------------------------------------------------------------------------------

  lemma {:induction false} ToNibblesKeepsPrefixes(p: Bytes, k: Bytes)
    ensures p <= k <==> ToNibbles(p) <= ToNibbles(k)
    ensures p == k <==> ToNibbles(p) == ToNibbles(k)
  {
    if p != [] && k != [] {
      ToNibblesKeepsPrefixes(p[1..], k[1..]);
      var pn, kn := ToNibbles(p), ToNibbles(k);
      assert pn[2..] == ToNibbles(p[1..]) && kn[2..] == ToNibbles(k[1..]);
      HeadsAndTails(p, k, 1);
      HeadsAndTails(pn, kn, 2);
      assert p[..1] == k[..1] <==> p[0] == k[0];
      assert pn[..2] == [p[0] / 16, p[0] % 16] && kn[..2] == [k[0] / 16, k[0] % 16];
    }
  }

  /** Nibble keys sort as the byte keys do. */
  lemma {:induction false} ToNibblesKeepsOrder(a: Bytes, b: Bytes)
    ensures Less(a, b) <==> Less(ToNibbles(a), ToNibbles(b))
  {
    if a != [] && b != [] {
      var an, bn := ToNibbles(a), ToNibbles(b);
      ToNibblesKeepsOrder(a[1..], b[1..]);
      assert an[2..] == ToNibbles(a[1..]) && bn[2..] == ToNibbles(b[1..]);
      assert an[0] == a[0] / 16 && an[1] == a[0] % 16 && bn[0] == b[0] / 16 && bn[1] == b[0] % 16;
      LessByHead(a, b);
      LessByHead(an, bn);
      LessByHead(an[1..], bn[1..]);
      assert an[1..][1..] == an[2..] && bn[1..][1..] == bn[2..];
    }
  }

  lemma LessByHead(a: Bytes, b: Bytes)
    requires a != [] && b != []
    ensures Less(a, b) <==> a[0] < b[0] || (a[0] == b[0] && Less(a[1..], b[1..]))
  {
  }

  lemma HeadsAndTails(p: Bytes, k: Bytes, n: nat)
    requires n <= |p| && n <= |k|
    ensures p <= k <==> p[..n] == k[..n] && p[n..] <= k[n..]
    ensures p == k <==> p[..n] == k[..n] && p[n..] == k[n..]
  {
    assert p == p[..n] + p[n..] && k == k[..n] + k[n..];
    if p <= k {
      assert forall i :: 0 <= i < |p| ==> p[i] == k[i];
      assert forall i :: 0 <= i < |p| - n ==> p[n..][i] == p[n + i] == k[n + i];
    }
  }

  /** Byte-keyed entries re-keyed by nibbles. */
  function NibbleMap(m: EntryMap): (n: EntryMap)
    ensures IsNibbleForm(m, n)
  {
    map k | k in m :: ToNibbles(k) := m[k]
  }

  /** `n` is `m` with every key turned into nibbles. */
  ghost predicate IsNibbleForm(m: EntryMap, n: EntryMap) {
    && NibbleKeys(n.Keys)
    && (forall k :: k in m ==> ToNibbles(k) in n)
    && (forall q :: q in n ==> FromNibbles(q) in m && ToNibbles(FromNibbles(q)) == q && n[q] == m[FromNibbles(q)])
  }

  lemma NibbleFormIsUnique(m: EntryMap, n: EntryMap)
    requires IsNibbleForm(m, n)
    ensures n == NibbleMap(m)
  {
    hide NibbleMap;
    var o := NibbleMap(m);
    forall q | q in n || q in o
      ensures q in n && q in o && n[q] == o[q]
    {
      assert FromNibbles(q) in m && ToNibbles(FromNibbles(q)) == q;
    }
  }

  /** The root of a byte-keyed trie. */
  ghost function TrieRoot(K: Keccak, m: EntryMap): H256 {
    RootOf(K, NibbleMap(m))
  }
}
