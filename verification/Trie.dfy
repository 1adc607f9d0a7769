/** The stateless trie root: a recursion over sorted slices of entries. */
module Trie {
  import opened Basics
  import opened TrieSpec

  datatype Entry = Entry(key: Bytes, value: MptValue)

  ghost predicate InOrder(entries: seq<Entry>) {
    forall i, j :: 0 <= i < j < |entries| ==> Less(entries[i].key, entries[j].key)
  }

  /** `entries` presents the map `b` in key order. */
  ghost predicate Lists(entries: seq<Entry>, b: EntryMap) {
    && InOrder(entries)
    && (forall i :: 0 <= i < |entries| ==> entries[i].key in b && b[entries[i].key] == entries[i].value)
    && (forall k :: k in b ==> exists i :: 0 <= i < |entries| && entries[i].key == k)
  }

  // ---------------------------------------------------------------------------------------------
  // Hashing primitives
  // ---------------------------------------------------------------------------------------------

  method BytesToNibbles(bytes: Bytes) returns (out: Bytes)
    ensures out == ToNibbles(bytes)
  {
    hide ToNibbles, FromNibbles;
    out := [];
    assert bytes[0..] == bytes;
    for i := 0 to |bytes|
      invariant out + ToNibbles(bytes[i..]) == ToNibbles(bytes)
    {
      ToNibblesStep(bytes, i, out);
      out := out + [bytes[i] / 16];
      out := out + [bytes[i] % 16];
    }
    assert ToNibbles(bytes[|bytes|..]) == [];
  }

  lemma ToNibblesStep(bytes: Bytes, i: nat, out: Bytes)
    requires i < |bytes|
    ensures out + ToNibbles(bytes[i..]) == out + [bytes[i] / 16] + [bytes[i] % 16] + ToNibbles(bytes[i + 1..])
  {
    assert bytes[i..][1..] == bytes[i + 1..];
  }

  method CompressNibbles(nibbles: Bytes, withoutFirst: bool) returns (out: Bytes)
    requires IsNibbles(nibbles) && nibbles != []
    ensures out == Compress(nibbles, withoutFirst)
  {
    if withoutFirst {
      var rest := PackChunks(nibbles[1..]);
      out := [nibbles[0]] + rest;
    } else {
      out := PackChunks(nibbles);
    }
  }

  /** The loop of the path packing: chunks of two nibbles, a last single nibble padded with zero. */
  method PackChunks(rest: Bytes) returns (out: Bytes)
    requires IsNibbles(rest)
    ensures out == PackPairs(rest)
  {
    hide PackPairs;
    out := [];
    var i := 0;
    assert rest[0..] == rest;
    while i < |rest|
      invariant 0 <= i <= |rest|
      invariant out + PackPairs(rest[i..]) == PackPairs(rest)
    {
      var next := Min(i + 2, |rest|);
      var packed := 16 * rest[i] + if next == i + 2 then rest[i + 1] else 0;
      PackPairsStep(rest, i, next);
      Reassociate(out, packed, PackPairs(rest[next..]));
      out := out + [packed];
      i := next;
    }
    PackPairsOfNothing(rest[i..]);
  }

  lemma PackPairsOfNothing(nibbles: Bytes)
    requires nibbles == []
    ensures PackPairs(nibbles) == []
  {
  }

  lemma Reassociate(out: Bytes, b: Byte, tail: Bytes)
    ensures out + ([b] + tail) == (out + [b]) + tail
  {
  }

  lemma PackPairsStep(nibbles: Bytes, i: nat, next: nat)
    requires IsNibbles(nibbles) && i < |nibbles| && next == Min(i + 2, |nibbles|)
    ensures PackPairs(nibbles[i..])
         == [16 * nibbles[i] + if next == i + 2 then nibbles[i + 1] else 0] + PackPairs(nibbles[next..])
  {
    if next == i + 2 {
      assert nibbles[i..][2..] == nibbles[next..];
    }
  }

  function NullSlots(K: Keccak): (slots: seq<H256>)
    ensures |slots| == CHILDREN
    ensures forall c :: 0 <= c < CHILDREN ==> slots[c] == NullNode(K)
  {
    seq(CHILDREN, i => NullNode(K))
  }

  method ComputeNodeMerkle(K: Keccak, maybeChildren: Option<seq<H256>>, maybeValue: Option<Bytes>) returns (h: H256)
    requires maybeChildren.Some? ==> |maybeChildren.value| == CHILDREN
    ensures h == K(NodeInput(if maybeChildren.Some? then maybeChildren.value else NullSlots(K), maybeValue))
  {
    var buffer: Bytes := ['n' as int];
    var children := if maybeChildren.Some? then maybeChildren.value else NullSlots(K);
    for c := 0 to CHILDREN
      invariant buffer == ['n' as int] + Concat(children[..c])
    {
      ConcatGrows(children[..c], children[c]);
      assert children[..c + 1] == children[..c] + [children[c]];
      buffer := buffer + children[c];
    }
    assert children[..CHILDREN] == children;
    if maybeValue.Some? {
      buffer := buffer + ['v' as int];
      buffer := buffer + maybeValue.value;
    }
    assert buffer == NodeInput(children, maybeValue);
    h := K(buffer);
  }

  lemma {:induction false} ConcatGrows(parts: seq<H256>, last: H256)
    ensures Concat(parts + [last]) == Concat(parts) + last
  {
    if parts == [] {
      assert [] + [last] == [last];
      assert Concat([last][1..]) == [];
    } else {
      ConcatGrows(parts[1..], last);
      assert (parts + [last])[1..] == parts[1..] + [last];
    }
  }

  method ComputePathMerkle(K: Keccak, path: Bytes, startDepth: nat, node: H256) returns (h: H256)
    requires IsNibbles(path)
    ensures h == if path == [] then node else K(PathInput(path, startDepth, node))
  {
    if path == [] {
      return node;
    }
    var withoutFirst := startDepth % 2 == 1;
    var compressed := CompressNibbles(path, withoutFirst);
    var buffer: Bytes := [PathInfo(|path|, withoutFirst)];
    buffer := buffer + compressed;
    buffer := buffer + node;
    h := K(buffer);
  }

  // ---------------------------------------------------------------------------------------------
  // Geometry of a sorted block
  // ---------------------------------------------------------------------------------------------

  /** Length, beyond `depth`, of the prefix that the first key shares with every other key. */
  method CommonPrefixLen(entries: seq<Entry>, depth: nat, ghost rp: Bytes) returns (n: nat)
    requires |rp| == depth && forall i :: 0 <= i < |entries| ==> rp <= entries[i].key
    ensures entries == [] ==> n == 0
    ensures entries != [] ==> depth + n <= |entries[0].key| && SharesFirst(entries, depth + n)
    ensures entries != [] && depth + n < |entries[0].key| ==> !SharesFirst(entries, depth + n + 1)
  {
    n := 0;
    if entries == [] {
      return;
    }
    var first := entries[0].key;
    while depth + n < |first|
      invariant depth + n <= |first|
      invariant SharesFirst(entries, depth + n)
    {
      var idx := depth + n;
      if exists i :: 0 <= i < |entries| && !(idx < |entries[i].key| && entries[i].key[idx] == first[idx]) {
        return;
      }
      n := n + 1;
    }
  }

  /** Every key shares the first `n` nibbles of the first key. */
  ghost predicate SharesFirst(entries: seq<Entry>, n: nat) {
    entries != [] && forall i :: 0 <= i < |entries| ==>
      n <= |entries[0].key| && n <= |entries[i].key| &&
      forall x :: 0 <= x < n ==> entries[i].key[x] == entries[0].key[x]
  }

  /** The value of the entry whose key ends at this node. */
  function FindEnding(entries: seq<Entry>, nodeDepth: nat): Option<Bytes> {
    if entries == [] then
      None
    else if |entries[0].key| == nodeDepth then
      Some(entries[0].value.MerkleValue())
    else
      FindEnding(entries[1..], nodeDepth)
  }

  datatype ChildRange = ChildRange(child: nat, start: nat, end: nat)

  ghost predicate Covers(ranges: seq<ChildRange>, j: int, i: int) {
    0 <= j < |ranges| && ranges[j].start <= i < ranges[j].end
  }

  /**
   * The ranges are ordered and disjoint, have strictly increasing next nibbles, and cover exactly the keys
   * longer than `nodeDepth`, each under its own next nibble.
   */
  ghost predicate Partitions(entries: seq<Entry>, nodeDepth: nat, ranges: seq<ChildRange>) {
    && (forall j :: 0 <= j < |ranges| ==> ranges[j].child < CHILDREN && ranges[j].start < ranges[j].end <= |entries|)
    && (forall j, i :: Covers(ranges, j, i) ==>
          |entries[i].key| > nodeDepth && entries[i].key[nodeDepth] == ranges[j].child)
    && (forall j, l :: 0 <= j < l < |ranges| ==>
          ranges[j].child < ranges[l].child && ranges[j].end <= ranges[l].start)
    && (forall i :: 0 <= i < |entries| && |entries[i].key| > nodeDepth ==> exists j :: Covers(ranges, j, i))
  }

  /** Among sorted keys under `np`, only the first can be `np` itself, and next nibbles never decrease. */
  lemma SortedUnderPrefix(a: Bytes, b: Bytes, np: Bytes)
    requires np <= a && np <= b && Less(a, b)
    ensures |np| < |b|
    ensures |np| < |a| ==> a[|np|] <= b[|np|]
  {
    var n := Lcp(a, b);
    assert n >= |np|;
  }

  /** The end of the run of keys from `start` on that have `child` as their next nibble. */
  method RunEnd(entries: seq<Entry>, nodeDepth: nat, child: Byte, start: nat) returns (idx: nat)
    requires start < |entries| && nodeDepth < |entries[start].key| && entries[start].key[nodeDepth] == child
    ensures start < idx <= |entries|
    ensures forall i :: start <= i < idx ==> |entries[i].key| > nodeDepth && entries[i].key[nodeDepth] == child
    ensures idx < |entries| && |entries[idx].key| > nodeDepth ==> entries[idx].key[nodeDepth] != child
  {
    idx := start + 1;
    while idx < |entries| && |entries[idx].key| > nodeDepth && entries[idx].key[nodeDepth] == child
      invariant start < idx <= |entries|
      invariant forall i :: start <= i < idx ==> |entries[i].key| > nodeDepth && entries[i].key[nodeDepth] == child
    {
      idx := idx + 1;
    }
  }

  method ChildRanges(entries: seq<Entry>, nodeDepth: nat, ghost np: Bytes) returns (ranges: seq<ChildRange>)
    requires |np| == nodeDepth
    requires InOrder(entries)
    requires forall i :: 0 <= i < |entries| ==> np <= entries[i].key && IsNibbles(entries[i].key)
    ensures Partitions(entries, nodeDepth, ranges)
  {
    ranges := [];
    var idx := 0;
    while idx < |entries|
      invariant 0 <= idx <= |entries|
      invariant Partitions(entries[..idx], nodeDepth, ranges)
      invariant ranges != [] ==> ranges[|ranges| - 1].end == idx
      invariant ranges != [] && idx < |entries| ==>
        |entries[idx].key| > nodeDepth && ranges[|ranges| - 1].child < entries[idx].key[nodeDepth]
      invariant ranges == [] ==> idx <= 1
    {
      var key := entries[idx].key;
      if 0 < idx {
        SortedUnderPrefix(entries[0].key, key, np);
      }
      if |key| == nodeDepth {
        idx := idx + 1;
        continue;
      }
      var child := key[nodeDepth];
      var start := idx;
      idx := RunEnd(entries, nodeDepth, child, start);
      if idx < |entries| {
        SortedUnderPrefix(entries[start].key, entries[idx].key, np);
      }
      ghost var before := ranges;
      ranges := ranges + [ChildRange(child, start, idx)];
      RangeAdded(entries, nodeDepth, before, child, start, idx);
    }
    assert entries[..idx] == entries;
  }

  lemma RangeAdded(entries: seq<Entry>, nodeDepth: nat, before: seq<ChildRange>, child: Byte, start: nat, end: nat)
    requires start < end <= |entries| && child < CHILDREN
    requires Partitions(entries[..start], nodeDepth, before)
    requires before != [] ==> before[|before| - 1].end == start && before[|before| - 1].child < child
    requires forall i :: start <= i < end ==> |entries[i].key| > nodeDepth && entries[i].key[nodeDepth] == child
    ensures Partitions(entries[..end], nodeDepth, before + [ChildRange(child, start, end)])
  {
    var ranges := before + [ChildRange(child, start, end)];
    forall j, i | Covers(ranges, j, i)
      ensures |entries[..end][i].key| > nodeDepth && entries[..end][i].key[nodeDepth] == ranges[j].child
    {
      if j < |before| {
        assert Covers(before, j, i);
        assert entries[..start][i] == entries[i];
      }
    }
    forall i | 0 <= i < end && |entries[..end][i].key| > nodeDepth
      ensures exists j :: Covers(ranges, j, i)
    {
      if i < start {
        assert entries[..start][i] == entries[i];
        var j :| Covers(before, j, i);
        assert Covers(ranges, j, i);
      } else {
        assert Covers(ranges, |before|, i);
      }
    }
  }

  lemma {:induction false} FindEndingIsValueAt(entries: seq<Entry>, b: EntryMap, np: Bytes, from: nat)
    requires Lists(entries, b) && AllExtend(b.Keys, np)
    requires from <= |entries|
    requires forall i :: 0 <= i < from ==> entries[i].key != np
    ensures FindEnding(entries[from..], |np|) == ValueAt(b, np)
    decreases |entries| - from
  {
    if from < |entries| {
      assert entries[from..][0] == entries[from];
      assert np <= entries[from].key;
      if |entries[from].key| == |np| {
        assert entries[from].key == np;
      } else {
        assert entries[from..][1..] == entries[from + 1..];
        FindEndingIsValueAt(entries, b, np, from + 1);
      }
    }
  }

  lemma ExtendsByOne(np: Bytes, c: Byte, k: Bytes)
    ensures np + [c] <= k <==> np <= k && |np| < |k| && k[|np|] == c
  {
    var p := np + [c];
    if p <= k {
      assert forall x :: 0 <= x < |np| ==> np[x] == p[x];
      assert k[|np|] == p[|np|];
    }
  }

  /** A slice that `ChildRanges` cuts out lists exactly the block of that child. */
  lemma SliceListsChild(entries: seq<Entry>, b: EntryMap, np: Bytes, ranges: seq<ChildRange>, j: nat)
    requires Lists(entries, b) && IsBlock(b, np)
    requires Partitions(entries, |np|, ranges) && j < |ranges|
    ensures Lists(entries[ranges[j].start..ranges[j].end], Block(b, np + [ranges[j].child]))
    ensures Block(b, np + [ranges[j].child]) != map[]
  {
    hide InOrder, Partitions;
    RangeIsInside(entries, |np|, ranges, j);
    var r := ranges[j];
    var slice := entries[r.start..r.end];
    var sub := Block(b, np + [r.child]);
    forall i | 0 <= i < |slice|
      ensures slice[i].key in sub && sub[slice[i].key] == slice[i].value
    {
      KeyInRange(entries, b, np, ranges, j, r.start + i);
    }
    forall k | k in sub
      ensures exists i :: 0 <= i < |slice| && slice[i].key == k
    {
      var i := IndexInRange(entries, b, np, ranges, j, k);
      assert slice[i - r.start] == entries[i];
    }
    SliceInOrder(entries, r.start, r.end);
    assert slice[0].key in sub;
  }

  lemma RangeIsInside(entries: seq<Entry>, nodeDepth: nat, ranges: seq<ChildRange>, j: nat)
    requires Partitions(entries, nodeDepth, ranges) && j < |ranges|
    ensures ranges[j].child < CHILDREN && ranges[j].start < ranges[j].end <= |entries|
    ensures j > 0 ==> ranges[j - 1].child < ranges[j].child
  {
  }

  lemma SliceInOrder(entries: seq<Entry>, start: nat, end: nat)
    requires InOrder(entries) && start <= end <= |entries|
    ensures InOrder(entries[start..end])
  {
  }

  lemma KeyInRange(entries: seq<Entry>, b: EntryMap, np: Bytes, ranges: seq<ChildRange>, j: nat, i: nat)
    requires Lists(entries, b) && AllExtend(b.Keys, np)
    requires Partitions(entries, |np|, ranges) && j < |ranges|
    requires ranges[j].start <= i < ranges[j].end
    ensures entries[i].key in Block(b, np + [ranges[j].child])
    ensures b[entries[i].key] == entries[i].value
  {
    assert Covers(ranges, j, i);
    ExtendsByOne(np, ranges[j].child, entries[i].key);
  }

  lemma IndexInRange(entries: seq<Entry>, b: EntryMap, np: Bytes, ranges: seq<ChildRange>, j: nat, k: Bytes)
    returns (i: nat)
    requires Lists(entries, b)
    requires Partitions(entries, |np|, ranges) && j < |ranges|
    requires k in b && np + [ranges[j].child] <= k
    ensures ranges[j].start <= i < ranges[j].end && entries[i].key == k
  {
    i :| 0 <= i < |entries| && entries[i].key == k;
    ExtendsByOne(np, ranges[j].child, k);
    var l :| Covers(ranges, l, i);
    assert ranges[l].child == ranges[j].child;
    assert l == j;
  }

  /** A child that has entries is named by a range. */
  lemma OccupiedChildIsNamed(entries: seq<Entry>, b: EntryMap, np: Bytes, ranges: seq<ChildRange>, c: Byte)
    requires Lists(entries, b) && AllExtend(b.Keys, np) && c < CHILDREN
    requires Partitions(entries, |np|, ranges)
    requires Block(b, np + [c]) != map[]
    ensures exists j :: 0 <= j < |ranges| && ranges[j].child == c
  {
    hide InOrder;
    var sub := Block(b, np + [c]);
    assert sub.Keys != {};
    var k :| k in sub.Keys;
    var i :| 0 <= i < |entries| && entries[i].key == k;
    ExtendsByOne(np, c, k);
    var j :| Covers(ranges, j, i);
  }

  // ---------------------------------------------------------------------------------------------
  // The root
  // ---------------------------------------------------------------------------------------------

  /** The node prefix found by comparing a sorted block's keys is the block's node prefix. */
  lemma SharedPrefixIsNodeAt(entries: seq<Entry>, b: EntryMap, rp: Bytes, n: nat)
    requires Lists(entries, b) && IsBlock(b, rp) && rp != []
    requires entries != [] && |rp| <= n <= |entries[0].key|
    requires SharesFirst(entries, n)
    requires n < |entries[0].key| ==> !SharesFirst(entries, n + 1)
    ensures entries[0].key[..n] == NodeAt(b.Keys, rp)
  {
    var first := entries[0].key;
    var p := first[..n];
    forall k | k in b.Keys
      ensures p <= k
    {
      var i :| 0 <= i < |entries| && entries[i].key == k;
    }
    if n == |first| {
      assert p == first;
    } else {
      var i := FirstDifference(entries, n);
      var k := entries[i].key;
      if |k| == n {
        assert k == p;
      } else {
        assert Splits(b.Keys, p, first, k);
      }
    }
    NodePrefixIsUnique(b.Keys, p, NodeAt(b.Keys, rp));
  }

  lemma FirstDifference(entries: seq<Entry>, n: nat) returns (i: nat)
    requires SharesFirst(entries, n) && n < |entries[0].key| && !SharesFirst(entries, n + 1)
    ensures i < |entries| && (|entries[i].key| == n || (n < |entries[i].key| && entries[i].key[n] != entries[0].key[n]))
  {
    i :| 0 <= i < |entries| && !(n + 1 <= |entries[i].key| &&
      forall x :: 0 <= x < n + 1 ==> entries[i].key[x] == entries[0].key[x]);
  }

  lemma ListsNonEmpty(entries: seq<Entry>, b: EntryMap, rp: Bytes)
    requires Lists(entries, b) && IsBlock(b, rp)
    ensures entries != [] && InOrder(entries)
    ensures forall i :: 0 <= i < |entries| ==> rp <= entries[i].key && IsNibbles(entries[i].key)
    ensures entries[0].key[..|rp|] == rp
  {
    var k :| k in b.Keys;
    assert entries[0].key in b.Keys;
  }

  /** The slots named by the first `j` ranges hold their child's hash; all others still hold the null hash. */
  ghost predicate SlotsFilled(K: Keccak, b: EntryMap, np: Bytes, ranges: seq<ChildRange>, j: nat, children: seq<H256>)
    requires IsBlock(b, np) && j <= |ranges|
  {
    && |children| == CHILDREN
    && (forall c :: 0 <= c < CHILDREN ==>
          children[c] == if Named(ranges, j, c) then ChildHash(K, b, np, c) else NullNode(K))
  }

  ghost predicate Named(ranges: seq<ChildRange>, j: nat, c: nat)
    requires j <= |ranges|
  {
    exists l :: 0 <= l < j && ranges[l].child == c
  }

  lemma SlotFilled(K: Keccak, b: EntryMap, np: Bytes, ranges: seq<ChildRange>, j: nat, children: seq<H256>)
    requires IsBlock(b, np) && j < |ranges| && ranges[j].child < CHILDREN
    requires SlotsFilled(K, b, np, ranges, j, children)
    ensures SlotsFilled(K, b, np, ranges, j + 1,
              children[ranges[j].child := ChildHash(K, b, np, ranges[j].child)])
  {
    forall c | 0 <= c < CHILDREN && c != ranges[j].child
      ensures Named(ranges, j, c) == Named(ranges, j + 1, c)
    {
    }
  }

  lemma AllSlotsFilled(K: Keccak, entries: seq<Entry>, b: EntryMap, np: Bytes, ranges: seq<ChildRange>,
                       children: seq<H256>)
    requires Lists(entries, b) && IsBlock(b, np) && Partitions(entries, |np|, ranges)
    requires SlotsFilled(K, b, np, ranges, |ranges|, children)
    ensures children == ChildHashes(K, b, np, 0)
  {
    hide Lists, Partitions;
    forall c | 0 <= c < CHILDREN
      ensures children[c] == ChildHash(K, b, np, c)
    {
      if Block(b, np + [c]) != map[] {
        OccupiedChildIsNamed(entries, b, np, ranges, c);
      }
    }
  }

  method MerkleForNode(K: Keccak, entries: seq<Entry>, depth: nat, compress: bool, ghost b: EntryMap, ghost rp: Bytes)
    returns (h: H256)
    requires Lists(entries, b) && IsBlock(b, rp)
    requires |rp| == depth && compress == (depth > 0)
    ensures h == BlockHash(K, b, rp)
    decreases MaxLen(b.Keys) - |rp|, 1
  {
    hide Lists, InOrder, SharesFirst, Partitions;
    ListsNonEmpty(entries, b, rp);
    var common := 0;
    if compress {
      common := CommonPrefixLen(entries, depth, rp);
      SharedPrefixIsNodeAt(entries, b, rp, depth + common);
    }
    var nodeDepth := depth + common;
    ghost var np := NodeAt(b.Keys, rp);
    assert entries[0].key[..nodeDepth] == np;

    var maybeValue := FindEnding(entries, nodeDepth);
    FindEndingIsValueAt(entries, b, np, 0);
    assert entries[0..] == entries;

    ListsNonEmpty(entries, b, np);
    var ranges := ChildRanges(entries, nodeDepth, np);
    var children := HashChildren(K, entries, ranges, nodeDepth, b, np);

    var hasChildren := exists c :: 0 <= c < CHILDREN && children[c] != NullNode(K);
    if !hasChildren {
      assert children == NullSlots(K);
    }
    var node := ComputeNodeMerkle(K, if hasChildren then Some(children) else None, maybeValue);
    PathIsNibbles(entries, b, np, depth);
    h := ComputePathMerkle(K, entries[0].key[depth..nodeDepth], depth, node);
  }

  lemma PathIsNibbles(entries: seq<Entry>, b: EntryMap, np: Bytes, depth: nat)
    requires Lists(entries, b) && NibbleKeys(b.Keys) && entries != [] && depth <= |np| <= |entries[0].key|
    requires entries[0].key[..|np|] == np
    ensures entries[0].key[depth..|np|] == np[depth..] && IsNibbles(entries[0].key[depth..|np|])
  {
    assert entries[0].key in b;
    assert entries[0].key[depth..|np|] == entries[0].key[..|np|][depth..];
  }

  /** One recursive call per child range; a child without entries keeps the null hash. */
  method HashChildren(K: Keccak, entries: seq<Entry>, ranges: seq<ChildRange>, nodeDepth: nat,
                      ghost b: EntryMap, ghost np: Bytes)
    returns (children: seq<H256>)
    requires Lists(entries, b) && IsBlock(b, np) && |np| == nodeDepth
    requires Partitions(entries, nodeDepth, ranges)
    ensures children == ChildHashes(K, b, np, 0)
    decreases MaxLen(b.Keys) - |np|, 0
  {
    hide Lists, InOrder, SlotsFilled, BlockHash, ChildHashes;
    children := NullSlots(K);
    assert SlotsFilled(K, b, np, ranges, 0, children) by { NoSlotsFilled(K, b, np, ranges); }
    for j := 0 to |ranges|
      invariant |children| == CHILDREN
      invariant SlotsFilled(K, b, np, ranges, j, children)
    {
      var r := ranges[j];
      SliceListsChild(entries, b, np, ranges, j);
      OccupiedChildHash(K, b, np, r.child);
      var rp := np + [r.child];
      var hash := MerkleForNode(K, entries[r.start..r.end], nodeDepth + 1, true, Block(b, rp), rp);
      SlotFilled(K, b, np, ranges, j, children);
      children := children[r.child := hash];
    }
    AllSlotsFilled(K, entries, b, np, ranges, children);
  }

  lemma NoSlotsFilled(K: Keccak, b: EntryMap, np: Bytes, ranges: seq<ChildRange>)
    requires IsBlock(b, np)
    ensures SlotsFilled(K, b, np, ranges, 0, NullSlots(K))
  {
  }

  method RootForEntries(K: Keccak, entries: seq<Entry>, ghost b: EntryMap) returns (h: H256)
    requires Lists(entries, b) && NibbleKeys(b.Keys)
    ensures h == RootOf(K, b)
  {
    if entries == [] {
      assert b == map[];
      return NullNode(K);
    }
    assert entries[0].key in b;
    h := MerkleForNode(K, entries, 0, false, b, []);
  }

  /** The root of a byte-keyed map: convert each key once, in key order, and hash. */
  method TrieRootOf(K: Keccak, kv: EntryMap) returns (h: H256)
    ensures h == TrieRoot(K, kv)
  {
    hide Lists, NibbleMap, Sorted, SortedKeys, ToNibbles, ConvertedUpTo, RootOf;
    if kv == map[] {
      EmptyNibbleMap();
      NothingConverted(K);
      return NullNode(K);
    }
    var keys := SortedKeys(kv.Keys);
    var entries: seq<Entry> := [];
    NoneConverted(kv, keys);
    for i := 0 to |keys|
      invariant ConvertedUpTo(kv, keys, i, entries)
    {
      assert keys[i] in keys;
      var nibbles := BytesToNibbles(keys[i]);
      OneConverted(kv, keys, i, entries);
      entries := entries + [Entry(nibbles, kv[keys[i]])];
    }
    NibbleListLists(kv, keys, entries);
    h := RootForEntries(K, entries, NibbleMap(kv));
  }

  lemma EmptyNibbleMap()
    ensures NibbleMap(map[]) == map[]
  {
  }

  lemma NothingConverted(K: Keccak)
    ensures RootOf(K, map[]) == NullNode(K)
  {
  }

  /** The entries of the first `n` keys, in nibbles. */
  ghost predicate ConvertedUpTo(kv: EntryMap, keys: seq<Bytes>, n: nat, entries: seq<Entry>) {
    && |entries| == n <= |keys|
    && forall j :: 0 <= j < n ==> keys[j] in kv && entries[j] == Entry(ToNibbles(keys[j]), kv[keys[j]])
  }

  lemma NoneConverted(kv: EntryMap, keys: seq<Bytes>)
    ensures ConvertedUpTo(kv, keys, 0, [])
  {
  }

  lemma OneConverted(kv: EntryMap, keys: seq<Bytes>, n: nat, entries: seq<Entry>)
    requires ConvertedUpTo(kv, keys, n, entries) && n < |keys| && keys[n] in kv
    ensures ConvertedUpTo(kv, keys, n + 1, entries + [Entry(ToNibbles(keys[n]), kv[keys[n]])])
  {
    hide ToNibbles;
  }

  lemma NibbleListLists(kv: EntryMap, keys: seq<Bytes>, entries: seq<Entry>)
    requires Sorted(keys) && forall k :: k in keys <==> k in kv
    requires ConvertedUpTo(kv, keys, |keys|, entries)
    ensures Lists(entries, NibbleMap(kv))
  {
    forall i, j | 0 <= i < j < |entries|
      ensures Less(entries[i].key, entries[j].key)
    {
      assert Less(keys[i], keys[j]);
      ToNibblesKeepsOrder(keys[i], keys[j]);
    }
    forall q | q in NibbleMap(kv)
      ensures exists i :: 0 <= i < |entries| && entries[i].key == q
    {
      var k := FromNibbles(q);
      assert k in keys;
      var i :| 0 <= i < |keys| && keys[i] == k;
      assert entries[i].key == q;
    }
  }
}
