/** What is hashed for a node and for a compressed path, byte by byte. */
module TrieFormat {
  import opened Basics
  import opened TrieSpec

  // ---------------------------------------------------------------------------------------------
  // Nodes
  // ---------------------------------------------------------------------------------------------

  lemma {:induction false} ConcatAt(parts: seq<H256>, c: nat)
    requires c < |parts|
    ensures Concat(parts)[32 * c..32 * c + 32] == parts[c]
  {
    if c > 0 {
      ConcatAt(parts[1..], c - 1);
      assert Concat(parts)[32 * c..32 * c + 32] == Concat(parts[1..])[32 * (c - 1)..32 * (c - 1) + 32];
    }
  }

  /** An 'n', the sixteen child hashes from slot 0 on, and a 'v' with the value behind them if there is a value. */
  lemma NodeBytes(children: seq<H256>, value: Option<Bytes>)
    requires |children| == 16
    ensures var b := NodeInput(children, value);
      && |b| >= 513 && b[0] == 110
      && (forall c :: 0 <= c < 16 ==> b[1 + 32 * c..33 + 32 * c] == children[c])
      && b[513..] == match value case Some(v) => [118] + v case None => []
  {
    hide Concat;
    var b := NodeInput(children, value);
    forall c | 0 <= c < 16
      ensures b[1 + 32 * c..33 + 32 * c] == children[c]
    {
      ConcatAt(children, c);
      assert b[1 + 32 * c..33 + 32 * c] == Concat(children)[32 * c..32 * c + 32];
    }
  }

  /** The hash in an empty slot and of an empty trie is that of no bytes at all. */
  lemma NullIsHashOfNothing(K: Keccak)
    ensures NullNode(K) == K([]) && TrieRoot(K, map[]) == K([])
  {
    assert NibbleMap(map[]) == map[];
  }

  // ---------------------------------------------------------------------------------------------
  // Paths
  // ---------------------------------------------------------------------------------------------

  /** Nibbles `2 * j` and `2 * j + 1` share byte `j`, the earlier one in its high half. */
  lemma {:induction false} PairAt(nibbles: Bytes, j: nat)
    requires IsNibbles(nibbles) && 2 * j < |nibbles|
    ensures j < |PackPairs(nibbles)|
    ensures PackPairs(nibbles)[j] / 16 == nibbles[2 * j]
    ensures PackPairs(nibbles)[j] % 16 == if 2 * j + 1 < |nibbles| then nibbles[2 * j + 1] else 0
    decreases j
  {
    if j > 0 {
      PairAt(nibbles[2..], j - 1);
    }
  }

  /**
   * The first byte has bit 7 set, bit 6 on an odd start depth, and the length, cast to a byte, modulo 63. On an odd
   * start depth the first nibble has a byte of its own; the others stand in pairs, the earlier one in the high half, a
   * last one alone over a zero. The node hash ends it.
   */
  lemma PathBytes(path: Bytes, depth: nat, node: H256)
    requires IsNibbles(path) && path != []
    ensures var b := PathInput(path, depth, node); var odd := depth % 2; var pairs := (|path| - odd + 1) / 2;
      && |b| == 1 + odd + pairs + 32
      && b[0] / 128 == 1 && (b[0] / 64) % 2 == odd && b[0] % 64 == (|path| % 256) % 63
      && (odd == 1 ==> b[1] == path[0])
      && (forall j :: 0 <= j < pairs ==>
            && b[1 + odd + j] / 16 == path[odd + 2 * j]
            && b[1 + odd + j] % 16 == if odd + 2 * j + 1 < |path| then path[odd + 2 * j + 1] else 0)
      && b[1 + odd + pairs..] == node
  {
    hide PackPairs, PathInfo;
    var odd := depth % 2;
    var b, rest := PathInput(path, depth, node), path[odd..];
    var pairs := (|path| - odd + 1) / 2;
    InfoBits(|path|, odd == 1);
    assert path[0..] == path;
    forall j | 0 <= j < pairs
      ensures b[1 + odd + j] / 16 == path[odd + 2 * j]
      ensures b[1 + odd + j] % 16 == if odd + 2 * j + 1 < |path| then path[odd + 2 * j + 1] else 0
    {
      PairOfRest(path, odd, j);
      assert b[1 + odd + j] == PackPairs(rest)[j];
    }
  }

  lemma InfoBits(length: nat, odd: bool)
    ensures var x := PathInfo(length, odd);
      x / 128 == 1 && (x / 64) % 2 == (if odd then 1 else 0) && x % 64 == (length % 256) % 63
  {
  }

  lemma PairOfRest(path: Bytes, odd: nat, j: nat)
    requires IsNibbles(path) && odd <= |path| && odd + 2 * j < |path|
    ensures IsNibbles(path[odd..]) && j < |PackPairs(path[odd..])|
    ensures PackPairs(path[odd..])[j] / 16 == path[odd + 2 * j]
    ensures PackPairs(path[odd..])[j] % 16 == if odd + 2 * j + 1 < |path| then path[odd + 2 * j + 1] else 0
  {
    hide PackPairs;
    PairAt(path[odd..], j);
  }

  lemma {:induction false} PackedNibbles(b: Bytes)
    ensures PackPairs(ToNibbles(b)) == b
  {
    if b != [] {
      PackedNibbles(b[1..]);
      assert ToNibbles(b)[2..] == ToNibbles(b[1..]);
    }
  }

  /** A path of whole bytes from an even depth is hashed as those bytes. */
  lemma BytePath(b: Bytes, depth: nat, node: H256)
    requires b != [] && depth % 2 == 0
    ensures PathInput(ToNibbles(b), depth, node)[1..] == b + node
  {
    hide PackPairs, ToNibbles;
    PackedNibbles(b);
  }

  // ---------------------------------------------------------------------------------------------
  // Blocks
  // ---------------------------------------------------------------------------------------------

  /** The hash of nothing where no key goes on with the nibble, else the hash of the block of those that do. */
  ghost predicate SlotsHold(K: Keccak, b: EntryMap, np: Bytes, slots: seq<H256>) {
    && |slots| == 16
    && forall c :: 0 <= c < 16 ==>
      if Block(b, np + [c]) == map[] then slots[c] == K([])
      else IsBlock(Block(b, np + [c]), np + [c]) && slots[c] == BlockHash(K, Block(b, np + [c]), np + [c])
  }

  /** A tombstone is hashed as an empty value. */
  function Hashed(v: MptValue): Bytes {
    match v
    case Live(bytes) => bytes
    case Tombstone => []
  }

  /** The value of the key that ends at the prefix. */
  function EndingAt(b: EntryMap, np: Bytes): Option<Bytes> {
    if np in b then Some(Hashed(b[np])) else None
  }

  /** A block is the node at its prefix, and above it the path down from where the block was entered. */
  lemma BlockEquation(K: Keccak, b: EntryMap, rp: Bytes)
    requires IsBlock(b, rp)
    ensures var np := NodeAt(b.Keys, rp);
      && rp <= np && IsNibbles(np[|rp|..])
      && exists slots: seq<H256> ::
           && SlotsHold(K, b, np, slots)
           && BlockHash(K, b, rp)
                == K(if np == rp then NodeInput(slots, EndingAt(b, np))
                     else PathInput(np[|rp|..], |rp|, K(NodeInput(slots, EndingAt(b, np)))))
  {
    hide NodeInput, PathInput, NodeAt;
    var np := NodeAt(b.Keys, rp);
    var slots := ChildHashes(K, b, np, 0);
    SlotsAreHeld(K, b, np);
    var k :| k in b.Keys;
    assert IsNibbles(np[|rp|..]) by {
      assert forall i :: 0 <= i < |np| - |rp| ==> np[|rp|..][i] == k[|rp| + i];
    }
    assert np == rp <==> np[|rp|..] == [];
  }

  lemma SlotsAreHeld(K: Keccak, b: EntryMap, np: Bytes)
    requires IsBlock(b, np)
    ensures SlotsHold(K, b, np, ChildHashes(K, b, np, 0))
  {
    hide BlockHash;
    var slots := ChildHashes(K, b, np, 0);
    forall c | 0 <= c < 16
      ensures if Block(b, np + [c]) == map[] then slots[c] == K([])
              else IsBlock(Block(b, np + [c]), np + [c]) && slots[c] == BlockHash(K, Block(b, np + [c]), np + [c])
    {
      if Block(b, np + [c]) != map[] {
        OccupiedChildHash(K, b, np, c);
      }
    }
  }

  /** Fifteen empty slots around one. */
  ghost predicate OneSlot(K: Keccak, slots: seq<H256>, c: nat, h: H256) {
    |slots| == 16 && forall d :: 0 <= d < 16 ==> slots[d] == if d == c then h else K([])
  }

  ghost predicate NoSlot(K: Keccak, slots: seq<H256>) {
    |slots| == 16 && forall d :: 0 <= d < 16 ==> slots[d] == K([])
  }

  /**
   * The root over one key `b` with value `v`: a node with one child, below which an odd path of all nibbles but the
   * first leads to the node with the value.
   */
  lemma OneKeyRoot(K: Keccak, b: Bytes, v: MptValue)
    requires b != []
    ensures exists leaf: seq<H256>, top: seq<H256> ::
      && NoSlot(K, leaf)
      && OneSlot(K, top, b[0] / 16, K([192 + ((2 * |b| - 1) % 256) % 63, b[0] % 16] + b[1..]
                                      + K(NodeInput(leaf, Some(Hashed(v))))))
      && TrieRoot(K, map[b := v]) == K(NodeInput(top, None))
  {
    hide NodeInput, PathInput, PathInfo, BlockHash, ToNibbles, NoSlot, OneSlot, RootOf;
    var q := ToNibbles(b);
    OneNibbleKey(b, v);
    FirstNibbles(b);
    var leaf := LeafOfOne(K, q, v);
    var top := TopOfOne(K, q, v);
    OddPath(b, b[0] % 16, K(NodeInput(leaf, Some(Hashed(v)))));
    OddInfo(2 * |b| - 1);
    RootOfOne(K, q, v);
  }

  lemma RootOfOne(K: Keccak, q: Bytes, v: MptValue)
    requires IsNibbles(q)
    ensures var m: EntryMap := map[q := v]; IsBlock(m, []) && RootOf(K, m) == BlockHash(K, m, [])
  {
    hide BlockHash;
    var m: EntryMap := map[q := v];
    assert q in m;
  }

  /** The node that holds the only value. */
  lemma LeafOfOne(K: Keccak, q: Bytes, v: MptValue) returns (leaf: seq<H256>)
    requires IsNibbles(q) && |q| > 1
    ensures NoSlot(K, leaf) && IsBlock(map[q := v], [q[0]])
    ensures BlockHash(K, map[q := v], [q[0]])
         == K(PathInput(q[1..], 1, K(NodeInput(leaf, Some(Hashed(v))))))
  {
    hide NodeInput, PathInput, BlockHash, NodeAt;
    var m: EntryMap := map[q := v];
    OneKeyPrefix(q, [q[0]]);
    assert m.Keys == {q};
    BlockEquation(K, m, [q[0]]);
    leaf :| SlotsHold(K, m, q, leaf)
      && BlockHash(K, m, [q[0]]) == K(PathInput(q[1..], 1, K(NodeInput(leaf, EndingAt(m, q)))));
    forall d | 0 <= d < 16 ensures leaf[d] == K([]) {
      assert Block(m, q + [d]) == map[];
    }
  }

  /** The node at the root. */
  lemma TopOfOne(K: Keccak, q: Bytes, v: MptValue) returns (top: seq<H256>)
    requires IsNibbles(q) && |q| > 1
    ensures IsBlock(map[q := v], [q[0]]) && OneSlot(K, top, q[0], BlockHash(K, map[q := v], [q[0]]))
    ensures IsBlock(map[q := v], []) && BlockHash(K, map[q := v], []) == K(NodeInput(top, None))
  {
    hide NodeInput, PathInput, BlockHash, NodeAt;
    var m: EntryMap := map[q := v];
    assert q in m;
    BlockEquation(K, m, []);
    top :| SlotsHold(K, m, [], top) && BlockHash(K, m, []) == K(NodeInput(top, EndingAt(m, [])));
    forall d | 0 <= d < 16
      ensures top[d] == if d == q[0] then BlockHash(K, m, [q[0]]) else K([])
    {
      assert [] + [d] == [d];
      assert Block(m, [d]) == if d == q[0] then m else map[];
    }
  }

  lemma OneNibbleKey(b: Bytes, v: MptValue)
    ensures NibbleMap(map[b := v]) == map[ToNibbles(b) := v]
  {
    hide ToNibbles;
    assert IsNibbleForm(map[b := v], map[ToNibbles(b) := v]);
    NibbleFormIsUnique(map[b := v], map[ToNibbles(b) := v]);
  }

  lemma FirstNibbles(b: Bytes)
    requires b != []
    ensures var q := ToNibbles(b);
      |q| == 2 * |b| && IsNibbles(q) && q[0] == b[0] / 16 && q[1..] == [b[0] % 16] + ToNibbles(b[1..])
  {
    assert ToNibbles(b)[2..] == ToNibbles(b[1..]);
    assert ToNibbles(b)[1..] == [b[0] % 16] + ToNibbles(b)[2..];
  }

  lemma OneKeyPrefix(q: Bytes, rp: Bytes)
    requires rp != [] && rp <= q
    ensures NodeAt({q}, rp) == q
  {
    assert IsNodePrefix({q}, q);
    NodePrefixIsUnique({q}, NodeAt({q}, rp), q);
  }

  lemma OddPath(b: Bytes, x: Byte, node: H256)
    requires b != [] && ToNibbles(b)[1..] == [x] + ToNibbles(b[1..])
    ensures PathInput(ToNibbles(b)[1..], 1, node) == [PathInfo(2 * |b| - 1, true), x] + b[1..] + node
  {
    hide PackPairs, ToNibbles, PathInfo, PathInput;
    PackedNibbles(b[1..]);
    var path := ToNibbles(b)[1..];
    TailOfTwo(path, x, ToNibbles(b[1..]));
    PackedBehind(path, b[1..], node);
  }

  lemma TailOfTwo(path: Bytes, x: Byte, rest: Bytes)
    requires path == [x] + rest
    ensures path[0] == x && path[1..] == rest
  {
  }

  lemma PackedBehind(path: Bytes, packed: Bytes, node: H256)
    requires IsNibbles(path) && path != [] && PackPairs(path[1..]) == packed
    ensures PathInput(path, 1, node) == [PathInfo(|path|, true), path[0]] + packed + node
  {
    hide PackPairs, PathInfo;
    assert Compress(path, true) == [path[0]] + packed;
    TwoInFront(PathInfo(|path|, true), path[0], packed);
  }

  lemma TwoInFront(x: Byte, y: Byte, rest: Bytes)
    ensures [x] + ([y] + rest) == [x, y] + rest
  {
  }

  lemma OddInfo(length: nat)
    ensures PathInfo(length, true) == 192 + (length % 256) % 63
  {
  }
}
