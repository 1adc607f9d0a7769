/**
 * The root binds the contents. The hash function is arbitrary, so the statement is constructive: from two
 * different entry maps with one root, two different strings that were both hashed for those roots and collide.
 */
module Binding {
  import opened Basics
  import opened TrieSpec

  /** The value bytes that are hashed under each key. */
  ghost function HashedValues(m: EntryMap): map<Bytes, Bytes> {
    map k | k in m :: m[k].MerkleValue()
  }

  /** No live value is empty: an empty write is stored as a tombstone. */
  ghost predicate NoEmptyValue(m: EntryMap) {
    forall k :: k in m ==> m[k] != Live([])
  }

  ghost function NodeInputAt(K: Keccak, b: EntryMap, rp: Bytes): Bytes
    requires IsBlock(b, rp)
  {
    var np := NodeAt(b.Keys, rp);
    NodeInput(ChildHashes(K, b, np, 0), ValueAt(b, np))
  }

  /** `x` is one of the strings hashed on the way to the hash of this block. */
  ghost predicate HashedFor(K: Keccak, b: EntryMap, rp: Bytes, x: Bytes)
    requires IsBlock(b, rp)
    decreases MaxLen(b.Keys) - |rp|
  {
    || x == []
    || x == BlockInput(K, b, rp)
    || x == NodeInputAt(K, b, rp)
    || exists c: nat :: c < CHILDREN && HashedForChild(K, b, rp, c, x)
  }

  ghost predicate HashedForChild(K: Keccak, b: EntryMap, rp: Bytes, c: nat, x: Bytes)
    requires IsBlock(b, rp) && c < CHILDREN
    decreases MaxLen(b.Keys) - |rp|, 0
  {
    var np := NodeAt(b.Keys, rp);
    var sub := Block(b, np + [c]);
    && sub != map[]
    && (SubBlockIsSmaller(b, np, c); HashedFor(K, sub, np + [c], x))
  }

  ghost predicate HashedForRoot(K: Keccak, m: EntryMap, x: Bytes)
    requires NibbleKeys(m.Keys)
  {
    x == [] || (m != map[] && HashedFor(K, m, [], x))
  }

  // ---------------------------------------------------------------------------------------------
  // Hash inputs are injective
  // ---------------------------------------------------------------------------------------------

  lemma {:induction false} ConcatInjective(a: seq<H256>, b: seq<H256>)
    requires |a| == |b| && Concat(a) == Concat(b)
    ensures a == b
  {
    if a != [] {
      assert a[0] == Concat(a)[..32] == Concat(b)[..32] == b[0];
      assert Concat(a[1..]) == Concat(a)[32..] == Concat(b)[32..] == Concat(b[1..]);
      ConcatInjective(a[1..], b[1..]);
      assert a == [a[0]] + a[1..] && b == [b[0]] + b[1..];
    }
  }

  /** The node input determines the sixteen slots and the value, an absent value differing from an empty one. */
  lemma NodeInputInjective(c: seq<H256>, v: Option<Bytes>, d: seq<H256>, w: Option<Bytes>)
    requires |c| == |d| == CHILDREN
    requires NodeInput(c, v) == NodeInput(d, w)
    ensures c == d && v == w
  {
    var x, y := NodeInput(c, v), NodeInput(d, w);
    assert Concat(c) == x[1..513] && Concat(d) == y[1..513];
    ConcatInjective(c, d);
    assert v.Some? ==> x[514..] == v.value;
    assert w.Some? ==> y[514..] == w.value;
  }

  lemma {:induction false} PackPairsInjective(p: Bytes, q: Bytes)
    requires IsNibbles(p) && IsNibbles(q) && |p| == |q|
    requires PackPairs(p) == PackPairs(q)
    ensures p == q
  {
    if |p| == 1 {
      assert PackPairs(p)[0] == 16 * p[0] && PackPairs(q)[0] == 16 * q[0];
    } else if |p| > 1 {
      assert PackPairs(p)[0] == 16 * p[0] + p[1] && PackPairs(q)[0] == 16 * q[0] + q[1];
      assert PackPairs(p)[1..] == PackPairs(p[2..]) && PackPairs(q)[1..] == PackPairs(q[2..]);
      PackPairsInjective(p[2..], q[2..]);
      assert p == [p[0], p[1]] + p[2..] && q == [q[0], q[1]] + q[2..];
    }
  }

  lemma CompressLength(p: Bytes, odd: bool)
    requires IsNibbles(p) && p != []
    ensures |Compress(p, odd)| == if odd then 1 + |p| / 2 else (|p| + 1) / 2
  {
  }

  lemma CompressInjective(p: Bytes, q: Bytes, odd: bool)
    requires IsNibbles(p) && IsNibbles(q) && p != [] && |p| == |q|
    requires Compress(p, odd) == Compress(q, odd)
    ensures p == q
  {
    if odd {
      assert Compress(p, odd)[0] == p[0] && Compress(q, odd)[0] == q[0];
      assert Compress(p, odd)[1..] == PackPairs(p[1..]) && Compress(q, odd)[1..] == PackPairs(q[1..]);
      PackPairsInjective(p[1..], q[1..]);
      assert p == [p[0]] + p[1..] && q == [q[0]] + q[1..];
    } else {
      PackPairsInjective(p, q);
    }
  }

  /** The packed length leaves two candidate lengths; the info byte tells them apart, also where the cast wraps. */
  lemma PathInfoSeparates(n: nat, m: nat, odd: bool, odd': bool)
    requires PathInfo(n, odd) == PathInfo(m, odd')
    ensures odd == odd'
    ensures -1 <= n - m <= 1 ==> n == m
  {
    NextLengthDiffers(n);
    NextLengthDiffers(m);
  }

  lemma NextLengthDiffers(n: nat)
    ensures (n % 256) % 63 != ((n + 1) % 256) % 63
  {
    var r := n % 256;
    assert (n + 1) % 256 == if r == 255 then 0 else r + 1;
  }

  /** The path input determines the path, the parity of its start depth and the node hash, for every length. */
  lemma PathInputInjective(p: Bytes, d: nat, h: H256, q: Bytes, e: nat, g: H256)
    requires IsNibbles(p) && IsNibbles(q) && p != [] && q != []
    requires PathInput(p, d, h) == PathInput(q, e, g)
    ensures p == q && d % 2 == e % 2 && h == g
  {
    var x, y := PathInput(p, d, h), PathInput(q, e, g);
    var odd, odd' := d % 2 == 1, e % 2 == 1;
    assert x[0] == PathInfo(|p|, odd) && y[0] == PathInfo(|q|, odd');
    PathInfoSeparates(|p|, |q|, odd, odd');
    CompressLength(p, odd);
    CompressLength(q, odd);
    var n := |Compress(p, odd)|;
    assert |x| == 1 + n + 32;
    assert x[1 + n..] == h && y[1 + n..] == g;
    assert x[1..1 + n] == Compress(p, odd) && y[1..1 + n] == Compress(q, odd);
    CompressInjective(p, q, odd);
  }

  /** The info byte lies in 128..254, so a path input never starts with the node tag. */
  lemma PathNeverLooksLikeNode(path: Bytes, d: nat, h: H256, c: seq<H256>, v: Option<Bytes>)
    requires IsNibbles(path) && path != []
    ensures 128 <= PathInput(path, d, h)[0] <= 254
    ensures PathInput(path, d, h) != NodeInput(c, v)
  {
    assert PathInput(path, d, h)[0] == PathInfo(|path|, d % 2 == 1);
    assert NodeInput(c, v)[0] == 'n' as int;
  }

  // ---------------------------------------------------------------------------------------------
  // The root binds the contents
  // ---------------------------------------------------------------------------------------------

  /** A block is its entry at the node together with its sixteen child blocks. */
  lemma BlocksDetermine(a: EntryMap, b: EntryMap, np: Bytes)
    requires IsBlock(a, np) && IsBlock(b, np)
    requires ValueAt(a, np) == ValueAt(b, np)
    requires forall c: nat :: c < CHILDREN ==> SameChild(a, b, np, c)
    ensures HashedValues(a) == HashedValues(b)
  {
    forall k | k in a || k in b
      ensures k in a && k in b && a[k].MerkleValue() == b[k].MerkleValue()
    {
      assert np <= k && IsNibbles(k);
      if |k| == |np| {
        assert k == np;
      } else {
        KeyIsInChild(a, b, np, k);
      }
    }
  }

  ghost predicate SameChild(a: EntryMap, b: EntryMap, np: Bytes, c: nat)
    requires c < CHILDREN
  {
    HashedValues(Block(a, np + [c])) == HashedValues(Block(b, np + [c]))
  }

  lemma KeyIsInChild(a: EntryMap, b: EntryMap, np: Bytes, k: Bytes)
    requires np <= k && |np| < |k| && k[|np|] < CHILDREN
    requires SameChild(a, b, np, k[|np|])
    requires k in a || k in b
    ensures k in a && k in b && a[k].MerkleValue() == b[k].MerkleValue()
  {
    var c := k[|np|];
    var s, t := Block(a, np + [c]), Block(b, np + [c]);
    assert np + [c] <= k;
    assert k in s || k in t;
    assert HashedValues(s)[k] == HashedValues(t)[k];
  }

  /** A collision found for one child is a collision for the block. */
  lemma ChildIsHashed(K: Keccak, b: EntryMap, rp: Bytes, c: nat, x: Bytes)
    requires IsBlock(b, rp) && c < CHILDREN
    requires Block(b, NodeAt(b.Keys, rp) + [c]) != map[]
    requires IsBlock(Block(b, NodeAt(b.Keys, rp) + [c]), NodeAt(b.Keys, rp) + [c])
    requires HashedFor(K, Block(b, NodeAt(b.Keys, rp) + [c]), NodeAt(b.Keys, rp) + [c], x)
    ensures HashedFor(K, b, rp, x)
  {
    assert HashedForChild(K, b, rp, c, x);
  }

  lemma PathIsNibbles(b: EntryMap, rp: Bytes)
    requires IsBlock(b, rp)
    ensures IsNibbles(NodeAt(b.Keys, rp)[|rp|..])
    ensures IsBlock(b, NodeAt(b.Keys, rp))
    ensures NodeAt(b.Keys, rp) == rp + NodeAt(b.Keys, rp)[|rp|..]
  {
    var np := NodeAt(b.Keys, rp);
    var k :| k in b.Keys;
    assert np <= k;
    assert forall i :: 0 <= i < |np| ==> np[i] == k[i];
  }

  lemma BlockInputIs(K: Keccak, b: EntryMap, rp: Bytes)
    requires IsBlock(b, rp)
    ensures IsNibbles(NodeAt(b.Keys, rp)[|rp|..])
    ensures BlockInput(K, b, rp) ==
      if NodeAt(b.Keys, rp) == rp then NodeInputAt(K, b, rp)
      else PathInput(NodeAt(b.Keys, rp)[|rp|..], |rp|, K(NodeInputAt(K, b, rp)))
    ensures BlockInput(K, b, rp) != []
  {
    PathIsNibbles(b, rp);
    var np := NodeAt(b.Keys, rp);
    assert np == rp + np[|rp|..];
  }

  /** Equal outermost inputs, with or without a path, have equal paths and node inputs of equal hash. */
  lemma OuterInputInjective(K: Keccak, depth: nat, p: Bytes, c: seq<H256>, v: Option<Bytes>,
                            q: Bytes, d: seq<H256>, w: Option<Bytes>)
    requires IsNibbles(p) && IsNibbles(q)
    requires (if p == [] then NodeInput(c, v) else PathInput(p, depth, K(NodeInput(c, v))))
          == (if q == [] then NodeInput(d, w) else PathInput(q, depth, K(NodeInput(d, w))))
    ensures p == q && K(NodeInput(c, v)) == K(NodeInput(d, w))
  {
    if p != [] {
      PathNeverLooksLikeNode(p, depth, K(NodeInput(c, v)), d, w);
    }
    if q != [] {
      PathNeverLooksLikeNode(q, depth, K(NodeInput(d, w)), c, v);
    }
    if p != [] {
      PathInputInjective(p, depth, K(NodeInput(c, v)), q, depth, K(NodeInput(d, w)));
    }
  }

  /** Equal block inputs come from equal node prefixes, and from node inputs with equal hashes. */
  lemma SameInputSameNode(K: Keccak, a: EntryMap, b: EntryMap, rp: Bytes)
    requires IsBlock(a, rp) && IsBlock(b, rp)
    requires BlockInput(K, a, rp) == BlockInput(K, b, rp)
    ensures NodeAt(a.Keys, rp) == NodeAt(b.Keys, rp)
    ensures K(NodeInputAt(K, a, rp)) == K(NodeInputAt(K, b, rp))
  {
    hide BlockInput, ChildHashes, PathInput, NodeInput, IsNibbles, AllExtend;
    BlockInputIs(K, a, rp);
    BlockInputIs(K, b, rp);
    PathIsNibbles(a, rp);
    PathIsNibbles(b, rp);
    var p, q := NodeAt(a.Keys, rp), NodeAt(b.Keys, rp);
    OuterInputInjective(K, |rp|, p[|rp|..], ChildHashes(K, a, p, 0), ValueAt(a, p),
                        q[|rp|..], ChildHashes(K, b, q, 0), ValueAt(b, q));
  }

  lemma {:induction false} BlockBinds(K: Keccak, a: EntryMap, b: EntryMap, rp: Bytes) returns (x: Bytes, y: Bytes)
    requires IsBlock(a, rp) && IsBlock(b, rp)
    requires BlockHash(K, a, rp) == BlockHash(K, b, rp) && HashedValues(a) != HashedValues(b)
    ensures x != y && K(x) == K(y)
    ensures HashedFor(K, a, rp, x) && HashedFor(K, b, rp, y)
    decreases MaxLen(a.Keys) - |rp|
  {
    x, y := BlockInput(K, a, rp), BlockInput(K, b, rp);
    if x != y {
      return;
    }
    SameInputSameNode(K, a, b, rp);
    x, y := NodeInputAt(K, a, rp), NodeInputAt(K, b, rp);
    if x != y {
      return;
    }
    var np := NodeAt(a.Keys, rp);
    NodeInputInjective(ChildHashes(K, a, np, 0), ValueAt(a, np), ChildHashes(K, b, np, 0), ValueAt(b, np));
    var c := DifferingChild(a, b, np);
    assert ChildHashes(K, a, np, 0)[c] == ChildHash(K, a, np, c);
    assert ChildHashes(K, b, np, 0)[c] == ChildHash(K, b, np, c);
    x, y := ChildBinds(K, a, b, rp, np, c);
  }

  lemma DifferingChild(a: EntryMap, b: EntryMap, np: Bytes) returns (c: nat)
    requires IsBlock(a, np) && IsBlock(b, np)
    requires ValueAt(a, np) == ValueAt(b, np) && HashedValues(a) != HashedValues(b)
    ensures c < CHILDREN && !SameChild(a, b, np, c)
  {
    if forall c: nat :: c < CHILDREN ==> SameChild(a, b, np, c) {
      BlocksDetermine(a, b, np);
    }
    c :| c < CHILDREN && !SameChild(a, b, np, c);
  }

  lemma {:induction false} ChildBinds(K: Keccak, a: EntryMap, b: EntryMap, rp: Bytes, np: Bytes, c: nat)
    returns (x: Bytes, y: Bytes)
    requires IsBlock(a, rp) && IsBlock(b, rp)
    requires np == NodeAt(a.Keys, rp) == NodeAt(b.Keys, rp) && c < CHILDREN
    requires !SameChild(a, b, np, c)
    requires ChildHash(K, a, np, c) == ChildHash(K, b, np, c)
    ensures x != y && K(x) == K(y)
    ensures HashedFor(K, a, rp, x) && HashedFor(K, b, rp, y)
    decreases MaxLen(a.Keys) - |np|, 0
  {
    var s, t := Block(a, np + [c]), Block(b, np + [c]);
    if s != map[] {
      SubBlockIsSmaller(a, np, c);
      BlockInputIs(K, s, np + [c]);
    }
    if t != map[] {
      SubBlockIsSmaller(b, np, c);
      BlockInputIs(K, t, np + [c]);
    }
    if s == map[] {
      x, y := [], BlockInput(K, t, np + [c]);
      ChildIsHashed(K, b, rp, c, y);
    } else if t == map[] {
      x, y := BlockInput(K, s, np + [c]), [];
      ChildIsHashed(K, a, rp, c, x);
    } else {
      x, y := BlockBinds(K, s, t, np + [c]);
      ChildIsHashed(K, a, rp, c, x);
      ChildIsHashed(K, b, rp, c, y);
    }
  }

  /** Two tries that hash different values under some key, with one root, yield two strings that collide. */
  lemma RootBinds(K: Keccak, m: EntryMap, n: EntryMap) returns (x: Bytes, y: Bytes)
    ensures TrieRoot(K, m) == TrieRoot(K, n) && HashedValues(m) != HashedValues(n) ==>
              && x != y && K(x) == K(y)
              && HashedForRoot(K, NibbleMap(m), x) && HashedForRoot(K, NibbleMap(n), y)
  {
    x, y := [], [];
    var a, b := NibbleMap(m), NibbleMap(n);
    if HashedValues(a) == HashedValues(b) {
      NibbleMapInjective(m, n);
    } else if TrieRoot(K, m) == TrieRoot(K, n) {
      if a == map[] {
        BlockInputIs(K, b, []);
        y := BlockInput(K, b, []);
      } else if b == map[] {
        BlockInputIs(K, a, []);
        x := BlockInput(K, a, []);
      } else {
        x, y := BlockBinds(K, a, b, []);
      }
    }
  }

  /** Without empty live values the root binds the entries themselves, tombstones included. */
  lemma RootBindsEntries(K: Keccak, m: EntryMap, n: EntryMap) returns (x: Bytes, y: Bytes)
    requires NoEmptyValue(m) && NoEmptyValue(n)
    ensures TrieRoot(K, m) == TrieRoot(K, n) ==>
              || m == n
              || (x != y && K(x) == K(y) && HashedForRoot(K, NibbleMap(m), x) && HashedForRoot(K, NibbleMap(n), y))
  {
    if HashedValues(m) == HashedValues(n) {
      ValuesDetermineEntries(m, n);
    }
    x, y := RootBinds(K, m, n);
  }

  lemma ValuesDetermineEntries(m: EntryMap, n: EntryMap)
    requires NoEmptyValue(m) && NoEmptyValue(n)
    requires HashedValues(m) == HashedValues(n)
    ensures m == n
  {
    forall k
      ensures k in m <==> k in n
      ensures k in m && k in n ==> m[k] == n[k]
    {
      assert k in m <==> k in HashedValues(m);
      assert k in n <==> k in HashedValues(n);
      if k in m {
        assert HashedValues(m)[k] == m[k].MerkleValue() && HashedValues(n)[k] == n[k].MerkleValue();
      }
    }
  }

  lemma NibbleMapInjective(m: EntryMap, n: EntryMap)
    requires HashedValues(NibbleMap(m)) == HashedValues(NibbleMap(n))
    ensures HashedValues(m) == HashedValues(n)
  {
    forall k
      ensures k in m <==> k in n
      ensures k in m && k in n ==> m[k].MerkleValue() == n[k].MerkleValue()
    {
      if k in m {
        SameNibbles(m, n, k);
      } else if k in n {
        SameNibbles(n, m, k);
      }
    }
  }

  lemma SameNibbles(m: EntryMap, n: EntryMap, k: Bytes)
    requires HashedValues(NibbleMap(m)) == HashedValues(NibbleMap(n)) && k in m
    ensures k in n && m[k].MerkleValue() == n[k].MerkleValue()
  {
    hide NibbleMap;
    var kn := ToNibbles(k);
    assert kn in HashedValues(NibbleMap(m));
    assert kn in HashedValues(NibbleMap(n));
    assert HashedValues(NibbleMap(n))[kn] == NibbleMap(n)[kn].MerkleValue();
  }

  // ---------------------------------------------------------------------------------------------
  // Conversely, the root depends on nothing else
  // ---------------------------------------------------------------------------------------------

  /** The hashed values alone fix a block's hash: a tombstone and an empty live value hash alike. */
  lemma {:induction false} ValuesFixTheBlock(K: Keccak, a: EntryMap, b: EntryMap, rp: Bytes)
    requires IsBlock(a, rp) && IsBlock(b, rp)
    requires HashedValues(a) == HashedValues(b)
    ensures BlockInput(K, a, rp) == BlockInput(K, b, rp)
    decreases MaxLen(a.Keys) - |rp|
  {
    assert a.Keys == HashedValues(a).Keys == HashedValues(b).Keys == b.Keys;
    var np := NodeAt(a.Keys, rp);
    assert ValueAt(a, np) == ValueAt(b, np) by {
      if np in a {
        assert HashedValues(a)[np] == HashedValues(b)[np];
      }
    }
    PathIsNibbles(a, rp);
    forall c | 0 <= c < CHILDREN
      ensures ChildHash(K, a, np, c) == ChildHash(K, b, np, c)
    {
      ValuesFixTheChild(K, a, b, np, c);
    }
    assert ChildHashes(K, a, np, 0) == ChildHashes(K, b, np, 0);
    BlockInputIs(K, a, rp);
    BlockInputIs(K, b, rp);
  }

  lemma {:induction false} ValuesFixTheChild(K: Keccak, a: EntryMap, b: EntryMap, np: Bytes, c: nat)
    requires IsBlock(a, np) && IsBlock(b, np) && c < CHILDREN
    requires HashedValues(a) == HashedValues(b)
    ensures ChildHash(K, a, np, c) == ChildHash(K, b, np, c)
    decreases MaxLen(a.Keys) - |np|, 0
  {
    var s, t := Block(a, np + [c]), Block(b, np + [c]);
    assert HashedValues(s) == HashedValues(t) by {
      forall k
        ensures k in s <==> k in t
        ensures k in s && k in t ==> s[k].MerkleValue() == t[k].MerkleValue()
      {
        assert k in a <==> k in HashedValues(a);
        assert k in b <==> k in HashedValues(b);
        if k in a {
          assert HashedValues(a)[k] == HashedValues(b)[k];
        }
      }
    }
    assert s == map[] <==> HashedValues(s) == map[];
    assert t == map[] <==> HashedValues(t) == map[];
    if s != map[] {
      SubBlockIsSmaller(a, np, c);
      SubBlockIsSmaller(b, np, c);
      ValuesFixTheBlock(K, s, t, np + [c]);
    }
  }

  lemma ValuesFixTheRoot(K: Keccak, m: EntryMap, n: EntryMap)
    requires HashedValues(m) == HashedValues(n)
    ensures TrieRoot(K, m) == TrieRoot(K, n)
  {
    var a, b := NibbleMap(m), NibbleMap(n);
    NibbleMapKeepsValues(m, n);
    assert a.Keys == HashedValues(a).Keys == HashedValues(b).Keys == b.Keys;
    if a != map[] && b != map[] {
      ValuesFixTheBlock(K, a, b, []);
    }
  }

  lemma NibbleMapKeepsValues(m: EntryMap, n: EntryMap)
    requires HashedValues(m) == HashedValues(n)
    ensures HashedValues(NibbleMap(m)) == HashedValues(NibbleMap(n))
  {
    var a, b := NibbleMap(m), NibbleMap(n);
    forall k | k in a || k in b
      ensures k in a && k in b && a[k].MerkleValue() == b[k].MerkleValue()
    {
      NibbleKeyShared(m, n, k);
    }
  }

  lemma NibbleKeyShared(m: EntryMap, n: EntryMap, k: Bytes)
    requires HashedValues(m) == HashedValues(n) && (k in NibbleMap(m) || k in NibbleMap(n))
    ensures k in NibbleMap(m) && k in NibbleMap(n)
    ensures NibbleMap(m)[k].MerkleValue() == NibbleMap(n)[k].MerkleValue()
  {
    hide NibbleMap;
    var q := FromNibbles(k);
    assert k == ToNibbles(q);
    assert q in HashedValues(m) && q in HashedValues(n);
    assert HashedValues(m)[q] == HashedValues(n)[q];
  }
}
