/** Bytes, hashes, results and the ordering of byte strings that every other module uses. */
module Basics {

  type Byte = b: int | 0 <= b < 256

  type Bytes = seq<Byte>

  /** A 32-byte hash value. */
  type H256 = h: Bytes | |h| == 32 witness seq(32, i => 0)

  /** The hash function: any total function from byte strings to 32-byte strings. Nothing else is assumed of it. */
  type Keccak = Bytes -> H256

  datatype Option<+T> = None | Some(value: T)

  datatype Error =
    | InvalidKey
    | OutOfBounds
    | Overflow
    | Malformed

  datatype Result<+T> = Ok(value: T) | Err(error: Error) {
    predicate IsFailure() {
      Err?
    }

    function PropagateFailure<U>(): Result<U>
      requires Err?
    {
      Err(error)
    }

    function Extract(): T
      requires Ok?
    {
      value
    }
  }

  /** The hash of the empty string: the root of an empty trie and the content of an empty child slot. */
  function NullNode(K: Keccak): H256 {
    K([])
  }

  function Max(a: nat, b: nat): nat {
    if a < b then b else a
  }

  function Min(a: nat, b: nat): nat {
    if a < b then a else b
  }

  // ---------------------------------------------------------------------------------------------
  // Lexicographic order
  // ---------------------------------------------------------------------------------------------

  /** The length of the longest common prefix of two byte strings. */
  function Lcp(a: Bytes, b: Bytes): (n: nat)
    ensures n <= |a| && n <= |b|
    ensures forall i :: 0 <= i < n ==> a[i] == b[i]
    ensures n < |a| && n < |b| ==> a[n] != b[n]
  {
    if |a| == 0 || |b| == 0 || a[0] != b[0] then
      0
    else
      var n := Lcp(a[1..], b[1..]);
      assert forall i :: 0 < i < n + 1 ==> a[i] == a[1..][i - 1] && b[i] == b[1..][i - 1];
      n + 1
  }

  /** The order in which a `BTreeMap<Vec<u8>, _>` keeps its keys. */
  predicate Less(a: Bytes, b: Bytes) {
    var n := Lcp(a, b);
    n < |b| && (n == |a| || a[n] < b[n])
  }

  lemma LcpIs(a: Bytes, b: Bytes, n: nat)
    requires n <= |a| && n <= |b|
    requires forall i :: 0 <= i < n ==> a[i] == b[i]
    requires n < |a| && n < |b| ==> a[n] != b[n]
    ensures Lcp(a, b) == n
  {
  }

  lemma LcpSymmetric(a: Bytes, b: Bytes)
    ensures Lcp(a, b) == Lcp(b, a)
  {
    LcpIs(b, a, Lcp(a, b));
  }

  /** Exactly one of `a < b`, `a == b`, `b < a` holds. */
  lemma LessIsTotal(a: Bytes, b: Bytes)
    ensures Less(a, b) || a == b || Less(b, a)
    ensures !(Less(a, b) && Less(b, a))
    ensures !Less(a, a)
  {
    LcpSymmetric(a, b);
    LcpIs(a, a, |a|);
    var n := Lcp(a, b);
    if n == |a| && n == |b| {
      assert a == b;
    }
  }

  lemma LessIsTransitive(a: Bytes, b: Bytes, c: Bytes)
    requires Less(a, b) && Less(b, c)
    ensures Less(a, c)
  {
    var n, m := Lcp(a, b), Lcp(b, c);
    LcpIs(a, c, Min(n, m));
  }

  /** A proper extension of a byte string is greater than it. */
  lemma PrefixIsLess(p: Bytes, k: Bytes)
    requires p < k
    ensures Less(p, k) && !Less(k, p)
  {
    LcpIs(p, k, |p|);
    LessIsTotal(p, k);
  }

  lemma PrefixOfPrefix(p: Bytes, q: Bytes, k: Bytes)
    requires p <= k && q <= k && |p| <= |q|
    ensures p <= q
  {
    forall i | 0 <= i < |p|
      ensures p[i] == q[i]
    {
      assert p[i] == k[i] == q[i];
    }
  }

  // ---------------------------------------------------------------------------------------------
  // Sorted key sets, as a `BTreeMap` presents them
  // ---------------------------------------------------------------------------------------------

  predicate IsLeast(s: set<Bytes>, k: Bytes) {
    k in s && forall q :: q in s && q != k ==> Less(k, q)
  }

  predicate IsGreatest(s: set<Bytes>, k: Bytes) {
    k in s && forall q :: q in s && q != k ==> Less(q, k)
  }

  lemma {:induction false} LeastExists(s: set<Bytes>)
    requires s != {}
    ensures exists k :: IsLeast(s, k)
  {
    var k :| k in s;
    if s == {k} {
      assert IsLeast(s, k);
    } else {
      LeastExists(s - {k});
      var r :| IsLeast(s - {k}, r);
      LessIsTotal(k, r);
      if Less(r, k) {
        assert IsLeast(s, r);
      } else {
        forall q | q in s && q != k && q != r
          ensures Less(k, q)
        {
          LessIsTransitive(k, r, q);
        }
        assert IsLeast(s, k);
      }
    }
  }

  lemma {:induction false} GreatestExists(s: set<Bytes>)
    requires s != {}
    ensures exists k :: IsGreatest(s, k)
  {
    var k :| k in s;
    if s == {k} {
      assert IsGreatest(s, k);
    } else {
      GreatestExists(s - {k});
      var r :| IsGreatest(s - {k}, r);
      LessIsTotal(k, r);
      if Less(k, r) {
        assert IsGreatest(s, r);
      } else {
        forall q | q in s && q != k && q != r
          ensures Less(q, k)
        {
          LessIsTransitive(q, r, k);
        }
        assert IsGreatest(s, k);
      }
    }
  }

  lemma LeastIsUnique(s: set<Bytes>, k: Bytes, q: Bytes)
    requires IsLeast(s, k) && IsLeast(s, q)
    ensures k == q
  {
    LessIsTotal(k, q);
  }

  lemma GreatestIsUnique(s: set<Bytes>, k: Bytes, q: Bytes)
    requires IsGreatest(s, k) && IsGreatest(s, q)
    ensures k == q
  {
    LessIsTotal(k, q);
  }

  /** The first key that a `BTreeMap` yields. */
  function LeastKey(s: set<Bytes>): (k: Bytes)
    requires s != {}
    ensures IsLeast(s, k)
  {
    LeastExists(s);
    assert forall k, q :: IsLeast(s, k) && IsLeast(s, q) ==> k == q by {
      forall k, q | IsLeast(s, k) && IsLeast(s, q)
        ensures k == q
      {
        LeastIsUnique(s, k, q);
      }
    }
    var k :| k in s && IsLeast(s, k);
    k
  }

  /** The last key that a `BTreeMap` yields. */
  function GreatestKey(s: set<Bytes>): (k: Bytes)
    requires s != {}
    ensures IsGreatest(s, k)
  {
    GreatestExists(s);
    assert forall k, q :: IsGreatest(s, k) && IsGreatest(s, q) ==> k == q by {
      forall k, q | IsGreatest(s, k) && IsGreatest(s, q)
        ensures k == q
      {
        GreatestIsUnique(s, k, q);
      }
    }
    var k :| k in s && IsGreatest(s, k);
    k
  }

  /** All keys of a set in the order a `BTreeMap` iterates over them. */
  function SortedKeys(s: set<Bytes>): (keys: seq<Bytes>)
    ensures forall k :: k in keys <==> k in s
    ensures |keys| == |s|
    ensures Sorted(keys)
  {
    if s == {} then
      []
    else
      var k := LeastKey(s);
      var rest := SortedKeys(s - {k});
      SmallerInFront(k, rest);
      [k] + rest
  }

  lemma SmallerInFront(k: Bytes, rest: seq<Bytes>)
    requires Sorted(rest)
    requires forall q :: q in rest ==> Less(k, q)
    ensures Sorted([k] + rest)
  {
    assert forall i :: 0 <= i < |rest| ==> rest[i] in rest;
  }

  predicate Sorted(keys: seq<Bytes>) {
    forall i, j :: 0 <= i < j < |keys| ==> Less(keys[i], keys[j])
  }

  /** A key set has only one sorted listing. */
  lemma {:induction false} SortedIsUnique(a: seq<Bytes>, b: seq<Bytes>)
    requires Sorted(a) && Sorted(b)
    requires forall k :: k in a <==> k in b
    ensures a == b
  {
    if a != [] || b != [] {
      assert a != [] ==> a[0] in b;
      assert b != [] ==> b[0] in a;
      HeadsAgree(a, b);
      TailsAgree(a, b);
      SortedIsUnique(a[1..], b[1..]);
      assert a == [a[0]] + a[1..] && b == [b[0]] + b[1..];
    }
  }

  lemma HeadsAgree(a: seq<Bytes>, b: seq<Bytes>)
    requires Sorted(a) && Sorted(b) && a != [] && b != []
    requires a[0] in b && b[0] in a
    ensures a[0] == b[0]
  {
    LessIsTotal(a[0], b[0]);
  }

  lemma TailsAgree(a: seq<Bytes>, b: seq<Bytes>)
    requires Sorted(a) && Sorted(b) && a != [] && b != [] && a[0] == b[0]
    requires forall k :: k in a <==> k in b
    ensures forall k :: k in a[1..] <==> k in b[1..]
    ensures Sorted(a[1..]) && Sorted(b[1..])
  {
    forall k
      ensures k in a[1..] ==> k in b[1..]
      ensures k in b[1..] ==> k in a[1..]
    {
      if k in a[1..] {
        InTail(a, b, k);
      }
      if k in b[1..] {
        InTail(b, a, k);
      }
    }
  }

  lemma InTail(a: seq<Bytes>, b: seq<Bytes>, k: Bytes)
    requires Sorted(a) && a != [] && b != [] && a[0] == b[0]
    requires k in a[1..] && k in b
    ensures k in b[1..]
  {
    LessIsTotal(a[0], k);
  }

  lemma SortedIsDistinct(keys: seq<Bytes>, i: nat, j: nat)
    requires Sorted(keys)
    requires i < |keys| && j < |keys| && keys[i] == keys[j]
    ensures i == j
  {
    LessIsTotal(keys[i], keys[j]);
  }

  // ---------------------------------------------------------------------------------------------
  // Quotients
  // ---------------------------------------------------------------------------------------------

  /** There is one quotient and one remainder. */
  lemma QuotientIs(x: nat, n: nat, q: nat, r: nat)
    requires n > 0 && r < n && x == q * n + r
    ensures x / n == q && x % n == r
  {
    var p, e := x / n, x % n;
    assert x == p * n + e;
    if p < q {
      Multiple(q - p - 1, n);
      Distribute(p, q - p, n);
    } else if q < p {
      Multiple(p - q - 1, n);
      Distribute(q, p - q, n);
    }
  }

  lemma Multiple(a: nat, n: nat)
    ensures (a + 1) * n >= n
  {
  }

  lemma Distribute(a: nat, b: nat, n: nat)
    ensures (a + b) * n == a * n + b * n
  {
  }

  lemma DividedTwice(n: nat, a: nat, d: nat)
    requires a > 0 && d > 0
    ensures a * d > 0 && n / a / d == n / (a * d)
  {
    DividedBack(n, a);
    DividedBack(n / a, d);
    QuotientOfQuotient(n, a, d, n / a, n % a, n / a / d, (n / a) % d);
  }

  lemma QuotientOfQuotient(n: nat, a: nat, d: nat, h: nat, low: nat, q: nat, r: nat)
    requires n == h * a + low && low < a && h == q * d + r && r < d
    ensures a * d > 0 && n / (a * d) == q
  {
    JoinedBack(n, a, d, h, low, q, r);
    RemainderBelow(r, d, low, a);
    QuotientIs(n, a * d, q, r * a + low);
  }

  lemma DividedBack(n: nat, a: nat)
    requires a > 0
    ensures n == (n / a) * a + n % a && n % a < a
  {
  }

  lemma JoinedBack(n: nat, a: nat, d: nat, h: nat, low: nat, q: nat, r: nat)
    requires n == h * a + low && h == q * d + r
    ensures n == q * (a * d) + (r * a + low)
  {
    Distribute(q * d, r, a);
    Regrouped3(q, d, a);
  }

  lemma Regrouped3(q: nat, d: nat, a: nat)
    ensures q * d * a == q * (a * d)
  {
  }

  lemma RemainderBelow(r: nat, d: nat, low: nat, a: nat)
    requires r < d && low < a
    ensures r * a + low < a * d
  {
    var left := d - 1 - r;
    assert d == (r + 1) + left;
    Distribute(r + 1, left, a);
    Distribute(r, 1, a);
    assert d * a == a * d;
  }
}
