/** The order of a prefix read's list: what the delta decides, the intermediate layer, the snapshot, in key order. */
module PrefixOrder {
  import opened Basics
  import opened TrieSpec
  import opened KeyCodec
  import opened StateSpec
  import opened StateLaws
  import opened PrefixLaws

  // ---------------------------------------------------------------------------------------------
  // Where a listed key is found
  // ---------------------------------------------------------------------------------------------

  /** The delta holds the key, and the prefix's scan of it picks the key. */
  predicate InDelta(K: Keccak, s: Layers, p: SpacedKey, k: SpacedKey)
    requires WellFormed(k)
  {
    var raw := Delta(K, k, s.deltaPadding);
    raw in s.delta && ToDeltaKeyBytes(K, p, s.deltaPadding).Ok? && ToDeltaKeyBytes(K, p, s.deltaPadding).value <= raw
  }

  predicate InIntermediate(K: Keccak, s: Layers, p: SpacedKey, k: SpacedKey)
    requires WellFormed(k)
  {
    var raw := Delta(K, k, s.intermediatePadding);
    && raw in s.intermediate
    && ToDeltaKeyBytes(K, p, s.intermediatePadding).Ok? && ToDeltaKeyBytes(K, p, s.intermediatePadding).value <= raw
  }

  /** `a` before `b`: a higher layer first, within a layer the lesser raw key. */
  predicate Before(K: Keccak, s: Layers, p: SpacedKey, a: SpacedKey, b: SpacedKey)
    requires WellFormed(a) && WellFormed(b)
  {
    if InDelta(K, s, p, a) then
      InDelta(K, s, p, b) ==> Less(Delta(K, a, s.deltaPadding), Delta(K, b, s.deltaPadding))
    else if InIntermediate(K, s, p, a) then
      && !InDelta(K, s, p, b)
      && (InIntermediate(K, s, p, b) ==> Less(Delta(K, a, s.intermediatePadding), Delta(K, b, s.intermediatePadding)))
    else
      !InDelta(K, s, p, b) && !InIntermediate(K, s, p, b) && Less(Canonical(a), Canonical(b))
  }

  ghost predicate IsInOrder(K: Keccak, s: Layers, p: SpacedKey, list: seq<KeyValue>) {
    && (forall i :: 0 <= i < |list| ==> IsCanonicalKey(list[i].key))
    && (forall i, j :: 0 <= i < j < |list| ==>
          Before(K, s, p, KeyOfCanonical(list[i].key), KeyOfCanonical(list[j].key)))
  }

  // ---------------------------------------------------------------------------------------------
  // What one pass lists
  // ---------------------------------------------------------------------------------------------

  /** The raw keys of the entries that a pass over one layer adds to the list. */
  ghost function Picked(m: EntryMap, keys: seq<Bytes>, filter: Option<Bytes>, seen: set<Bytes>): seq<Bytes>
    requires forall i :: 0 <= i < |keys| ==> keys[i] in m
    decreases keys
  {
    if keys == [] then
      []
    else
      var c := CanonicalOf(keys[0]);
      if Passes(filter, c) && c !in seen then
        (if m[keys[0]].Live? then [keys[0]] else []) + Picked(m, keys[1..], filter, seen + {c})
      else
        Picked(m, keys[1..], filter, seen)
  }

  /** The list grows by the entries of these raw keys, in their order. */
  ghost predicate Grows(before: seq<KeyValue>, after: seq<KeyValue>, picked: seq<Bytes>) {
    && |after| == |before| + |picked| && before <= after
    && forall x :: 0 <= x < |picked| ==> after[|before| + x].key == CanonicalOf(picked[x])
  }

  lemma GrowsByOne(before: seq<KeyValue>, raw: Bytes, value: Bytes, after: seq<KeyValue>, picked: seq<Bytes>)
    requires Grows(before + [KeyValue(CanonicalOf(raw), value)], after, picked)
    ensures Grows(before, after, [raw] + picked)
  {
    hide CanonicalOf;
    var middle := before + [KeyValue(CanonicalOf(raw), value)];
    forall x | 0 <= x < |[raw] + picked|
      ensures after[|before| + x].key == CanonicalOf(([raw] + picked)[x])
    {
      if x == 0 {
        assert after[|before|] == middle[|before|];
      } else {
        assert after[|middle| + (x - 1)].key == CanonicalOf(picked[x - 1]);
      }
    }
  }

  lemma {:induction false} LayerGrows(m: EntryMap, keys: seq<Bytes>, filter: Option<Bytes>, f: Found)
    requires forall i :: 0 <= i < |keys| ==> keys[i] in m
    ensures Grows(f.result, ReadLayer(m, keys, filter, f).result, Picked(m, keys, filter, f.seen))
    decreases keys
  {
    hide CanonicalOf, Grows, Passes;
    if keys == [] {
      GrowsByNothing(f.result);
    } else {
      var c := CanonicalOf(keys[0]);
      if Passes(filter, c) && c !in f.seen {
        var g := FoundOne(f, c, m[keys[0]].VisibleValue());
        LayerGrows(m, keys[1..], filter, g);
        if m[keys[0]].Live? {
          GrowsByOne(f.result, keys[0], m[keys[0]].bytes, ReadLayer(m, keys[1..], filter, g).result,
                     Picked(m, keys[1..], filter, g.seen));
        } else {
          assert g.result == f.result;
          assert [] + Picked(m, keys[1..], filter, g.seen) == Picked(m, keys[1..], filter, g.seen);
        }
      } else {
        LayerGrows(m, keys[1..], filter, f);
      }
    }
  }

  lemma GrowsByNothing(list: seq<KeyValue>)
    ensures Grows(list, list, [])
  {
  }

  /** Whatever passes the filter has been seen after the pass. */
  lemma {:induction false} LayerSees(m: EntryMap, keys: seq<Bytes>, filter: Option<Bytes>, f: Found)
    requires forall i :: 0 <= i < |keys| ==> keys[i] in m
    ensures f.seen <= ReadLayer(m, keys, filter, f).seen
    ensures forall raw :: raw in keys && Passes(filter, CanonicalOf(raw)) ==>
              CanonicalOf(raw) in ReadLayer(m, keys, filter, f).seen
    decreases keys
  {
    hide CanonicalOf, Passes;
    if keys != [] {
      var c := CanonicalOf(keys[0]);
      LayerSees(m, keys[1..], filter, if Passes(filter, c) then FoundOne(f, c, m[keys[0]].VisibleValue()) else f);
      assert keys == [keys[0]] + keys[1..];
    }
  }

  /** The picked keys are keys of the layer, still in order, that pass the filter and were not seen above. */
  lemma {:induction false} PickedIsSorted(m: EntryMap, keys: seq<Bytes>, filter: Option<Bytes>, seen: set<Bytes>)
    requires Sorted(keys) && forall i :: 0 <= i < |keys| ==> keys[i] in m
    ensures forall x :: 0 <= x < |Picked(m, keys, filter, seen)| ==>
      var raw := Picked(m, keys, filter, seen)[x];
      raw in keys && Passes(filter, CanonicalOf(raw)) && CanonicalOf(raw) !in seen
    ensures Sorted(Picked(m, keys, filter, seen))
    decreases keys
  {
    hide CanonicalOf, Passes, Less;
    if keys != [] {
      var c := CanonicalOf(keys[0]);
      var more := if Passes(filter, c) && c !in seen then seen + {c} else seen;
      var rest := Picked(m, keys[1..], filter, more);
      PickedIsSorted(m, keys[1..], filter, more);
      forall x | 0 <= x < |rest|
        ensures Less(keys[0], rest[x]) && rest[x] in keys
      {
        var i :| 0 <= i < |keys[1..]| && keys[1..][i] == rest[x];
        assert keys[1 + i] == rest[x];
      }
    }
  }

  /** The canonical keys that the snapshot's pass adds. */
  ghost function Left(keys: seq<Bytes>, seen: set<Bytes>): seq<Bytes>
    decreases keys
  {
    if keys == [] then []
    else if keys[0] in seen then Left(keys[1..], seen)
    else [keys[0]] + Left(keys[1..], seen + {keys[0]})
  }

  ghost predicate Appends(before: seq<KeyValue>, after: seq<KeyValue>, left: seq<Bytes>) {
    && |after| == |before| + |left| && before <= after
    && forall x :: 0 <= x < |left| ==> after[|before| + x].key == left[x]
  }

  lemma {:induction false} SnapshotAppends(snapshot: Snapshot, keys: seq<Bytes>, f: Found)
    requires forall i :: 0 <= i < |keys| ==> keys[i] in snapshot
    ensures Appends(f.result, ReadSnapshot(snapshot, keys, f).result, Left(keys, f.seen))
    decreases keys
  {
    if keys != [] {
      var g := FoundOne(f, keys[0], Some(snapshot[keys[0]]));
      SnapshotAppends(snapshot, keys[1..], g);
      if keys[0] !in f.seen {
        AppendsOne(f.result, KeyValue(keys[0], snapshot[keys[0]]), ReadSnapshot(snapshot, keys[1..], g).result,
                   Left(keys[1..], g.seen));
      }
    }
  }

  lemma AppendsOne(before: seq<KeyValue>, kv: KeyValue, after: seq<KeyValue>, left: seq<Bytes>)
    requires Appends(before + [kv], after, left)
    ensures Appends(before, after, [kv.key] + left)
  {
    forall x | 0 <= x < |[kv.key] + left|
      ensures after[|before| + x].key == ([kv.key] + left)[x]
    {
      if x == 0 {
        assert after[|before|] == (before + [kv])[|before|];
      } else {
        assert after[|before + [kv]| + (x - 1)].key == left[x - 1];
      }
    }
  }

  lemma {:induction false} LeftIsSorted(keys: seq<Bytes>, seen: set<Bytes>)
    requires Sorted(keys)
    ensures forall x :: 0 <= x < |Left(keys, seen)| ==> Left(keys, seen)[x] in keys && Left(keys, seen)[x] !in seen
    ensures Sorted(Left(keys, seen))
    decreases keys
  {
    hide Less;
    if keys != [] {
      var more := if keys[0] in seen then seen else seen + {keys[0]};
      var rest := Left(keys[1..], more);
      LeftIsSorted(keys[1..], more);
      forall x | 0 <= x < |rest|
        ensures Less(keys[0], rest[x]) && rest[x] in keys
      {
        var i :| 0 <= i < |keys[1..]| && keys[1..][i] == rest[x];
        assert keys[1 + i] == rest[x];
      }
    }
  }

  // ---------------------------------------------------------------------------------------------
  // The three parts of the list
  // ---------------------------------------------------------------------------------------------

  /** The raw keys that each pass lists, one pass after the other. */
  datatype Parts = Parts(delta: seq<Bytes>, intermediate: seq<Bytes>, snapshot: seq<Bytes>)

  /** The list is the three parts under canonical keys. */
  ghost predicate IsParted(list: seq<KeyValue>, parts: Parts) {
    && |list| == |parts.delta| + |parts.intermediate| + |parts.snapshot|
    && (forall x :: 0 <= x < |parts.delta| ==> list[x].key == CanonicalOf(parts.delta[x]))
    && (forall x :: 0 <= x < |parts.intermediate| ==>
          list[|parts.delta| + x].key == CanonicalOf(parts.intermediate[x]))
    && (forall x :: 0 <= x < |parts.snapshot| ==>
          list[|parts.delta| + |parts.intermediate| + x].key == parts.snapshot[x])
  }

  /** Each part is in order, holds keys of its layer only, and no key that a higher layer's scan picks. */
  ghost predicate PartsHold(K: Keccak, s: Layers, p: SpacedKey, parts: Parts) {
    && Sorted(parts.delta) && Sorted(parts.intermediate) && Sorted(parts.snapshot)
    && (forall x :: 0 <= x < |parts.delta| ==> FromDelta(K, s, p, parts.delta[x]))
    && (forall x :: 0 <= x < |parts.intermediate| ==> FromIntermediate(K, s, p, parts.intermediate[x]))
    && (forall x :: 0 <= x < |parts.snapshot| ==> FromSnapshotOnly(K, s, p, parts.snapshot[x]))
  }

  predicate FromDelta(K: Keccak, s: Layers, p: SpacedKey, raw: Bytes) {
    && IsDeltaKey(K, raw, s.deltaPadding) && WellFormed(KeyOfDelta(raw))
    && InDelta(K, s, p, KeyOfDelta(raw))
  }

  predicate FromIntermediate(K: Keccak, s: Layers, p: SpacedKey, raw: Bytes) {
    && IsDeltaKey(K, raw, s.intermediatePadding) && WellFormed(KeyOfDelta(raw))
    && !InDelta(K, s, p, KeyOfDelta(raw)) && InIntermediate(K, s, p, KeyOfDelta(raw))
  }

  predicate FromSnapshotOnly(K: Keccak, s: Layers, p: SpacedKey, c: Bytes) {
    && IsCanonicalKey(c) && WellFormed(KeyOfCanonical(c))
    && !InDelta(K, s, p, KeyOfCanonical(c)) && !InIntermediate(K, s, p, KeyOfCanonical(c))
  }

  lemma RawAndCanonical(K: Keccak, raw: Bytes, padding: Padding)
    requires IsDeltaKey(K, raw, padding)
    ensures WellFormed(KeyOfDelta(raw)) && Delta(K, KeyOfDelta(raw), padding) == raw
    ensures CanonicalOf(raw) == Canonical(KeyOfDelta(raw)) && IsCanonicalKey(CanonicalOf(raw))
    ensures KeyOfCanonical(CanonicalOf(raw)) == KeyOfDelta(raw)
  {
    hide Delta, FromDeltaKey, Canonical, IsCanonicalKey, KeyOfDelta, IsDeltaKey;
    RekeyOfDelta(K, raw, padding);
    RekeyedIsCanonical(K, raw, padding);
    CanonicalKeyIs(CanonicalOf(raw), KeyOfDelta(raw));
  }

  /** Two entries of the list, by the parts they stand in. */
  lemma PartsInOrder(K: Keccak, s: Layers, p: SpacedKey, list: seq<KeyValue>, parts: Parts, i: nat, j: nat)
    requires IsParted(list, parts) && PartsHold(K, s, p, parts) && i < j < |list|
    ensures IsCanonicalKey(list[i].key) && WellFormed(KeyOfCanonical(list[i].key))
    ensures IsCanonicalKey(list[j].key) && WellFormed(KeyOfCanonical(list[j].key))
    ensures Before(K, s, p, KeyOfCanonical(list[i].key), KeyOfCanonical(list[j].key))
  {
    hide InDelta, InIntermediate, Delta, Canonical, IsDeltaKey, IsCanonicalKey, KeyOfDelta, KeyOfCanonical, CanonicalOf,
      Less, WellFormed;
    EntryOfPart(K, s, p, list, parts, i);
    EntryOfPart(K, s, p, list, parts, j);
  }

  /** What the part says of an entry. */
  lemma EntryOfPart(K: Keccak, s: Layers, p: SpacedKey, list: seq<KeyValue>, parts: Parts, i: nat)
    requires IsParted(list, parts) && PartsHold(K, s, p, parts) && i < |list|
    ensures IsCanonicalKey(list[i].key) && WellFormed(KeyOfCanonical(list[i].key))
    ensures var k := KeyOfCanonical(list[i].key); var d, n := |parts.delta|, |parts.delta| + |parts.intermediate|;
      if i < d then InDelta(K, s, p, k) && Delta(K, k, s.deltaPadding) == parts.delta[i]
      else if i < n then
        !InDelta(K, s, p, k) && InIntermediate(K, s, p, k)
        && Delta(K, k, s.intermediatePadding) == parts.intermediate[i - d]
      else !InDelta(K, s, p, k) && !InIntermediate(K, s, p, k) && Canonical(k) == parts.snapshot[i - n]
  {
    hide InDelta, InIntermediate, Delta, Canonical, IsDeltaKey, IsCanonicalKey, KeyOfDelta, KeyOfCanonical, CanonicalOf,
      Less, WellFormed, Sorted;
    var d, n := |parts.delta|, |parts.delta| + |parts.intermediate|;
    if i < d {
      assert FromDelta(K, s, p, parts.delta[i]);
      RawAndCanonical(K, parts.delta[i], s.deltaPadding);
    } else if i < n {
      assert FromIntermediate(K, s, p, parts.intermediate[i - d]);
      assert list[d + (i - d)].key == CanonicalOf(parts.intermediate[i - d]);
      RawAndCanonical(K, parts.intermediate[i - d], s.intermediatePadding);
    } else {
      assert FromSnapshotOnly(K, s, p, parts.snapshot[i - n]);
      assert list[n + (i - n)].key == parts.snapshot[i - n];
      CanonicalKeyIs(parts.snapshot[i - n], KeyOfCanonical(parts.snapshot[i - n]));
    }
  }

  // ---------------------------------------------------------------------------------------------
  // Reads and deletions
  // ---------------------------------------------------------------------------------------------

  /** A key that a layer's scan picks and that passes the filter has been seen after that layer's pass. */
  lemma ScannedIsSeen(K: Keccak, m: EntryMap, padding: Padding, prefix: Bytes, filter: Option<Bytes>, f: Found,
                      k: SpacedKey)
    requires WellFormed(k) && Delta(K, k, padding) in m && prefix <= Delta(K, k, padding)
    requires Passes(filter, Canonical(k))
    requires forall i :: 0 <= i < |ScanKeys(m.Keys, prefix)| ==> ScanKeys(m.Keys, prefix)[i] in m
    ensures Canonical(k) in ReadLayer(m, ScanKeys(m.Keys, prefix), filter, f).seen
  {
    hide Delta, Canonical, CanonicalOf, Passes, ScanKeys, ReadLayer, KeyOfDelta, IsDeltaKey;
    KeyOfDeltaIs(K, k, padding);
    LayerSees(m, ScanKeys(m.Keys, prefix), filter, f);
  }

  /** What the address filter keeps, the canonical scan keeps. */
  lemma CanonicalScanPasses(p: SpacedKey, c: Bytes)
    requires ToKeyBytes(p).Ok? && ToKeyBytes(p).value <= c
    ensures Passes(AddressFilter(p), c)
  {
  }

  ghost function DeltaPass(K: Keccak, s: Layers, p: SpacedKey): Found
    requires ToDeltaKeyBytes(K, p, s.deltaPadding).Ok?
  {
    var dp := ToDeltaKeyBytes(K, p, s.deltaPadding).value;
    ScanIsInside(s.delta.Keys, dp);
    ReadLayer(s.delta, ScanKeys(s.delta.Keys, dp), AddressFilter(p), Found([], {}))
  }

  ghost function BothPasses(K: Keccak, s: Layers, p: SpacedKey): Found
    requires ToDeltaKeyBytes(K, p, s.deltaPadding).Ok? && ToDeltaKeyBytes(K, p, s.intermediatePadding).Ok?
  {
    var ip := ToDeltaKeyBytes(K, p, s.intermediatePadding).value;
    ScanIsInside(s.intermediate.Keys, ip);
    ReadLayer(s.intermediate, ScanKeys(s.intermediate.Keys, ip), AddressFilter(p), DeltaPass(K, s, p))
  }

  ghost function PartsOf(K: Keccak, s: Layers, p: SpacedKey): Parts
    requires ToKeyBytes(p).Ok?
    requires ToDeltaKeyBytes(K, p, s.deltaPadding).Ok? && ToDeltaKeyBytes(K, p, s.intermediatePadding).Ok?
  {
    var dp, ip := ToDeltaKeyBytes(K, p, s.deltaPadding).value, ToDeltaKeyBytes(K, p, s.intermediatePadding).value;
    ScanIsInside(s.delta.Keys, dp);
    ScanIsInside(s.intermediate.Keys, ip);
    Parts(Picked(s.delta, ScanKeys(s.delta.Keys, dp), AddressFilter(p), {}),
          Picked(s.intermediate, ScanKeys(s.intermediate.Keys, ip), AddressFilter(p), DeltaPass(K, s, p).seen),
          Left(ScanKeys(s.snapshot.Keys, ToKeyBytes(p).value), BothPasses(K, s, p).seen))
  }

  lemma ReadIsParted(K: Keccak, s: Layers, p: SpacedKey)
    requires DeltaKeys(K, s.delta.Keys, s.deltaPadding) && ReadPrefix(K, s, p).Ok?
    ensures IsParted(ReadPrefix(K, s, p).value, PartsOf(K, s, p))
  {
    hide ScanKeys, ToKeyBytes, ToDeltaKeyBytes, ReadTop, ReadLayer, ReadSnapshot, RekeyAll, KeysOfLayer, DeltaKeys,
      Picked, Left, CanonicalOf, AddressFilter;
    var cp, dp, ip := ToKeyBytes(p).value, ToDeltaKeyBytes(K, p, s.deltaPadding).value,
                      ToDeltaKeyBytes(K, p, s.intermediatePadding).value;
    ScanIsInside(s.delta.Keys, dp);
    ScanIsInside(s.intermediate.Keys, ip);
    ScanIsInside(s.snapshot.Keys, cp);
    var filter := AddressFilter(p);
    ScanOfLayer(K, s.delta, s.deltaPadding, dp);
    DeltaPassIsLayer(K, s.delta, ScanKeys(s.delta.Keys, dp), s.deltaPadding, filter);
    LayerGrows(s.delta, ScanKeys(s.delta.Keys, dp), filter, Found([], {}));
    LayerGrows(s.intermediate, ScanKeys(s.intermediate.Keys, ip), filter, DeltaPass(K, s, p));
    SnapshotAppends(s.snapshot, ScanKeys(s.snapshot.Keys, cp), BothPasses(K, s, p));
    var list := ReadSnapshot(s.snapshot, ScanKeys(s.snapshot.Keys, cp), BothPasses(K, s, p)).result;
    assert ReadPrefix(K, s, p).value == list;
    JoinParts(DeltaPass(K, s, p).result, BothPasses(K, s, p).result, list, PartsOf(K, s, p));
  }

  lemma JoinParts(first: seq<KeyValue>, second: seq<KeyValue>, list: seq<KeyValue>, parts: Parts)
    requires Grows([], first, parts.delta) && Grows(first, second, parts.intermediate)
    requires Appends(second, list, parts.snapshot)
    ensures IsParted(list, parts)
  {
    hide CanonicalOf;
    forall x | 0 <= x < |parts.delta|
      ensures list[x].key == CanonicalOf(parts.delta[x])
    {
      assert first[0 + x].key == CanonicalOf(parts.delta[x]) && second[x] == first[x] && list[x] == second[x];
    }
    forall x | 0 <= x < |parts.intermediate|
      ensures list[|parts.delta| + x].key == CanonicalOf(parts.intermediate[x])
    {
      assert second[|first| + x].key == CanonicalOf(parts.intermediate[x]) && list[|first| + x] == second[|first| + x];
    }
  }

  lemma DeltaPartHolds(K: Keccak, s: Layers, p: SpacedKey, raw: Bytes)
    requires DeltaKeys(K, s.delta.Keys, s.deltaPadding)
    requires ToDeltaKeyBytes(K, p, s.deltaPadding).Ok?
    requires raw in ScanKeys(s.delta.Keys, ToDeltaKeyBytes(K, p, s.deltaPadding).value)
    ensures FromDelta(K, s, p, raw)
  {
    hide ToDeltaKeyBytes, Delta, ScanKeys, IsDeltaKey, KeyOfDelta, FromDeltaKey, WellFormed;
    assert IsDeltaKey(K, raw, s.deltaPadding);
    RekeyOfDelta(K, raw, s.deltaPadding);
  }

  lemma IntermediatePartHolds(K: Keccak, s: Layers, p: SpacedKey, raw: Bytes)
    requires DeltaKeys(K, s.intermediate.Keys, s.intermediatePadding)
    requires ToDeltaKeyBytes(K, p, s.deltaPadding).Ok? && ToDeltaKeyBytes(K, p, s.intermediatePadding).Ok?
    requires raw in ScanKeys(s.intermediate.Keys, ToDeltaKeyBytes(K, p, s.intermediatePadding).value)
    requires Passes(AddressFilter(p), CanonicalOf(raw)) && CanonicalOf(raw) !in DeltaPass(K, s, p).seen
    ensures FromIntermediate(K, s, p, raw)
  {
    hide ToDeltaKeyBytes, Delta, ScanKeys, IsDeltaKey, KeyOfDelta, FromDeltaKey, WellFormed, Canonical, CanonicalOf,
      Passes, ReadLayer, AddressFilter, IsCanonicalKey;
    assert IsDeltaKey(K, raw, s.intermediatePadding);
    RawAndCanonical(K, raw, s.intermediatePadding);
    var k, dp := KeyOfDelta(raw), ToDeltaKeyBytes(K, p, s.deltaPadding).value;
    ScanIsInside(s.delta.Keys, dp);
    if InDelta(K, s, p, k) {
      ScannedIsSeen(K, s.delta, s.deltaPadding, dp, AddressFilter(p), Found([], {}), k);
    }
  }

  lemma SnapshotPartHolds(K: Keccak, s: Layers, p: SpacedKey, c: Bytes)
    requires CanonicalKeys(s.snapshot.Keys) && ToKeyBytes(p).Ok?
    requires ToDeltaKeyBytes(K, p, s.deltaPadding).Ok? && ToDeltaKeyBytes(K, p, s.intermediatePadding).Ok?
    requires c in ScanKeys(s.snapshot.Keys, ToKeyBytes(p).value) && c !in BothPasses(K, s, p).seen
    ensures FromSnapshotOnly(K, s, p, c)
  {
    hide ToDeltaKeyBytes, Delta, ScanKeys, FromDeltaKey, WellFormed, Canonical, CanonicalOf, Passes, ReadLayer,
      AddressFilter, IsCanonicalKey, KeyOfCanonical, ToKeyBytes;
    assert IsCanonicalKey(c);
    KeyBehind(c);
    var k := KeyOfCanonical(c);
    var dp, ip := ToDeltaKeyBytes(K, p, s.deltaPadding).value, ToDeltaKeyBytes(K, p, s.intermediatePadding).value;
    ScanIsInside(s.delta.Keys, dp);
    ScanIsInside(s.intermediate.Keys, ip);
    CanonicalScanPasses(p, c);
    if InDelta(K, s, p, k) {
      ScannedIsSeen(K, s.delta, s.deltaPadding, dp, AddressFilter(p), Found([], {}), k);
      LayerSees(s.intermediate, ScanKeys(s.intermediate.Keys, ip), AddressFilter(p), DeltaPass(K, s, p));
    }
    if InIntermediate(K, s, p, k) {
      ScannedIsSeen(K, s.intermediate, s.intermediatePadding, ip, AddressFilter(p), DeltaPass(K, s, p), k);
    }
  }

  lemma KeyBehind(c: Bytes)
    requires IsCanonicalKey(c)
    ensures WellFormed(KeyOfCanonical(c)) && Canonical(KeyOfCanonical(c)) == c
  {
    hide FromKeyBytes, ToKeyBytes;
  }

  lemma PartsOfRead(K: Keccak, s: Layers, p: SpacedKey)
    requires Inv(K, s) && ToKeyBytes(p).Ok?
    requires ToDeltaKeyBytes(K, p, s.deltaPadding).Ok? && ToDeltaKeyBytes(K, p, s.intermediatePadding).Ok?
    ensures PartsHold(K, s, p, PartsOf(K, s, p))
  {
    hide ToKeyBytes, ToDeltaKeyBytes, ScanKeys, Picked, Left, CanonicalOf, Passes, ReadLayer, AddressFilter, DeltaKeys,
      CanonicalKeys, RootsHold, FromDelta, FromIntermediate, FromSnapshotOnly, Sorted, DeltaPass, BothPasses;
    var cp, dp, ip := ToKeyBytes(p).value, ToDeltaKeyBytes(K, p, s.deltaPadding).value,
                      ToDeltaKeyBytes(K, p, s.intermediatePadding).value;
    ScanIsInside(s.delta.Keys, dp);
    ScanIsInside(s.intermediate.Keys, ip);
    var filter, parts := AddressFilter(p), PartsOf(K, s, p);
    PickedIsSorted(s.delta, ScanKeys(s.delta.Keys, dp), filter, {});
    PickedIsSorted(s.intermediate, ScanKeys(s.intermediate.Keys, ip), filter, DeltaPass(K, s, p).seen);
    LeftIsSorted(ScanKeys(s.snapshot.Keys, cp), BothPasses(K, s, p).seen);
    forall x | 0 <= x < |parts.delta| ensures FromDelta(K, s, p, parts.delta[x]) {
      DeltaPartHolds(K, s, p, parts.delta[x]);
    }
    forall x | 0 <= x < |parts.intermediate| ensures FromIntermediate(K, s, p, parts.intermediate[x]) {
      IntermediatePartHolds(K, s, p, parts.intermediate[x]);
    }
    forall x | 0 <= x < |parts.snapshot| ensures FromSnapshotOnly(K, s, p, parts.snapshot[x]) {
      SnapshotPartHolds(K, s, p, parts.snapshot[x]);
    }
  }

  /**
   * The list of a read by any prefix, and that of a deletion, gives what the delta decides first, then what the
   * intermediate layer decides, then what is left of the snapshot, each in the order of the layer's own keys.
   */
  lemma ListIsInOrder(K: Keccak, s: Layers, p: SpacedKey)
    requires Inv(K, s) && ReadPrefix(K, s, p).Ok?
    ensures IsInOrder(K, s, p, ReadPrefix(K, s, p).value)
    ensures DeletePrefix(K, s, p).Ok? ==> IsInOrder(K, s, p, DeletePrefix(K, s, p).value.list)
  {
    hide Before, PartsOf, IsParted, PartsHold, IsCanonicalKey, KeyOfCanonical, RootsHold, CanonicalKeys, DeltaKeys,
      ListFound, DeltaAfterDelete, RekeyAll, DecodeAll, ScanKeys, ToKeyBytes, ToDeltaKeyBytes, WellFormed;
    ReadIsParted(K, s, p);
    PartsOfRead(K, s, p);
    var list, parts := ReadPrefix(K, s, p).value, PartsOf(K, s, p);
    forall i | 0 <= i < |list| ensures IsCanonicalKey(list[i].key) {
      EntryOfPart(K, s, p, list, parts, i);
    }
    forall i, j | 0 <= i < j < |list|
      ensures WellFormed(KeyOfCanonical(list[i].key)) && WellFormed(KeyOfCanonical(list[j].key))
      ensures Before(K, s, p, KeyOfCanonical(list[i].key), KeyOfCanonical(list[j].key))
    {
      PartsInOrder(K, s, p, list, parts, i, j);
    }
  }
}
