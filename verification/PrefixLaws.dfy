/** Prefix reads list exactly the visible entries under the prefix; prefix deletions remove exactly those. */
module PrefixLaws {
  import opened Basics
  import opened TrieSpec
  import opened KeyCodec
  import opened StateSpec
  import opened StateLaws

  // ---------------------------------------------------------------------------------------------
  // Which keys a prefix selects
  // ---------------------------------------------------------------------------------------------

  /** The canonical meaning of a prefix. */
  predicate Selects(p: SpacedKey, k: SpacedKey)
    requires WellFormed(k)
  {
    ToKeyBytes(p).Ok? && ToKeyBytes(p).value <= Canonical(k)
  }

  /** A Storage prefix that no stored key strictly extends. */
  predicate NoStoredExtension(s: Layers, p: SpacedKey) {
    forall k :: k in StoredKeys(s) && Extends(k, p) ==> k == p
  }

  predicate Extends(k: SpacedKey, p: SpacedKey) {
    && k.key.Storage? && p.key.Storage?
    && k.space == p.space && k.key.address == p.key.address
    && p.key.storageKey <= k.key.storageKey
  }

  /** The prefixes whose reads and deletions are exact in every layer. */
  predicate IsComplete(s: Layers, p: SpacedKey) {
    PlainPrefix(p) || (WellFormed(p) && NoStoredExtension(s, p))
  }

  /** A layer's scan, with the canonical filter, picks exactly the selected ones among the keys it stores. */
  ghost predicate ScanAgrees(K: Keccak, m: EntryMap, padding: Padding, p: SpacedKey) {
    && ToKeyBytes(p).Ok?
    && ToDeltaKeyBytes(K, p, padding).Ok?
    && forall k :: WellFormed(k) && InLayer(K, m, padding, k).Some? ==>
         (ToDeltaKeyBytes(K, p, padding).value <= Delta(K, k, padding) && Passes(AddressFilter(p), Canonical(k))
          <==> Selects(p, k))
  }

  lemma StoredInDelta(K: Keccak, s: Layers, k: SpacedKey)
    requires WellFormed(k)
    ensures InLayer(K, s.delta, s.deltaPadding, k).Some? ==> k in StoredKeys(s)
    ensures InLayer(K, s.intermediate, s.intermediatePadding, k).Some? ==> k in StoredKeys(s)
  {
    hide Delta, FromDeltaKey, FromKeyBytes;
    DeltaRoundTrip(K, k, s.deltaPadding);
    DeltaRoundTrip(K, k, s.intermediatePadding);
    KeyOfDeltaIs(K, k, s.deltaPadding);
    KeyOfDeltaIs(K, k, s.intermediatePadding);
  }

  lemma KeyOfDeltaIs(K: Keccak, k: SpacedKey, padding: Padding)
    requires WellFormed(k)
    ensures KeyOfDelta(Delta(K, k, padding)) == k && IsDeltaKey(K, Delta(K, k, padding), padding)
    ensures CanonicalOf(Delta(K, k, padding)) == Canonical(k)
  {
    DeltaRoundTrip(K, k, padding);
  }

  lemma CompleteScanAgrees(K: Keccak, s: Layers, m: EntryMap, padding: Padding, p: SpacedKey)
    requires IsComplete(s, p)
    requires forall k :: WellFormed(k) && InLayer(K, m, padding, k).Some? ==> k in StoredKeys(s)
    ensures ScanAgrees(K, m, padding, p)
  {
    hide Canonical, Delta, InLayer, StoredKeys;
    if !PlainPrefix(p) {
      PrefixEncodes(K, p, padding);
    } else {
      PlainPrefixEncodes(K, p, padding);
    }
    forall k | WellFormed(k) && InLayer(K, m, padding, k).Some?
      ensures ToDeltaKeyBytes(K, p, padding).value <= Delta(K, k, padding) <==> Selects(p, k)
    {
      if PlainPrefix(p) {
        PlainPrefixAgrees(K, p, k, padding);
      } else {
        StoragePrefixAgrees(K, p, k, padding);
      }
    }
  }

  predicate SamePadding(K: Keccak, p: SpacedKey, k: SpacedKey, padding: Padding) {
    && p.key.Storage? && k.key.Storage?
    && StorageKeyPadding(K, p.key.storageKey, padding)[4..] == StorageKeyPadding(K, k.key.storageKey, padding)[4..]
  }

  /** A partial Storage prefix scans a padded layer exactly when every stored key under it hashes to its padding. */
  lemma StorageScanAgreesExactlyWhen(K: Keccak, m: EntryMap, padding: Padding, p: SpacedKey)
    requires WellFormed(p) && p.key.Storage?
    ensures ScanAgrees(K, m, padding, p) <==>
      forall k :: WellFormed(k) && InLayer(K, m, padding, k).Some? && Selects(p, k) ==> SamePadding(K, p, k, padding)
  {
    hide Canonical, Delta, InLayer, ToKeyBytes, ToDeltaKeyBytes;
    PrefixEncodes(K, p, padding);
    forall k | WellFormed(k)
      ensures ToDeltaKeyBytes(K, p, padding).value <= Delta(K, k, padding)
        <==> Selects(p, k) && SamePadding(K, p, k, padding)
    {
      StoragePrefixAgrees(K, p, k, padding);
    }
  }

  lemma PrefixEncodes(K: Keccak, p: SpacedKey, padding: Padding)
    requires WellFormed(p)
    ensures ToKeyBytes(p) == Ok(Canonical(p)) && ToDeltaKeyBytes(K, p, padding) == Ok(Delta(K, p, padding))
  {
  }

  lemma PlainPrefixEncodes(K: Keccak, p: SpacedKey, padding: Padding)
    requires PlainPrefix(p)
    ensures ToKeyBytes(p).Ok? && ToDeltaKeyBytes(K, p, padding).Ok? && AddressFilter(p) == None
  {
  }

  /** Complete prefixes agree with the canonical meaning in both padded layers. */
  lemma CompleteAgrees(K: Keccak, s: Layers, p: SpacedKey)
    requires IsComplete(s, p)
    ensures ScanAgrees(K, s.delta, s.deltaPadding, p)
    ensures ScanAgrees(K, s.intermediate, s.intermediatePadding, p)
  {
    hide IsComplete, ScanAgrees, InLayer, StoredKeys;
    forall k | WellFormed(k)
      ensures InLayer(K, s.delta, s.deltaPadding, k).Some? ==> k in StoredKeys(s)
      ensures InLayer(K, s.intermediate, s.intermediatePadding, k).Some? ==> k in StoredKeys(s)
    {
      StoredInDelta(K, s, k);
    }
    CompleteScanAgrees(K, s, s.delta, s.deltaPadding, p);
    CompleteScanAgrees(K, s, s.intermediate, s.intermediatePadding, p);
  }

  /** An address prefix scans the whole layer and leaves the choice to the canonical filter. */
  lemma AddressPrefixAgrees(K: Keccak, m: EntryMap, padding: Padding, p: SpacedKey)
    requires p.key.AddressPrefix?
    ensures ScanAgrees(K, m, padding, p)
  {
    hide Canonical, Delta, InLayer;
  }

  // ---------------------------------------------------------------------------------------------
  // What a read has decided
  // ---------------------------------------------------------------------------------------------

  type Decided = map<Bytes, Option<Bytes>>

  function Decide(d: Decided, canonical: Bytes, value: Option<Bytes>): Decided {
    if canonical in d then d else d[canonical := value]
  }

  /** The list holds each visible decided key once, with its value, and nothing else. */
  ghost predicate Records(f: Found, d: Decided) {
    && f.seen == d.Keys
    && (forall i :: 0 <= i < |f.result| ==> f.result[i].key in d && d[f.result[i].key] == Some(f.result[i].value))
    && (forall i, j :: 0 <= i < j < |f.result| ==> f.result[i].key != f.result[j].key)
    && (forall c :: c in d && d[c].Some? ==> KeyValue(c, d[c].value) in f.result)
  }

  lemma FoundOneRecords(f: Found, d: Decided, canonical: Bytes, value: Option<Bytes>)
    requires Records(f, d)
    ensures Records(FoundOne(f, canonical, value), Decide(d, canonical, value))
  {
    var g, e := FoundOne(f, canonical, value), Decide(d, canonical, value);
    if canonical !in d {
      forall c | c in e && e[c].Some?
        ensures KeyValue(c, e[c].value) in g.result
      {
        if c == canonical {
          assert g.result[|f.result|] == KeyValue(c, value.value);
        } else {
          assert c in d && KeyValue(c, d[c].value) in f.result;
        }
      }
    }
  }

  ghost function DecideLayer(m: EntryMap, keys: seq<Bytes>, filter: Option<Bytes>, d: Decided): Decided
    requires forall i :: 0 <= i < |keys| ==> keys[i] in m
    decreases keys
  {
    if keys == [] then
      d
    else
      var canonical := CanonicalOf(keys[0]);
      DecideLayer(m, keys[1..], filter,
                  if Passes(filter, canonical) then Decide(d, canonical, m[keys[0]].VisibleValue()) else d)
  }

  ghost function DecideSnapshot(snapshot: Snapshot, keys: seq<Bytes>, d: Decided): Decided
    requires forall i :: 0 <= i < |keys| ==> keys[i] in snapshot
    decreases keys
  {
    if keys == [] then d else DecideSnapshot(snapshot, keys[1..], Decide(d, keys[0], Some(snapshot[keys[0]])))
  }

  lemma {:induction false} ReadLayerRecords(m: EntryMap, keys: seq<Bytes>, filter: Option<Bytes>, f: Found, d: Decided)
    requires forall i :: 0 <= i < |keys| ==> keys[i] in m
    requires Records(f, d)
    ensures Records(ReadLayer(m, keys, filter, f), DecideLayer(m, keys, filter, d))
    decreases keys
  {
    hide Records;
    if keys != [] {
      var canonical := CanonicalOf(keys[0]);
      if Passes(filter, canonical) {
        FoundOneRecords(f, d, canonical, m[keys[0]].VisibleValue());
        ReadLayerRecords(m, keys[1..], filter, FoundOne(f, canonical, m[keys[0]].VisibleValue()),
                         Decide(d, canonical, m[keys[0]].VisibleValue()));
      } else {
        ReadLayerRecords(m, keys[1..], filter, f, d);
      }
    }
  }

  lemma {:induction false} ReadSnapshotRecords(snapshot: Snapshot, keys: seq<Bytes>, f: Found, d: Decided)
    requires forall i :: 0 <= i < |keys| ==> keys[i] in snapshot
    requires Records(f, d)
    ensures Records(ReadSnapshot(snapshot, keys, f), DecideSnapshot(snapshot, keys, d))
    decreases keys
  {
    hide Records;
    if keys != [] {
      FoundOneRecords(f, d, keys[0], Some(snapshot[keys[0]]));
      ReadSnapshotRecords(snapshot, keys[1..], FoundOne(f, keys[0], Some(snapshot[keys[0]])),
                          Decide(d, keys[0], Some(snapshot[keys[0]])));
    }
  }

  /** What is decided about a canonical key: nothing yet, or a visible value or its absence. */
  function At(d: Decided, c: Bytes): Option<Option<Bytes>> {
    if c in d then Some(d[c]) else None
  }

  function OrElse(upper: Option<Option<Bytes>>, lower: Option<Option<Bytes>>): Option<Option<Bytes>> {
    if upper.Some? then upper else lower
  }

  function LayerDecision(m: EntryMap, scanned: bool, raw: Bytes): Option<Option<Bytes>>
    requires scanned ==> raw in m
  {
    if scanned then Some(m[raw].VisibleValue()) else None
  }

  /** A higher layer's decision stands; otherwise the scanned entry that re-keys to this key decides. */
  lemma {:induction false} DecideLayerAt(K: Keccak, m: EntryMap, keys: seq<Bytes>, filter: Option<Bytes>,
                                         padding: Padding, d: Decided, k: SpacedKey)
    requires KeysOfLayer(K, m, keys, padding) && WellFormed(k)
    requires forall i :: 0 <= i < |keys| ==> keys[i] in m
    ensures At(DecideLayer(m, keys, filter, d), Canonical(k))
         == OrElse(At(d, Canonical(k)),
                   LayerDecision(m, Delta(K, k, padding) in keys && Passes(filter, Canonical(k)), Delta(K, k, padding)))
    decreases keys
  {
    if keys != [] {
      hide Canonical, Delta, IsDeltaKey, Rekey, CanonicalOf;
      var raw, rest := keys[0], keys[1..];
      assert raw in m && KeysOfLayer(K, m, rest, padding);
      HeadRekeys(K, m, keys, padding, k);
      HeadOrTail(keys, Delta(K, k, padding));
      var e := if Passes(filter, CanonicalOf(raw)) then Decide(d, CanonicalOf(raw), m[raw].VisibleValue()) else d;
      DecideLayerAt(K, m, rest, filter, padding, e, k);
    }
  }

  lemma HeadRekeys(K: Keccak, m: EntryMap, keys: seq<Bytes>, padding: Padding, k: SpacedKey)
    requires KeysOfLayer(K, m, keys, padding) && WellFormed(k) && keys != []
    ensures CanonicalOf(keys[0]) == Canonical(k) <==> keys[0] == Delta(K, k, padding)
  {
    hide Canonical, Delta, FromDeltaKey;
    assert IsDeltaKey(K, keys[0], padding);
    RekeyOfDelta(K, keys[0], padding);
    if Canonical(k) == Canonical(KeyOfDelta(keys[0])) {
      EncodingsInjective(K, k, KeyOfDelta(keys[0]), padding);
    }
    KeyOfDeltaIs(K, k, padding);
  }

  lemma {:induction false} DecideSnapshotAt(snapshot: Snapshot, keys: seq<Bytes>, d: Decided, c: Bytes)
    requires forall i :: 0 <= i < |keys| ==> keys[i] in snapshot
    ensures At(DecideSnapshot(snapshot, keys, d), c)
         == OrElse(At(d, c), if c in keys then Some(Some(snapshot[c])) else None)
    decreases keys
  {
    if keys != [] {
      HeadOrTail(keys, c);
      DecideSnapshotAt(snapshot, keys[1..], Decide(d, keys[0], Some(snapshot[keys[0]])), c);
    }
  }

  // ---------------------------------------------------------------------------------------------
  // The first pass
  // ---------------------------------------------------------------------------------------------

  lemma KeyOfLayerRekeys(K: Keccak, m: EntryMap, keys: seq<Bytes>, padding: Padding, i: nat)
    requires KeysOfLayer(K, m, keys, padding) && i < |keys|
    ensures keys[i] in m && Rekey(keys[i]).Ok? && CanonicalOf(keys[i]) == Rekey(keys[i]).value
    ensures IsDeltaKey(K, keys[i], padding)
  {
  }

  ghost function CanonicalsBefore(keys: seq<Bytes>, n: nat): set<Bytes>
    requires n <= |keys|
  {
    set j | 0 <= j < n :: CanonicalOf(keys[j])
  }

  /** Distinct raw keys of one layer have distinct canonical keys. */
  lemma CanonicalsDistinct(K: Keccak, m: EntryMap, keys: seq<Bytes>, padding: Padding, i: nat)
    requires Sorted(keys) && KeysOfLayer(K, m, keys, padding) && i < |keys|
    ensures CanonicalOf(keys[i]) !in CanonicalsBefore(keys, i)
    ensures CanonicalsBefore(keys, i + 1) == CanonicalsBefore(keys, i) + {CanonicalOf(keys[i])}
  {
    hide Sorted, KeysOfLayer, CanonicalOf, Rekey, IsDeltaKey, KeyOfDelta, Canonical, Delta;
    KeyOfLayerRekeys(K, m, keys, padding, i);
    RekeyOfDelta(K, keys[i], padding);
    forall j | 0 <= j < i
      ensures CanonicalOf(keys[j]) != CanonicalOf(keys[i])
    {
      KeyOfLayerRekeys(K, m, keys, padding, j);
      RekeyOfDelta(K, keys[j], padding);
      if CanonicalOf(keys[j]) == CanonicalOf(keys[i]) {
        EncodingsInjective(K, KeyOfDelta(keys[j]), KeyOfDelta(keys[i]), padding);
        SortedIsDistinct(keys, j, i);
      }
    }
  }

  /** Within the delta no key is decided twice, so the first pass need not look at what was seen. */
  lemma {:induction false} TopIsLayer(K: Keccak, m: EntryMap, keys: seq<Bytes>, padding: Padding, i: nat,
                                      filter: Option<Bytes>, f: Found)
    requires Sorted(keys) && KeysOfLayer(K, m, keys, padding) && i <= |keys|
    requires forall j :: 0 <= j < |keys| ==> keys[j] in m
    requires f.seen <= CanonicalsBefore(keys, i)
    ensures ReadTop(m, keys[i..], filter, f) == ReadLayer(m, keys[i..], filter, f)
    decreases |keys| - i
  {
    hide Sorted, KeysOfLayer, CanonicalOf, CanonicalsBefore, Passes;
    if i < |keys| {
      CanonicalsDistinct(K, m, keys, padding, i);
      assert keys[i..][0] == keys[i] && keys[i..][1..] == keys[i + 1..];
      var canonical := CanonicalOf(keys[i]);
      TopIsLayer(K, m, keys, padding, i + 1, filter,
                 if Passes(filter, canonical) then FoundAgain(f, canonical, m[keys[i]].VisibleValue()) else f);
    }
  }

  lemma DeltaPassIsLayer(K: Keccak, m: EntryMap, keys: seq<Bytes>, padding: Padding, filter: Option<Bytes>)
    requires Sorted(keys) && KeysOfLayer(K, m, keys, padding)
    requires forall j :: 0 <= j < |keys| ==> keys[j] in m
    ensures ReadTop(m, keys, filter, Found([], {})) == ReadLayer(m, keys, filter, Found([], {}))
  {
    hide Sorted, KeysOfLayer, ReadTop, ReadLayer, CanonicalOf;
    TopIsLayer(K, m, keys, padding, 0, filter, Found([], {}));
    assert keys[0..] == keys;
  }

  /** Only canonical encodings are ever decided. */
  lemma {:induction false} DecideLayerIsCanonical(K: Keccak, m: EntryMap, keys: seq<Bytes>, filter: Option<Bytes>,
                                                  padding: Padding, d: Decided)
    requires KeysOfLayer(K, m, keys, padding) && CanonicalKeys(d.Keys)
    requires forall i :: 0 <= i < |keys| ==> keys[i] in m
    ensures CanonicalKeys(DecideLayer(m, keys, filter, d).Keys)
    decreases keys
  {
    if keys != [] {
      hide IsCanonicalKey, IsDeltaKey, Canonical;
      RekeyedIsCanonical(K, keys[0], padding);
      DecideLayerIsCanonical(K, m, keys[1..], filter, padding,
        if Passes(filter, CanonicalOf(keys[0])) then Decide(d, CanonicalOf(keys[0]), m[keys[0]].VisibleValue()) else d);
    }
  }

  lemma RekeyedIsCanonical(K: Keccak, raw: Bytes, padding: Padding)
    requires IsDeltaKey(K, raw, padding)
    ensures IsCanonicalKey(CanonicalOf(raw))
  {
    RekeyOfDelta(K, raw, padding);
    CanonicalRoundTrip(KeyOfDelta(raw));
  }

  lemma {:induction false} DecideSnapshotIsCanonical(snapshot: Snapshot, keys: seq<Bytes>, d: Decided)
    requires CanonicalKeys(snapshot.Keys) && CanonicalKeys(d.Keys)
    requires forall i :: 0 <= i < |keys| ==> keys[i] in snapshot
    ensures CanonicalKeys(DecideSnapshot(snapshot, keys, d).Keys)
    decreases keys
  {
    hide IsCanonicalKey;
    if keys != [] {
      DecideSnapshotIsCanonical(snapshot, keys[1..], Decide(d, keys[0], Some(snapshot[keys[0]])));
    }
  }

  // ---------------------------------------------------------------------------------------------
  // Reads are exact
  // ---------------------------------------------------------------------------------------------

  /** What the three passes of a prefix read decide. */
  ghost function DecidedBy(K: Keccak, s: Layers, p: SpacedKey): Decided
    requires ReadPrefix(K, s, p).Ok?
  {
    var cp, dp, ip := ToKeyBytes(p).value, ToDeltaKeyBytes(K, p, s.deltaPadding).value,
                      ToDeltaKeyBytes(K, p, s.intermediatePadding).value;
    ScanIsInside(s.delta.Keys, dp);
    ScanIsInside(s.intermediate.Keys, ip);
    ScanIsInside(s.snapshot.Keys, cp);
    DecideSnapshot(s.snapshot, ScanKeys(s.snapshot.Keys, cp),
      DecideLayer(s.intermediate, ScanKeys(s.intermediate.Keys, ip), AddressFilter(p),
        DecideLayer(s.delta, ScanKeys(s.delta.Keys, dp), AddressFilter(p), map[])))
  }

  lemma ReadRecordsDecided(K: Keccak, s: Layers, p: SpacedKey)
    requires DeltaKeys(K, s.delta.Keys, s.deltaPadding) && ReadPrefix(K, s, p).Ok?
    ensures exists f: Found :: f.result == ReadPrefix(K, s, p).value && Records(f, DecidedBy(K, s, p))
  {
    hide ScanKeys, ToKeyBytes, ToDeltaKeyBytes, ReadTop, ReadLayer, DecideLayer, ReadSnapshot, DecideSnapshot, RekeyAll,
      KeysOfLayer, DeltaKeys;
    var cp, dp, ip := ToKeyBytes(p).value, ToDeltaKeyBytes(K, p, s.deltaPadding).value,
                      ToDeltaKeyBytes(K, p, s.intermediatePadding).value;
    ScanIsInside(s.delta.Keys, dp);
    ScanIsInside(s.intermediate.Keys, ip);
    ScanIsInside(s.snapshot.Keys, cp);
    var f := Found([], {});
    assert Records(f, map[]);
    var dk, ik, sk := ScanKeys(s.delta.Keys, dp), ScanKeys(s.intermediate.Keys, ip), ScanKeys(s.snapshot.Keys, cp);
    var filter := AddressFilter(p);
    ScanOfLayer(K, s.delta, s.deltaPadding, dp);
    DeltaPassIsLayer(K, s.delta, dk, s.deltaPadding, filter);
    ReadLayerRecords(s.delta, dk, filter, f, map[]);
    var f1, d1 := ReadLayer(s.delta, dk, filter, f), DecideLayer(s.delta, dk, filter, map[]);
    ReadLayerRecords(s.intermediate, ik, filter, f1, d1);
    var f2, d2 := ReadLayer(s.intermediate, ik, filter, f1), DecideLayer(s.intermediate, ik, filter, d1);
    ReadSnapshotRecords(s.snapshot, sk, f2, d2);
    var f3 := ReadSnapshot(s.snapshot, sk, f2);
    assert f3.result == ReadPrefix(K, s, p).value && Records(f3, DecidedBy(K, s, p));
  }

  lemma ScanOfLayer(K: Keccak, m: EntryMap, padding: Padding, prefix: Bytes)
    requires DeltaKeys(K, m.Keys, padding)
    ensures KeysOfLayer(K, m, ScanKeys(m.Keys, prefix), padding)
  {
    hide ScanKeys, IsDeltaKey, Rekey;
    ScanIsInside(m.Keys, prefix);
    forall raw | raw in m
      ensures Rekey(raw).Ok?
    {
      RekeyOfDelta(K, raw, padding);
    }
  }

  /** Where the scans agree with the canonical meaning, a selected key is decided as its visible value, others not. */
  lemma DecidedAt(K: Keccak, s: Layers, p: SpacedKey, k: SpacedKey)
    requires Inv(K, s) && WellFormed(k)
    requires ScanAgrees(K, s.delta, s.deltaPadding, p)
    requires ScanAgrees(K, s.intermediate, s.intermediatePadding, p)
    ensures ReadPrefix(K, s, p).Ok?
    ensures At(DecidedBy(K, s, p), Canonical(k)) ==
      if !Selects(p, k) then None
      else OrElse(OrElse(Seen(InLayer(K, s.delta, s.deltaPadding, k)),
                         Seen(InLayer(K, s.intermediate, s.intermediatePadding, k))),
                  if InSnapshot(s.snapshot, k).Some? then Some(InSnapshot(s.snapshot, k)) else None)
  {
    hide ScanKeys, Canonical, Delta, ToKeyBytes, ToDeltaKeyBytes, DecideLayer, DecideSnapshot, KeysOfLayer, DeltaKeys,
      TrieRoot, LiveEntries, AddressFilter, ReadPrefix;
    ReadDefined(K, s, p);
    var cp, dp, ip := ToKeyBytes(p).value, ToDeltaKeyBytes(K, p, s.deltaPadding).value,
                      ToDeltaKeyBytes(K, p, s.intermediatePadding).value;
    ScanIsInside(s.delta.Keys, dp);
    ScanIsInside(s.intermediate.Keys, ip);
    ScanIsInside(s.snapshot.Keys, cp);
    ScanOfLayer(K, s.delta, s.deltaPadding, dp);
    ScanOfLayer(K, s.intermediate, s.intermediatePadding, ip);
    var dk, ik, sk := ScanKeys(s.delta.Keys, dp), ScanKeys(s.intermediate.Keys, ip), ScanKeys(s.snapshot.Keys, cp);
    var filter := AddressFilter(p);
    var d1 := DecideLayer(s.delta, dk, filter, map[]);
    var d2 := DecideLayer(s.intermediate, ik, filter, d1);
    DecideLayerAt(K, s.delta, dk, filter, s.deltaPadding, map[], k);
    DecideLayerAt(K, s.intermediate, ik, filter, s.intermediatePadding, d1, k);
    DecideSnapshotAt(s.snapshot, sk, d2, Canonical(k));
  }

  function Seen(entry: Option<MptValue>): Option<Option<Bytes>> {
    match entry
    case Some(v) => Some(v.VisibleValue())
    case None => None
  }

  predicate Lists(list: seq<KeyValue>, k: SpacedKey, v: Bytes)
    requires WellFormed(k)
  {
    KeyValue(Canonical(k), v) in list
  }

  /** The list names each selected visible key exactly once, with the value `get` gives, and nothing else. */
  ghost predicate ListsExactly(K: Keccak, s: Layers, p: SpacedKey, list: seq<KeyValue>) {
    && (forall i, j :: 0 <= i < j < |list| ==> list[i].key != list[j].key)
    && (forall k, v :: WellFormed(k) ==>
          (Lists(list, k, v) <==> Selects(p, k) && View(K, s, k) == Some(v)))
    && (forall i :: 0 <= i < |list| ==> IsCanonicalKey(list[i].key))
  }

  lemma ReadIsExact(K: Keccak, s: Layers, p: SpacedKey)
    requires Inv(K, s)
    requires ScanAgrees(K, s.delta, s.deltaPadding, p)
    requires ScanAgrees(K, s.intermediate, s.intermediatePadding, p)
    ensures ReadPrefix(K, s, p).Ok? && ListsExactly(K, s, p, ReadPrefix(K, s, p).value)
  {
    hide ScanAgrees, Inv, DecidedBy, Canonical, ReadPrefix, View, Selects, IsCanonicalKey;
    ReadDefined(K, s, p);
    DeltaIsKeyed(K, s);
    ReadRecordsDecided(K, s, p);
    var list, d := ReadPrefix(K, s, p).value, DecidedBy(K, s, p);
    var f: Found :| f.result == list && Records(f, d);
    DecidedIsCanonical(K, s, p);
    forall k, v | WellFormed(k)
      ensures Lists(list, k, v) <==> Selects(p, k) && View(K, s, k) == Some(v)
    {
      DecidedIsView(K, s, p, k);
      RecordedPair(f, d, Canonical(k), v);
    }
  }

  lemma RecordedPair(f: Found, d: Decided, c: Bytes, v: Bytes)
    requires Records(f, d)
    ensures KeyValue(c, v) in f.result <==> At(d, c) == Some(Some(v))
  {
  }

  lemma DeltaIsKeyed(K: Keccak, s: Layers)
    requires Inv(K, s)
    ensures DeltaKeys(K, s.delta.Keys, s.deltaPadding)
  {
  }

  lemma ScanRekeys(m: EntryMap, prefix: Bytes)
    requires AllRekey(m.Keys)
    ensures RekeyAll(ScanKeys(m.Keys, prefix)).Ok?
  {
    hide Rekey, ScanKeys;
    ScanIsInside(m.Keys, prefix);
    RekeyAllOk(ScanKeys(m.Keys, prefix));
  }

  lemma ScanDecodes(snapshot: Snapshot, prefix: Bytes)
    requires AllDecode(snapshot.Keys)
    ensures DecodeAll(ScanKeys(snapshot.Keys, prefix)).Ok?
  {
    hide FromKeyBytes, ScanKeys;
    ScanIsInside(snapshot.Keys, prefix);
    DecodeAllOk(ScanKeys(snapshot.Keys, prefix));
  }

  /** In a sound state a read or a deletion fails only for a bad address in the prefix, and then changes nothing. */
  lemma PrefixFailsExactlyWhen(K: Keccak, s: Layers, p: SpacedKey)
    requires Sound(K, s)
    ensures ReadPrefix(K, s, p).Err? <==> HasBadAddress(p)
    ensures DeletePrefix(K, s, p).Err? <==> HasBadAddress(p)
    ensures DeletePrefix(K, s, p).Err? ==> AfterFailedDelete(K, s, p) == s
  {
    hide ToKeyBytes, ToDeltaKeyBytes, HasBadAddress, RekeyAll, DecodeAll, ScanKeys, ListFound, DeltaAfterDelete,
      RootsHold, AllRekey, AllDecode, HideIntermediate, HideSnapshot, Rekeyable, Decodable, AddressFilter;
    RejectedExactlyWhen(K, p, s.deltaPadding);
    RejectedExactlyWhen(K, p, s.intermediatePadding);
    if !HasBadAddress(p) {
      ScanRekeys(s.delta, ToDeltaKeyBytes(K, p, s.deltaPadding).value);
      ScanRekeys(s.intermediate, ToDeltaKeyBytes(K, p, s.intermediatePadding).value);
      ScanDecodes(s.snapshot, ToKeyBytes(p).value);
    }
  }

  lemma ReadDefined(K: Keccak, s: Layers, p: SpacedKey)
    requires Inv(K, s)
    requires ScanAgrees(K, s.delta, s.deltaPadding, p)
    requires ScanAgrees(K, s.intermediate, s.intermediatePadding, p)
    ensures ReadPrefix(K, s, p).Ok?
  {
    hide Inv, Sound, ReadPrefix, DeletePrefix, AfterFailedDelete, ToDeltaKeyBytes, ToKeyBytes;
    InvIsSound(K, s);
    PrefixFailsExactlyWhen(K, s, p);
    RejectedExactlyWhen(K, p, s.deltaPadding);
  }

  lemma DecidedIsView(K: Keccak, s: Layers, p: SpacedKey, k: SpacedKey)
    requires Inv(K, s) && WellFormed(k)
    requires ScanAgrees(K, s.delta, s.deltaPadding, p)
    requires ScanAgrees(K, s.intermediate, s.intermediatePadding, p)
    ensures ReadPrefix(K, s, p).Ok?
    ensures forall v ::
      At(DecidedBy(K, s, p), Canonical(k)) == Some(Some(v)) <==> Selects(p, k) && View(K, s, k) == Some(v)
  {
    hide ScanAgrees, Inv, DecidedBy, Canonical, ReadPrefix, InLayer, InSnapshot, Selects;
    DecidedAt(K, s, p, k);
  }

  lemma DecidedIsCanonical(K: Keccak, s: Layers, p: SpacedKey)
    requires Inv(K, s) && ReadPrefix(K, s, p).Ok?
    ensures CanonicalKeys(DecidedBy(K, s, p).Keys)
  {
    hide ScanKeys, ToKeyBytes, ToDeltaKeyBytes, DecideLayer, DecideSnapshot, KeysOfLayer, DeltaKeys, TrieRoot,
      LiveEntries, IsCanonicalKey;
    var cp, dp, ip := ToKeyBytes(p).value, ToDeltaKeyBytes(K, p, s.deltaPadding).value,
                      ToDeltaKeyBytes(K, p, s.intermediatePadding).value;
    ScanIsInside(s.delta.Keys, dp);
    ScanIsInside(s.intermediate.Keys, ip);
    ScanIsInside(s.snapshot.Keys, cp);
    ScanOfLayer(K, s.delta, s.deltaPadding, dp);
    ScanOfLayer(K, s.intermediate, s.intermediatePadding, ip);
    var dk, ik, sk := ScanKeys(s.delta.Keys, dp), ScanKeys(s.intermediate.Keys, ip), ScanKeys(s.snapshot.Keys, cp);
    var filter := AddressFilter(p);
    var d1 := DecideLayer(s.delta, dk, filter, map[]);
    DecideLayerIsCanonical(K, s.delta, dk, filter, s.deltaPadding, map[]);
    DecideLayerIsCanonical(K, s.intermediate, ik, filter, s.intermediatePadding, d1);
    DecideSnapshotIsCanonical(s.snapshot, sk, DecideLayer(s.intermediate, ik, filter, d1));
  }

  /** Reading by a complete prefix. */
  lemma ReadCompletePrefix(K: Keccak, s: Layers, p: SpacedKey)
    requires Inv(K, s) && IsComplete(s, p)
    ensures ReadPrefix(K, s, p).Ok? && ListsExactly(K, s, p, ReadPrefix(K, s, p).value)
  {
    hide ScanAgrees, Inv, ListsExactly, ReadPrefix, IsComplete;
    CompleteAgrees(K, s, p);
    ReadIsExact(K, s, p);
  }

  /** Reading by an address prefix. */
  lemma ReadAddressPrefix(K: Keccak, s: Layers, p: SpacedKey)
    requires Inv(K, s) && p.key.AddressPrefix?
    ensures ReadPrefix(K, s, p).Ok? && ListsExactly(K, s, p, ReadPrefix(K, s, p).value)
  {
    hide ScanAgrees, Inv, ListsExactly, ReadPrefix;
    AddressPrefixAgrees(K, s.delta, s.deltaPadding, p);
    AddressPrefixAgrees(K, s.intermediate, s.intermediatePadding, p);
    ReadIsExact(K, s, p);
  }

  // ---------------------------------------------------------------------------------------------
  // Deletions are exact
  // ---------------------------------------------------------------------------------------------

  lemma HideKeyAt(K: Keccak, k: SpacedKey, padding: Padding, delta: EntryMap, q: SpacedKey)
    requires WellFormed(k) && WellFormed(q)
    ensures InLayer(K, HideKey(K, k, padding, delta), padding, q)
         == if q == k then Some(Tombstone) else InLayer(K, delta, padding, q)
  {
    hide Delta;
    PrefixEncodes(K, k, padding);
    InLayerAfterWrite(K, delta, padding, k, Tombstone, q);
  }

  lemma HideKeyKeepsDeltaKeys(K: Keccak, k: SpacedKey, padding: Padding, delta: EntryMap)
    requires WellFormed(k) && DeltaKeys(K, delta.Keys, padding)
    ensures DeltaKeys(K, HideKey(K, k, padding, delta).Keys, padding)
  {
    hide IsDeltaKey, Delta;
    PrefixEncodes(K, k, padding);
    KeyOfDeltaIs(K, k, padding);
  }

  /** A live intermediate entry that the scan picks. */
  predicate LiveScanned(K: Keccak, m: EntryMap, keys: seq<Bytes>, filter: Option<Bytes>, padding: Padding, q: SpacedKey)
    requires WellFormed(q) && forall i :: 0 <= i < |keys| ==> keys[i] in m
  {
    var raw := Delta(K, q, padding);
    raw in keys && Passes(filter, Canonical(q)) && m[raw].Live?
  }

  lemma {:induction false} HideIntermediateAt(K: Keccak, m: EntryMap, keys: seq<Bytes>, filter: Option<Bytes>,
                                              ipad: Padding, dpad: Padding, delta: EntryMap, q: SpacedKey)
    requires KeysOfLayer(K, m, keys, ipad) && WellFormed(q)
    requires forall i :: 0 <= i < |keys| ==> keys[i] in m
    ensures InLayer(K, HideIntermediate(K, m, keys, filter, dpad, delta), dpad, q)
         == if LiveScanned(K, m, keys, filter, ipad, q) then Some(Tombstone) else InLayer(K, delta, dpad, q)
    decreases keys
  {
    if keys != [] {
      hide Canonical, Delta, IsDeltaKey, Rekey, CanonicalOf, HideKey, InLayer, FromDeltaKey;
      var raw, rest := keys[0], keys[1..];
      assert raw in m && KeysOfLayer(K, m, rest, ipad) && IsDeltaKey(K, raw, ipad);
      HeadRekeys(K, m, keys, ipad, q);
      KeyOfDeltaIs(K, q, ipad);
      RekeyOfDelta(K, raw, ipad);
      HeadOrTail(keys, Delta(K, q, ipad));
      var tombs := Passes(filter, CanonicalOf(raw)) && m[raw].VisibleValue().Some?;
      var e := if tombs then HideKey(K, KeyOfDelta(raw), dpad, delta) else delta;
      if tombs {
        HideKeyAt(K, KeyOfDelta(raw), dpad, delta, q);
      }
      HideIntermediateAt(K, m, rest, filter, ipad, dpad, e, q);
    }
  }

  lemma {:induction false} HideIntermediateKeeps(K: Keccak, m: EntryMap, keys: seq<Bytes>, filter: Option<Bytes>,
                                                 ipad: Padding, dpad: Padding, delta: EntryMap)
    requires KeysOfLayer(K, m, keys, ipad) && DeltaKeys(K, delta.Keys, dpad)
    requires forall i :: 0 <= i < |keys| ==> keys[i] in m
    ensures DeltaKeys(K, HideIntermediate(K, m, keys, filter, dpad, delta).Keys, dpad)
    decreases keys
  {
    if keys != [] {
      hide Canonical, Delta, Rekey, CanonicalOf, HideKey, FromDeltaKey, DeltaKeys;
      RekeyOfDelta(K, keys[0], ipad);
      HideKeyKeepsDeltaKeys(K, KeyOfDelta(keys[0]), dpad, delta);
      HideIntermediateKeeps(K, m, keys[1..], filter, ipad, dpad,
        if Passes(filter, CanonicalOf(keys[0])) && m[keys[0]].VisibleValue().Some?
        then HideKey(K, KeyOfDelta(keys[0]), dpad, delta) else delta);
    }
  }

  lemma CanonicalKeyIs(raw: Bytes, q: SpacedKey)
    requires IsCanonicalKey(raw) && WellFormed(q)
    ensures WellFormed(KeyOfCanonical(raw)) && Canonical(KeyOfCanonical(raw)) == raw
    ensures KeyOfCanonical(raw) == q <==> Canonical(q) == raw
  {
    CanonicalRoundTrip(q);
  }

  lemma {:induction false} HideSnapshotAt(K: Keccak, keys: seq<Bytes>, padding: Padding, delta: EntryMap, q: SpacedKey)
    requires forall i :: 0 <= i < |keys| ==> IsCanonicalKey(keys[i])
    requires WellFormed(q)
    ensures InLayer(K, HideSnapshot(K, keys, padding, delta), padding, q)
         == if Canonical(q) in keys then Some(Tombstone) else InLayer(K, delta, padding, q)
    decreases keys
  {
    if keys != [] {
      hide Canonical, IsCanonicalKey, HideKey, InLayer, KeyOfCanonical;
      CanonicalKeyIs(keys[0], q);
      HideKeyAt(K, KeyOfCanonical(keys[0]), padding, delta, q);
      HideSnapshotAt(K, keys[1..], padding, HideKey(K, KeyOfCanonical(keys[0]), padding, delta), q);
      HeadOrTail(keys, Canonical(q));
    }
  }

  lemma HeadOrTail(keys: seq<Bytes>, c: Bytes)
    requires keys != []
    ensures c in keys <==> c == keys[0] || c in keys[1..]
  {
  }

  lemma {:induction false} HideSnapshotKeeps(K: Keccak, keys: seq<Bytes>, padding: Padding, delta: EntryMap)
    requires forall i :: 0 <= i < |keys| ==> IsCanonicalKey(keys[i])
    requires DeltaKeys(K, delta.Keys, padding)
    ensures DeltaKeys(K, HideSnapshot(K, keys, padding, delta).Keys, padding)
    decreases keys
  {
    if keys != [] {
      hide Canonical, HideKey, DeltaKeys;
      HideKeyKeepsDeltaKeys(K, KeyOfCanonical(keys[0]), padding, delta);
      HideSnapshotKeeps(K, keys[1..], padding, HideKey(K, KeyOfCanonical(keys[0]), padding, delta));
    }
  }

  lemma ScanOfSnapshot(snapshot: Snapshot, prefix: Bytes)
    requires CanonicalKeys(snapshot.Keys)
    ensures forall i :: 0 <= i < |ScanKeys(snapshot.Keys, prefix)| ==>
      IsCanonicalKey(ScanKeys(snapshot.Keys, prefix)[i])
  {
    hide ScanKeys, IsCanonicalKey;
    ScanIsInside(snapshot.Keys, prefix);
  }

  /** Whether the deletion drops the key's delta entry. */
  predicate Dropped(K: Keccak, s: Layers, p: SpacedKey, q: SpacedKey)
    requires WellFormed(q) && ToDeltaKeyBytes(K, p, s.deltaPadding).Ok?
  {
    ToDeltaKeyBytes(K, p, s.deltaPadding).value <= Delta(K, q, s.deltaPadding)
  }

  /** The delta after a deletion: a tombstone over every match that is live below, else the old entry unless dropped. */
  lemma DeltaAfterDeleteAt(K: Keccak, s: Layers, p: SpacedKey, q: SpacedKey)
    requires Inv(K, s) && WellFormed(q)
    requires ScanAgrees(K, s.intermediate, s.intermediatePadding, p)
    requires DeletePrefix(K, s, p).Ok?
    ensures InLayer(K, DeletePrefix(K, s, p).value.after.delta, s.deltaPadding, q) ==
      if Selects(p, q)
         && (InSnapshot(s.snapshot, q).Some? || IsLive(InLayer(K, s.intermediate, s.intermediatePadding, q)))
      then Some(Tombstone)
      else if Dropped(K, s, p, q) then None
      else InLayer(K, s.delta, s.deltaPadding, q)
  {
    hide ScanKeys, Canonical, Delta, ToKeyBytes, ToDeltaKeyBytes, HideIntermediate, HideSnapshot, KeysOfLayer,
      DeltaKeys, TrieRoot, LiveEntries, AddressFilter, ListFound, IsCanonicalKey;
    var cp, dp, ip := ToKeyBytes(p).value, ToDeltaKeyBytes(K, p, s.deltaPadding).value,
                      ToDeltaKeyBytes(K, p, s.intermediatePadding).value;
    var filter := AddressFilter(p);
    ScanIsInside(s.intermediate.Keys, ip);
    ScanOfLayer(K, s.intermediate, s.intermediatePadding, ip);
    ScanOfSnapshot(s.snapshot, cp);
    var ik, sk := ScanKeys(s.intermediate.Keys, ip), ScanKeys(s.snapshot.Keys, cp);
    var dropped := s.delta - (set k | k in s.delta && dp <= k);
    var hidden := HideIntermediate(K, s.intermediate, ik, filter, s.deltaPadding, dropped);
    HideIntermediateAt(K, s.intermediate, ik, filter, s.intermediatePadding, s.deltaPadding, dropped, q);
    HideSnapshotAt(K, sk, s.deltaPadding, hidden, q);
  }

  predicate IsLive(entry: Option<MptValue>) {
    entry.Some? && entry.value.Live?
  }

  lemma DeleteKeepsInv(K: Keccak, s: Layers, p: SpacedKey)
    requires Inv(K, s) && DeletePrefix(K, s, p).Ok?
    ensures Inv(K, DeletePrefix(K, s, p).value.after)
  {
    hide ScanKeys, ToKeyBytes, ToDeltaKeyBytes, HideIntermediate, HideSnapshot, KeysOfLayer, TrieRoot, LiveEntries,
      AddressFilter, ListFound, IsCanonicalKey, IsDeltaKey;
    var cp, dp, ip := ToKeyBytes(p).value, ToDeltaKeyBytes(K, p, s.deltaPadding).value,
                      ToDeltaKeyBytes(K, p, s.intermediatePadding).value;
    var filter := AddressFilter(p);
    ScanIsInside(s.intermediate.Keys, ip);
    ScanOfLayer(K, s.intermediate, s.intermediatePadding, ip);
    ScanOfSnapshot(s.snapshot, cp);
    var ik, sk := ScanKeys(s.intermediate.Keys, ip), ScanKeys(s.snapshot.Keys, cp);
    var dropped := s.delta - (set k | k in s.delta && dp <= k);
    assert DeltaKeys(K, dropped.Keys, s.deltaPadding);
    HideIntermediateKeeps(K, s.intermediate, ik, filter, s.intermediatePadding, s.deltaPadding, dropped);
    HideSnapshotKeeps(K, sk, s.deltaPadding, HideIntermediate(K, s.intermediate, ik, filter, s.deltaPadding, dropped));
  }

  lemma {:induction false} HideIntermediateRekeys(K: Keccak, m: EntryMap, keys: seq<Bytes>, filter: Option<Bytes>,
                                                  padding: Padding, delta: EntryMap)
    requires AllRekey(delta.Keys)
    requires forall i :: 0 <= i < |keys| ==> keys[i] in m
    ensures AllRekey(HideIntermediate(K, m, keys, filter, padding, delta).Keys)
    decreases keys
  {
    hide AllRekey, HideKey, KeyOfDelta, CanonicalOf, Passes;
    if keys != [] {
      HideKeyRekeys(K, KeyOfDelta(keys[0]), padding, delta);
      HideIntermediateRekeys(K, m, keys[1..], filter, padding,
        if Passes(filter, CanonicalOf(keys[0])) && m[keys[0]].VisibleValue().Some?
        then HideKey(K, KeyOfDelta(keys[0]), padding, delta) else delta);
    }
  }

  lemma HideKeyRekeys(K: Keccak, k: SpacedKey, padding: Padding, delta: EntryMap)
    requires AllRekey(delta.Keys)
    ensures AllRekey(HideKey(K, k, padding, delta).Keys)
  {
    hide Rekey, ToDeltaKeyBytes, HasBadAddress;
    RejectedExactlyWhen(K, k, padding);
    if !HasBadAddress(k) {
      EncodedRekeys(K, k, padding);
    }
  }

  lemma {:induction false} HideSnapshotRekeys(K: Keccak, keys: seq<Bytes>, padding: Padding, delta: EntryMap)
    requires AllRekey(delta.Keys)
    ensures AllRekey(HideSnapshot(K, keys, padding, delta).Keys)
    decreases keys
  {
    hide AllRekey, HideKey, KeyOfCanonical;
    if keys != [] {
      HideKeyRekeys(K, KeyOfCanonical(keys[0]), padding, delta);
      HideSnapshotRekeys(K, keys[1..], padding, HideKey(K, KeyOfCanonical(keys[0]), padding, delta));
    }
  }

  /** Whatever keys are stored, a deletion leaves a sound state sound. */
  lemma DeleteKeepsSound(K: Keccak, s: Layers, p: SpacedKey)
    requires Sound(K, s) && DeletePrefix(K, s, p).Ok?
    ensures Sound(K, DeletePrefix(K, s, p).value.after)
  {
    hide ToKeyBytes, ToDeltaKeyBytes, RekeyAll, DecodeAll, ScanKeys, ListFound, AllRekey, AllDecode, HideIntermediate,
      HideSnapshot, AddressFilter, TrieRoot, LiveEntries;
    var cp, dp, ip := ToKeyBytes(p).value, ToDeltaKeyBytes(K, p, s.deltaPadding).value,
                      ToDeltaKeyBytes(K, p, s.intermediatePadding).value;
    var filter, ik := AddressFilter(p), ScanKeys(s.intermediate.Keys, ip);
    ScanIsInside(s.intermediate.Keys, ip);
    var dropped := s.delta - (set k | k in s.delta && dp <= k);
    FewerRekey(s.delta, dropped);
    HideIntermediateRekeys(K, s.intermediate, ik, filter, s.deltaPadding, dropped);
    HideSnapshotRekeys(K, ScanKeys(s.snapshot.Keys, cp), s.deltaPadding,
                       HideIntermediate(K, s.intermediate, ik, filter, s.deltaPadding, dropped));
  }

  lemma FewerRekey(m: EntryMap, fewer: EntryMap)
    requires AllRekey(m.Keys) && fewer.Keys <= m.Keys
    ensures AllRekey(fewer.Keys)
  {
    hide Rekey;
  }

  lemma DeleteDefined(K: Keccak, s: Layers, p: SpacedKey)
    requires Inv(K, s)
    requires ScanAgrees(K, s.delta, s.deltaPadding, p)
    requires ScanAgrees(K, s.intermediate, s.intermediatePadding, p)
    ensures ReadPrefix(K, s, p).Ok? && DeletePrefix(K, s, p).Ok?
    ensures DeletePrefix(K, s, p).value.after == s.(delta := DeletePrefix(K, s, p).value.after.delta)
    ensures DeletePrefix(K, s, p).value.list == ReadPrefix(K, s, p).value
  {
    hide Inv, Sound, ToDeltaKeyBytes, ToKeyBytes, ScanKeys, RekeyAll, DecodeAll, ListFound, DeltaAfterDelete,
      AfterFailedDelete;
    InvIsSound(K, s);
    PrefixFailsExactlyWhen(K, s, p);
    RejectedExactlyWhen(K, p, s.deltaPadding);
  }

  /** A deletion by a complete prefix hides every selected key and leaves every other as it was. */
  lemma DeleteCompleteAt(K: Keccak, s: Layers, p: SpacedKey, q: SpacedKey)
    requires Inv(K, s) && IsComplete(s, p) && WellFormed(q)
    ensures DeletePrefix(K, s, p).Ok?
    ensures View(K, DeletePrefix(K, s, p).value.after, q) == if Selects(p, q) then None else View(K, s, q)
  {
    CompleteAgrees(K, s, p);
    NoFilterWhenComplete(s, p);
    hide Inv, Canonical, Delta, ToKeyBytes, ToDeltaKeyBytes, DeletePrefix, ReadPrefix, IsComplete, InLayer,
      InSnapshot;
    DeleteDefined(K, s, p);
    DeltaAfterDeleteAt(K, s, p, q);
    assert InLayer(K, s.delta, s.deltaPadding, q).Some? ==> (Dropped(K, s, p, q) <==> Selects(p, q));
  }

  lemma NoFilterWhenComplete(s: Layers, p: SpacedKey)
    requires IsComplete(s, p)
    ensures AddressFilter(p) == None
  {
  }

  /** The flat map after deleting by a complete prefix: exactly the keys under the prefix are gone. */
  lemma DeleteCompletePrefix(K: Keccak, s: Layers, p: SpacedKey)
    requires Inv(K, s) && IsComplete(s, p)
    ensures DeletePrefix(K, s, p).Ok?
    ensures Inv(K, DeletePrefix(K, s, p).value.after)
    ensures Flat(K, DeletePrefix(K, s, p).value.after) == Without(Flat(K, s), p)
    ensures ListsExactly(K, s, p, DeletePrefix(K, s, p).value.list)
  {
    hide Inv, View, Flat, IsComplete, ListsExactly, DeletePrefix, ReadPrefix, Selects;
    CompleteAgrees(K, s, p);
    DeleteDefined(K, s, p);
    DeleteKeepsInv(K, s, p);
    ReadCompletePrefix(K, s, p);
    var t := DeletePrefix(K, s, p).value.after;
    FlatHasWellFormedKeys(K, s);
    var flat := Without(Flat(K, s), p);
    forall q | WellFormed(q)
      ensures Lookup(flat, q) == View(K, t, q)
    {
      DeleteCompleteAt(K, s, p, q);
      FlatIsView(K, s, q);
    }
    FlatEquals(K, t, flat);
  }

  /** A flat map without the keys under a prefix. */
  function Without(flat: map<SpacedKey, Bytes>, p: SpacedKey): map<SpacedKey, Bytes> {
    map k | k in flat && !(WellFormed(k) && Selects(p, k)) :: flat[k]
  }

  /**
   * Deleting by an address prefix empties the whole delta: matching keys become absent, and every other key
   * falls back to its value below the delta.
   */
  lemma DeleteAddressPrefix(K: Keccak, s: Layers, p: SpacedKey, q: SpacedKey)
    requires Inv(K, s) && p.key.AddressPrefix? && WellFormed(q)
    ensures DeletePrefix(K, s, p).Ok?
    ensures Inv(K, DeletePrefix(K, s, p).value.after)
    ensures View(K, DeletePrefix(K, s, p).value.after, q) == if Selects(p, q) then None else Below(K, s, q)
  {
    AddressPrefixAgrees(K, s.delta, s.deltaPadding, p);
    AddressPrefixAgrees(K, s.intermediate, s.intermediatePadding, p);
    assert Dropped(K, s, p, q);
    hide Inv, Canonical, Delta, ToKeyBytes, ToDeltaKeyBytes, DeletePrefix, ReadPrefix, ScanAgrees, InLayer,
      InSnapshot, Dropped;
    DeleteDefined(K, s, p);
    DeleteKeepsInv(K, s, p);
    DeltaAfterDeleteAt(K, s, p, q);
  }
}
