/** The bytes of the two key encodings. */
module KeyFormat {
  import opened Basics
  import opened TrieSpec
  import opened KeyCodec
  import opened StateSpec

  function SpaceMark(k: SpacedKey): Bytes {
    if k.space == Ethereum then [0x81] else []
  }

  /**
   * Twelve bytes of the hash of padding and address, the address, the space marker, and what the kind of key adds: for
   * a Storage key "data", the hash of padding and storage key from its fifth byte on, and the storage key.
   */
  lemma DeltaBytes(K: Keccak, k: SpacedKey, padding: Padding)
    requires WellFormed(k)
    ensures ToDeltaKeyBytes(K, k, padding) == Ok(
      K(padding[..12] + k.key.address)[..12] + k.key.address + SpaceMark(k) +
      match k.key
      case Account(_) => []
      case StorageRoot(_) => [100, 97, 116, 97]
      case Storage(_, s) => [100, 97, 116, 97] + K(padding + s)[4..] + s
      case CodeRoot(_) => [99, 111, 100, 101]
      case Code(_, h) => [99, 111, 100, 101] + h
      case DepositList(_) => [100, 101, 112, 111, 115, 105, 116]
      case VoteList(_) => [118, 111, 116, 101]
      case Empty => []
      case AddressPrefix(_) => [])
  {
    DeltaShape(K, k, padding);
    WellFormedEncodesDelta(K, k, padding);
    var a, t := AccountKeyUncached(K, k.key.address, padding), DeltaTail(K, k.key, padding);
    assert a + (Marker(k.space) + t) == a + Marker(k.space) + t;
  }

  lemma WellFormedEncodesDelta(K: Keccak, k: SpacedKey, padding: Padding)
    requires WellFormed(k)
    ensures ToDeltaKeyBytes(K, k, padding) == Ok(Delta(K, k, padding))
  {
  }

  /** The address, the space marker, and what the kind of key adds. */
  lemma CanonicalBytes(k: SpacedKey)
    requires WellFormed(k)
    ensures ToKeyBytes(k) == Ok(
      k.key.address + SpaceMark(k) +
      match k.key
      case Account(_) => []
      case StorageRoot(_) => [100, 97, 116, 97]
      case Storage(_, s) => [100, 97, 116, 97] + s
      case CodeRoot(_) => [99, 111, 100, 101]
      case Code(_, h) => [99, 111, 100, 101] + h
      case DepositList(_) => [100, 101, 112, 111, 115, 105, 116]
      case VoteList(_) => [118, 111, 116, 101]
      case Empty => []
      case AddressPrefix(_) => [])
  {
    CanonicalShape(k);
    WellFormedEncodes(k);
    var a, t := k.key.address, CanonicalTail(k.key);
    assert a + (Marker(k.space) + t) == a + Marker(k.space) + t;
  }

  /** Keys without a full address encode as what there is of one, or in delta form as nothing. */
  lemma PartialKeyBytes(K: Keccak, k: SpacedKey, padding: Padding)
    ensures k.key.Account? && |k.key.address| < 20 ==>
              ToKeyBytes(k) == Ok(k.key.address) && ToDeltaKeyBytes(K, k, padding) == Ok(k.key.address)
    ensures k.key.AddressPrefix? ==> ToKeyBytes(k) == Ok(k.key.prefix) && ToDeltaKeyBytes(K, k, padding) == Ok([])
    ensures k.key.Empty? ==> ToKeyBytes(k) == Ok([]) && ToDeltaKeyBytes(K, k, padding) == Ok([])
  {
  }

  /** The first padding hashes twice the hash of nothing; later ones the roots below the delta, snapshot first. */
  lemma PaddingBytes(K: Keccak, snapshotRoot: H256, intermediateRoot: H256)
    ensures PaddingFromRoots(K, snapshotRoot, intermediateRoot) == K(snapshotRoot + intermediateRoot)
    ensures GenesisPadding(K) == K(K([]) + K([]))
  {
  }

  /** A new state's paddings, and the period of a checkpoint that lacks one. */
  lemma FirstPaddings(K: Keccak, snapshot: Snapshot, epochCount: nat, p: PersistedState)
    ensures var s := FromSnapshot(K, snapshot, epochCount);
      && s.intermediatePadding == K(K([]) + K([]))
      && s.deltaPadding == K(TrieRoot(K, LiveEntries(snapshot)) + K([]))
      && s.height == 0 && s.lastRoot == None
    ensures p.epochCount == 0 ==> Restore(K, p).epochCount == 2000
  {
    hide TrieRoot, LiveEntries;
  }
}
