/** The two key encodings: canonical (snapshot) and padded delta, with the cache of account key parts. */
module KeyCodec {
  import opened Basics

  const ACCOUNT_BYTES: nat := 20
  const ACCOUNT_KEYPART_BYTES: nat := 32
  const ACCOUNT_PADDING_BYTES: nat := 12
  const KEY_PADDING_BYTES: nat := 32
  const EVM_SPACE_TYPE: Byte := 0x81
  /** "data" */
  const STORAGE_PREFIX: Bytes := [100, 97, 116, 97]
  /** "code" */
  const CODE_HASH_PREFIX: Bytes := [99, 111, 100, 101]
  /** "deposit" */
  const DEPOSIT_LIST_PREFIX: Bytes := [100, 101, 112, 111, 115, 105, 116]
  /** "vote" */
  const VOTE_LIST_PREFIX: Bytes := [118, 111, 116, 101]

  datatype Space = Native | Ethereum

  datatype StorageKey =
    | Account(address: Bytes)
    | StorageRoot(address: Bytes)
    | Storage(address: Bytes, storageKey: Bytes)
    | CodeRoot(address: Bytes)
    | Code(address: Bytes, codeHash: Bytes)
    | DepositList(address: Bytes)
    | VoteList(address: Bytes)
    | Empty
    | AddressPrefix(prefix: Bytes)

  datatype SpacedKey = SpacedKey(key: StorageKey, space: Space)

  type Padding = H256

  function PaddingFromRoots(K: Keccak, snapshotRoot: H256, intermediateRoot: H256): Padding {
    K(snapshotRoot + intermediateRoot)
  }

  function GenesisPadding(K: Keccak): Padding {
    PaddingFromRoots(K, NullNode(K), NullNode(K))
  }

  // ---------------------------------------------------------------------------------------------
  // Encoders
  // ---------------------------------------------------------------------------------------------

  function CheckedAddress(address: Bytes): Result<Bytes> {
    if |address| == ACCOUNT_BYTES then Ok(address) else Err(InvalidKey)
  }

  /** The Ethereum marker is spliced in after the address part, which ends at `at`. */
  function AddSpace(key: Bytes, space: Space, at: nat): Bytes
    requires at <= |key|
  {
    if space == Ethereum then key[..at] + [EVM_SPACE_TYPE] + key[at..] else key
  }

  function ToKeyBytes(k: SpacedKey): Result<Bytes> {
    match k.key
    case Account(address) =>
      if |address| < ACCOUNT_BYTES then
        Ok(address)
      else
        var a :- CheckedAddress(address);
        Ok(AddSpace(a, k.space, ACCOUNT_BYTES))
    case StorageRoot(address) =>
      var a :- CheckedAddress(address);
      Ok(AddSpace(a + STORAGE_PREFIX, k.space, ACCOUNT_BYTES))
    case Storage(address, storageKey) =>
      var a :- CheckedAddress(address);
      Ok(AddSpace(a + STORAGE_PREFIX + storageKey, k.space, ACCOUNT_BYTES))
    case CodeRoot(address) =>
      var a :- CheckedAddress(address);
      Ok(AddSpace(a + CODE_HASH_PREFIX, k.space, ACCOUNT_BYTES))
    case Code(address, codeHash) =>
      var a :- CheckedAddress(address);
      Ok(AddSpace(a + CODE_HASH_PREFIX + codeHash, k.space, ACCOUNT_BYTES))
    case DepositList(address) =>
      var a :- CheckedAddress(address);
      Ok(AddSpace(a + DEPOSIT_LIST_PREFIX, k.space, ACCOUNT_BYTES))
    case VoteList(address) =>
      var a :- CheckedAddress(address);
      Ok(AddSpace(a + VOTE_LIST_PREFIX, k.space, ACCOUNT_BYTES))
    case Empty => Ok([])
    case AddressPrefix(prefix) => Ok(prefix)
  }

  /** The 32-byte account part: 12 hash bytes of padding and address, then the address itself. */
  function AccountKeyUncached(K: Keccak, address: Bytes, padding: Padding): (key: Bytes)
    requires |address| == ACCOUNT_BYTES
    ensures |key| == ACCOUNT_KEYPART_BYTES
  {
    K(padding[..ACCOUNT_PADDING_BYTES] + address)[..ACCOUNT_PADDING_BYTES] + address
  }

  function StorageKeyPadding(K: Keccak, storageKey: Bytes, padding: Padding): Padding {
    K(padding + storageKey)
  }

  /** What follows the account part of a delta key, before the space marker is spliced in. */
  function DeltaTail(K: Keccak, key: StorageKey, padding: Padding): Bytes {
    match key
    case Account(_) => []
    case StorageRoot(_) => STORAGE_PREFIX
    case Storage(_, storageKey) =>
      STORAGE_PREFIX + StorageKeyPadding(K, storageKey, padding)[|STORAGE_PREFIX|..] + storageKey
    case CodeRoot(_) => CODE_HASH_PREFIX
    case Code(_, codeHash) => CODE_HASH_PREFIX + codeHash
    case DepositList(_) => DEPOSIT_LIST_PREFIX
    case VoteList(_) => VOTE_LIST_PREFIX
    case Empty => []
    case AddressPrefix(_) => []
  }

  function ToDeltaKeyBytes(K: Keccak, k: SpacedKey, padding: Padding): Result<Bytes> {
    match k.key
    case Empty => Ok([])
    case AddressPrefix(_) => Ok([])
    case Account(address) =>
      if |address| < ACCOUNT_BYTES then Ok(address) else AddressedDeltaKey(K, k, address, padding)
    case StorageRoot(address) => AddressedDeltaKey(K, k, address, padding)
    case Storage(address, _) => AddressedDeltaKey(K, k, address, padding)
    case CodeRoot(address) => AddressedDeltaKey(K, k, address, padding)
    case Code(address, _) => AddressedDeltaKey(K, k, address, padding)
    case DepositList(address) => AddressedDeltaKey(K, k, address, padding)
    case VoteList(address) => AddressedDeltaKey(K, k, address, padding)
  }

  function AddressedDeltaKey(K: Keccak, k: SpacedKey, address: Bytes, padding: Padding): Result<Bytes> {
    var a :- CheckedAddress(address);
    Ok(AddSpace(AccountKeyUncached(K, a, padding) + DeltaTail(K, k.key, padding), k.space, ACCOUNT_KEYPART_BYTES))
  }

  // ---------------------------------------------------------------------------------------------
  // Decoders
  // ---------------------------------------------------------------------------------------------

  function FromDeltaKey(raw: Bytes): Result<SpacedKey> {
    if |raw| < ACCOUNT_KEYPART_BYTES then
      Ok(SpacedKey(Account(raw), Native))
    else
      var address := raw[ACCOUNT_PADDING_BYTES..ACCOUNT_KEYPART_BYTES];
      if |raw| == ACCOUNT_KEYPART_BYTES then
        Ok(SpacedKey(Account(address), Native))
      else if |raw| == ACCOUNT_KEYPART_BYTES + 1 && raw[ACCOUNT_KEYPART_BYTES] == EVM_SPACE_TYPE then
        Ok(SpacedKey(Account(address), Ethereum))
      else
        var hasSpace := raw[ACCOUNT_KEYPART_BYTES] >= 0x80;
        if hasSpace && raw[ACCOUNT_KEYPART_BYTES] != EVM_SPACE_TYPE then
          Err(InvalidKey)
        else
          var space := if hasSpace then Ethereum else Native;
          var rest := raw[if hasSpace then ACCOUNT_KEYPART_BYTES + 1 else ACCOUNT_KEYPART_BYTES..];
          var key :- DeltaKeyFromTail(address, rest);
          Ok(SpacedKey(key, space))
  }

  function DeltaKeyFromTail(address: Bytes, rest: Bytes): Result<StorageKey> {
    if STORAGE_PREFIX <= rest then
      if |rest| == |STORAGE_PREFIX| then
        Ok(StorageRoot(address))
      else if |rest| < KEY_PADDING_BYTES then
        Err(InvalidKey)
      else
        Ok(Storage(address, rest[KEY_PADDING_BYTES..]))
    else if CODE_HASH_PREFIX <= rest then
      var codeHash := rest[|CODE_HASH_PREFIX|..];
      Ok(if codeHash == [] then CodeRoot(address) else Code(address, codeHash))
    else if DEPOSIT_LIST_PREFIX <= rest then
      Ok(DepositList(address))
    else if VOTE_LIST_PREFIX <= rest then
      Ok(VoteList(address))
    else
      Err(InvalidKey)
  }

  function FromKeyBytes(raw: Bytes): Result<SpacedKey> {
    if raw == [] then
      Ok(SpacedKey(Empty, Native))
    else if |raw| < ACCOUNT_BYTES then
      Ok(SpacedKey(AddressPrefix(raw), Native))
    else
      var address := raw[..ACCOUNT_BYTES];
      var isEthereum := |raw| > ACCOUNT_BYTES && raw[ACCOUNT_BYTES] == EVM_SPACE_TYPE;
      var rest := raw[if isEthereum then ACCOUNT_BYTES + 1 else ACCOUNT_BYTES..];
      var key :- CanonicalKeyFromTail(address, rest);
      Ok(SpacedKey(key, if isEthereum then Ethereum else Native))
  }

  function CanonicalKeyFromTail(address: Bytes, rest: Bytes): Result<StorageKey> {
    if rest == [] then
      Ok(Account(address))
    else if STORAGE_PREFIX <= rest then
      var suffix := rest[|STORAGE_PREFIX|..];
      Ok(if suffix == [] then StorageRoot(address) else Storage(address, suffix))
    else if CODE_HASH_PREFIX <= rest then
      var suffix := rest[|CODE_HASH_PREFIX|..];
      Ok(if suffix == [] then CodeRoot(address) else Code(address, suffix))
    else if rest == DEPOSIT_LIST_PREFIX then
      Ok(DepositList(address))
    else if rest == VOTE_LIST_PREFIX then
      Ok(VoteList(address))
    else
      Err(InvalidKey)
  }

  // ---------------------------------------------------------------------------------------------
  // Well-formed keys and their shape
  // ---------------------------------------------------------------------------------------------

  /** The keys that can be stored and recovered: a full address, and a non-empty suffix where there is one. */
  predicate WellFormed(k: SpacedKey) {
    match k.key
    case Account(address) => |address| == ACCOUNT_BYTES
    case StorageRoot(address) => |address| == ACCOUNT_BYTES
    case Storage(address, storageKey) => |address| == ACCOUNT_BYTES && storageKey != []
    case CodeRoot(address) => |address| == ACCOUNT_BYTES
    case Code(address, codeHash) => |address| == ACCOUNT_BYTES && codeHash != []
    case DepositList(address) => |address| == ACCOUNT_BYTES
    case VoteList(address) => |address| == ACCOUNT_BYTES
    case Empty => false
    case AddressPrefix(_) => false
  }

  /** A key that every encoder rejects. */
  predicate HasBadAddress(k: SpacedKey) {
    match k.key
    case Empty => false
    case AddressPrefix(_) => false
    case Account(address) => |address| > ACCOUNT_BYTES
    case StorageRoot(address) => |address| != ACCOUNT_BYTES
    case Storage(address, _) => |address| != ACCOUNT_BYTES
    case CodeRoot(address) => |address| != ACCOUNT_BYTES
    case Code(address, _) => |address| != ACCOUNT_BYTES
    case DepositList(address) => |address| != ACCOUNT_BYTES
    case VoteList(address) => |address| != ACCOUNT_BYTES
  }

  /** A Code key without a hash encodes as the CodeRoot key does, in both forms. */
  predicate IsCodeAlias(k: SpacedKey) {
    k.key.Code? && |k.key.address| == ACCOUNT_BYTES && k.key.codeHash == []
  }

  function Unaliased(k: SpacedKey): (r: SpacedKey)
    requires IsCodeAlias(k)
    ensures WellFormed(r)
  {
    SpacedKey(CodeRoot(k.key.address), k.space)
  }

  /** The keys that a write stores under a well-formed key's encoding, or rejects. */
  predicate Writable(k: SpacedKey) {
    WellFormed(k) || HasBadAddress(k) || IsCodeAlias(k)
  }

  function Marker(space: Space): Bytes {
    if space == Ethereum then [EVM_SPACE_TYPE] else []
  }

  function AddressOf(k: SpacedKey): (a: Bytes)
    requires WellFormed(k)
    ensures |a| == ACCOUNT_BYTES
  {
    k.key.address
  }

  /** What follows address and marker of a canonical key. */
  function CanonicalTail(key: StorageKey): Bytes {
    match key
    case Account(_) => []
    case StorageRoot(_) => STORAGE_PREFIX
    case Storage(_, storageKey) => STORAGE_PREFIX + storageKey
    case CodeRoot(_) => CODE_HASH_PREFIX
    case Code(_, codeHash) => CODE_HASH_PREFIX + codeHash
    case DepositList(_) => DEPOSIT_LIST_PREFIX
    case VoteList(_) => VOTE_LIST_PREFIX
    case Empty => []
    case AddressPrefix(_) => []
  }

  function Canonical(k: SpacedKey): Bytes
    requires WellFormed(k)
  {
    ToKeyBytes(k).value
  }

  function Delta(K: Keccak, k: SpacedKey, padding: Padding): Bytes
    requires WellFormed(k)
  {
    ToDeltaKeyBytes(K, k, padding).value
  }

  /** A canonical key is address, marker, tail. */
  lemma CanonicalShape(k: SpacedKey)
    requires WellFormed(k)
    ensures Canonical(k) == AddressOf(k) + (Marker(k.space) + CanonicalTail(k.key))
  {
    var a, t := AddressOf(k), CanonicalTail(k.key);
    assert Canonical(k) == AddSpace(a + t, k.space, ACCOUNT_BYTES) by {
      if k.key.Storage? {
        assert a + t == a + STORAGE_PREFIX + k.key.storageKey;
      } else if k.key.Code? {
        assert a + t == a + CODE_HASH_PREFIX + k.key.codeHash;
      } else if k.key.Account? {
        assert a + t == a;
      }
    }
    SpaceIsSpliced(a, t, k.space);
  }

  lemma SpaceIsSpliced(a: Bytes, t: Bytes, space: Space)
    ensures AddSpace(a + t, space, |a|) == a + (Marker(space) + t)
  {
    assert (a + t)[..|a|] == a && (a + t)[|a|..] == t;
    if space == Native {
      assert [] + t == t;
    }
  }

  /** A delta key is the account part, marker, padded tail. */
  lemma DeltaShape(K: Keccak, k: SpacedKey, padding: Padding)
    requires WellFormed(k)
    ensures Delta(K, k, padding)
         == AccountKeyUncached(K, AddressOf(k), padding) + (Marker(k.space) + DeltaTail(K, k.key, padding))
  {
    SpaceIsSpliced(AccountKeyUncached(K, AddressOf(k), padding), DeltaTail(K, k.key, padding), k.space);
  }

  // ---------------------------------------------------------------------------------------------
  // Round trips
  // ---------------------------------------------------------------------------------------------

  /** Every well-formed key is recovered from its canonical encoding. */
  lemma CanonicalRoundTrip(k: SpacedKey)
    requires WellFormed(k)
    ensures ToKeyBytes(k).Ok? && FromKeyBytes(ToKeyBytes(k).value) == Ok(k)
  {
    hide CanonicalTail, CanonicalKeyFromTail;
    CanonicalShape(k);
    CanonicalTailRoundTrip(k);
    FromCanonicalParts(AddressOf(k), k.space, CanonicalTail(k.key));
    WellFormedEncodes(k);
  }

  lemma WellFormedEncodes(k: SpacedKey)
    requires WellFormed(k)
    ensures ToKeyBytes(k) == Ok(Canonical(k))
  {
  }

  /** The decoder finds address, marker and tail. */
  lemma FromCanonicalParts(a: Bytes, space: Space, t: Bytes)
    requires |a| == ACCOUNT_BYTES && (t != [] ==> t[0] < 0x80)
    requires CanonicalKeyFromTail(a, t).Ok?
    ensures FromKeyBytes(a + (Marker(space) + t)) == Ok(SpacedKey(CanonicalKeyFromTail(a, t).value, space))
  {
    hide CanonicalKeyFromTail;
    var m := Marker(space);
    var raw := a + (m + t);
    assert raw[..ACCOUNT_BYTES] == a;
    assert raw[ACCOUNT_BYTES..] == m + t;
    assert raw[ACCOUNT_BYTES + |m|..] == t;
    assert |raw| > ACCOUNT_BYTES ==> raw[ACCOUNT_BYTES] == (m + t)[0];
  }

  lemma CanonicalTailRoundTrip(k: SpacedKey)
    requires WellFormed(k)
    ensures CanonicalKeyFromTail(AddressOf(k), CanonicalTail(k.key)) == Ok(k.key)
    ensures CanonicalTail(k.key) != [] ==> CanonicalTail(k.key)[0] < 0x80
  {
    var t := CanonicalTail(k.key);
    match k.key
    case Storage(_, s) => assert t[4..] == s;
    case Code(_, h) => assert t[1] == 111 && t[4..] == h;
    case CodeRoot(_) => assert t[1] == 111;
    case DepositList(_) => assert t[0] == 100 && t[1] == 101;
    case VoteList(_) => assert t[0] == 118;
    case _ =>
  }

  /** Every well-formed key is recovered from its delta encoding, whatever the padding. */
  lemma DeltaRoundTrip(K: Keccak, k: SpacedKey, padding: Padding)
    requires WellFormed(k)
    ensures ToDeltaKeyBytes(K, k, padding).Ok?
    ensures FromDeltaKey(ToDeltaKeyBytes(K, k, padding).value) == Ok(k)
  {
    DeltaShape(K, k, padding);
    var raw := Delta(K, k, padding);
    var a, m, t := AccountKeyUncached(K, AddressOf(k), padding), Marker(k.space), DeltaTail(K, k.key, padding);
    assert raw[ACCOUNT_PADDING_BYTES..ACCOUNT_KEYPART_BYTES] == AddressOf(k);
    assert raw[ACCOUNT_KEYPART_BYTES..] == m + t;
    assert raw[ACCOUNT_KEYPART_BYTES + |m|..] == t;
    assert |raw| > ACCOUNT_KEYPART_BYTES ==> raw[ACCOUNT_KEYPART_BYTES] == (m + t)[0];
    DeltaTailRoundTrip(K, k, padding);
  }

  lemma DeltaTailRoundTrip(K: Keccak, k: SpacedKey, padding: Padding)
    requires WellFormed(k)
    ensures !k.key.Account? ==> DeltaKeyFromTail(AddressOf(k), DeltaTail(K, k.key, padding)) == Ok(k.key)
    ensures k.key.Account? <==> DeltaTail(K, k.key, padding) == []
    ensures DeltaTail(K, k.key, padding) != [] ==> DeltaTail(K, k.key, padding)[0] < 0x80
  {
    var t := DeltaTail(K, k.key, padding);
    match k.key
    case Storage(_, s) => assert t[..4] == STORAGE_PREFIX && t[0] == 100 && t[32..] == s;
    case Code(_, h) => assert t[1] == 111 && t[4..] == h;
    case CodeRoot(_) => assert t[1] == 111;
    case DepositList(_) => assert t[0] == 100 && t[1] == 101;
    case VoteList(_) => assert t[0] == 118;
    case _ =>
  }

  /** A key with a bad address is what every encoder rejects, and nothing else is. */
  lemma RejectedExactlyWhen(K: Keccak, k: SpacedKey, padding: Padding)
    ensures ToKeyBytes(k).Err? <==> HasBadAddress(k)
    ensures ToDeltaKeyBytes(K, k, padding).Err? <==> HasBadAddress(k)
  {
  }

  /**
   * Of the keys that encode, exactly the well-formed ones are recovered by both decoders: a short Account comes back
   * as something else, an empty suffix collides with the root key, and Empty and AddressPrefix lose their delta form.
   */
  lemma RecoveredExactlyWhen(K: Keccak, k: SpacedKey, padding: Padding)
    requires !HasBadAddress(k)
    ensures FromKeyBytes(ToKeyBytes(k).value) == Ok(k) && FromDeltaKey(ToDeltaKeyBytes(K, k, padding).value) == Ok(k)
      <==> WellFormed(k)
  {
    if WellFormed(k) {
      CanonicalRoundTrip(k);
      DeltaRoundTrip(K, k, padding);
    } else if k.key.Storage? {
      EmptySuffixCollides(k.key.address, STORAGE_PREFIX);
      CanonicalRoundTrip(SpacedKey(StorageRoot(k.key.address), k.space));
    } else if k.key.Code? {
      EmptySuffixCollides(k.key.address, CODE_HASH_PREFIX);
      CanonicalRoundTrip(SpacedKey(CodeRoot(k.key.address), k.space));
    }
  }

  lemma AliasEncodesAlike(K: Keccak, k: SpacedKey, padding: Padding)
    requires IsCodeAlias(k)
    ensures ToKeyBytes(k) == ToKeyBytes(Unaliased(k))
    ensures ToDeltaKeyBytes(K, k, padding) == ToDeltaKeyBytes(K, Unaliased(k), padding)
  {
    EmptySuffixCollides(k.key.address, CODE_HASH_PREFIX);
    assert CODE_HASH_PREFIX + [] == CODE_HASH_PREFIX;
  }

  /** A delta key that no well-formed key has: the decoder reads a key without a full address or suffix from it. */
  lemma UnwritableDecodes(K: Keccak, k: SpacedKey, padding: Padding)
    requires !Writable(k)
    ensures ToDeltaKeyBytes(K, k, padding).Ok?
    ensures var raw := ToDeltaKeyBytes(K, k, padding).value;
      FromDeltaKey(raw).Ok? && !WellFormed(FromDeltaKey(raw).value) && Rekey(raw).Ok?
  {
    var raw := ToDeltaKeyBytes(K, k, padding).value;
    if k.key.Storage? {
      var a, m, t := AccountKeyUncached(K, k.key.address, padding), Marker(k.space), DeltaTail(K, k.key, padding);
      SpaceIsSpliced(a, t, k.space);
      assert raw[ACCOUNT_PADDING_BYTES..ACCOUNT_KEYPART_BYTES] == k.key.address;
      assert raw[ACCOUNT_KEYPART_BYTES..] == m + t;
      assert raw[ACCOUNT_KEYPART_BYTES + |m|..] == t;
      assert raw[ACCOUNT_KEYPART_BYTES] == (m + t)[0];
      assert t[..4] == STORAGE_PREFIX && t[0] == 100 && t[32..] == [];
    }
  }

  lemma EmptySuffixCollides(address: Bytes, prefix: Bytes)
    ensures address + prefix + [] == address + prefix
  {
  }

  /** Re-keying a delta key, as the rotation does: the space marker moves, the paddings go. */
  function Rekey(raw: Bytes): Result<Bytes> {
    var k :- FromDeltaKey(raw);
    ToKeyBytes(k)
  }

  /** Whatever key a write is given, what it stores can be re-keyed. */
  lemma EncodedRekeys(K: Keccak, k: SpacedKey, padding: Padding)
    requires !HasBadAddress(k)
    ensures ToDeltaKeyBytes(K, k, padding).Ok? && Rekey(ToDeltaKeyBytes(K, k, padding).value).Ok?
  {
    if WellFormed(k) {
      RekeyIsCanonical(K, k, padding);
    } else if IsCodeAlias(k) {
      AliasEncodesAlike(K, k, padding);
      RekeyIsCanonical(K, Unaliased(k), padding);
    } else {
      UnwritableDecodes(K, k, padding);
    }
  }

  /** Whatever raw key is re-keyed, the result can be decoded. */
  lemma RekeyedDecodes(raw: Bytes)
    requires Rekey(raw).Ok?
    ensures FromKeyBytes(Rekey(raw).value).Ok?
  {
    var k := FromDeltaKey(raw).value;
    if WellFormed(k) {
      CanonicalRoundTrip(k);
    } else if k.key.Storage? {
      EmptySuffixCollides(k.key.address, STORAGE_PREFIX);
      CanonicalRoundTrip(SpacedKey(StorageRoot(k.key.address), k.space));
    }
  }

  /** A decoded key always encodes. */
  lemma DecodedEncodes(raw: Bytes)
    ensures FromKeyBytes(raw).Ok? ==> !HasBadAddress(FromKeyBytes(raw).value)
    ensures Rekey(raw).Ok? ==> !HasBadAddress(FromDeltaKey(raw).value)
  {
  }

  /** Re-keying maps the delta encoding of a key to its canonical one; distinct keys stay distinct in both. */
  lemma RekeyIsCanonical(K: Keccak, k: SpacedKey, padding: Padding)
    requires WellFormed(k)
    ensures Rekey(Delta(K, k, padding)) == Ok(Canonical(k))
  {
    DeltaRoundTrip(K, k, padding);
  }

  lemma EncodingsInjective(K: Keccak, k: SpacedKey, q: SpacedKey, padding: Padding)
    requires WellFormed(k) && WellFormed(q)
    requires Canonical(k) == Canonical(q) || Delta(K, k, padding) == Delta(K, q, padding)
    ensures k == q
  {
    CanonicalRoundTrip(k);
    CanonicalRoundTrip(q);
    DeltaRoundTrip(K, k, padding);
    DeltaRoundTrip(K, q, padding);
  }

  // ---------------------------------------------------------------------------------------------
  // Prefixes
  // ---------------------------------------------------------------------------------------------

  /** The prefixes for which the delta encoding selects the keys that the canonical one does, Storage aside. */
  predicate PlainPrefix(p: SpacedKey) {
    p.key.Empty? || (WellFormed(p) && !p.key.Storage?)
  }

  lemma PrefixByParts(a: Bytes, m: Bytes, t: Bytes, b: Bytes, n: Bytes, u: Bytes)
    requires |a| == |b|
    requires (m == [] || m == [EVM_SPACE_TYPE]) && (n == [] || n == [EVM_SPACE_TYPE])
    requires t != [] ==> t[0] < 0x80
    requires u != [] ==> u[0] < 0x80
    ensures a + (m + t) <= b + (n + u) <==> a == b && ((m == n && t <= u) || m + t == [])
  {
    var x, y := a + (m + t), b + (n + u);
    assert x[..|a|] == a && y[..|b|] == b;
    assert x[|a|..] == m + t && y[|b|..] == n + u;
    if x <= y {
      assert a == x[..|a|] == y[..|a|] == b;
      assert m + t <= n + u by {
        assert forall i :: 0 <= i < |m + t| ==> (m + t)[i] == x[|a| + i] == y[|a| + i];
      }
      MarkedPrefix(m, t, n, u);
    }
    if a == b && ((m == n && t <= u) || m + t == []) {
      MarkedPrefix(m, t, n, u);
      assert m + t <= n + u;
    }
  }

  lemma MarkedPrefix(m: Bytes, t: Bytes, n: Bytes, u: Bytes)
    requires (m == [] || m == [EVM_SPACE_TYPE]) && (n == [] || n == [EVM_SPACE_TYPE])
    requires t != [] ==> t[0] < 0x80
    requires u != [] ==> u[0] < 0x80
    ensures m + t <= n + u <==> (m == n && t <= u) || m + t == []
  {
    if m + t <= n + u && m + t != [] {
      assert (m + t)[0] == (n + u)[0];
      assert m == n;
      assert forall i :: 0 <= i < |t| ==> t[i] == (m + t)[|m| + i];
    }
  }

  lemma AccountPartInjective(K: Keccak, a: Bytes, b: Bytes, padding: Padding)
    requires |a| == ACCOUNT_BYTES && |b| == ACCOUNT_BYTES
    ensures AccountKeyUncached(K, a, padding) == AccountKeyUncached(K, b, padding) <==> a == b
  {
    assert AccountKeyUncached(K, a, padding)[ACCOUNT_PADDING_BYTES..] == a;
    assert AccountKeyUncached(K, b, padding)[ACCOUNT_PADDING_BYTES..] == b;
  }

  /** When one well-formed key's canonical form starts with another's. */
  lemma CanonicalPrefixByParts(p: SpacedKey, k: SpacedKey)
    requires WellFormed(p) && WellFormed(k)
    ensures Canonical(p) <= Canonical(k) <==>
      AddressOf(p) == AddressOf(k) &&
      ((p.space == k.space && CanonicalTail(p.key) <= CanonicalTail(k.key)) || (p.key.Account? && p.space == Native))
  {
    CanonicalShape(p);
    CanonicalShape(k);
    CanonicalTailRoundTrip(p);
    CanonicalTailRoundTrip(k);
    PrefixByParts(AddressOf(p), Marker(p.space), CanonicalTail(p.key),
                  AddressOf(k), Marker(k.space), CanonicalTail(k.key));
  }

  lemma DeltaPrefixByParts(K: Keccak, p: SpacedKey, k: SpacedKey, padding: Padding)
    requires WellFormed(p) && WellFormed(k)
    ensures Delta(K, p, padding) <= Delta(K, k, padding) <==>
      AddressOf(p) == AddressOf(k) &&
      ((p.space == k.space && DeltaTail(K, p.key, padding) <= DeltaTail(K, k.key, padding)) ||
       (p.key.Account? && p.space == Native))
  {
    DeltaShape(K, p, padding);
    DeltaShape(K, k, padding);
    DeltaTailRoundTrip(K, p, padding);
    DeltaTailRoundTrip(K, k, padding);
    AccountPartInjective(K, AddressOf(p), AddressOf(k), padding);
    PrefixByParts(AccountKeyUncached(K, AddressOf(p), padding), Marker(p.space), DeltaTail(K, p.key, padding),
                  AccountKeyUncached(K, AddressOf(k), padding), Marker(k.space), DeltaTail(K, k.key, padding));
  }

  /** Apart from Storage prefixes, the padded tail of a prefix selects what the canonical tail selects. */
  lemma TailsAgree(K: Keccak, p: SpacedKey, k: SpacedKey, padding: Padding)
    requires WellFormed(p) && WellFormed(k)
    ensures !p.key.Storage? ==>
      (DeltaTail(K, p.key, padding) <= DeltaTail(K, k.key, padding) <==> CanonicalTail(p.key) <= CanonicalTail(k.key))
    ensures p.key.Storage? && DeltaTail(K, p.key, padding) <= DeltaTail(K, k.key, padding) ==>
      CanonicalTail(p.key) <= CanonicalTail(k.key)
    ensures p.key.Storage? && CanonicalTail(p.key) <= CanonicalTail(k.key) ==>
      k.key.Storage? && p.key.storageKey <= k.key.storageKey
  {
    var dp, dk := DeltaTail(K, p.key, padding), DeltaTail(K, k.key, padding);
    var cp, ck := CanonicalTail(p.key), CanonicalTail(k.key);
    TailHead(K, p, padding);
    TailHead(K, k, padding);
    if p.key.Storage? && k.key.Storage? {
      StorageTailsCompare(K, p.key.storageKey, k.key.storageKey, padding);
    }
  }

  /** The two tails of a key differ only for Storage; only storage tails have 'a' as their second byte. */
  lemma TailHead(K: Keccak, k: SpacedKey, padding: Padding)
    requires WellFormed(k)
    ensures k.key.Storage? || DeltaTail(K, k.key, padding) == CanonicalTail(k.key)
    ensures k.key.Storage? ==>
      && |CanonicalTail(k.key)| > 4 && CanonicalTail(k.key)[1] == 97
      && |DeltaTail(K, k.key, padding)| > 32 && DeltaTail(K, k.key, padding)[1] == 97
      && CanonicalTail(k.key)[..4] == DeltaTail(K, k.key, padding)[..4] == STORAGE_PREFIX
    ensures k.key.StorageRoot? ==> CanonicalTail(k.key) == STORAGE_PREFIX
    ensures !k.key.Storage? && !k.key.StorageRoot? && !k.key.Account? ==>
      |CanonicalTail(k.key)| > 1 && CanonicalTail(k.key)[1] != 97
    ensures k.key.Account? ==> CanonicalTail(k.key) == []
  {
    if k.key.Code? {
      assert CanonicalTail(k.key)[1] == 111;
    }
  }

  lemma StorageTailsCompare(K: Keccak, s: Bytes, r: Bytes, padding: Padding)
    ensures STORAGE_PREFIX + s <= STORAGE_PREFIX + r ==> s <= r
    ensures (STORAGE_PREFIX + StorageKeyPadding(K, s, padding)[4..] + s
          <= STORAGE_PREFIX + StorageKeyPadding(K, r, padding)[4..] + r) ==> s <= r
  {
    if STORAGE_PREFIX + s <= STORAGE_PREFIX + r {
      PrefixAfterHead(STORAGE_PREFIX, s, STORAGE_PREFIX, r);
    }
    var h := STORAGE_PREFIX + StorageKeyPadding(K, s, padding)[4..];
    var g := STORAGE_PREFIX + StorageKeyPadding(K, r, padding)[4..];
    if h + s <= g + r {
      PrefixAfterHead(h, s, g, r);
    }
  }

  lemma PrefixAfterHead(h: Bytes, s: Bytes, g: Bytes, r: Bytes)
    requires |h| == |g| && h + s <= g + r
    ensures s <= r
  {
    assert forall i :: 0 <= i < |s| ==> s[i] == (h + s)[|h| + i] == (g + r)[|g| + i];
  }

  /** For every prefix but Storage ones, delta and canonical encodings select the same keys. */
  lemma PlainPrefixAgrees(K: Keccak, p: SpacedKey, k: SpacedKey, padding: Padding)
    requires PlainPrefix(p) && WellFormed(k)
    ensures ToKeyBytes(p).Ok? && ToDeltaKeyBytes(K, p, padding).Ok?
    ensures ToDeltaKeyBytes(K, p, padding).value <= Delta(K, k, padding) <==> ToKeyBytes(p).value <= Canonical(k)
  {
    if !p.key.Empty? {
      CanonicalPrefixByParts(p, k);
      DeltaPrefixByParts(K, p, k, padding);
      TailsAgree(K, p, k, padding);
    }
  }

  /**
   * A Storage prefix selects no more in delta form: of the keys under it, exactly those whose storage key hashes
   * to the same padding, which the key itself does.
   */
  lemma StoragePrefixAgrees(K: Keccak, p: SpacedKey, k: SpacedKey, padding: Padding)
    requires WellFormed(p) && p.key.Storage? && WellFormed(k)
    ensures Canonical(p) <= Canonical(k) <==>
      k.key.Storage? && k.space == p.space && AddressOf(k) == AddressOf(p) && p.key.storageKey <= k.key.storageKey
    ensures Delta(K, p, padding) <= Delta(K, k, padding) <==>
      && Canonical(p) <= Canonical(k)
      && StorageKeyPadding(K, p.key.storageKey, padding)[4..] == StorageKeyPadding(K, k.key.storageKey, padding)[4..]
  {
    hide ToKeyBytes, ToDeltaKeyBytes, AccountKeyUncached, StorageKeyPadding;
    CanonicalPrefixByParts(p, k);
    DeltaPrefixByParts(K, p, k, padding);
    TailsAgree(K, p, k, padding);
    if k.key.Storage? {
      StorageTailsExactly(K, p.key.storageKey, k.key.storageKey, padding);
    }
  }

  lemma StorageTailsExactly(K: Keccak, s: Bytes, r: Bytes, padding: Padding)
    ensures STORAGE_PREFIX + s <= STORAGE_PREFIX + r <==> s <= r
    ensures STORAGE_PREFIX + StorageKeyPadding(K, s, padding)[4..] + s
         <= STORAGE_PREFIX + StorageKeyPadding(K, r, padding)[4..] + r
      <==> s <= r && StorageKeyPadding(K, s, padding)[4..] == StorageKeyPadding(K, r, padding)[4..]
  {
    hide StorageKeyPadding;
    StorageTailsCompare(K, s, r, padding);
    var h, g := StorageKeyPadding(K, s, padding)[4..], StorageKeyPadding(K, r, padding)[4..];
    if STORAGE_PREFIX + h + s <= STORAGE_PREFIX + g + r {
      assert (STORAGE_PREFIX + h + s)[4..32] == h && (STORAGE_PREFIX + g + r)[4..32] == g;
      assert forall i :: 0 <= i < 28 ==> h[i] == (STORAGE_PREFIX + h + s)[4 + i] == (STORAGE_PREFIX + g + r)[4 + i];
    }
  }

  // ---------------------------------------------------------------------------------------------
  // The cache of account parts
  // ---------------------------------------------------------------------------------------------

  /** Account parts of one period, stamped with the padding they were built for. */
  class AccountKeyCache {
    const K: Keccak
    var builtFor: Padding
    var parts: map<Bytes, Bytes>

    ghost predicate Valid()
      reads this
    {
      forall a :: a in parts ==> |a| == ACCOUNT_BYTES && parts[a] == AccountKeyUncached(K, a, builtFor)
    }

    constructor (K: Keccak)
      ensures Valid() && this.K == K && parts == map[]
    {
      this.K := K;
      builtFor := GenesisPadding(K);
      parts := map[];
    }

    /** A cached part is always the uncached one under the requested padding: another padding empties the cache. */
    method NewAccountKey(address: Bytes, padding: Padding) returns (key: Bytes)
      requires Valid() && |address| == ACCOUNT_BYTES
      modifies this
      ensures Valid() && key == AccountKeyUncached(K, address, padding)
      ensures key == K(padding[..12] + address)[..12] + address
      ensures builtFor == padding
    {
      if builtFor != padding {
        parts := map[];
        builtFor := padding;
      }
      if address in parts {
        return parts[address];
      }
      key := AccountKeyUncached(K, address, padding);
      parts := parts[address := key];
    }

    /** The delta encoding through the cache: whatever it holds, the result is the uncached encoding. */
    method ToDeltaMptKeyBytes(k: SpacedKey, padding: Padding) returns (r: Result<Bytes>)
      requires Valid()
      modifies this
      ensures Valid() && r == ToDeltaKeyBytes(K, k, padding)
    {
      match k.key {
        case Empty => return Ok([]);
        case AddressPrefix(_) => return Ok([]);
        case Account(address) =>
          if |address| < ACCOUNT_BYTES {
            return Ok(address);
          }
        case _ =>
      }
      var address := k.key.address;
      if |address| != ACCOUNT_BYTES {
        return Err(InvalidKey);
      }
      var key := NewAccountKey(address, padding);
      key := key + DeltaTail(K, k.key, padding);
      r := Ok(AddSpace(key, k.space, ACCOUNT_KEYPART_BYTES));
    }
  }
}
