/** The packet as the program holds it: header fields, interned tables, blocks and their transactions. */
module PacketModel {
  import opened Basics
  import opened Codec

  const PACKET_EPOCHS: nat := 2000
  const HEADER_FIXED_LEN: nat := 93
  const HEADER_OFFSET_COUNT: nat := 8
  const HEADER_LEN: nat := 125
  const U32: nat := 0x1_0000_0000

  /** Bit positions in a block's flags. */
  const PIVOT: nat := 1
  const HAS_TRANSACTIONS: nat := 3
  const TX_COMPRESSED: nat := 4
  const ZERO_TOTAL_REWARD: nat := 6
  const RESERVED: nat := 7

  type Address = a: Bytes | |a| == 20 witness seq(20, i => 0)

  datatype Space = Native | Ethereum

  datatype Action = Create | Call(to: Address)

  /** A signed transaction, with what its accessors return; `kind` is the type id. */
  datatype Tx = Tx(
    space: Space,
    kind: nat,
    sender: Address,
    nonce: nat,
    gasPrice: nat,
    priorityPrice: nat,
    gas: nat,
    action: Action,
    value: nat,
    storageLimit: nat,
    epochHeight: nat,
    data: Bytes,
    accessList: seq<Bytes>,
    authorizations: seq<Bytes>,
    chainId: nat,
    signature: Bytes)

  datatype AccountReward = AccountReward(address: Address, posIdentifier: H256, reward: nat)

  datatype PosReward = PosReward(accountRewards: seq<AccountReward>, executionEpochHash: H256)

  datatype Unlock = Unlock(identifier: H256, unlocked: nat)

  /** A transaction's first place: block index and index in the block. */
  type Place = (nat, nat)

  datatype Block = Block(
    epoch: nat,
    index: nat,
    hash: H256,
    deferredStateRoot: H256,
    deferredReceiptsRoot: H256,
    deferredLogsBloomHash: H256,
    flags: Byte,
    author: Address,
    timestamp: nat,
    difficulty: nat,
    gasLimit: nat,
    basePriceCore: nat,
    basePriceEspace: nat,
    height: nat,
    blame: nat,
    finalizedEpoch: nat,
    baseReward: nat,
    transactions: seq<Tx>,
    transactionRefs: seq<Option<Place>>,
    posRewards: seq<PosReward>,
    unlockEvents: seq<Unlock>,
    posView: Option<nat>)

  datatype PosEntry = PosEntry(hash: H256, heightOffset: nat)

  datatype SenderBaseNonce = SenderBaseNonce(senderIndex: nat, baseNonce: nat)

  datatype Header = Header(
    prevLastHash: H256,
    prevLastDeferredStateRoot: H256,
    firstBlockNumber: nat,
    minTimestamp: nat,
    minHeight: nat,
    minPosHeight: nat)

  datatype Tables = Tables(
    addresses: seq<Address>,
    posEntries: seq<PosEntry>,
    difficulties: seq<nat>,
    senderBaseNonces: seq<SenderBaseNonce>,
    gasPrices: seq<nat>)

  datatype Packet = Packet(header: Header, tables: Tables, blocks: seq<Block>)

  // ---------------------------------------------------------------------------------------------
  // The machine widths of the fields
  // ---------------------------------------------------------------------------------------------

  predicate IsU64(v: nat) {
    v < U64
  }

  predicate IsU256(v: nat) {
    v < Pow256(32)
  }

  predicate HeaderFits(h: Header) {
    IsU64(h.firstBlockNumber) && IsU64(h.minTimestamp) && IsU64(h.minHeight) && IsU64(h.minPosHeight)
  }

  predicate TablesFit(t: Tables) {
    && IsU64(|t.addresses|) && IsU64(|t.difficulties|) && IsU64(|t.gasPrices|)
    && (forall e :: e in t.posEntries ==> e.heightOffset < 0x1_0000)
    && (forall d :: d in t.difficulties ==> IsU256(d))
    && (forall g :: g in t.gasPrices ==> IsU256(g))
    && (forall s :: s in t.senderBaseNonces ==> IsU64(s.senderIndex) && IsU64(s.baseNonce))
  }

  predicate BlockFits(b: Block) {
    && IsU64(b.epoch) && IsU64(b.timestamp) && IsU64(b.height) && IsU64(b.blame) && IsU64(b.finalizedEpoch)
    && IsU256(b.gasLimit) && IsU256(b.basePriceCore) && IsU256(b.basePriceEspace) && IsU256(b.baseReward)
    && (b.posView.Some? ==> IsU64(b.posView.value))
  }

  // ---------------------------------------------------------------------------------------------
  // Tables looked up by value and by index
  // ---------------------------------------------------------------------------------------------

  /** The index a map collected from `(value, index)` pairs holds: the last one. */
  function IndexOf<T(==)>(table: seq<T>, v: T): (r: Option<nat>)
    ensures r.Some? ==> r.value < |table| && table[r.value] == v
    ensures r.None? ==> v !in table
  {
    if table == [] then
      None
    else if table[|table| - 1] == v then
      Some(|table| - 1)
    else
      IndexOf(table[..|table| - 1], v)
  }

  function TableGet<T>(table: seq<T>, index: nat): Result<T> {
    if index < |table| then Ok(table[index]) else Err(OutOfBounds)
  }

  function Required<T>(o: Option<T>): Result<T> {
    match o
    case Some(v) => Ok(v)
    case None => Err(Malformed)
  }

  function CheckedSub(a: nat, b: nat): Result<nat> {
    if a >= b then Ok(a - b) else Err(Malformed)
  }

  function SaturatingSub(a: nat, b: nat): nat {
    if a >= b then a - b else 0
  }
}
