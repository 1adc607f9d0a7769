/** One transaction as a payload item: table indices, nonce and epoch offsets in place of the values. */
module TxItems {
  import opened Basics
  import opened Codec
  import opened PacketModel

  datatype Price = Interned(index: nat) | Inline(value: nat)

  datatype ItemAction = CreateItem | CallItem(index: nat)

  /** An item of the payload list, with its leading marker as the constructor. */
  datatype Item =
    | RefItem(block: nat, tx: nat)
    | TxItem(body: TxBody)
    | RewardItem(reward: PosReward)
    | UnlockItem(unlock: Unlock)

  datatype TxBody = TxBody(
    space: Space,
    kind: nat,
    sender: nat,
    nonce: nat,
    gasPrice: Price,
    priorityPrice: Price,
    gas: nat,
    action: ItemAction,
    value: nat,
    storageLimit: nat,
    epochOffset: nat,
    data: Bytes,
    accessList: Option<seq<Bytes>>,
    authorizations: Option<seq<Bytes>>)

  predicate PriceFits(p: Price) {
    match p
    case Interned(i) => IsU64(i)
    case Inline(v) => IsU256(v)
  }

  /** The numbers fit their words, and only fields that the kind has a slot for are set. */
  predicate BodyFits(b: TxBody) {
    && HasShape(b)
    && IsU64(b.kind) && IsU64(b.sender) && IsU64(b.nonce) && IsU64(b.gas) && IsU64(b.storageLimit)
    && IsU64(b.epochOffset) && IsU256(b.value) && PriceFits(b.gasPrice) && PriceFits(b.priorityPrice)
    && (b.action.CallItem? ==> IsU64(b.action.index))
  }

  /** A known kind with exactly the fields that are written for it. */
  predicate HasShape(b: TxBody) {
    && IsKnownKind(b.space, b.kind)
    && (b.space == Ethereum ==> b.storageLimit == 0 && b.epochOffset == 0)
    && (b.accessList.Some? <==> HasAccessList(b.space, b.kind))
    && (b.authorizations.Some? <==> HasAuthorizations(b.space, b.kind))
  }

  predicate RewardFits(r: PosReward) {
    forall i :: 0 <= i < |r.accountRewards| ==> IsU256(r.accountRewards[i].reward)
  }

  /** An item whose numbers fit the machine words they are written as. */
  predicate ItemFits(item: Item) {
    match item
    case RefItem(block, tx) => IsU64(block) && IsU64(tx)
    case TxItem(body) => BodyFits(body)
    case RewardItem(reward) => RewardFits(reward)
    case UnlockItem(unlock) => IsU64(unlock.unlocked)
  }

  predicate AllFit(items: seq<Item>) {
    forall i :: 0 <= i < |items| ==> ItemFits(items[i])
  }

  /** The transaction fields that are written as they are fit their machine words. */
  predicate TxFits(tx: Tx) {
    IsU256(tx.gasPrice) && IsU256(tx.priorityPrice) && IsU256(tx.value) && IsU64(tx.storageLimit)
  }

  /** The zero address, which stands for the destination an EIP-7702 item without a call would have. */
  const ZERO_ADDRESS: Address := [0, 0, 0, 0, 0, 0, 0, 0, 0, 0, 0, 0, 0, 0, 0, 0, 0, 0, 0, 0]

  /** The placeholder every decoded transaction is signed with. */
  const FAKE_SIGNATURE: Bytes := []

  // ---------------------------------------------------------------------------------------------
  // Encoding
  // ---------------------------------------------------------------------------------------------

  function AppendPrice(value: nat, t: Tables): Price {
    match IndexOf(t.gasPrices, value)
    case Some(i) => Interned(i)
    case None => Inline(value)
  }

  function AppendAction(action: Action, t: Tables): Result<ItemAction> {
    match action
    case Create => Ok(CreateItem)
    case Call(to) =>
      var index :- Required(IndexOf(t.addresses, to));
      Ok(CallItem(index))
  }

  /** The base nonce in the map collected from the table: the last entry of a sender. */
  function LastBase(nonces: seq<SenderBaseNonce>, sender: nat): Option<nat> {
    if nonces == [] then
      None
    else
      var n := nonces[|nonces| - 1];
      if n.senderIndex == sender then Some(n.baseNonce) else LastBase(nonces[..|nonces| - 1], sender)
  }

  /** The base nonce the decoder finds: the first entry of a sender. */
  function FirstBase(nonces: seq<SenderBaseNonce>, sender: nat): Option<nat> {
    if nonces == [] then
      None
    else if nonces[0].senderIndex == sender then
      Some(nonces[0].baseNonce)
    else
      FirstBase(nonces[1..], sender)
  }

  function OrZero(o: Option<nat>): nat {
    match o
    case Some(v) => v
    case None => 0
  }

  predicate HasAccessList(space: Space, kind: nat) {
    kind != 0
  }

  predicate HasAuthorizations(space: Space, kind: nat) {
    space == Ethereum && kind == 4
  }

  function AppendTx(blockEpoch: nat, tx: Tx, t: Tables): Result<TxBody> {
    var sender :- Required(IndexOf(t.addresses, tx.sender));
    var nonce := tx.nonce % U64;
    var encodedNonce :=
      match LastBase(t.senderBaseNonces, sender) case Some(base) => SaturatingSub(nonce, base) case None => nonce;
    var action :- AppendAction(tx.action, t);
    Ok(TxBody(
      tx.space, tx.kind, sender, encodedNonce, AppendPrice(tx.gasPrice, t), AppendPrice(tx.priorityPrice, t),
      tx.gas % U64, action, tx.value,
      if tx.space == Native then tx.storageLimit else 0,
      if tx.space == Native then EncodeEpochOffset(tx.epochHeight % U64, blockEpoch % U64) else 0,
      tx.data,
      if HasAccessList(tx.space, tx.kind) then Some(tx.accessList) else None,
      if HasAuthorizations(tx.space, tx.kind) then Some(tx.authorizations) else None))
  }

  // ---------------------------------------------------------------------------------------------
  // Decoding
  // ---------------------------------------------------------------------------------------------

  function DecodePrice(p: Price, t: Tables): Result<nat> {
    match p
    case Interned(i) => TableGet(t.gasPrices, i)
    case Inline(v) => Ok(v)
  }

  function DecodeAction(a: ItemAction, t: Tables): Result<Action> {
    match a
    case CreateItem => Ok(Create)
    case CallItem(i) =>
      var to :- TableGet(t.addresses, i);
      Ok(Call(to))
  }

  function OptionalList(o: Option<seq<Bytes>>): seq<Bytes> {
    match o
    case Some(l) => l
    case None => []
  }

  /** The type ids each space knows. */
  predicate IsKnownKind(space: Space, kind: nat) {
    kind <= 2 || (space == Ethereum && kind == 4)
  }

  /** A price apart from the gas price is kept by the fee-market kinds only. */
  predicate HasPriorityPrice(space: Space, kind: nat) {
    kind == 2 || (space == Ethereum && kind == 4)
  }

  function DecodeTx(b: TxBody, blockEpoch: nat, t: Tables): Result<Tx> {
    var sender :- TableGet(t.addresses, b.sender);
    var nonce := (OrZero(FirstBase(t.senderBaseNonces, b.sender)) + b.nonce) % U64;
    var gasPrice :- DecodePrice(b.gasPrice, t);
    var priorityPrice :- DecodePrice(b.priorityPrice, t);
    var action :- DecodeAction(b.action, t);
    if !IsKnownKind(b.space, b.kind) then
      Err(Malformed)
    else
      Ok(Tx(
        b.space, b.kind, sender, nonce, gasPrice,
        if HasPriorityPrice(b.space, b.kind) then priorityPrice else gasPrice,
        b.gas,
        if b.space == Ethereum && b.kind == 4 && action == Create then Call(ZERO_ADDRESS) else action,
        b.value,
        if b.space == Native then b.storageLimit else 0,
        if b.space == Native then DecodeEpochOffset(b.epochOffset % U64, blockEpoch % U64) else 0,
        b.data,
        if HasAccessList(b.space, b.kind) then OptionalList(b.accessList) else [],
        if HasAuthorizations(b.space, b.kind) then OptionalList(b.authorizations) else [],
        0, FAKE_SIGNATURE))
  }

  // ---------------------------------------------------------------------------------------------
  // Round trip
  // ---------------------------------------------------------------------------------------------

  /** What a decoded transaction keeps: everything but the chain id and the signature. */
  function Stripped(tx: Tx): Tx {
    tx.(chainId := 0, signature := FAKE_SIGNATURE)
  }

  /** The fields a transaction of its space and kind has; the others are at their defaults. */
  predicate IsTyped(tx: Tx) {
    && IsKnownKind(tx.space, tx.kind)
    && tx.epochHeight < U64
    && (tx.space == Ethereum ==> tx.storageLimit == 0 && tx.epochHeight == 0)
    && (!HasPriorityPrice(tx.space, tx.kind) ==> tx.priorityPrice == tx.gasPrice)
    && (!HasAccessList(tx.space, tx.kind) ==> tx.accessList == [])
    && (!HasAuthorizations(tx.space, tx.kind) ==> tx.authorizations == [])
    && (HasAuthorizations(tx.space, tx.kind) ==> tx.action.Call?)
  }

  /** Encoder and decoder look a sender's base nonce up from opposite ends of the table. */
  ghost predicate OneBaseEach(t: Tables) {
    forall sender: nat :: FirstBase(t.senderBaseNonces, sender) == LastBase(t.senderBaseNonces, sender)
  }

  /** The nonce and the gas fit 64 bits, and the nonce is not below its sender's base. */
  predicate Survives(tx: Tx, t: Tables) {
    && tx.nonce < U64
    && tx.gas < U64
    && (IndexOf(t.addresses, tx.sender).Some? ==>
          tx.nonce >= OrZero(LastBase(t.senderBaseNonces, IndexOf(t.addresses, tx.sender).value)))
  }

  lemma {:induction false} BasesAreWords(nonces: seq<SenderBaseNonce>, sender: nat)
    requires forall n :: n in nonces ==> IsU64(n.baseNonce)
    ensures OrZero(LastBase(nonces, sender)) < U64
  {
    if nonces != [] {
      BasesAreWords(nonces[..|nonces| - 1], sender);
    }
  }

  lemma PriceRoundTrip(value: nat, t: Tables)
    ensures DecodePrice(AppendPrice(value, t), t) == Ok(value)
  {
  }

  lemma ActionRoundTrip(action: Action, t: Tables)
    requires AppendAction(action, t).Ok?
    ensures DecodeAction(AppendAction(action, t).value, t) == Ok(action)
  {
  }

  /** A base and the saturated distance from it give the nonce back exactly when it is a word not below the base. */
  lemma NonceRoundTrip(nonce: nat, base: nat)
    requires base < U64
    ensures (base + SaturatingSub(nonce % U64, base)) % U64 == nonce <==> nonce < U64 && nonce >= base
  {
  }

  /** A transaction comes back, up to chain id and signature, exactly when nonce and gas survive. */
  lemma TxRoundTrip(blockEpoch: nat, tx: Tx, t: Tables)
    requires IsTyped(tx) && IsU64(blockEpoch) && TablesFit(t) && OneBaseEach(t)
    requires AppendTx(blockEpoch, tx, t).Ok?
    ensures DecodeTx(AppendTx(blockEpoch, tx, t).value, blockEpoch, t) == Ok(Stripped(tx)) <==> Survives(tx, t)
  {
    hide AppendPrice, DecodePrice, AppendAction, DecodeAction, LastBase, FirstBase, IndexOf, EncodeEpochOffset,
      DecodeEpochOffset, TablesFit;
    var sender := IndexOf(t.addresses, tx.sender).value;
    BasesFit(t, sender);
    assert FirstBase(t.senderBaseNonces, sender) == LastBase(t.senderBaseNonces, sender);
    NonceRoundTrip(tx.nonce, OrZero(LastBase(t.senderBaseNonces, sender)));
    PriceRoundTrip(tx.gasPrice, t);
    PriceRoundTrip(tx.priorityPrice, t);
    ActionRoundTrip(tx.action, t);
    EpochOffsetRoundTrip(tx.epochHeight, blockEpoch);
  }

  lemma BasesFit(t: Tables, sender: nat)
    requires TablesFit(t)
    ensures OrZero(LastBase(t.senderBaseNonces, sender)) < U64
  {
    BasesAreWords(t.senderBaseNonces, sender);
  }

  /** Neither the chain id nor the signature is encoded. */
  lemma StrippedEncodesAlike(blockEpoch: nat, tx: Tx, t: Tables)
    ensures AppendTx(blockEpoch, Stripped(tx), t) == AppendTx(blockEpoch, tx, t)
  {
  }

  /** What a transaction is written as fits its machine words. */
  lemma BodyOfTxFits(blockEpoch: nat, tx: Tx, t: Tables)
    requires IsTyped(tx) && TxFits(tx) && IsU64(blockEpoch) && TablesFit(t) && AppendTx(blockEpoch, tx, t).Ok?
    ensures BodyFits(AppendTx(blockEpoch, tx, t).value)
  {
    hide EncodeEpochOffset, LastBase, Pow256, IndexOf, AppendPrice, AppendAction, PriceFits, TablesFit, HasShape,
      IsU256, IsTyped, SaturatingSub;
    TypedKind(tx);
    OffsetFits(tx.epochHeight, blockEpoch);
    NonceFits(tx.nonce, LastBase(t.senderBaseNonces, IndexOf(t.addresses, tx.sender).value));
    WordFits(tx.gas);
    PriceOfFits(tx.gasPrice, t);
    PriceOfFits(tx.priorityPrice, t);
    ActionOfFits(tx.action, t);
    IndexFits(tx.sender, t);
    BodyHasShape(blockEpoch, tx, t);
  }

  lemma TypedKind(tx: Tx)
    requires IsTyped(tx)
    ensures IsU64(tx.kind)
  {
  }

  lemma WordFits(n: nat)
    ensures IsU64(n % U64)
  {
  }

  lemma NonceFits(nonce: nat, base: Option<nat>)
    ensures IsU64(nonce % U64) && (base.Some? ==> IsU64(SaturatingSub(nonce % U64, base.value)))
  {
  }

  lemma OffsetFits(epochHeight: nat, blockEpoch: nat)
    ensures IsU64(EncodeEpochOffset(epochHeight % U64, blockEpoch % U64))
  {
    hide EncodeEpochOffset;
    EpochOffsetRoundTrip(epochHeight % U64, blockEpoch % U64);
  }

  /** Only fields that the kind has a slot for are written. */
  lemma BodyHasShape(blockEpoch: nat, tx: Tx, t: Tables)
    requires IsTyped(tx) && AppendTx(blockEpoch, tx, t).Ok?
    ensures HasShape(AppendTx(blockEpoch, tx, t).value)
  {
    hide EncodeEpochOffset, LastBase, IndexOf, AppendPrice, AppendAction;
  }

  lemma PriceOfFits(value: nat, t: Tables)
    requires IsU256(value) && TablesFit(t)
    ensures PriceFits(AppendPrice(value, t))
  {
    hide Pow256;
  }

  lemma ActionOfFits(action: Action, t: Tables)
    requires TablesFit(t) && AppendAction(action, t).Ok?
    ensures AppendAction(action, t).value.CallItem? ==> IsU64(AppendAction(action, t).value.index)
  {
    hide Pow256;
  }

  lemma IndexFits(a: Address, t: Tables)
    requires TablesFit(t)
    ensures IndexOf(t.addresses, a).Some? ==> IsU64(IndexOf(t.addresses, a).value)
  {
    hide Pow256;
  }
}
