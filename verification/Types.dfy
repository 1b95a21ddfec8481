/** The wallet's value types: intents, signed bodies, approvals, routes, statuses and handles.

    Digests are modelled by the data they are taken of, so two digests are equal exactly when their
    preimages are. EIP-2718 encoding likewise keeps the body it encodes, so decoding is its inverse.
    Addresses, block hashes and signatures are opaque numbers.
*/
module Types {

  datatype Option<+T> = None | Some(value: T)

  /** The answer of a port that can fail. */
  datatype Answer<+T> = Ok(value: T) | Err

  type Address = nat
  type BlockHash = nat
  type Signature = nat
  type Bytes = seq<nat>

  const U64_MAX: nat := 0xffff_ffff_ffff_ffff
  const U128_MAX: nat := 0xffff_ffff_ffff_ffff_ffff_ffff_ffff_ffff

  type u128 = n: nat | n <= U128_MAX

  // ----- intents and signing payloads -----

  datatype TxKind = Call(to: Address) | Create

  datatype TxIntent = TxIntent(
    chainId: nat, account: Address, to: TxKind, value: nat, input: Bytes, purpose: Option<string>)
  {
    /** The account pays itself nothing, with no data: what a cancel sends. */
    predicate IsSelfSend() {
      to == Call(account) && value == 0 && input == []
    }
  }

  /** EIP-712 typed data, as far as policy and hashing look at it. */
  datatype TypedData = TypedData(chainId: Option<nat>, verifyingContract: Option<Address>, encodable: bool, content: Bytes)

  datatype SigningRequest =
    | Transaction(intent: TxIntent)
    | Message(message: Bytes)
    | Typed(data: TypedData)
    | Cancel(intent: TxIntent)

  /** A 32-byte hash, by its preimage. */
  datatype Digest = OfIntent(intent: TxIntent) | OfMessage(message: Bytes) | OfTyped(data: TypedData)

  // ----- fees, bodies and encodings -----

  datatype Fees = Fees(maxFee: u128, tip: u128)

  /** An EIP-1559 transaction body. */
  datatype TxBody = TxBody(chainId: nat, nonce: nat, gasLimit: nat, fees: Fees, to: TxKind, value: nat, input: Bytes)

  /** EIP-2718 bytes: nothing, a signed EIP-1559 body, or anything else. */
  datatype Encoded = Nothing | Signed1559(body: TxBody, sig: Signature) | Other(raw: Bytes)

  datatype TxHash = HashOf(body: TxBody, sig: Signature) | ForeignHash(tag: nat)

  // ----- policy -----

  /** The fee ceiling a policy approved. */
  datatype GasEnvelope = GasEnvelope(maxFeeCap: u128, maxTipCap: u128) {
    predicate Admits(fees: Fees) {
      fees.maxFee <= maxFeeCap && fees.tip <= maxTipCap
    }
  }

  const DEFAULT_ENVELOPE := GasEnvelope(1_000_000_000_000, 50_000_000_000)

  datatype PolicyApproval = PolicyApproval(payload: Digest, envelope: GasEnvelope, validUntil: nat)

  datatype Decision = Allow(approval: PolicyApproval) | Deny(rule: string)

  // ----- submission -----

  datatype Escalation = StayPrivate | PublicAfter(cycles: nat)

  datatype PrivateRoute =
    | Flashbots(escalation: Escalation, blockWindow: Option<nat>, fast: bool, hints: nat)
    | Protect(relay: string, escalation: Escalation)

  datatype Route = Public | Private(via: PrivateRoute)

  /** A failed broadcast, by what its classification looks at: the RPC's transient flag and whether
      its message names an accepted transaction or an underpriced replacement. */
  datatype SubmissionError =
    | RpcCall(transient: bool, saysAccepted: bool, saysUnderpriced: bool)
    | RelayAuth
    | RelayRejected
    | RouteUnavailable
  {
    predicate IsTransient() { RpcCall? && transient }
    predicate IsAlreadyAccepted() { RpcCall? && saysAccepted }
    predicate IsUnderpriced() { RpcCall? && saysUnderpriced }
  }

  datatype SubmitOutcome = Accepted | Rejected(error: SubmissionError) {
    /** The transaction may be in a mempool or mined. */
    predicate MayBeLive() {
      Accepted? || error.IsTransient() || error.IsAlreadyAccepted()
    }
    /** The pool has it: a success or a report that it was there before. */
    predicate Known() {
      Accepted? || error.IsAlreadyAccepted()
    }
  }

  // ----- gasless context -----

  datatype Log = ForwardExecuted(signer: Address, nonce: nat, success: bool) | OtherLog

  /** Which forwarder request a gasless transaction carries; `task` is set for a managed relay. */
  datatype MetaContext = MetaContext(forwarder: Address, signer: Address, nonce: nat, task: Option<string>)

  datatype Receipt = Receipt(block: Option<nat>, blockHash: Option<BlockHash>, success: bool, logs: seq<Log>)

  datatype RelayStatus = RelayPending | Included(hash: TxHash) | RelayFailed(reason: string)

  // ----- handles -----

  datatype TxStatus =
    | Pending
    | Sent
    | Mined(block: nat, blockHash: BlockHash)
    | Replacing(sinceBlock: nat)
    | Confirmed(block: nat)
    | Failed(reason: string)
    | Replaced
    | Dropped
  {
    predicate IsTerminal() {
      Confirmed? || Failed? || Replaced? || Dropped?
    }
  }

  /** Stable id of a tracked transaction: its intent and the nonce it occupies. */
  datatype HandleId = HandleId(intentHash: Digest, nonce: nat)

  datatype TxHandle = TxHandle(
    id: HandleId,
    account: Address,
    intent: TxIntent,
    intentHash: Digest,
    nonce: nat,
    status: TxStatus,
    envelope: GasEnvelope,
    signed: Encoded,
    broadcasts: seq<TxHash>,
    lastBroadcastAt: nat,
    cancelled: bool,
    route: Route,
    meta: Option<MetaContext>)
  {
    /** Submitted by a managed relay rather than signed here. */
    predicate IsTask() {
      meta.Some? && meta.value.task.Some?
    }
  }
}
