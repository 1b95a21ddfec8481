/** Transaction assembly and the signer's gate (src/core/wallet/signing.rs, src/adapters/signers.rs). */
module Signing {
  import opened Types

  /** The body of `intent` at a nonce, gas limit and price; the access list is always empty. */
  function BuildTx(intent: TxIntent, nonce: nat, gasLimit: nat, fees: Fees): TxBody {
    TxBody(intent.chainId, nonce, gasLimit, fees, intent.to, intent.value, intent.input)
  }

  datatype SignedTx = SignedTx(encoded: Encoded, hash: TxHash)

  datatype SignerError = ApprovalMismatch | ApprovalExpired | FeesExceedApproval | Backend

  datatype SignResult<+T> = Signed(value: T) | Refused(error: SignerError)

  /** Why an approval does not cover a payload at a time, if it does not. */
  function Gate(approval: PolicyApproval, payload: Digest, now: nat): Option<SignerError> {
    if approval.payload != payload then Some(ApprovalMismatch)
    else if now > approval.validUntil then Some(ApprovalExpired)
    else None
  }

  /** Sign `body`; `backend` is the key's answer once the gate is passed. */
  function SignTransaction(body: TxBody, intentHash: Digest, approval: PolicyApproval, now: nat, backend: Answer<Signature>)
    : SignResult<Signature>
  {
    match Gate(approval, intentHash, now)
    case Some(error) => Refused(error)
    case None =>
      if !approval.envelope.Admits(body.fees) then Refused(FeesExceedApproval)
      else match backend
        case Err => Refused(Backend)
        case Ok(sig) => Signed(sig)
  }

  function SignEncode(body: TxBody, intentHash: Digest, approval: PolicyApproval, now: nat, backend: Answer<Signature>)
    : SignResult<SignedTx>
  {
    match SignTransaction(body, intentHash, approval, now, backend)
    case Refused(error) => Refused(error)
    case Signed(sig) => Signed(SignedTx(Signed1559(body, sig), HashOf(body, sig)))
  }

  datatype SignedFees = SignedFees(fees: Fees, gasLimit: nat)

  function DecodeFees(bytes: Encoded): Option<SignedFees> {
    match bytes
    case Signed1559(body, _) => Some(SignedFees(body.fees, body.gasLimit))
    case _ => None
  }

  /** What a signature covers was approved: the approval binds the intent's hash, has not expired, and
      its envelope admits the body's fees. */
  predicate Authorized(body: TxBody, intentHash: Digest, approval: PolicyApproval, now: nat) {
    approval.payload == intentHash && now <= approval.validUntil && approval.envelope.Admits(body.fees)
  }

  /** The signer signs exactly what is authorised, as far as its key answers; the encoding keeps the
      body and its hash. */
  lemma SignsExactlyTheAuthorized(body: TxBody, intentHash: Digest, approval: PolicyApproval, now: nat, backend: Answer<Signature>)
    ensures var r := SignEncode(body, intentHash, approval, now, backend);
            && (r.Signed? <==> Authorized(body, intentHash, approval, now) && backend.Ok?)
            && (r.Signed? ==> r.value == SignedTx(Signed1559(body, backend.value), HashOf(body, backend.value)))
  {
  }
}
