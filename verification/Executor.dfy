/** How the executor reads the chain (src/core/wallet/executor/mod.rs): one snapshot per cycle, and one
    trustworthy event per handle distilled from reads that may be missing, stale or wrong. Every RPC
    answer is an arbitrary value here.
*/
module Executor {
  import opened Types
  import opened Lifecycle

  // ----- the cycle's snapshot -----

  datatype Cycle = Cycle(view: ChainView, finality: FinalityConfig, minedNonce: nat)

  datatype CycleRead = ReadFailed | Skip | Fresh(cycle: Cycle)

  /** Skip a head that moved back since the last accepted cycle, or a finalized block above the head. */
  function ReadCycle(lastLatest: nat, required: nat, block: Answer<nat>, count: Answer<nat>, finalized: Answer<Option<nat>>)
    : CycleRead
  {
    if block.Err? || count.Err? then ReadFailed
    else if block.value < lastLatest then Skip
    else if finalized.Err? then ReadFailed
    else
      var (mode, height) := if finalized.value.Some? then (Finalized, finalized.value.value) else (Depth, 0);
      if height > block.value then Skip
      else Fresh(Cycle(ChainView(block.value, height), FinalityConfig(mode, required), count.value))
  }

  /** The snapshot from its reads: accepted exactly when all three answer, the head has not moved back and
      no finalized tag lies above it; with a tag finality goes by the tag, without one by depth. */
  lemma CycleMeaning(lastLatest: nat, required: nat, block: Answer<nat>, count: Answer<nat>, finalized: Answer<Option<nat>>)
    ensures var r := ReadCycle(lastLatest, required, block, count, finalized);
            && (r.Fresh? <==> Consistent(lastLatest, block, count, finalized))
            && (r.ReadFailed? <==> block.Err? || count.Err? || (block.value >= lastLatest && finalized.Err?))
            && (r.Fresh? ==> TakenFrom(r.cycle, required, block.value, count.value, finalized.value))
  {
  }

  predicate Consistent(lastLatest: nat, block: Answer<nat>, count: Answer<nat>, finalized: Answer<Option<nat>>) {
    && block.Ok? && count.Ok? && finalized.Ok? && block.value >= lastLatest
    && (finalized.value.Some? ==> finalized.value.value <= block.value)
  }

  predicate TakenFrom(c: Cycle, required: nat, block: nat, count: nat, tag: Option<nat>) {
    && c.view.latest == block && c.minedNonce == count && c.finality.required == required
    && (tag.Some? ==> c.finality.mode.Finalized? && c.view.finalized == tag.value)
    && (tag.None? ==> c.finality.mode.Depth? && c.view.finalized == 0)
  }

  // ----- the outcome of a receipt -----

  predicate MatchesRequest(meta: MetaContext, log: Log) {
    log.ForwardExecuted? && log.signer == meta.signer && log.nonce == meta.nonce
  }

  /** The verdict of the first forwarder event of this request; no event is a failure. */
  function InnerSucceeded(meta: MetaContext, logs: seq<Log>): bool {
    if logs == [] then false
    else if MatchesRequest(meta, logs[0]) then logs[0].success
    else InnerSucceeded(meta, logs[1..])
  }

  /** Some log reports the request's own call as successful, and none before it reports that call. */
  ghost predicate FirstMatchSucceeds(meta: MetaContext, logs: seq<Log>) {
    exists i :: 0 <= i < |logs| && logs[i] == ForwardExecuted(meta.signer, meta.nonce, true) && NoneBefore(meta, logs, i)
  }

  ghost predicate NoneBefore(meta: MetaContext, logs: seq<Log>, i: nat)
    requires i <= |logs|
  {
    forall j, success | 0 <= j < i :: logs[j] != ForwardExecuted(meta.signer, meta.nonce, success)
  }

  lemma {:induction false} InnerIsFirstMatch(meta: MetaContext, logs: seq<Log>)
    ensures InnerSucceeded(meta, logs) <==> FirstMatchSucceeds(meta, logs)
  {
    if logs != [] {
      InnerIsFirstMatch(meta, logs[1..]);
      if MatchesRequest(meta, logs[0]) {
        assert logs[0] == ForwardExecuted(meta.signer, meta.nonce, logs[0].success);
        if FirstMatchSucceeds(meta, logs) {
          var i :| 0 <= i < |logs| && logs[i] == ForwardExecuted(meta.signer, meta.nonce, true) && NoneBefore(meta, logs, i);
          assert i == 0;
        }
        if logs[0].success {
          assert NoneBefore(meta, logs, 0);
        }
      } else {
        if FirstMatchSucceeds(meta, logs) {
          var i :| 0 <= i < |logs| && logs[i] == ForwardExecuted(meta.signer, meta.nonce, true) && NoneBefore(meta, logs, i);
          assert logs[1..][i - 1] == logs[i];
          assert NoneBefore(meta, logs[1..], i - 1);
        }
        if FirstMatchSucceeds(meta, logs[1..]) {
          var i :| 0 <= i < |logs[1..]| && logs[1..][i] == ForwardExecuted(meta.signer, meta.nonce, true) && NoneBefore(meta, logs[1..], i);
          assert logs[i + 1] == logs[1..][i];
          forall j, success | 0 <= j < i + 1 ensures logs[j] != ForwardExecuted(meta.signer, meta.nonce, success) {
            assert j > 0 ==> logs[j] == logs[1..][j - 1];
          }
          assert NoneBefore(meta, logs, i + 1);
        }
      }
    }
  }

  /** A self-relayed request needs its inner call to have run; a plain or managed one has no inner call. */
  function OutcomeOf(r: Receipt, h: TxHandle): Outcome {
    var innerOk := h.meta.Some? && h.meta.value.task.None? ==> InnerSucceeded(h.meta.value, r.logs);
    if r.success && innerOk then Executed else Reverted
  }

  // ----- the event of a handle -----

  /** One cycle's answers for one handle: the receipt of each recorded broadcast, by position, and the
      canonical hash of each block. */
  datatype ChainReads = ChainReads(receipt: nat -> Answer<Option<Receipt>>, blockHash: nat -> Answer<Option<BlockHash>>)

  /** A receipt counts when the chain names its block at its height; otherwise nothing is known. */
  function Anchor(r: Receipt, h: TxHandle, chain: ChainReads): ChainEvent {
    if r.block.None? || r.blockHash.None? then Unknown
    else if chain.blockHash(r.block.value) == Ok(Some(r.blockHash.value))
    then OwnMined(r.block.value, r.blockHash.value, OutcomeOf(r, h))
    else Unknown
  }

  /** Look at the oldest `k` broadcasts, newest first; with no receipt the nonce decides. */
  function EventFrom(h: TxHandle, k: nat, minedNonce: nat, chain: ChainReads): ChainEvent
    requires k <= |h.broadcasts|
  {
    if k == 0 then (if h.nonce < minedNonce then ForeignMined else NonceOpen)
    else match chain.receipt(k - 1)
      case Err => Unknown
      case Ok(None) => EventFrom(h, k - 1, minedNonce, chain)
      case Ok(Some(r)) => Anchor(r, h, chain)
  }

  function EventFor(h: TxHandle, minedNonce: nat, chain: ChainReads): ChainEvent {
    EventFrom(h, |h.broadcasts|, minedNonce, chain)
  }

  /** Broadcast `i` has receipt `r`, and no newer broadcast has one. */
  ghost predicate NewestReceipt(h: TxHandle, chain: ChainReads, i: nat, r: Receipt) {
    && i < |h.broadcasts|
    && chain.receipt(i) == Ok(Some(r))
    && forall j | i < j < |h.broadcasts| :: chain.receipt(j) == Ok(None)
  }

  /** The proof that our own transaction is canonically in block `b`. */
  ghost predicate Anchored(h: TxHandle, chain: ChainReads, i: nat, r: Receipt, b: nat, hash: BlockHash) {
    && NewestReceipt(h, chain, i, r)
    && r.block == Some(b) && r.blockHash == Some(hash)
    && chain.blockHash(b) == Ok(Some(hash))
  }

  ghost predicate NoReceipt(h: TxHandle, chain: ChainReads) {
    forall j | 0 <= j < |h.broadcasts| :: chain.receipt(j) == Ok(None)
  }

  /** Our own transaction is canonically in block `b` with this outcome. */
  ghost predicate OwnEvidence(h: TxHandle, chain: ChainReads, b: nat, hash: BlockHash, outcome: Outcome) {
    exists i: nat, r :: Anchored(h, chain, i, r, b, hash) && outcome == OutcomeOf(r, h)
  }

  lemma {:induction false} EventFromMeaning(h: TxHandle, k: nat, minedNonce: nat, chain: ChainReads)
    requires k <= |h.broadcasts|
    requires forall j | k <= j < |h.broadcasts| :: chain.receipt(j) == Ok(None)
    ensures match EventFrom(h, k, minedNonce, chain)
            case NonceOpen => NoReceipt(h, chain) && h.nonce >= minedNonce
            case ForeignMined => NoReceipt(h, chain) && h.nonce < minedNonce
            case OwnMined(b, hash, outcome) => OwnEvidence(h, chain, b, hash, outcome)
            case Unknown => !NoReceipt(h, chain)
  {
    if k > 0 {
      match chain.receipt(k - 1)
      case Err =>
      case Ok(None) => EventFromMeaning(h, k - 1, minedNonce, chain);
      case Ok(Some(r)) =>
        assert NewestReceipt(h, chain, k - 1, r);
        if EventFrom(h, k, minedNonce, chain).OwnMined? {
          assert Anchored(h, chain, k - 1, r, r.block.value, r.blockHash.value);
        }
    }
  }

  /** An anchored newest receipt is reported whatever the nonce count says. */
  lemma {:induction false} AnchoredIsReported(
    h: TxHandle, k: nat, minedNonce: nat, chain: ChainReads, i: nat, r: Receipt, b: nat, hash: BlockHash)
    requires i < k <= |h.broadcasts| && Anchored(h, chain, i, r, b, hash)
    ensures EventFrom(h, k, minedNonce, chain) == OwnMined(b, hash, OutcomeOf(r, h))
    decreases k
  {
    if i < k - 1 {
      AnchoredIsReported(h, k - 1, minedNonce, chain, i, r, b, hash);
    }
  }

  /** What each event of a handle stands on, and nothing less or more: an own-mined event on the newest
      receipt being anchored to the canonical chain, the nonce verdicts on no broadcast having one. */
  lemma EventMeaning(h: TxHandle, minedNonce: nat, chain: ChainReads)
    ensures var e := EventFor(h, minedNonce, chain);
            && (e == NonceOpen <==> NoReceipt(h, chain) && h.nonce >= minedNonce)
            && (e == ForeignMined <==> NoReceipt(h, chain) && h.nonce < minedNonce)
            && (forall b, hash, outcome :: e == OwnMined(b, hash, outcome) <==> OwnEvidence(h, chain, b, hash, outcome))
  {
    EventFromMeaning(h, |h.broadcasts|, minedNonce, chain);
    forall b, hash, outcome | OwnEvidence(h, chain, b, hash, outcome)
      ensures EventFor(h, minedNonce, chain) == OwnMined(b, hash, outcome)
    {
      var i: nat, r :| Anchored(h, chain, i, r, b, hash) && outcome == OutcomeOf(r, h);
      AnchoredIsReported(h, |h.broadcasts|, minedNonce, chain, i, r, b, hash);
    }
  }

  /** The source's loop over the recorded broadcasts, newest first. */
  method DistillEvent(h: TxHandle, minedNonce: nat, chain: ChainReads) returns (e: ChainEvent)
    ensures e == EventFor(h, minedNonce, chain)
  {
    var k: nat := |h.broadcasts|;
    while k > 0
      invariant k <= |h.broadcasts|
      invariant EventFor(h, minedNonce, chain) == EventFrom(h, k, minedNonce, chain)
    {
      match chain.receipt(k - 1) {
        case Err => return Unknown;
        case Ok(None) => k := k - 1;
        case Ok(Some(r)) => return Anchor(r, h, chain);
      }
    }
    e := if h.nonce < minedNonce then ForeignMined else NonceOpen;
  }

  /** The relay has not named a transaction for this handle so far. */
  predicate IsAwaitingRelay(h: TxHandle) {
    h.broadcasts == [] && h.IsTask()
  }
}
