/** What each step does, stated field by field from its inputs and answers: the other direction of the
    invariants, which say only what may not happen. */
module WalletExact {
  import opened Types
  import opened Nonces
  import opened Lifecycle
  import opened Signing
  import opened Executor
  import opened Wallet
  import opened WalletHandles
  import opened WalletNonces
  import opened WalletRuns
  import opened WalletPromises
  import GasOracle

  // ----- outcomes of a submission -----

  /** The network certainly does not have it: a relay refused, or the node answered for certain and did not
      say it was there already. */
  predicate Definite(o: SubmitOutcome) {
    o.Rejected? && (o.error.RpcCall? ==> !o.error.transient && !o.error.saysAccepted)
  }

  /** The network certainly has it. */
  predicate InPoolForSure(o: SubmitOutcome) {
    o.Accepted? || (o.error.RpcCall? && o.error.saysAccepted)
  }

  lemma OutcomeClasses(o: SubmitOutcome)
    ensures o.MayBeLive() <==> !Definite(o)
    ensures o.Known() <==> InPoolForSure(o)
    ensures o.Rejected? ==> (o.error.IsUnderpriced() <==> o.error.RpcCall? && o.error.saysUnderpriced)
  {
  }

  // ----- send -----

  predicate AdmitsFees(e: GasEnvelope, fees: Fees) {
    fees.maxFee <= e.maxFeeCap && fees.tip <= e.maxTipCap
  }

  /** Everything before the nonce goes well. */
  predicate Cleared(cfg: Config, i: SendInput) {
    && i.supported && i.intent.account == cfg.account
    && i.gas.Ok? && i.fees.Ok? && i.decision.Ok? && i.decision.value.Allow?
  }

  predicate TakesNonce(cfg: Config, w: World, i: SendInput) {
    Cleared(cfg, i) && i.crash != BeforeAllocate && i.reserved && (w.nonce.version == 0 ==> i.pending.Ok?)
  }

  predicate GetsSigned(i: SendInput)
    requires i.fees.Ok? && i.decision.Ok? && i.decision.value.Allow?
  {
    var approval := i.decision.value.approval;
    approval.payload == OfIntent(i.intent) && i.now <= approval.validUntil && AdmitsFees(approval.envelope, i.fees.value) && i.key.Ok?
  }

  /** The send gets as far as storing a handle. */
  predicate Stores(cfg: Config, w: World, i: SendInput) {
    TakesNonce(cfg, w, i) && i.crash != AfterAllocate && GetsSigned(i) && i.wrote
  }

  /** The nonces a send may take: the pool, or from the chain's pending nonce up when nothing is stored yet. */
  predicate Offered(w: World, i: SendInput, m: nat) {
    if w.nonce.version == 0 then i.pending.Ok? && m >= i.pending.value else InPool(w.nonce.value, m)
  }

  ghost predicate IsLeastOffered(w: World, i: SendInput, n: nat) {
    Offered(w, i, n) && forall m: nat | Offered(w, i, m) :: n <= m
  }

  /** The estimate with the buffer's percentage on top, rounded down, as far as 64 bits reach. */
  predicate IsBuffered(cfg: Config, estimate: nat, gas: nat) {
    var scaled := estimate * (100 + cfg.gasBufferPct);
    if scaled >= 100 * U64_MAX then gas == U64_MAX else 100 * gas <= scaled < 100 * gas + 100
  }

  /** The handle a send stores under nonce `n`, with this status. */
  predicate SentAs(cfg: Config, i: SendInput, n: nat, status: TxStatus, h: TxHandle)
    requires i.gas.Ok? && i.fees.Ok? && i.decision.Ok? && i.decision.value.Allow? && i.key.Ok?
  {
    && h.id == HandleId(OfIntent(i.intent), n) && h.intentHash == OfIntent(i.intent) && h.intent == i.intent
    && h.account == i.intent.account && h.nonce == n && h.status == status
    && h.envelope == i.decision.value.approval.envelope
    && h.lastBroadcastAt == i.now && !h.cancelled && h.route == i.route
    && (i.selfRelay.None? ==> h.meta == None)
    && (i.selfRelay.Some? ==>
          h.meta == Some(MetaContext(i.selfRelay.value.forwarder, i.selfRelay.value.signer, i.selfRelay.value.nonce, None)))
    && h.signed.Signed1559? && h.signed.sig == i.key.value
    && h.signed.body == TxBody(i.intent.chainId, n, h.signed.body.gasLimit, i.fees.value, i.intent.to, i.intent.value, i.intent.input)
    && IsBuffered(cfg, i.gas.value, h.signed.body.gasLimit)
    && h.broadcasts == [HashOf(h.signed.body, h.signed.sig)]
  }

  /** The status the send leaves behind: pending until its second write, then failed on a certain refusal
      and sent on anything else. */
  predicate LeftAs(i: SendInput, status: TxStatus) {
    if i.crash == AfterPersist || i.crash == AfterSubmit || !i.settled then status == Pending
    else if Definite(i.submit) then status.Failed? else status == Sent
  }

  lemma BufferedGasMeaning(cfg: Config, estimate: nat)
    ensures IsBuffered(cfg, estimate, BufferedGas(cfg, estimate))
  {
    var scaled := estimate * (100 + cfg.gasBufferPct);
    assert U128_MAX / 100 >= U64_MAX;
    assert GasOracle.SaturatingMul(estimate, 100 + cfg.gasBufferPct) == GasOracle.Min(scaled, U128_MAX);
  }

  lemma AllocatedIsLeastOffered(w: World, i: SendInput)
    requires PoolOk(w.nonce) && Allocates(w, i)
    ensures IsLeastOffered(w, i, Allocated(w, i).1)
    ensures forall m: nat :: InPool(Allocated(w, i).0.nonce.value, m) <==> Offered(w, i, m) && m != Allocated(w, i).1
  {
    AllocateTakesLeast(Reconciled(w.nonce, PendingNonce(i)));
  }

  lemma NewHandleIsSentAs(cfg: Config, i: SendInput, n: nat, tx: SignedTx)
    requires Admitted(cfg, i) && i.key.Ok?
    requires SignEncode(SendBody(cfg, i, n), OfIntent(i.intent), i.decision.value.approval, i.now, i.key) == Signed(tx)
    ensures SentAs(cfg, i, n, Pending, NewHandle(i, n, i.decision.value.approval, tx))
  {
    BufferedGasMeaning(cfg, i.gas.value);
  }

  /** The rest of a send from its first write: the handle's status, the log, and whether the nonce is back. */
  lemma BroadcastExactly(w: World, i: SendInput, h: TxHandle)
    requires PoolOk(w.nonce) && h.status == Pending && h.signed.Signed1559? && Reserved(w, h.nonce)
    ensures var w' := Broadcast(w, i, h);
            && h.id in w'.handles && LeftAs(i, w'.handles[h.id].status)
            && w'.handles == w.handles[h.id := h.(status := w'.handles[h.id].status)]
            && w'.log == w.log + (if i.crash == AfterPersist then [] else [Submits(BySend, h.id, h.signed, i.route, i.submit, Some(h))])
            && (forall m: nat :: InPool(w'.nonce.value, m) <==>
                  InPool(w.nonce.value, m) || (m == h.nonce && HandsBack(i)))
  {
    var w1 := Track(w, h, FromSend);
    var w2 := Submit(w1, BySend, h.id, h.signed, i.route, i.submit);
    assert w2.handles == w.handles[h.id := h] && w2.nonce == w.nonce && h.id in w2.hist;
    assert w2.log == w.log + [Submits(BySend, h.id, h.signed, i.route, i.submit, Some(h))];
    hide Submit, Track;
    ConcludeExactly(w2, i, h);
  }

  /** The nonce goes back only on a certain refusal, if the store takes it. */
  predicate HandsBack(i: SendInput) {
    i.crash != AfterPersist && i.crash != AfterSubmit && i.crash != AfterOutcome && Definite(i.submit) && i.released
  }

  lemma ConcludeExactly(w: World, i: SendInput, h: TxHandle)
    requires PoolOk(w.nonce) && Stored(w, h.id) == Some(h) && h.id in w.hist && h.status == Pending && Reserved(w, h.nonce)
    ensures var w' := Conclude(w, i, h);
            && w'.log == w.log && h.id in w'.handles
            && w'.handles == w.handles[h.id := h.(status := w'.handles[h.id].status)]
            && (if !i.settled then w'.handles[h.id].status == Pending
                else if Definite(i.submit) then w'.handles[h.id].status.Failed? else w'.handles[h.id].status == Sent)
            && (forall m: nat :: InPool(w'.nonce.value, m) <==>
                  InPool(w.nonce.value, m) || (m == h.nonce && Definite(i.submit) && i.released && i.crash != AfterOutcome))
  {
    OutcomeClasses(i.submit);
    ReleaseReturns(w.nonce.value, h.nonce);
    assert w.handles[h.id := h] == w.handles;
  }

  /** A send that stores: it takes the least nonce offered, stores exactly this handle and no other, signs it,
      submits it unless it stops before, and hands the nonce back only on a certain refusal. */
  lemma SendStores(cfg: Config, w: World, i: SendInput) returns (n: nat)
    requires PoolOk(w.nonce) && Stores(cfg, w, i)
    ensures IsLeastOffered(w, i, n)
    ensures var id, w' := HandleId(OfIntent(i.intent), n), Send(cfg, w, i);
            && id in w'.handles && w'.handles == w.handles[id := w'.handles[id]]
            && SentAs(cfg, i, n, w'.handles[id].status, w'.handles[id]) && LeftAs(i, w'.handles[id].status)
            && w'.log == w.log + [Signs(w'.handles[id].signed.body, i.intent, i.decision.value.approval, i.now)]
                       + (if i.crash == AfterPersist then []
                          else [Submits(BySend, id, w'.handles[id].signed, i.route, i.submit, Some(w'.handles[id].(status := Pending)))])
            && (forall m: nat :: InPool(w'.nonce.value, m) <==> (Offered(w, i, m) && m != n) || (m == n && HandsBack(i)))
  {
    hide Broadcast, Allocate;
    n := Allocated(w, i).1;
    var w1 := Allocated(w, i).0;
    AllocatedIsLeastOffered(w, i);
    AllocatedPoolOk(w, i);
    var approval, body := i.decision.value.approval, SendBody(cfg, i, n);
    SignsExactlyTheAuthorized(body, OfIntent(i.intent), approval, i.now, i.key);
    var r := SignEncode(body, OfIntent(i.intent), approval, i.now, i.key);
    assert r.Signed?;
    var h := NewHandle(i, n, approval, r.value);
    NewHandleIsSentAs(cfg, i, n, r.value);
    BroadcastExactly(Noted(w1, Signs(body, i.intent, approval, i.now)), i, h);
  }

  lemma AllocatedPoolOk(w: World, i: SendInput)
    requires PoolOk(w.nonce) && Allocates(w, i)
    ensures PoolOk(Allocated(w, i).0.nonce) && Reserved(Allocated(w, i).0, Allocated(w, i).1)
  {
    AllocateTakesLeast(Reconciled(w.nonce, PendingNonce(i)));
  }

  /** A send that does not: no handle changes and nothing is submitted; and a nonce is gone exactly when one
      was taken and not handed back. */
  lemma SendStoresNothing(cfg: Config, w: World, i: SendInput)
    requires PoolOk(w.nonce) && !Stores(cfg, w, i)
    ensures var w' := Send(cfg, w, i);
            && w'.handles == w.handles && w'.hist == w.hist && w'.live == w.live
            && w.log <= w'.log && (forall x | x in w'.log[|w.log|..] :: x.Signs?)
            && (!TakesNonce(cfg, w, i) ==> w'.nonce == w.nonce && w'.log == w.log)
            && (TakesNonce(cfg, w, i) ==> exists n: nat ::
                  && IsLeastOffered(w, i, n)
                  && forall m: nat :: InPool(w'.nonce.value, m) <==>
                       (Offered(w, i, m) && m != n) || (m == n && i.released && i.crash != AfterAllocate))
  {
    hide Broadcast, Allocate;
    if TakesNonce(cfg, w, i) {
      AllocatedIsLeastOffered(w, i);
      AllocatedPoolOk(w, i);
      var (w1, n) := Allocated(w, i);
      ReleaseReturns(w1.nonce.value, n);
      var body := SendBody(cfg, i, n);
      SignsExactlyTheAuthorized(body, OfIntent(i.intent), i.decision.value.approval, i.now, i.key);
      assert SignEncode(body, OfIntent(i.intent), i.decision.value.approval, i.now, i.key).Signed? <==> GetsSigned(i);
      assert IsLeastOffered(w, i, n);
    }
  }

  // ----- a self-relayed send confirms only on its own call -----

  /** The first report of this request's call among the logs is a success. */
  ghost predicate OwnCallRan(relay: SelfRelay, logs: seq<Log>) {
    exists q :: 0 <= q < |logs| && logs[q] == ForwardExecuted(relay.signer, relay.nonce, true) && NotReportedBefore(relay, logs, q)
  }

  ghost predicate NotReportedBefore(relay: SelfRelay, logs: seq<Log>, q: nat)
    requires q <= |logs|
  {
    forall p, success | 0 <= p < q :: logs[p] != ForwardExecuted(relay.signer, relay.nonce, success)
  }

  /** Step `k` advanced the handle on a successful receipt in block `b`, named by the chain at that height, of
      one of its recorded broadcasts, that shows the request's own call succeed. */
  ghost predicate RanAt(cfg: Config, steps: seq<Step>, k: nat, id: HandleId, b: nat, relay: SelfRelay) {
    && k < |steps| && steps[k].DoAdvance? && steps[k].id == id && id in Reached(cfg, steps[..k]).handles
    && exists i: nat, r, hash ::
         && Anchored(Reached(cfg, steps[..k]).handles[id], steps[k].advance.chain, i, r, b, hash)
         && r.success && OwnCallRan(relay, r.logs)
  }

  lemma FirstMatchIsOwnCall(relay: SelfRelay, logs: seq<Log>)
    requires FirstMatchSucceeds(MetaContext(relay.forwarder, relay.signer, relay.nonce, None), logs)
    ensures OwnCallRan(relay, logs)
  {
    var meta := MetaContext(relay.forwarder, relay.signer, relay.nonce, None);
    var q :| 0 <= q < |logs| && logs[q] == ForwardExecuted(meta.signer, meta.nonce, true) && NoneBefore(meta, logs, q);
    assert NotReportedBefore(relay, logs, q);
  }

  /** Whatever the reads: a handle created by a self-relayed send and not created anew is confirmed only
      by a step that saw the request's own call succeed. */
  lemma ConfirmedSelfRelayRan(cfg: Config, steps: seq<Step>, from: nat, i: SendInput, relay: SelfRelay, n: nat, b: nat) returns (k: nat)
    requires from < |steps| && steps[from] == DoSend(i) && i.selfRelay == Some(relay)
    requires Stores(cfg, Reached(cfg, steps[..from]), i) && IsLeastOffered(Reached(cfg, steps[..from]), i, n)
    requires var id := HandleId(OfIntent(i.intent), n);
             && Created(Reached(cfg, steps), id) == Created(Reached(cfg, steps[..from + 1]), id)
             && IsConfirmed(Reached(cfg, steps), id, b)
    ensures from < k && RanAt(cfg, steps, k, HandleId(OfIntent(i.intent), n), b, relay)
  {
    hide RunFrom, Inv, ConfirmStep, HighestMined, Extends;
    var id := HandleId(OfIntent(i.intent), n);
    var w0 := Reached(cfg, steps[..from]);
    RunKeepsFloor(cfg, steps[..from]);
    assert steps[..from + 1][..from] == steps[..from] && steps[..from + 1][from] == steps[from];
    LastStep(cfg, steps[..from + 1]);
    var m := SendStores(cfg, w0, i);
    assert m == n;
    var h := Reached(cfg, steps[..from + 1]).handles[id];
    assert h.meta == Some(MetaContext(relay.forwarder, relay.signer, relay.nonce, None)) && !h.status.Confirmed?;
    k := ConfirmedSince(cfg, steps, from + 1, id, b);
    SameMeta(cfg, steps, from + 1, k, id);
    ConfirmStepRan(cfg, steps, k, id, b, relay);
  }

  lemma SameMeta(cfg: Config, steps: seq<Step>, from: nat, k: nat, id: HandleId)
    requires from <= k <= |steps| && id in Reached(cfg, steps[..from]).handles
    requires Created(Reached(cfg, steps), id) == Created(Reached(cfg, steps[..from]), id)
    ensures id in Reached(cfg, steps[..k]).handles
    ensures Reached(cfg, steps[..k]).handles[id].meta == Reached(cfg, steps[..from]).handles[id].meta
  {
    hide RunFrom;
    assert steps[..k][..from] == steps[..from];
    RunExtends(cfg, steps[..k], from);
    RunExtends(cfg, steps, k);
    CreatedBetween(Reached(cfg, steps[..from]), Reached(cfg, steps[..k]), Reached(cfg, steps), id);
    assert Continues(Reached(cfg, steps[..from]).handles[id], Reached(cfg, steps[..k]).handles[id]);
  }

  lemma ConfirmStepRan(cfg: Config, steps: seq<Step>, k: nat, id: HandleId, b: nat, relay: SelfRelay)
    requires ConfirmStep(cfg, steps, k, id, b) && id in Reached(cfg, steps[..k]).handles
    requires Reached(cfg, steps[..k]).handles[id].meta == Some(MetaContext(relay.forwarder, relay.signer, relay.nonce, None))
    ensures RanAt(cfg, steps, k, id, b, relay)
  {
    hide RunFrom, IsFinal;
    var h, a := Reached(cfg, steps[..k]).handles[id], steps[k].advance;
    var i: nat, r, hash :| Anchored(h, a.chain, i, r, b, hash) && Succeeded(h, r);
    FirstMatchIsOwnCall(relay, r.logs);
  }

  // ----- managed relay, restart -----

  /** A managed-relay request is stored as it came: unsigned, public, sent, under the relay's nonce as far as
      64 bits reach. */
  lemma TaskStores(w: World, intent: TxIntent, task: Task, now: nat)
    ensures var n := if task.nonce <= U64_MAX then task.nonce else U64_MAX;
            var id, w' := HandleId(OfIntent(intent), n), PersistTask(w, intent, task, now, true);
            && w'.handles == w.handles[id := TxHandle(
                 id, intent.account, intent, OfIntent(intent), n, Sent, GasEnvelope(1_000_000_000_000, 50_000_000_000),
                 Nothing, [], now, false, Public, Some(MetaContext(task.forwarder, task.signer, task.nonce, Some(task.id))))]
            && w'.nonce == w.nonce && w'.log == w.log && w'.live == w.live && w'.approvals == w.approvals
    ensures PersistTask(w, intent, task, now, false) == w
  {
  }

  /** A restart forgets: any consistent head is accepted next, and a bump needs a new decision. The durable
      part stays. */
  lemma RestartForgets(cfg: Config, w: World, block: nat, count: nat, id: HandleId, a: BumpInput)
    ensures var w' := Restarted(w);
            && w'.handles == w.handles && w'.nonce == w.nonce && w'.log == w.log && w'.cycle == None
            && BeginCycle(cfg, w', Ok(block), Ok(count), Ok(None), true).cycle.Some?
            && (a.decision.Err? || a.decision.value.Deny? ==> Bump(cfg, w', id, a) == w')
  {
    hide GasOracle.Bump;
  }

  // ----- recover -----

  /** The handle should be in a mempool and can be put there. */
  predicate ShouldBeOut(cfg: Config, w: World, id: HandleId) {
    && id in w.handles && w.handles[id].account == cfg.account
    && (w.handles[id].status == Pending || w.handles[id].status == Sent)
    && w.handles[id].signed != Nothing
  }

  /** The submission that puts it there. */
  function Rebroadcast(w: World, id: HandleId, outcome: SubmitOutcome): Effect
    requires id in w.handles
  {
    Submits(ByRecover, id, w.handles[id].signed, w.handles[id].route, outcome, Some(w.handles[id]))
  }

  /** A recovery submits exactly what should be out, as stored and on the stored route, and changes nothing
      else that lasts. */
  lemma RecoverExactly(cfg: Config, w: World, id: HandleId, outcome: SubmitOutcome)
    ensures var w' := Recover(cfg, w, id, outcome);
            && w'.log == w.log + (if ShouldBeOut(cfg, w, id) then [Rebroadcast(w, id, outcome)] else [])
            && (ShouldBeOut(cfg, w, id) && w.handles[id].signed.Signed1559? && !Definite(outcome) ==>
                  w'.live == w.live + {w.handles[id].signed.body.nonce})
            && (!ShouldBeOut(cfg, w, id) || Definite(outcome) ==> w'.live == w.live)
            && w' == w.(log := w'.log, live := w'.live)
  {
    OutcomeClasses(outcome);
  }

  /** What a pass over these ids submits, in order. */
  function Rebroadcasts(cfg: Config, w: World, ids: seq<HandleId>, outcomes: HandleId -> SubmitOutcome): seq<Effect> {
    if ids == [] then []
    else
      var id := ids[|ids| - 1];
      Rebroadcasts(cfg, w, ids[..|ids| - 1], outcomes) + (if ShouldBeOut(cfg, w, id) then [Rebroadcast(w, id, outcomes(id))] else [])
  }

  lemma {:induction false} RebroadcastsCover(cfg: Config, w: World, ids: seq<HandleId>, outcomes: HandleId -> SubmitOutcome, x: Effect)
    ensures x in Rebroadcasts(cfg, w, ids, outcomes) <==>
            exists id :: id in ids && ShouldBeOut(cfg, w, id) && x == Rebroadcast(w, id, outcomes(id))
  {
    if ids != [] {
      var n := |ids| - 1;
      RebroadcastsCover(cfg, w, ids[..n], outcomes, x);
      assert ids == ids[..n] + [ids[n]];
      hide ShouldBeOut;
    }
  }

  // ----- confirm -----

  /** A pass begins exactly on consistent reads and a working allocator. Then the head is remembered and the
      pool loses what the chain has mined and nothing else. */
  lemma BeginCycleExactly(
    cfg: Config, w: World, block: Answer<nat>, count: Answer<nat>, finalized: Answer<Option<nat>>, reset: bool)
    requires PoolOk(w.nonce)
    ensures var w' := BeginCycle(cfg, w, block, count, finalized, reset);
            && w'.handles == w.handles && w'.hist == w.hist && w'.approvals == w.approvals && w'.log == w.log && w'.live == w.live
            && (w'.cycle.Some? <==> Consistent(w.lastLatest, block, count, finalized) && reset)
            && w'.lastLatest == (if Consistent(w.lastLatest, block, count, finalized) then block.value else w.lastLatest)
            && (w'.cycle.None? ==> w'.nonce == w.nonce)
            && (w'.cycle.Some? ==>
                  && TakenFrom(w'.cycle.value, cfg.required, block.value, count.value, finalized.value)
                  && w'.nonce.version == w.nonce.version + 1
                  && forall m: nat :: InPool(w'.nonce.value, m) <==> InPool(w.nonce.value, m) && m >= count.value)
  {
    CycleMeaning(w.lastLatest, cfg.required, block, count, finalized);
    if count.Ok? {
      ResetRetires(w.nonce.value, count.value);
    }
    hide ReadCycle;
  }

  /** What this look at the handle makes of its status. */
  function Judged(w: World, h: TxHandle, chain: ChainReads): TxStatus
    requires w.cycle.Some?
  {
    var c := w.cycle.value;
    var next := Next(h.status, Obs(EventFor(h, c.minedNonce, chain), c.view, c.finality));
    if next.Replaced? && h.cancelled then Dropped else next
  }

  /** An advance of a handle tracked on chain: with nothing to change or a failing write it keeps what is
      stored; else it stores the status judged and that alone. A settled handle loses its cached approval. */
  lemma AdvanceExactly(cfg: Config, steps: seq<Step>, id: HandleId, a: AdvanceInput)
    requires var w := Reached(cfg, steps);
             && id in w.handles && w.handles[id].account == cfg.account && !w.handles[id].status.IsTerminal() && w.cycle.Some?
             && !(w.handles[id].IsTask() && w.handles[id].broadcasts == [])
    ensures var w, w' := Reached(cfg, steps), Advance(cfg, Reached(cfg, steps), id, a);
            var h, status := w.handles[id], Judged(w, w.handles[id], a.chain);
            && Stored(w', id) == Some(if a.wrote then h.(status := status) else h)
            && (a.wrote && status.IsTerminal() ==> id !in w'.approvals)
            && (!status.IsTerminal() ==> w'.handles == w.handles[id := w'.handles[id]] && w'.nonce == w.nonce
                                         && w'.log == w.log && w'.approvals == w.approvals)
  {
    hide RunFrom, Inv, HighestMined;
    var w := Reached(cfg, steps);
    RunKeeps(cfg, steps);
    RunKeepsFloor(cfg, steps);
    IdentityAt(cfg, w, id);
    OnChainExactly(cfg, w, id, a, HighestMined(cfg, steps));
  }

  lemma OnChainExactly(cfg: Config, w: World, id: HandleId, a: AdvanceInput, c: nat)
    requires Tracked(cfg, w, id) && id in w.hist && w.cycle.Some? && !IsAwaitingRelay(w.handles[id]) && FloorOk(w, c)
    requires w.handles[id].id == id == HandleId(OfIntent(w.handles[id].intent), w.handles[id].nonce)
    ensures var w' := Advance(cfg, w, id, a);
            var h, status := w.handles[id], Judged(w, w.handles[id], a.chain);
            && Stored(w', id) == Some(if a.wrote then h.(status := status) else h)
            && (a.wrote && status.IsTerminal() ==> id !in w'.approvals)
            && (!status.IsTerminal() ==> w'.handles == w.handles[id := w'.handles[id]] && w'.nonce == w.nonce
                                         && w'.log == w.log && w'.approvals == w.approvals)
  {
    hide Send, EventFor, FloorOk, IsFinal;
    var h, o := w.handles[id], Seen(w, id, a.chain);
    var hi := w.hist[id].(obs := w.hist[id].obs + [o]);
    assert w.handles[id := h] == w.handles;
    match Transition(h.status, o.event, o.view, o.cfg)
    case None =>
    case Some(next) =>
      var h1 := h.(status := Resolved(h, next));
      var w1 := Update(w, h1, hi);
      if a.wrote && Refilling(cfg, h1) {
        RefillOf(cfg, w, id, a, id, c);
        SendKeepsApprovals(cfg, Counted(w1, h1), RefillInput(h1, a.refill), id);
      }
  }

  lemma SendKeepsApprovals(cfg: Config, w: World, i: SendInput, id: HandleId)
    requires id !in w.approvals
    ensures id !in Send(cfg, w, i).approvals
  {
    hide Broadcast, Allocate;
    if Admitted(cfg, i) {
      var (w1, n) := Allocated(w, i);
      var approval := i.decision.value.approval;
      var r := SignEncode(SendBody(cfg, i, n), OfIntent(i.intent), approval, i.now, i.key);
      if r.Signed? {
        BroadcastKeepsApprovals(Noted(w1, Signs(SendBody(cfg, i, n), i.intent, approval, i.now)), i, NewHandle(i, n, approval, r.value), id);
      }
    }
  }

  lemma BroadcastKeepsApprovals(w: World, i: SendInput, h: TxHandle, id: HandleId)
    requires id !in w.approvals
    ensures id !in Broadcast(w, i, h).approvals
  {
  }

  /** A task without a hash: inclusion records the hash, a failure settles it, anything else waits. */
  lemma PollExactly(cfg: Config, w: World, id: HandleId, a: AdvanceInput)
    requires Inv(cfg, w) && Tracked(cfg, w, id) && w.cycle.Some? && w.handles[id].IsTask() && w.handles[id].broadcasts == []
    ensures var h, w' := w.handles[id], Advance(cfg, w, id, a);
            && w'.nonce == w.nonce && w'.log == w.log && w'.live == w.live
            && match a.poll {
                 case Ok(Included(hash)) =>
                   w'.handles == (if cfg.relay && a.wrote then w.handles[id := h.(status := Sent, broadcasts := [hash])] else w.handles)
                 case Ok(RelayFailed(reason)) =>
                   && w'.handles == (if cfg.relay && a.wrote then w.handles[id := h.(status := Failed(reason))] else w.handles)
                   && (cfg.relay && a.wrote ==> id !in w'.approvals)
                 case _ => w' == w
               }
  {
    hide Inv;
    IdentityAt(cfg, w, id);
    assert forall hash :: w.handles[id].broadcasts + [hash] == [hash];
  }

  /** A refill is a plain public send of the displaced intent: it stores what such a send stores. */
  lemma RefillStores(cfg: Config, w: World, id: HandleId, a: AdvanceInput) returns (n: nat)
    requires PoolOk(w.nonce) && Refills(cfg, w, id, a) && w.handles[id].id == id
    requires Stores(cfg, w, a.refill.(intent := w.handles[id].intent, route := Public, selfRelay := None))
    ensures var i, w' := a.refill.(intent := w.handles[id].intent, route := Public, selfRelay := None), Advance(cfg, w, id, a);
            var child := HandleId(OfIntent(w.handles[id].intent), n);
            && IsLeastOffered(w, i, n) && child in w'.handles
            && SentAs(cfg, i, n, w'.handles[child].status, w'.handles[child]) && LeftAs(i, w'.handles[child].status)
  {
    hide Send, Seen, Broadcast;
    var h, o := w.handles[id], Seen(w, id, a.chain);
    var h1 := h.(status := Replaced);
    var w1 := Update(w, h1, w.hist[id].(obs := w.hist[id].obs + [o]));
    var w2 := Counted(w1, h1);
    var i := a.refill.(intent := h.intent, route := Public, selfRelay := None);
    assert RefillInput(h1, a.refill) == i;
    assert forall m: nat :: Offered(w2, i, m) <==> Offered(w, i, m);
    n := SendStores(cfg, w2, i);
    assert IsLeastOffered(w, i, n);
    assert Advance(cfg, w, id, a) == Send(cfg, w2, RefillInput(h1, a.refill));
  }

  // ----- escalate -----

  /** The approval a bump may use: the cached one while it is good for these fees, else the fresh one. */
  predicate UsesApproval(w: World, id: HandleId, fees: Fees, a: BumpInput, approval: PolicyApproval) {
    if id in w.approvals && w.approvals[id].validUntil >= a.now && AdmitsFees(w.approvals[id].envelope, fees)
    then approval == w.approvals[id]
    else a.decision == Ok(Allow(approval)) && AdmitsFees(approval.envelope, fees)
  }

  /** An approval put in the cache is the one the next fitting bump uses, with no new decision. */
  lemma TrackedApprovalIsUsed(cfg: Config, w: World, id: HandleId, approval: PolicyApproval, fees: Fees, a: BumpInput)
    requires approval.validUntil >= a.now && AdmitsFees(approval.envelope, fees)
    ensures UsesApproval(Apply(cfg, w, DoTrack(id, approval)), id, fees, a.(decision := Err), approval)
  {
  }

  /** Everything a bump needs: a sent transaction signed here, stuck for the timeout, its nonce not yet
      counted as mined, fees the oracle raises within the envelope, and an approval that covers them. */
  predicate Goes(cfg: Config, w: World, id: HandleId, a: BumpInput, fees: Fees, approval: PolicyApproval) {
    && id in w.handles && w.handles[id].account == cfg.account && w.handles[id].status == Sent
    && (cfg.bumpTimeout == 0 || w.handles[id].lastBroadcastAt + cfg.bumpTimeout <= a.now)
    && a.count.Ok? && a.count.value <= w.handles[id].nonce
    && w.handles[id].signed.Signed1559? && a.baseFee.Ok?
    && GasOracle.Bump(w.handles[id].signed.body.fees, a.baseFee.value, cfg.ceiling) == Ok(fees)
    && AdmitsFees(w.handles[id].envelope, fees)
    && UsesApproval(w, id, fees, a, approval)
    && approval.payload == OfIntent(w.handles[id].intent) && a.now <= approval.validUntil && a.key.Ok?
  }

  /** The route of the next broadcast: public once a private route has had its cycles, else as stored. */
  predicate GoesVia(h: TxHandle, route: Route) {
    if h.route.Private? && h.route.via.escalation.PublicAfter? && h.route.via.escalation.cycles <= |h.broadcasts|
    then route == Public else route == h.route
  }

  /** A bump with all it needs submits the stored transaction at the raised fees, on that route; and it is
      recorded exactly when the network has it and the write succeeds. */
  lemma BumpGoes(cfg: Config, w: World, id: HandleId, a: BumpInput, fees: Fees, approval: PolicyApproval) returns (route: Route)
    requires Inv(cfg, w) && Goes(cfg, w, id, a, fees, approval)
    ensures GoesVia(w.handles[id], route)
    ensures var h, w' := w.handles[id], Bump(cfg, w, id, a);
            var body := h.signed.body.(fees := fees);
            && w'.log == w.log + [Signs(body, h.intent, approval, a.now),
                                  Submits(ByBump, id, Signed1559(body, a.key.value), route, a.submit, Some(h))]
            && w'.nonce == w.nonce
            && (if InPoolForSure(a.submit) && a.wrote
                then && w'.handles == w.handles[id := h.(signed := Signed1559(body, a.key.value), route := route, lastBroadcastAt := a.now,
                                                         broadcasts := h.broadcasts + [HashOf(body, a.key.value)])]
                     && w'.approvals == w.approvals[id := approval]
                else w'.handles == w.handles && w'.approvals == w.approvals)
  {
    hide Inv, GasOracle.Bump;
    var h := w.handles[id];
    IdentityAt(cfg, w, id);
    OutcomeClasses(a.submit);
    BumpBodyIsStored(cfg, w, id, fees);
    assert Bump(cfg, w, id, a) == Replace(w, h, fees, approval, a);
    route := EscalatedRoute(h);
  }

  lemma BumpBodyIsStored(cfg: Config, w: World, id: HandleId, fees: Fees)
    requires Inv(cfg, w) && id in w.handles && w.handles[id].signed.Signed1559?
    ensures BumpBody(w.handles[id], fees) == w.handles[id].signed.body.(fees := fees)
  {
    var h := w.handles[id];
    GoodAt(cfg, w, id);
    assert VersionOf(h, h.broadcasts[|h.broadcasts| - 1]);
  }

  /** Without it a bump does nothing. */
  lemma BumpRests(cfg: Config, w: World, id: HandleId, a: BumpInput)
    requires Inv(cfg, w) && forall fees, approval :: !Goes(cfg, w, id, a, fees, approval)
    ensures Bump(cfg, w, id, a) == w
  {
    hide Inv, GasOracle.Bump;
    if Tracked(cfg, w, id) {
      var h := w.handles[id];
      IdentityAt(cfg, w, id);
      var fees := BumpFees(cfg, h, a.baseFee);
      if fees.Some? {
        var approval := BumpApproval(w, h, fees.value, a);
        if approval.Some? {
          assert !Goes(cfg, w, id, a, fees.value, approval.value);
          SignsExactlyTheAuthorized(BumpBody(h, fees.value), h.intentHash, approval.value, a.now, a.key);
        }
      }
    }
  }
}
