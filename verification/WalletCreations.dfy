/** Which steps create the handle of an id, anew or for the first time. */
module WalletCreations {
  import opened Types
  import opened Nonces
  import opened Lifecycle
  import opened Signing
  import opened Executor
  import opened Wallet
  import opened WalletHandles
  import opened WalletNonces
  import opened WalletRuns
  import opened WalletPromises
  import opened WalletExact
  import opened Cancellation

  function SendId(w: World, i: SendInput): HandleId {
    HandleId(OfIntent(i.intent), Allocated(w, i).1)
  }

  function CancelId(target: TxHandle): HandleId {
    HandleId(OfIntent(TxIntent(target.intent.chainId, target.account, TxKind.Call(target.account), 0, [], None)), target.nonce)
  }

  /** The step writes the handle of this id as a new one: a send at the nonce it takes, a refill likewise,
      a managed-relay handle of that intent and nonce, or a cancel known to be accepted, at its target's. */
  predicate Creates(cfg: Config, w: World, s: Step, id: HandleId) {
    match s
    case DoSend(i) => Stores(cfg, w, i) && id == SendId(w, i)
    case DoTask(intent, task, at, wrote) => wrote && id == TaskHandle(intent, task, at).id
    case DoCancel(t, a) =>
      Marks(w, t, a) && LastKnown(Submitted(cfg, w, t, a)) && a.recorded && id == CancelId(w.handles[t])
    case DoAdvance(t, a) =>
      && Refills(cfg, w, t, a)
      && var i := RefillInput(w.handles[t], a.refill);
      && Stores(cfg, w, i) && id == SendId(w, i)
    case _ => false
  }

  function One(b: bool): nat { if b then 1 else 0 }

  lemma ConcludeCreatesNone(w: World, i: SendInput, h: TxHandle)
    ensures Created(Conclude(w, i, h), h.id) == Created(w, h.id)
  {
  }

  lemma BroadcastCreates(w: World, i: SendInput, h: TxHandle)
    ensures Created(Broadcast(w, i, h), h.id) == Created(w, h.id) + 1
  {
    var w1 := Track(w, h, FromSend);
    assert Created(w1, h.id) == Created(w, h.id) + 1;
    var w2 := Submit(w1, BySend, h.id, h.signed, i.route, i.submit);
    assert Created(w2, h.id) == Created(w1, h.id);
    hide Track, Submit;
    ConcludeCreatesNone(w2, i, h);
  }

  lemma SendCreatesIff(cfg: Config, w: World, i: SendInput, id: HandleId)
    ensures Created(Send(cfg, w, i), id) == Created(w, id) + One(Stores(cfg, w, i) && id == SendId(w, i))
  {
    if id != SendId(w, i) {
      SendTouchesOneId(cfg, w, i, id);
    } else if Admitted(cfg, i) {
      hide Broadcast, Allocate;
      var (w1, n) := Allocated(w, i);
      var approval := i.decision.value.approval;
      var body := SendBody(cfg, i, n);
      SignsExactlyTheAuthorized(body, OfIntent(i.intent), approval, i.now, i.key);
      var r := SignEncode(body, OfIntent(i.intent), approval, i.now, i.key);
      assert r.Signed? <==> GetsSigned(i);
      if r.Signed? {
        BroadcastCreates(Noted(w1, Signs(body, i.intent, approval, i.now)), i, NewHandle(i, n, approval, r.value));
      }
    }
  }

  lemma OnSettledCreates(cfg: Config, w: World, h: TxHandle, i: SendInput, id: HandleId)
    requires h.id in w.hist
    ensures var j := RefillInput(h, i);
            Created(OnSettled(cfg, w, h, i), id) == Created(w, id) + One(Refilling(cfg, h) && Stores(cfg, w, j) && id == SendId(w, j))
  {
    hide Send, Allocate;
    SendCreatesIff(cfg, Counted(w, h), RefillInput(h, i), id);
  }

  lemma AdvanceCreates(cfg: Config, w: World, t: HandleId, a: AdvanceInput, id: HandleId)
    requires Inv(cfg, w)
    ensures Created(Advance(cfg, w, t, a), id) == Created(w, id) + One(Creates(cfg, w, DoAdvance(t, a), id))
  {
    hide Inv, OnSettled, Seen, Allocate;
    if Tracked(cfg, w, t) && w.cycle.Some? && t in w.hist {
      IdentityAt(cfg, w, t);
      if IsAwaitingRelay(w.handles[t]) {
        PollCreates(cfg, w, t, a, id);
      } else {
        AdvanceOnChainCreates(cfg, w, t, a, id);
      }
    }
  }

  lemma PollCreates(cfg: Config, w: World, t: HandleId, a: AdvanceInput, id: HandleId)
    requires t in w.handles && t in w.hist && w.handles[t].id == t
    ensures Created(PollTask(cfg, w, t, a), id) == Created(w, id)
  {
  }

  lemma AdvanceOnChainCreates(cfg: Config, w: World, t: HandleId, a: AdvanceInput, id: HandleId)
    requires Tracked(cfg, w, t) && t in w.hist && w.cycle.Some? && w.handles[t].id == t && !IsAwaitingRelay(w.handles[t])
    ensures Created(AdvanceOnChain(cfg, w, t, a), id) == Created(w, id) + One(Creates(cfg, w, DoAdvance(t, a), id))
  {
    hide OnSettled, Seen, Allocate;
    var h, o := w.handles[t], Seen(w, t, a.chain);
    var hi := w.hist[t].(obs := w.hist[t].obs + [o]);
    match Transition(h.status, o.event, o.view, o.cfg)
    case None =>
    case Some(next) =>
      var h1 := h.(status := Resolved(h, next));
      assert Created(Update(w, h1, hi), id) == Created(w, id);
      OnSettledCreates(cfg, Update(w, h1, hi), h1, a.refill, id);
  }

  lemma CancelPricedCreates(cfg: Config, w: World, target: TxHandle, basis: Fees, approval: PolicyApproval, a: CancelInput, id: HandleId)
    requires Stored(w, target.id) == Some(target) && target.id in w.hist
    ensures Created(CancelPriced(cfg, w, target, basis, approval, a), id) ==
            Created(w, id) + One(LastKnown(CancelOutcomes(cfg, target, basis, approval, a)) && a.recorded && id == CancelId(target))
  {
    CancelAttempts(cfg, w, target, basis, approval, a);
    hide TryCancelTwice, CancelOutcomes, LastKnown;
  }

  lemma CancelCreates(cfg: Config, w: World, t: HandleId, a: CancelInput, id: HandleId)
    requires Inv(cfg, w)
    ensures Created(CancelTx(cfg, w, t, a), id) == Created(w, id) + One(Creates(cfg, w, DoCancel(t, a), id))
  {
    hide Inv, CancelPriced, CancelOutcomes;
    if Marks(w, t, a) {
      IdentityAt(cfg, w, t);
      var h, w1 := w.handles[t], Flag(w, t, true);
      assert Created(w1, id) == Created(w, id);
      if DecodeFees(h.signed).Some? {
        var fees, approval := DecodeFees(h.signed).value.fees, a.decision.value.approval;
        CancelPricedCreates(cfg, w1, w1.handles[t], fees, approval, a, id);
        SameCancel(cfg, h, w1.handles[t], fees, approval, a);
      }
    }
  }

  /** An id is created in exactly these steps, once each. So a settled handle, a confirmed one included, is
      overwritten exactly by them. */
  lemma CreatedExactly(cfg: Config, w: World, s: Step, id: HandleId)
    requires Inv(cfg, w)
    ensures Created(Apply(cfg, w, s), id) == Created(w, id) + One(Creates(cfg, w, s, id))
  {
    hide Inv, Send, CancelTx, Advance, Bump;
    match s
    case DoSend(i) => SendCreatesIff(cfg, w, i, id);
    case DoTask(_, _, _, _) =>
    case DoCancel(t, a) => CancelCreates(cfg, w, t, a, id);
    case DoTrack(_, _) =>
    case DoRestart =>
    case DoRecover(_, _) =>
    case DoBeginCycle(_, _, _, _) =>
    case DoAdvance(t, a) => AdvanceCreates(cfg, w, t, a, id);
    case DoBump(t, a) => BumpCreatesNone(cfg, w, t, a, id);
  }

  lemma BumpCreatesNone(cfg: Config, w: World, t: HandleId, a: BumpInput, id: HandleId)
    requires Inv(cfg, w)
    ensures Created(Bump(cfg, w, t, a), id) == Created(w, id)
  {
    hide Inv, Replace, GasOracle.Bump;
    if Tracked(cfg, w, t) {
      IdentityAt(cfg, w, t);
      var h := w.handles[t];
      var fees := BumpFees(cfg, h, a.baseFee);
      if fees.Some? && BumpApproval(w, h, fees.value, a).Some? {
        ReplaceCreatesNone(w, h, fees.value, BumpApproval(w, h, fees.value, a).value, a, id);
      }
    }
  }

  lemma ReplaceCreatesNone(w: World, h: TxHandle, fees: Fees, approval: PolicyApproval, a: BumpInput, id: HandleId)
    requires h.id in w.hist && DecodeFees(h.signed).Some?
    ensures Created(Replace(w, h, fees, approval, a), id) == Created(w, id)
  {
  }

  /** While nothing leaks, no send or refill writes over a handle whose nonce may have been live. */
  lemma NoSendOverwritesTheLive(cfg: Config, steps: seq<Step>, s: Step, id: HandleId)
    requires NeverLeaks(cfg, steps) && (s.DoSend? || s.DoAdvance?) && Creates(cfg, Reached(cfg, steps), s, id)
    ensures id.nonce !in Reached(cfg, steps).live
  {
    hide RunFrom, NeverLeaks, Stores, Allocate;
    RunIsSoundIff(cfg, steps);
    assert steps[..|steps|] == steps;
    assert NonceOk(Reached(cfg, steps));
    var w := Reached(cfg, steps);
    NextNonceIsInPool(w, if s.DoSend? then s.send else RefillInput(w.handles[s.id], s.advance.refill));
  }

  /** What a known cancel stores: nothing sent to its own account, on its target's chain, nonce and route, at
      fees that displace it. */
  predicate CancelStoredAs(target: TxHandle, a: CancelInput, h: TxHandle)
    requires a.decision.Ok? && a.decision.value.Allow?
  {
    && h.intent == TxIntent(target.intent.chainId, target.account, TxKind.Call(target.account), 0, [], None)
    && h.id == HandleId(OfIntent(h.intent), target.nonce) && h.intentHash == OfIntent(h.intent)
    && h.account == target.account && h.nonce == target.nonce && h.status == Sent
    && h.envelope == a.decision.value.approval.envelope
    && h.signed.Signed1559? && Displaces(target, h.signed.body) && h.broadcasts == [HashOf(h.signed.body, h.signed.sig)]
    && h.lastBroadcastAt == a.now && !h.cancelled && h.route == target.route && h.meta == None
  }

  /** A known cancel writes over whatever was stored for the cancel of that nonce, a confirmed one included. */
  lemma KnownCancelOverwrites(cfg: Config, w: World, t: HandleId, a: CancelInput, id: HandleId)
    requires Inv(cfg, w) && Creates(cfg, w, DoCancel(t, a), id)
    ensures var w' := CancelTx(cfg, w, t, a); id in w'.handles && CancelStoredAs(w.handles[t], a, w'.handles[id])
  {
    hide Inv, CancelPriced, CancelOutcomes, LogsCancels;
    IdentityAt(cfg, w, t);
    FlagKeeps(cfg, w, t, true);
    var h, w1 := w.handles[t], Flag(w, t, true);
    var fees, approval := DecodeFees(h.signed).value.fees, a.decision.value.approval;
    SameCancel(cfg, h, w1.handles[t], fees, approval, a);
    PricedOverwrites(cfg, w1, w1.handles[t], approval, a);
  }

  lemma PricedOverwrites(cfg: Config, w: World, target: TxHandle, approval: PolicyApproval, a: CancelInput)
    requires Inv(cfg, w) && Stored(w, target.id) == Some(target) && !target.status.IsTerminal() && target.signed.Signed1559?
    requires LastKnown(CancelOutcomes(cfg, target, target.signed.body.fees, approval, a)) && a.recorded
    requires a.decision == Ok(Allow(approval))
    ensures var w' := CancelPriced(cfg, w, target, target.signed.body.fees, approval, a);
            CancelId(target) in w'.handles && CancelStoredAs(target, a, w'.handles[CancelId(target)])
  {
    hide Inv, TryCancelTwice, CancelOutcomes, LastKnown, LogsCancels, Displaces;
    var basis := target.signed.body.fees;
    CancelAttempts(cfg, w, target, basis, approval, a);
    TryCancelTwiceKeeps(cfg, w, target, basis, approval, a);
    var (w1, r) := TryCancelTwice(cfg, w, target, basis, approval, a);
    var fees, key :| OutIs(target, approval, a.now, r.tx, fees, key);
    assert r.tx.encoded.Signed1559? && r.tx.encoded.body == CancelBody(target, fees);
  }
}
