/** Nonces across the whole wallet: what a send may have put on the network is never handed out again. */
module WalletNonces {
  import opened Types
  import opened Nonces
  import opened Lifecycle
  import opened Signing
  import opened Executor
  import opened Wallet
  import opened WalletHandles

  predicate Reserved(w: World, n: nat) {
    w.nonce.version > 0 && !InPool(w.nonce.value, n)
  }

  /** An unsettled transaction signed here occupies its nonce. */
  predicate Holds(h: TxHandle) {
    !h.IsTask() && !h.status.IsTerminal()
  }

  predicate SendHolds(w: World, id: HandleId) {
    id in w.handles && id in w.hist && w.hist[id].origin.FromSend? && Holds(w.handles[id])
  }

  predicate PoolOk(v: Versioned) {
    WellFormed(v.value) && (v.version == 0 ==> v.value == EMPTY.value)
  }

  /** Nonces that are held or may be live are out of the pool, and no two unsettled sends share one. */
  ghost predicate NonceOk(w: World) {
    && PoolOk(w.nonce)
    && (forall id | id in w.handles && Holds(w.handles[id]) :: Reserved(w, w.handles[id].nonce))
    && (forall n | n in w.live :: Reserved(w, n))
    && (forall i, j | SendHolds(w, i) && SendHolds(w, j) && w.handles[i].nonce == w.handles[j].nonce :: i == j)
  }

  /** Nobody holds `n` and it was never possibly live. */
  predicate Unused(w: World, n: nat) {
    n !in w.live && forall id | id in w.handles && Holds(w.handles[id]) :: w.handles[id].nonce != n
  }

  lemma HolderReserved(w: World, id: HandleId)
    requires NonceOk(w) && id in w.handles && Holds(w.handles[id])
    ensures Reserved(w, w.handles[id].nonce) && PoolOk(w.nonce)
  {
  }

  lemma NextNonceIsInPool(w: World, i: SendInput)
    requires PoolOk(w.nonce)
    ensures !Reserved(w, Allocated(w, i).1)
  {
    AllocateTakesLeast(Reconciled(w.nonce, PendingNonce(i)));
  }

  lemma AllocatedIsFresh(w: World, i: SendInput)
    requires NonceOk(w) && Allocates(w, i)
    ensures var (w1, n) := Allocated(w, i);
            NonceOk(w1) && Reserved(w1, n) && !Reserved(w, n) && Unused(w1, n)
  {
    var s := Reconciled(w.nonce, PendingNonce(i));
    AllocateTakesLeast(s);
    var (w1, n) := Allocated(w, i);
    assert forall m: nat | Reserved(w, m) :: Reserved(w1, m);
  }

  lemma RecycleKeeps(w: World, n: nat, ok: bool)
    requires NonceOk(w) && Unused(w, n)
    ensures NonceOk(Recycle(w, n, ok))
  {
    ReleaseReturns(w.nonce.value, n);
    assert forall m: nat | Reserved(w, m) && m != n :: Reserved(Recycle(w, n, ok), m);
  }

  lemma RecycledHolderBreaks(w: World, id: HandleId, n: nat)
    requires NonceOk(w) && id in w.handles && Holds(w.handles[id]) && w.handles[id].nonce == n
    ensures !NonceOk(Recycle(w, n, true))
  {
    ReleaseReturns(w.nonce.value, n);
    assert !Reserved(Recycle(w, n, true), n);
  }

  // ----- send -----

  /** The signer signs what this send builds. */
  predicate Signable(i: SendInput)
    requires i.decision.Ok? && i.decision.value.Allow? && i.fees.Ok?
  {
    var approval := i.decision.value.approval;
    && approval.payload == OfIntent(i.intent) && i.now <= approval.validUntil
    && approval.envelope.Admits(i.fees.value) && i.key.Ok?
  }

  /** The one way a send loses a nonce: the network rejects it for certain, the write that would settle
      its handle fails, and the nonce is handed back all the same. */
  predicate Leaks(cfg: Config, w: World, i: SendInput) {
    && Admitted(cfg, i) && Allocates(w, i) && Signable(i) && i.wrote && i.crash.NoCrash?
    && !i.submit.MayBeLive() && !i.settled && i.released
  }

  lemma TrackHolds(w: World, h: TxHandle)
    requires NonceOk(w) && Reserved(w, h.nonce) && Unused(w, h.nonce) && Holds(h)
    ensures NonceOk(Track(w, h, FromSend))
  {
  }

  lemma SettledIsUnused(w: World, h: TxHandle, h': TxHandle, hi: History)
    requires NonceOk(w) && Stored(w, h.id) == Some(h) && h'.id == h.id && h'.nonce == h.nonce && h'.status.IsTerminal()
    requires h.nonce !in w.live
    requires forall id | id in w.handles && id != h.id && Holds(w.handles[id]) :: w.handles[id].nonce != h.nonce
    ensures NonceOk(Update(w, h', hi)) && Unused(Update(w, h', hi), h.nonce)
  {
    var w' := Update(w, h', hi);
    assert forall id | SendHolds(w', id) :: SendHolds(w, id) && w'.handles[id] == w.handles[id];
    assert forall n | Reserved(w, n) :: Reserved(w', n);
  }

  /** `h` is stored, holds its nonce alone, and was not yet possibly live. */
  predicate OnlyHolder(w: World, h: TxHandle) {
    && Stored(w, h.id) == Some(h) && h.id in w.hist && Holds(h)
    && forall id | id in w.handles && id != h.id && Holds(w.handles[id]) :: w.handles[id].nonce != h.nonce
  }

  predicate CrashesLate(i: SendInput) {
    i.crash.AfterPersist? || i.crash.AfterSubmit? || i.crash.AfterOutcome?
  }

  lemma BroadcastNonces(w: World, i: SendInput, h: TxHandle)
    requires NonceOk(w) && Reserved(w, h.nonce) && Unused(w, h.nonce)
    requires Holds(h) && h.signed.Signed1559? && h.signed.body.nonce == h.nonce
    ensures NonceOk(Broadcast(w, i, h)) <==> i.submit.MayBeLive() || i.settled || !i.released || CrashesLate(i)
  {
    var w1 := Track(w, h, FromSend);
    TrackHolds(w, h);
    var w2 := Submit(w1, BySend, h.id, h.signed, i.route, i.submit);
    SubmitKeepsNonces(w1, BySend, h.id, h.signed, i.route, i.submit);
    assert OnlyHolder(w2, h) && (!i.submit.MayBeLive() ==> h.nonce !in w2.live);
    hide NonceOk, Reserved, Unused, OnlyHolder;
    RestartKeepsNonces(w1);
    RestartKeepsNonces(w2);
    ConcludeNonces(w2, i, h);
  }

  lemma ConcludeNonces(w: World, i: SendInput, h: TxHandle)
    requires NonceOk(w) && OnlyHolder(w, h) && (!i.submit.MayBeLive() ==> h.nonce !in w.live)
    ensures NonceOk(Conclude(w, i, h)) <==> i.submit.MayBeLive() || i.settled || !i.released || i.crash.AfterOutcome?
  {
    if i.submit.MayBeLive() {
      SameHolderKeeps(w, h, h.(status := Sent), w.hist[h.id].(start := Sent));
    } else {
      hide NonceOk;
      RejectedNonces(w, i, h);
    }
  }

  lemma RestartKeepsNonces(w: World)
    requires NonceOk(w)
    ensures NonceOk(Restarted(w))
  {
    assert forall id :: SendHolds(Restarted(w), id) <==> SendHolds(w, id);
  }

  lemma SubmitKeepsNonces(w: World, actor: Actor, id: HandleId, bytes: Encoded, route: Route, outcome: SubmitOutcome)
    requires NonceOk(w)
    requires bytes.Signed1559? ==> Reserved(w, bytes.body.nonce)
    ensures NonceOk(Submit(w, actor, id, bytes, route, outcome))
  {
    var w' := Submit(w, actor, id, bytes, route, outcome);
    assert forall id :: SendHolds(w', id) <==> SendHolds(w, id);
    assert forall n | Reserved(w, n) :: Reserved(w', n);
  }

  /** Overwriting a handle by one at the same nonce, by the same origin. */
  lemma SameHolderKeeps(w: World, h: TxHandle, h': TxHandle, hi: History)
    requires NonceOk(w) && Stored(w, h.id) == Some(h) && h.id in w.hist
    requires h'.id == h.id && h'.nonce == h.nonce && hi.origin == w.hist[h.id].origin && (Holds(h') ==> Holds(h))
    ensures NonceOk(Update(w, h', hi))
  {
    var w' := Update(w, h', hi);
    assert forall id | SendHolds(w', id) :: SendHolds(w, id) && w'.handles[id].nonce == w.handles[id].nonce;
    assert forall n | Reserved(w, n) :: Reserved(w', n);
  }

  /** The tail of a send that the network rejected. */
  lemma RejectedNonces(w: World, i: SendInput, h: TxHandle)
    requires NonceOk(w) && OnlyHolder(w, h) && h.nonce !in w.live
    ensures var w3 := if i.settled then Settle(w, h, Failed("rejected")) else w;
            NonceOk(w3) && (NonceOk(Recycle(w3, h.nonce, i.released)) <==> i.settled || !i.released)
    ensures var w3 := if i.settled then Settle(w, h, Failed("rejected")) else w;
            NonceOk(Restarted(w3))
  {
    var w3 := if i.settled then Settle(w, h, Failed("rejected")) else w;
    if i.settled {
      SettledIsUnused(w, h, h.(status := Failed("rejected")), w.hist[h.id].(start := Failed("rejected")));
      RecycleKeeps(w3, h.nonce, i.released);
    } else if i.released {
      RecycledHolderBreaks(w, h.id, h.nonce);
    }
    RestartKeepsNonces(w3);
  }

  /** A send keeps the wallet's nonces sound exactly when it does not leak. */
  lemma SendKeepsNoncesIff(cfg: Config, w: World, i: SendInput)
    requires NonceOk(w)
    ensures NonceOk(Send(cfg, w, i)) <==> !Leaks(cfg, w, i)
  {
    hide NonceOk, Unused, Reserved, BuildSignSubmit;
    RestartKeepsNonces(w);
    if Admitted(cfg, i) && Allocates(w, i) {
      AllocatedIsFresh(w, i);
      var (w1, n) := Allocated(w, i);
      RestartKeepsNonces(w1);
      BuildNonces(cfg, w1, i, n);
    }
  }

  lemma BuildNonces(cfg: Config, w: World, i: SendInput, n: nat)
    requires NonceOk(w) && Admitted(cfg, i) && Reserved(w, n) && Unused(w, n)
    ensures NonceOk(BuildSignSubmit(cfg, w, i, n)) <==>
            !(Signable(i) && i.wrote && !CrashesLate(i) && !i.submit.MayBeLive() && !i.settled && i.released)
  {
    RecycleKeeps(w, n, i.released);
    var approval := i.decision.value.approval;
    var body := SendBody(cfg, i, n);
    SignsExactlyTheAuthorized(body, OfIntent(i.intent), approval, i.now, i.key);
    var r := SignEncode(body, OfIntent(i.intent), approval, i.now, i.key);
    assert r.Signed? <==> Signable(i);
    if r.Signed? {
      var w1 := Noted(w, Signs(body, i.intent, approval, i.now));
      NoteKeepsNonces(w, Signs(body, i.intent, approval, i.now));
      assert Unused(w1, n) && Reserved(w1, n);
      RecycleKeeps(w1, n, i.released);
      BroadcastNonces(w1, i, NewHandle(i, n, approval, r.value));
    }
  }

  lemma NoteKeepsNonces(w: World, e: Effect)
    requires NonceOk(w)
    ensures NonceOk(Noted(w, e))
  {
    assert forall id :: SendHolds(Noted(w, e), id) <==> SendHolds(w, id);
    assert forall n | Reserved(w, n) :: Reserved(Noted(w, e), n);
  }

  // ----- gaps -----

  /** `n` is neither available nor in use. */
  predicate Gap(w: World, n: nat) {
    Reserved(w, n) && Unused(w, n)
  }

  /** How a send loses the nonce it took: it stops right after allocating, or it never broadcasts and
      cannot hand the nonce back, or it is rejected, settles its handle, and fails or stops before handing
      the nonce back. */
  predicate LeavesGap(cfg: Config, w: World, i: SendInput) {
    && Admitted(cfg, i) && Allocates(w, i) && !i.crash.BeforeAllocate?
    && (|| i.crash.AfterAllocate?
        || ((!Signable(i) || !i.wrote) && !i.released)
        || (Signable(i) && i.wrote && RejectedLeavesGap(i)))
  }

  predicate RejectedLeavesGap(i: SendInput) {
    && !i.crash.AfterPersist? && !i.crash.AfterSubmit? && !i.submit.MayBeLive() && i.settled
    && (!i.released || i.crash.AfterOutcome?)
  }

  lemma RecycleGap(w: World, n: nat, ok: bool)
    requires PoolOk(w.nonce) && Reserved(w, n) && Unused(w, n)
    ensures Gap(Recycle(w, n, ok), n) <==> !ok
  {
    ReleaseReturns(w.nonce.value, n);
  }

  lemma ConcludeGap(w: World, i: SendInput, h: TxHandle)
    requires NonceOk(w) && OnlyHolder(w, h) && Reserved(w, h.nonce)
    requires h.nonce in w.live <==> i.submit.MayBeLive()
    ensures Gap(Conclude(w, i, h), h.nonce) <==>
            !i.submit.MayBeLive() && i.settled && (!i.released || i.crash.AfterOutcome?)
  {
    if !i.submit.MayBeLive() {
      if i.settled {
        SettledIsUnused(w, h, h.(status := Failed("rejected")), w.hist[h.id].(start := Failed("rejected")));
        RecycleGap(Settle(w, h, Failed("rejected")), h.nonce, i.released);
      } else {
        assert Holds(w.handles[h.id]);
      }
    }
  }

  lemma BroadcastGap(w: World, i: SendInput, h: TxHandle)
    requires NonceOk(w) && Reserved(w, h.nonce) && Unused(w, h.nonce)
    requires Holds(h) && h.signed.Signed1559? && h.signed.body.nonce == h.nonce
    ensures Gap(Broadcast(w, i, h), h.nonce) <==> RejectedLeavesGap(i)
  {
    var w1 := Track(w, h, FromSend);
    TrackHolds(w, h);
    var w2 := Submit(w1, BySend, h.id, h.signed, i.route, i.submit);
    SubmitKeepsNonces(w1, BySend, h.id, h.signed, i.route, i.submit);
    assert OnlyHolder(w2, h) && (h.nonce in w2.live <==> i.submit.MayBeLive());
    assert !Unused(Restarted(w1), h.nonce) && !Unused(Restarted(w2), h.nonce) by {
      assert Holds(Restarted(w1).handles[h.id]) && Holds(Restarted(w2).handles[h.id]);
    }
    hide NonceOk, Unused, OnlyHolder;
    ConcludeGap(w2, i, h);
  }

  lemma BuildGap(cfg: Config, w: World, i: SendInput, n: nat)
    requires NonceOk(w) && Admitted(cfg, i) && Reserved(w, n) && Unused(w, n)
    ensures Gap(BuildSignSubmit(cfg, w, i, n), n) <==>
            ((!Signable(i) || !i.wrote) && !i.released) || (Signable(i) && i.wrote && RejectedLeavesGap(i))
  {
    var approval := i.decision.value.approval;
    var body := SendBody(cfg, i, n);
    var r := SignEncode(body, OfIntent(i.intent), approval, i.now, i.key);
    assert r.Signed? <==> Signable(i) by {
      SignsExactlyTheAuthorized(body, OfIntent(i.intent), approval, i.now, i.key);
    }
    RecycleGap(w, n, i.released);
    if r.Signed? {
      var e := Signs(body, i.intent, approval, i.now);
      NoteKeepsNonces(w, e);
      assert Unused(Noted(w, e), n) && Reserved(Noted(w, e), n);
      RecycleGap(Noted(w, e), n, i.released);
      hide NonceOk, Unused, Reserved;
      BroadcastGap(Noted(w, e), i, NewHandle(i, n, approval, r.value));
    }
  }

  /** A send leaves a gap at the next nonce in exactly these cases, and never otherwise. */
  lemma SendLeavesGapIff(cfg: Config, w: World, i: SendInput)
    requires NonceOk(w)
    ensures Gap(Send(cfg, w, i), Allocated(w, i).1) <==> LeavesGap(cfg, w, i)
  {
    var (w1, n) := Allocated(w, i);
    NextNonceIsInPool(w, i);
    if Admitted(cfg, i) && Allocates(w, i) {
      AllocatedIsFresh(w, i);
      assert Gap(Restarted(w1), n);
      hide NonceOk, Unused, BuildSignSubmit;
      BuildGap(cfg, w1, i, n);
    }
  }

  // ----- the other steps -----

  /** This advance persists a displaced transaction as replaced and sends its intent again. */
  predicate Refills(cfg: Config, w: World, id: HandleId, a: AdvanceInput) {
    && Tracked(cfg, w, id) && w.cycle.Some? && id in w.hist && !IsAwaitingRelay(w.handles[id])
    && a.wrote && cfg.refill && !w.handles[id].cancelled
    && var o := Seen(w, id, a.chain); Transition(w.handles[id].status, o.event, o.view, o.cfg) == Some(Replaced)
  }

  predicate StepLeaks(cfg: Config, w: World, s: Step) {
    match s
    case DoSend(i) => Leaks(cfg, w, i)
    case DoAdvance(id, a) => Refills(cfg, w, id, a) && Leaks(cfg, w, RefillInput(w.handles[id], a.refill))
    case _ => false
  }

  lemma CountedNonces(w: World, h: TxHandle)
    requires NonceOk(w) && h.id in w.hist
    ensures NonceOk(Counted(w, h))
  {
    assert forall id :: SendHolds(Counted(w, h), id) <==> SendHolds(w, id);
    assert forall n | Reserved(w, n) :: Reserved(Counted(w, h), n);
  }

  lemma ApprovalsNonces(w: World, approvals: map<HandleId, PolicyApproval>)
    requires NonceOk(w)
    ensures NonceOk(w.(approvals := approvals))
  {
    var w' := w.(approvals := approvals);
    assert forall id :: SendHolds(w', id) <==> SendHolds(w, id);
    assert forall n | Reserved(w, n) :: Reserved(w', n);
  }

  lemma OnSettledNonces(cfg: Config, w: World, h: TxHandle, i: SendInput)
    requires NonceOk(w) && h.id in w.hist
    ensures NonceOk(OnSettled(cfg, w, h, i)) <==> !(Refilling(cfg, h) && Leaks(cfg, w, RefillInput(h, i)))
  {
    hide NonceOk, Send;
    ApprovalsNonces(w, w.approvals - {h.id});
    CountedNonces(w, h);
    SendKeepsNoncesIff(cfg, Counted(w, h), RefillInput(h, i));
  }

  lemma AdvanceNonces(cfg: Config, w: World, id: HandleId, a: AdvanceInput)
    requires Inv(cfg, w) && NonceOk(w)
    ensures NonceOk(Advance(cfg, w, id, a)) <==> !StepLeaks(cfg, w, DoAdvance(id, a))
  {
    hide Inv, NonceOk, PollTask, AdvanceOnChain;
    if Tracked(cfg, w, id) && w.cycle.Some? && id in w.hist {
      IdentityAt(cfg, w, id);
      if IsAwaitingRelay(w.handles[id]) {
        PollNonces(cfg, w, id, a);
      } else {
        AdvanceOnChainNonces(cfg, w, id, a);
      }
    }
  }

  lemma PollNonces(cfg: Config, w: World, id: HandleId, a: AdvanceInput)
    requires NonceOk(w) && id in w.handles && id in w.hist && w.handles[id].id == id && w.handles[id].IsTask()
    ensures NonceOk(PollTask(cfg, w, id, a))
  {
    var h, hi := w.handles[id], w.hist[id];
    if a.poll.Ok? && a.poll.value.Included? {
      SameHolderKeeps(w, h, h.(broadcasts := h.broadcasts + [a.poll.value.hash], status := Sent),
                      hi.(via := hi.via + [h.route], start := Sent));
    } else if a.poll.Ok? && a.poll.value.RelayFailed? {
      var h1 := h.(status := Failed(a.poll.value.reason));
      SameHolderKeeps(w, h, h1, hi.(start := h1.status));
      hide NonceOk;
      OnSettledNonces(cfg, Update(w, h1, hi.(start := h1.status)), h1, a.refill);
    }
  }

  lemma AdvanceOnChainNonces(cfg: Config, w: World, id: HandleId, a: AdvanceInput)
    requires NonceOk(w) && Tracked(cfg, w, id) && w.cycle.Some? && id in w.hist
    requires w.handles[id].id == id && !IsAwaitingRelay(w.handles[id])
    ensures NonceOk(AdvanceOnChain(cfg, w, id, a)) <==> !StepLeaks(cfg, w, DoAdvance(id, a))
  {
    hide NonceOk;
    var h, o := w.handles[id], Seen(w, id, a.chain);
    var hi := w.hist[id].(obs := w.hist[id].obs + [o]);
    SameHolderKeeps(w, h, h, hi);
    match Transition(h.status, o.event, o.view, o.cfg)
    case None =>
    case Some(next) =>
      var h1 := h.(status := Resolved(h, next));
      SameHolderKeeps(w, h, h1, hi);
      OnSettledNonces(cfg, Update(w, h1, hi), h1, a.refill);
  }

  lemma BeginCycleNonces(
    cfg: Config, w: World, block: Answer<nat>, count: Answer<nat>, finalized: Answer<Option<nat>>, reset: bool)
    requires NonceOk(w)
    ensures NonceOk(BeginCycle(cfg, w, block, count, finalized, reset))
  {
    var w' := BeginCycle(cfg, w, block, count, finalized, reset);
    assert w'.nonce == w.nonce || exists c: nat :: w'.nonce == Versioned(Reset(w.nonce.value, c), w.nonce.version + 1);
    if w'.nonce != w.nonce {
      var c: nat :| w'.nonce == Versioned(Reset(w.nonce.value, c), w.nonce.version + 1);
      ResetRetires(w.nonce.value, c);
    }
    assert forall n | Reserved(w, n) :: Reserved(w', n);
    assert forall id :: SendHolds(w', id) <==> SendHolds(w, id);
  }

  lemma BumpNonces(cfg: Config, w: World, id: HandleId, a: BumpInput)
    requires Inv(cfg, w) && NonceOk(w)
    ensures NonceOk(Bump(cfg, w, id, a))
  {
    hide Inv, NonceOk, Replace, GasOracle.Bump;
    if Tracked(cfg, w, id) {
      var h := w.handles[id];
      IdentityAt(cfg, w, id);
      var fees := BumpFees(cfg, h, a.baseFee);
      if fees.Some? && BumpApproval(w, h, fees.value, a).Some? {
        ReplaceNonces(w, h, fees.value, BumpApproval(w, h, fees.value, a).value, a);
      }
    }
  }

  lemma ReplaceNonces(w: World, h: TxHandle, fees: Fees, approval: PolicyApproval, a: BumpInput)
    requires NonceOk(w) && Stored(w, h.id) == Some(h) && h.id in w.hist && Holds(h) && DecodeFees(h.signed).Some?
    ensures NonceOk(Replace(w, h, fees, approval, a))
  {
    var body := BumpBody(h, fees);
    var r := SignEncode(body, h.intentHash, approval, a.now, a.key);
    if r.Signed? {
      var w1 := Noted(w, Signs(body, h.intent, approval, a.now));
      NoteKeepsNonces(w, Signs(body, h.intent, approval, a.now));
      var w2 := Submit(w1, ByBump, h.id, r.value.encoded, EscalatedRoute(h), a.submit);
      assert Reserved(w1, h.nonce);
      hide NonceOk;
      SubmitKeepsNonces(w1, ByBump, h.id, r.value.encoded, EscalatedRoute(h), a.submit);
      var h1, hi := Bumped(h, r.value, a.now), w.hist[h.id].(via := w.hist[h.id].via + [EscalatedRoute(h)]);
      SameHolderKeeps(w2, h, h1, hi);
      ApprovalsNonces(Update(w2, h1, hi), w2.approvals[h.id := approval]);
    }
  }

  lemma TryCancelNonces(cfg: Config, w: World, target: TxHandle, basis: Fees, approval: PolicyApproval, now: nat, a: Attempt)
    requires NonceOk(w) && Reserved(w, target.nonce)
    ensures var (w', _) := TryCancel(cfg, w, target, basis, approval, now, a);
            NonceOk(w') && Reserved(w', target.nonce) && w'.handles == w.handles && w'.hist == w.hist
  {
    if a.baseFee.Ok? && GasOracle.Bump(basis, a.baseFee.value, cfg.ceiling).Ok? {
      var body := CancelBody(target, GasOracle.Bump(basis, a.baseFee.value, cfg.ceiling).value);
      var r := SignEncode(body, OfIntent(CancelIntent(target)), approval, now, a.key);
      if r.Signed? {
        var e := Signs(body, CancelIntent(target), approval, now);
        NoteKeepsNonces(w, e);
        assert Reserved(Noted(w, e), target.nonce);
        hide NonceOk;
        SubmitKeepsNonces(Noted(w, e), ByCancel, target.id, r.value.encoded, target.route, a.submit);
      }
    }
  }

  lemma CancelPricedNonces(cfg: Config, w: World, target: TxHandle, basis: Fees, approval: PolicyApproval, a: CancelInput)
    requires NonceOk(w) && Stored(w, target.id) == Some(target) && target.id in w.hist && Reserved(w, target.nonce)
    ensures NonceOk(CancelPriced(cfg, w, target, basis, approval, a))
  {
    hide NonceOk, TryCancel;
    TryCancelNonces(cfg, w, target, basis, approval, a.now, a.first);
    var (w1, r) := TryCancel(cfg, w, target, basis, approval, a.now, a.first);
    TryCancelNonces(cfg, w1, target, basis, approval, a.now, a.second);
    var (w2, r2) := TryCancelTwice(cfg, w, target, basis, approval, a);
    assert NonceOk(w2) && Reserved(w2, target.nonce) && w2.handles == w.handles && w2.hist == w.hist;
    if r2.Out? {
      TrackCancelNonces(w2, CancelHandle(target, approval, r2.tx, a.now));
    } else {
      SameHolderKeeps(w2, target, target.(cancelled := false), w2.hist[target.id]);
    }
  }

  lemma TrackCancelNonces(w: World, h: TxHandle)
    requires NonceOk(w) && Reserved(w, h.nonce)
    ensures NonceOk(Track(w, h, FromCancel))
  {
    var w' := Track(w, h, FromCancel);
    assert forall id | SendHolds(w', id) :: SendHolds(w, id) && w'.handles[id] == w.handles[id];
    assert forall n | Reserved(w, n) :: Reserved(w', n);
  }

  lemma CancelNonces(cfg: Config, w: World, id: HandleId, a: CancelInput)
    requires Inv(cfg, w) && NonceOk(w)
    ensures NonceOk(CancelTx(cfg, w, id, a))
  {
    hide Inv, NonceOk, CancelPriced;
    if id in w.handles && !w.handles[id].status.IsTerminal() {
      var h := w.handles[id];
      IdentityAt(cfg, w, id);
      var w1 := Flag(w, id, true);
      SameHolderKeeps(w, h, h.(cancelled := true), w.hist[id]);
      if DecodeFees(h.signed).Some? && a.decision.Ok? && a.decision.value.Allow? {
        HolderReserved(w, id);
        assert Reserved(w1, h.nonce);
        CancelPricedNonces(cfg, w1, w1.handles[id], DecodeFees(h.signed).value.fees, a.decision.value.approval, a);
      }
    }
  }

  lemma TaskNonces(w: World, h: TxHandle)
    requires NonceOk(w) && h.IsTask()
    ensures NonceOk(Track(w, h, FromTask))
  {
    var w' := Track(w, h, FromTask);
    assert forall id | SendHolds(w', id) :: SendHolds(w, id) && w'.handles[id] == w.handles[id];
    assert forall n | Reserved(w, n) :: Reserved(w', n);
  }

  // ----- every run -----

  /** One step of a reachable world keeps the nonces sound exactly when it does not leak. */
  lemma StepKeepsNoncesIff(cfg: Config, w: World, s: Step)
    requires Inv(cfg, w) && NonceOk(w)
    ensures NonceOk(Apply(cfg, w, s)) <==> !StepLeaks(cfg, w, s)
  {
    hide Inv, NonceOk, Send, CancelTx, BeginCycle, Advance, Bump;
    match s
    case DoSend(i) => SendKeepsNoncesIff(cfg, w, i);
    case DoTask(intent, task, at, wrote) => TaskNonces(w, TaskHandle(intent, task, at));
    case DoCancel(id, a) => CancelNonces(cfg, w, id, a);
    case DoTrack(id, approval) => ApprovalsNonces(w, w.approvals[id := approval]);
    case DoRestart => RestartKeepsNonces(w);
    case DoRecover(id, outcome) => RecoverNonces(cfg, w, id, outcome);
    case DoBeginCycle(block, count, finalized, reset) => BeginCycleNonces(cfg, w, block, count, finalized, reset);
    case DoAdvance(id, a) => AdvanceNonces(cfg, w, id, a);
    case DoBump(id, a) => BumpNonces(cfg, w, id, a);
  }

  lemma RecoverNonces(cfg: Config, w: World, id: HandleId, outcome: SubmitOutcome)
    requires Inv(cfg, w) && NonceOk(w)
    ensures NonceOk(Recover(cfg, w, id, outcome))
  {
    hide Inv, NonceOk;
    if Tracked(cfg, w, id) && w.handles[id].signed != Nothing {
      var h := w.handles[id];
      IdentityAt(cfg, w, id);
      HolderReserved(w, id);
      SubmitKeepsNonces(w, ByRecover, id, h.signed, h.route, outcome);
    }
  }

  // ----- the floor of a pass -----

  /** Nothing below `c` is available. */
  ghost predicate FloorAt(s: NonceState, c: nat) {
    forall m: nat | InPool(s, m) :: m >= c
  }

  /** `c` is a floor: nothing below it is available, and the snapshot of a pass under way is not above it. */
  ghost predicate FloorOk(w: World, c: nat) {
    && PoolOk(w.nonce)
    && (c > 0 ==> w.nonce.version > 0 && FloorAt(w.nonce.value, c))
    && (w.cycle.Some? ==> w.cycle.value.minedNonce <= c)
  }

  lemma AllocatedFloor(w: World, i: SendInput, c: nat)
    requires FloorOk(w, c)
    ensures var (w1, n) := Allocated(w, i); FloorOk(w1, c) && n >= c
  {
    AllocateTakesLeast(Reconciled(w.nonce, PendingNonce(i)));
  }

  lemma RecycleFloor(w: World, n: nat, c: nat)
    requires FloorOk(w, c) && n >= c
    ensures FloorOk(Recycle(w, n, true), c)
  {
    ReleaseReturns(w.nonce.value, n);
  }

  /** The nonces and the pass after the rest of a send: untouched, or with the nonce back, or forgotten. */
  lemma BuildTouchesNonce(cfg: Config, w: World, i: SendInput, n: nat)
    requires Admitted(cfg, i)
    ensures var w' := BuildSignSubmit(cfg, w, i, n);
            && (w'.nonce == w.nonce || w'.nonce == Recycle(w, n, true).nonce)
            && (w'.cycle == w.cycle || w'.cycle == None)
  {
    var approval := i.decision.value.approval;
    var r := SignEncode(SendBody(cfg, i, n), OfIntent(i.intent), approval, i.now, i.key);
    if r.Signed? {
      BroadcastTouchesNonce(Noted(w, Signs(SendBody(cfg, i, n), i.intent, approval, i.now)), i, NewHandle(i, n, approval, r.value));
    }
  }

  lemma BroadcastTouchesNonce(w: World, i: SendInput, h: TxHandle)
    ensures var w' := Broadcast(w, i, h);
            && (w'.nonce == w.nonce || w'.nonce == Recycle(w, h.nonce, true).nonce)
            && (w'.cycle == w.cycle || w'.cycle == None)
  {
  }

  lemma SendFloor(cfg: Config, w: World, i: SendInput, c: nat)
    requires FloorOk(w, c)
    ensures FloorOk(Send(cfg, w, i), c)
  {
    hide BuildSignSubmit;
    if Admitted(cfg, i) {
      AllocatedFloor(w, i, c);
      var (w1, n) := Allocated(w, i);
      RecycleFloor(w1, n, c);
      BuildTouchesNonce(cfg, w1, i, n);
    }
  }

  lemma AdvanceFloor(cfg: Config, w: World, id: HandleId, a: AdvanceInput, c: nat)
    requires FloorOk(w, c)
    ensures FloorOk(Advance(cfg, w, id, a), c)
  {
    hide FloorOk, Send, Seen;
    if Tracked(cfg, w, id) && w.cycle.Some? && id in w.hist {
      if IsAwaitingRelay(w.handles[id]) {
        SameFloor(w, PollTask(cfg, w, id, a), c);
      } else {
        AdvanceOnChainFloor(cfg, w, id, a, c);
      }
    }
  }

  lemma SameFloor(w: World, w': World, c: nat)
    requires FloorOk(w, c) && w'.nonce == w.nonce && (w'.cycle == w.cycle || w'.cycle == None)
    ensures FloorOk(w', c)
  {
  }

  lemma AdvanceOnChainFloor(cfg: Config, w: World, id: HandleId, a: AdvanceInput, c: nat)
    requires FloorOk(w, c) && id in w.handles && id in w.hist && w.cycle.Some?
    ensures FloorOk(AdvanceOnChain(cfg, w, id, a), c)
  {
    hide FloorOk, Send, Seen;
    var h, o := w.handles[id], Seen(w, id, a.chain);
    var hi := w.hist[id].(obs := w.hist[id].obs + [o]);
    SameFloor(w, Update(w, h, hi), c);
    match Transition(h.status, o.event, o.view, o.cfg)
    case None =>
    case Some(next) =>
      var h1 := h.(status := Resolved(h, next));
      var w1 := Update(w, h1, hi);
      SameFloor(w, w1, c);
      SameFloor(w, w1.(approvals := w1.approvals - {h1.id}), c);
      if Refilling(cfg, h1) && h1.id in w1.hist {
        SameFloor(w, Counted(w1, h1), c);
        SendFloor(cfg, Counted(w1, h1), RefillInput(h1, a.refill), c);
      }
  }

  /** The floor after a step: raised by a pass that commits a higher mined count. */
  function NextFloor(cfg: Config, w: World, s: Step, c: nat): nat {
    var w' := Apply(cfg, w, s);
    if s.DoBeginCycle? && w'.cycle.Some? then GasOracle.Max(c, w'.cycle.value.minedNonce) else c
  }

  lemma BeginCycleFloor(
    cfg: Config, w: World, block: Answer<nat>, count: Answer<nat>, finalized: Answer<Option<nat>>, reset: bool, c: nat)
    requires FloorOk(w, c)
    ensures FloorOk(BeginCycle(cfg, w, block, count, finalized, reset),
                    NextFloor(cfg, w, DoBeginCycle(block, count, finalized, reset), c))
  {
    var w' := BeginCycle(cfg, w, block, count, finalized, reset);
    if w'.cycle.Some? {
      ResetRetires(w.nonce.value, w'.cycle.value.minedNonce);
    }
  }

  lemma CancelKeepsPool(cfg: Config, w: World, id: HandleId, a: CancelInput)
    ensures CancelTx(cfg, w, id, a).nonce == w.nonce && CancelTx(cfg, w, id, a).cycle == w.cycle
    ensures CancelTx(cfg, w, id, a).lastLatest == w.lastLatest
  {
    hide TryCancel;
    forall v: World, target, basis, approval, attempt: Attempt
      ensures TryCancel(cfg, v, target, basis, approval, a.now, attempt).0.nonce == v.nonce
      ensures TryCancel(cfg, v, target, basis, approval, a.now, attempt).0.cycle == v.cycle
      ensures TryCancel(cfg, v, target, basis, approval, a.now, attempt).0.lastLatest == v.lastLatest
    {
      TryKeepsPool(cfg, v, target, basis, approval, a.now, attempt);
    }
  }

  lemma TryKeepsPool(cfg: Config, w: World, target: TxHandle, basis: Fees, approval: PolicyApproval, now: nat, a: Attempt)
    ensures var (w', _) := TryCancel(cfg, w, target, basis, approval, now, a); w'.nonce == w.nonce && w'.cycle == w.cycle && w'.lastLatest == w.lastLatest
  {
  }

  lemma BumpKeepsPool(cfg: Config, w: World, id: HandleId, a: BumpInput)
    ensures Bump(cfg, w, id, a).nonce == w.nonce && Bump(cfg, w, id, a).cycle == w.cycle
    ensures Bump(cfg, w, id, a).lastLatest == w.lastLatest
  {
  }

  /** No step makes a nonce below the floor available, leaking or not, and a pass raises the floor. */
  lemma StepFloor(cfg: Config, w: World, s: Step, c: nat)
    requires FloorOk(w, c)
    ensures FloorOk(Apply(cfg, w, s), NextFloor(cfg, w, s, c))
  {
    hide FloorOk, Send, BeginCycle, Advance, CancelTx, Bump;
    match s
    case DoSend(i) => SendFloor(cfg, w, i, c);
    case DoTask(_, _, _, _) => SameFloor(w, Apply(cfg, w, s), c);
    case DoCancel(id, a) => CancelKeepsPool(cfg, w, id, a); SameFloor(w, Apply(cfg, w, s), c);
    case DoTrack(_, _) => SameFloor(w, Apply(cfg, w, s), c);
    case DoRestart => SameFloor(w, Apply(cfg, w, s), c);
    case DoRecover(_, _) => SameFloor(w, Apply(cfg, w, s), c);
    case DoBeginCycle(block, count, finalized, reset) => BeginCycleFloor(cfg, w, block, count, finalized, reset, c);
    case DoAdvance(id, a) => AdvanceFloor(cfg, w, id, a, c);
    case DoBump(id, a) => BumpKeepsPool(cfg, w, id, a); SameFloor(w, Apply(cfg, w, s), c);
  }

  // ----- gaps last -----

  lemma BroadcastUsesItsOwn(w: World, i: SendInput, h: TxHandle, n: nat)
    requires h.nonce != n && h.signed.Signed1559? && h.signed.body.nonce == h.nonce && Unused(w, n)
    ensures Unused(Broadcast(w, i, h), n)
  {
    var w1 := Track(w, h, FromSend);
    assert Unused(w1, n);
    var w2 := Submit(w1, BySend, h.id, h.signed, i.route, i.submit);
    assert Unused(w2, n) && Stored(w2, h.id) == Some(h);
    hide Track, Submit;
    ConcludeUsesItsOwn(w2, i, h, n);
  }

  lemma ConcludeUsesItsOwn(w: World, i: SendInput, h: TxHandle, n: nat)
    requires h.nonce != n && Unused(w, n)
    ensures Unused(Conclude(w, i, h), n)
  {
  }

  lemma BuildUsesItsOwn(cfg: Config, w: World, i: SendInput, m: nat, n: nat)
    requires Admitted(cfg, i) && m != n && Unused(w, n)
    ensures Unused(BuildSignSubmit(cfg, w, i, m), n)
  {
    hide Broadcast;
    var approval := i.decision.value.approval;
    var r := SignEncode(SendBody(cfg, i, m), OfIntent(i.intent), approval, i.now, i.key);
    if r.Signed? {
      var w1 := Noted(w, Signs(SendBody(cfg, i, m), i.intent, approval, i.now));
      assert Unused(w1, n);
      BroadcastUsesItsOwn(w1, i, NewHandle(i, m, approval, r.value), n);
    }
  }

  lemma SendKeepsGap(cfg: Config, w: World, i: SendInput, n: nat)
    requires PoolOk(w.nonce) && Gap(w, n)
    ensures Gap(Send(cfg, w, i), n)
  {
    hide BuildSignSubmit;
    if Admitted(cfg, i) {
      var (w1, m) := Allocated(w, i);
      NextNonceIsInPool(w, i);
      AllocateTakesLeast(Reconciled(w.nonce, PendingNonce(i)));
      assert m != n && Reserved(w1, n) && Unused(w1, n);
      ReleaseReturns(w1.nonce.value, m);
      assert Reserved(Recycle(w1, m, true), n);
      BuildTouchesNonce(cfg, w1, i, m);
      BuildUsesItsOwn(cfg, w1, i, m, n);
    }
  }

  /** Overwriting a handle by one that does not newly hold `n`. */
  lemma UpdateKeepsGap(w: World, h: TxHandle, hi: History, n: nat)
    requires Gap(w, n) && (Holds(h) ==> h.nonce != n)
    ensures Gap(Update(w, h, hi), n)
  {
  }

  lemma OnSettledKeepsGap(cfg: Config, w: World, h: TxHandle, i: SendInput, n: nat)
    requires PoolOk(w.nonce) && Gap(w, n) && h.id in w.hist
    ensures Gap(OnSettled(cfg, w, h, i), n)
  {
    hide Send;
    assert Gap(Counted(w, h), n);
    SendKeepsGap(cfg, Counted(w, h), RefillInput(h, i), n);
  }

  lemma AdvanceKeepsGap(cfg: Config, w: World, id: HandleId, a: AdvanceInput, n: nat)
    requires Inv(cfg, w) && PoolOk(w.nonce) && Gap(w, n)
    ensures Gap(Advance(cfg, w, id, a), n)
  {
    hide Inv, OnSettled, Seen;
    if Tracked(cfg, w, id) && w.cycle.Some? && id in w.hist {
      var h, hi := w.handles[id], w.hist[id];
      IdentityAt(cfg, w, id);
      assert Holds(h) ==> h.nonce != n;
      hide Gap;
      if IsAwaitingRelay(h) {
        if a.poll.Ok? && a.poll.value.Included? {
          UpdateKeepsGap(w, h.(broadcasts := h.broadcasts + [a.poll.value.hash], status := Sent),
                         hi.(via := hi.via + [h.route], start := Sent), n);
        } else if a.poll.Ok? && a.poll.value.RelayFailed? {
          var h1 := h.(status := Failed(a.poll.value.reason));
          UpdateKeepsGap(w, h1, hi.(start := h1.status), n);
          OnSettledKeepsGap(cfg, Update(w, h1, hi.(start := h1.status)), h1, a.refill, n);
        }
      } else {
        AdvanceOnChainKeepsGap(cfg, w, id, a, n);
      }
    }
  }

  lemma AdvanceOnChainKeepsGap(cfg: Config, w: World, id: HandleId, a: AdvanceInput, n: nat)
    requires PoolOk(w.nonce) && Gap(w, n) && w.cycle.Some? && Tracked(cfg, w, id) && id in w.hist && w.handles[id].id == id
    ensures Gap(AdvanceOnChain(cfg, w, id, a), n)
  {
    hide OnSettled, Seen;
    var h, o := w.handles[id], Seen(w, id, a.chain);
    var hi := w.hist[id].(obs := w.hist[id].obs + [o]);
    assert Holds(h) ==> h.nonce != n;
    hide Gap;
    UpdateKeepsGap(w, h, hi, n);
    match Transition(h.status, o.event, o.view, o.cfg)
    case None =>
    case Some(next) =>
      var h1 := h.(status := Resolved(h, next));
      UpdateKeepsGap(w, h1, hi, n);
      OnSettledKeepsGap(cfg, Update(w, h1, hi), h1, a.refill, n);
  }

  lemma SubmitKeepsGap(w: World, actor: Actor, id: HandleId, bytes: Encoded, route: Route, outcome: SubmitOutcome, n: nat)
    requires Gap(w, n) && (bytes.Signed1559? ==> bytes.body.nonce != n)
    ensures Gap(Submit(w, actor, id, bytes, route, outcome), n)
  {
  }

  lemma BumpKeepsGap(cfg: Config, w: World, id: HandleId, a: BumpInput, n: nat)
    requires Inv(cfg, w) && Gap(w, n)
    ensures Gap(Bump(cfg, w, id, a), n)
  {
    hide Inv, Replace, GasOracle.Bump;
    if Tracked(cfg, w, id) {
      var h := w.handles[id];
      IdentityAt(cfg, w, id);
      var fees := BumpFees(cfg, h, a.baseFee);
      if fees.Some? && BumpApproval(w, h, fees.value, a).Some? {
        assert Holds(h) && h.nonce != n;
        ReplaceKeepsGap(w, h, fees.value, BumpApproval(w, h, fees.value, a).value, a, n);
      }
    }
  }

  lemma ReplaceKeepsGap(w: World, h: TxHandle, fees: Fees, approval: PolicyApproval, a: BumpInput, n: nat)
    requires Gap(w, n) && h.nonce != n && h.id in w.hist && DecodeFees(h.signed).Some?
    ensures Gap(Replace(w, h, fees, approval, a), n)
  {
    var body := BumpBody(h, fees);
    var r := SignEncode(body, h.intentHash, approval, a.now, a.key);
    if r.Signed? {
      var w1 := Noted(w, Signs(body, h.intent, approval, a.now));
      assert Gap(w1, n);
      SubmitKeepsGap(w1, ByBump, h.id, r.value.encoded, EscalatedRoute(h), a.submit, n);
      var w2 := Submit(w1, ByBump, h.id, r.value.encoded, EscalatedRoute(h), a.submit);
      var h1, hi := Bumped(h, r.value, a.now), w.hist[h.id].(via := w.hist[h.id].via + [EscalatedRoute(h)]);
      UpdateKeepsGap(w2, h1, hi, n);
      assert Gap(Update(w2, h1, hi).(approvals := w2.approvals[h.id := approval]), n);
    }
  }

  lemma TryCancelKeepsGap(cfg: Config, w: World, target: TxHandle, basis: Fees, approval: PolicyApproval, now: nat, a: Attempt, n: nat)
    requires Gap(w, n) && target.nonce != n
    ensures Gap(TryCancel(cfg, w, target, basis, approval, now, a).0, n)
  {
    hide GasOracle.Bump;
    if a.baseFee.Ok? && GasOracle.Bump(basis, a.baseFee.value, cfg.ceiling).Ok? {
      var body := CancelBody(target, GasOracle.Bump(basis, a.baseFee.value, cfg.ceiling).value);
      var r := SignEncode(body, OfIntent(CancelIntent(target)), approval, now, a.key);
      if r.Signed? {
        var w1 := Noted(w, Signs(body, CancelIntent(target), approval, now));
        assert Gap(w1, n);
        SubmitKeepsGap(w1, ByCancel, target.id, r.value.encoded, target.route, a.submit, n);
      }
    }
  }

  lemma CancelPricedKeepsGap(cfg: Config, w: World, target: TxHandle, basis: Fees, approval: PolicyApproval, a: CancelInput, n: nat)
    requires Gap(w, n) && target.nonce != n && Stored(w, target.id) == Some(target)
    ensures Gap(CancelPriced(cfg, w, target, basis, approval, a), n)
  {
    hide TryCancel;
    TryCancelKeepsGap(cfg, w, target, basis, approval, a.now, a.first, n);
    var (w1, _) := TryCancel(cfg, w, target, basis, approval, a.now, a.first);
    TryCancelKeepsGap(cfg, w1, target, basis, approval, a.now, a.second, n);
    var (w2, r) := TryCancelTwice(cfg, w, target, basis, approval, a);
    assert Gap(w2, n);
    hide TryCancelTwice;
    if r.Out? {
      var h := CancelHandle(target, approval, r.tx, a.now);
      UpdateKeepsGap(w2, h, Track(w2, h, FromCancel).hist[h.id], n);
    } else if target.id in w2.handles && target.id in w2.hist {
      UpdateKeepsGap(w2, w2.handles[target.id].(cancelled := false), w2.hist[target.id], n);
    }
  }

  lemma CancelKeepsGap(cfg: Config, w: World, id: HandleId, a: CancelInput, n: nat)
    requires Inv(cfg, w) && Gap(w, n)
    ensures Gap(CancelTx(cfg, w, id, a), n)
  {
    hide Inv, CancelPriced;
    if id in w.handles && !w.handles[id].status.IsTerminal() {
      var h := w.handles[id];
      IdentityAt(cfg, w, id);
      UpdateKeepsGap(w, h.(cancelled := true), w.hist[id], n);
      var w1 := Flag(w, id, true);
      if DecodeFees(h.signed).Some? && a.decision.Ok? && a.decision.value.Allow? {
        CancelPricedKeepsGap(cfg, w1, w1.handles[id], DecodeFees(h.signed).value.fees, a.decision.value.approval, a, n);
      }
    }
  }

  lemma RecoverKeepsGap(cfg: Config, w: World, id: HandleId, outcome: SubmitOutcome, n: nat)
    requires Inv(cfg, w) && Gap(w, n)
    ensures Gap(Recover(cfg, w, id, outcome), n)
  {
    hide Inv;
    if Tracked(cfg, w, id) {
      IdentityAt(cfg, w, id);
      var h := w.handles[id];
      SubmitKeepsGapIfHeld(w, h, outcome, n);
    }
  }

  lemma SubmitKeepsGapIfHeld(w: World, h: TxHandle, outcome: SubmitOutcome, n: nat)
    requires Gap(w, n) && Stored(w, h.id) == Some(h) && !h.status.IsTerminal()
    requires if h.IsTask() then h.signed == Nothing else h.signed.Signed1559? && h.signed.body.nonce == h.nonce
    ensures Gap(Submit(w, ByRecover, h.id, h.signed, h.route, outcome), n)
  {
    assert !h.IsTask() ==> Holds(w.handles[h.id]);
    SubmitKeepsGap(w, ByRecover, h.id, h.signed, h.route, outcome, n);
  }

  lemma BeginCycleKeepsGap(
    cfg: Config, w: World, block: Answer<nat>, count: Answer<nat>, finalized: Answer<Option<nat>>, reset: bool, n: nat)
    requires PoolOk(w.nonce) && Gap(w, n)
    ensures Gap(BeginCycle(cfg, w, block, count, finalized, reset), n)
  {
    var w' := BeginCycle(cfg, w, block, count, finalized, reset);
    if w'.cycle.Some? {
      ResetRetires(w.nonce.value, w'.cycle.value.minedNonce);
    }
  }

  /** Nothing ever fills a gap. */
  lemma StepKeepsGap(cfg: Config, w: World, s: Step, n: nat)
    requires Inv(cfg, w) && PoolOk(w.nonce) && Gap(w, n)
    ensures Gap(Apply(cfg, w, s), n)
  {
    hide Inv, PoolOk, Send, CancelTx, Recover, BeginCycle, Advance, Bump;
    match s
    case DoSend(i) => SendKeepsGap(cfg, w, i, n);
    case DoTask(intent, task, at, wrote) =>
      var h := TaskHandle(intent, task, at);
      UpdateKeepsGap(w, h, Track(w, h, FromTask).hist[h.id], n);
    case DoCancel(id, a) => CancelKeepsGap(cfg, w, id, a, n);
    case DoTrack(_, _) =>
    case DoRestart =>
    case DoRecover(id, outcome) => RecoverKeepsGap(cfg, w, id, outcome, n);
    case DoBeginCycle(block, count, finalized, reset) => BeginCycleKeepsGap(cfg, w, block, count, finalized, reset, n);
    case DoAdvance(id, a) => AdvanceKeepsGap(cfg, w, id, a, n);
    case DoBump(id, a) => BumpKeepsGap(cfg, w, id, a, n);
  }
}
