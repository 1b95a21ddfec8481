/** Whole runs of the wallet: what a tracked transaction carries from step to step, what it takes to
    settle one as confirmed, when a refill happens, and the promises of a run as a whole. */
module WalletRuns {
  import opened Types
  import opened Nonces
  import opened Lifecycle
  import opened Signing
  import opened Executor
  import opened Wallet
  import opened WalletHandles
  import opened WalletNonces

  // ----- what lasts -----

  /** The same tracked transaction later on: identity and approved envelope fixed, broadcasts only added,
      an escalating route at most given up for the public one, a settled one untouched. */
  predicate Continues(h: TxHandle, h': TxHandle) {
    && h'.id == h.id && h'.account == h.account && h'.intent == h.intent && h'.intentHash == h.intentHash
    && h'.nonce == h.nonce && h'.envelope == h.envelope && h'.meta == h.meta
    && h.broadcasts <= h'.broadcasts
    && RouteAllowed(h, h'.route)
    && (h.status.IsTerminal() ==> h' == h)
  }

  /** History only grows, and an id that is not created anew keeps its transaction. */
  ghost predicate Extends(w: World, w': World) {
    && w.live <= w'.live
    && w.log <= w'.log
    && (forall id :: Created(w, id) <= Created(w', id))
    && (forall id | id in w.handles :: id in w'.handles)
    && (forall id | id in w.handles && Created(w', id) == Created(w, id) :: Continues(w.handles[id], w'.handles[id]))
  }

  /** The observations of `id` are as they were, and so is the status they run from once there are any. */
  predicate Unobserved(w: World, w': World, id: HandleId)
    requires id in w.hist
  {
    && id in w'.hist && w'.hist[id].obs == w.hist[id].obs
    && (w.hist[id].obs == [] || w'.hist[id].start == w.hist[id].start)
  }

  /** No handle is newly observed, but perhaps the one excepted. */
  ghost predicate ObservesOnly(w: World, w': World, but: Option<HandleId>) {
    forall id | id in w.hist && Created(w', id) == Created(w, id) && but != Some(id) :: Unobserved(w, w', id)
  }

  /** Nothing new is confirmed, refilled or observed. */
  ghost predicate Settles(w: World, w': World) {
    && ObservesOnly(w, w', None)
    && (forall id | id in w'.handles && w'.handles[id].status.Confirmed? ::
          id in w.handles && w.handles[id].status == w'.handles[id].status)
    && (forall id :: Refilled(w', id) == Refilled(w, id))
  }

  /** No handle's cancelled flag changes, but perhaps the one excepted. */
  ghost predicate FlagsKept(w: World, w': World, but: Option<HandleId>) {
    forall id | id in w.handles && id in w'.handles && Created(w', id) == Created(w, id) && but != Some(id) ::
      w'.handles[id].cancelled == w.handles[id].cancelled
  }

  ghost predicate CalmBut(w: World, w': World, but: Option<HandleId>) {
    Extends(w, w') && Settles(w, w') && FlagsKept(w, w', but)
  }

  ghost predicate Calm(w: World, w': World) {
    CalmBut(w, w', None)
  }

  lemma ExtendsTransitive(w: World, w1: World, w2: World)
    requires Extends(w, w1) && Extends(w1, w2)
    ensures Extends(w, w2)
  {
    forall id | id in w.handles && Created(w2, id) == Created(w, id)
      ensures id in w2.handles && Continues(w.handles[id], w2.handles[id])
    {
      assert Created(w, id) <= Created(w1, id) <= Created(w2, id);
      assert Continues(w.handles[id], w1.handles[id]) && Continues(w1.handles[id], w2.handles[id]);
    }
    forall id ensures Created(w, id) <= Created(w2, id) {
      assert Created(w, id) <= Created(w1, id) <= Created(w2, id);
    }
  }

  lemma FlagsTransitive(w: World, w1: World, w2: World, but: Option<HandleId>)
    requires Extends(w, w1) && Extends(w1, w2) && FlagsKept(w, w1, but) && FlagsKept(w1, w2, but)
    ensures FlagsKept(w, w2, but)
  {
    forall id | id in w.handles && id in w2.handles && Created(w2, id) == Created(w, id) && but != Some(id)
      ensures w2.handles[id].cancelled == w.handles[id].cancelled
    {
      assert Created(w, id) <= Created(w1, id) <= Created(w2, id);
    }
  }

  lemma ObservesTransitive(w: World, w1: World, w2: World, but: Option<HandleId>)
    requires Extends(w, w1) && Extends(w1, w2) && ObservesOnly(w, w1, but) && ObservesOnly(w1, w2, but)
    ensures ObservesOnly(w, w2, but)
  {
    forall id | id in w.hist && Created(w2, id) == Created(w, id) && but != Some(id) ensures Unobserved(w, w2, id) {
      assert Created(w, id) <= Created(w1, id) <= Created(w2, id);
      assert Unobserved(w, w1, id) && Unobserved(w1, w2, id);
    }
  }

  lemma CalmButTransitive(w: World, w1: World, w2: World, but: Option<HandleId>)
    requires CalmBut(w, w1, but) && CalmBut(w1, w2, but)
    ensures CalmBut(w, w2, but)
  {
    ObservesTransitive(w, w1, w2, None);
    hide ObservesOnly;
    FlagsTransitive(w, w1, w2, but);
    hide FlagsKept;
    ExtendsTransitive(w, w1, w2);
    hide Extends;
    forall id ensures Refilled(w2, id) == Refilled(w, id) {
      assert Refilled(w1, id) == Refilled(w, id);
    }
  }

  lemma CalmTransitive(w: World, w1: World, w2: World)
    requires Calm(w, w1) && Calm(w1, w2)
    ensures Calm(w, w2)
  {
    hide CalmBut;
    CalmButTransitive(w, w1, w2, None);
  }

  lemma CalmExcepts(w: World, w': World, id: HandleId)
    requires Calm(w, w')
    ensures CalmBut(w, w', Some(id))
  {
    hide Extends, Settles;
  }

  /** Only nonces, the log and the executor's memory changed. */
  lemma SideIsCalm(w: World, w': World)
    requires w'.handles == w.handles && w'.hist == w.hist && w.live <= w'.live && w.log <= w'.log
    ensures Calm(w, w')
  {
  }

  lemma TrackIsCalm(w: World, h: TxHandle, origin: Origin)
    requires !h.status.IsTerminal()
    ensures Calm(w, Track(w, h, origin))
  {
  }

  lemma UpdateExtends(w: World, h: TxHandle, hi: History)
    requires h.id in w.handles && h.id in w.hist && Continues(w.handles[h.id], h) && hi.created == w.hist[h.id].created
    ensures Extends(w, Update(w, h, hi))
  {
  }

  lemma UpdateIsCalm(w: World, h: TxHandle, hi: History)
    requires h.id in w.handles && h.id in w.hist && Continues(w.handles[h.id], h) && hi.created == w.hist[h.id].created
    requires (h.status.Confirmed? ==> w.handles[h.id].status == h.status) && hi.refilled == w.hist[h.id].refilled
    requires hi.obs == w.hist[h.id].obs && (hi.obs == [] || hi.start == w.hist[h.id].start)
    ensures CalmBut(w, Update(w, h, hi), Some(h.id))
    ensures h.cancelled == w.handles[h.id].cancelled ==> Calm(w, Update(w, h, hi))
  {
    UpdateExtends(w, h, hi);
    hide Extends;
  }

  // ----- send, recover, bump, cancel -----

  lemma BroadcastIsCalm(w: World, i: SendInput, h: TxHandle)
    requires h.status.Pending?
    ensures Calm(w, Broadcast(w, i, h))
  {
    var w1 := Track(w, h, FromSend);
    TrackIsCalm(w, h, FromSend);
    var w2 := Submit(w1, BySend, h.id, h.signed, i.route, i.submit);
    assert Stored(w2, h.id) == Some(h) && h.id in w2.hist && w2.hist[h.id].obs == [];
    assert w2.handles == w1.handles && w2.hist == w1.hist && w1.live <= w2.live && w1.log <= w2.log;
    hide Calm, Track, Submit, Conclude;
    SideIsCalm(w1, Restarted(w1));
    CalmTransitive(w, w1, Restarted(w1));
    SideIsCalm(w1, w2);
    CalmTransitive(w, w1, w2);
    SideIsCalm(w2, Restarted(w2));
    CalmTransitive(w, w2, Restarted(w2));
    ConcludeIsCalm(w2, i, h);
    CalmTransitive(w, w2, Conclude(w2, i, h));
  }

  lemma ConcludeIsCalm(w: World, i: SendInput, h: TxHandle)
    requires Stored(w, h.id) == Some(h) && h.id in w.hist && h.status.Pending? && w.hist[h.id].obs == []
    ensures Calm(w, Conclude(w, i, h))
  {
    hide Calm;
    var status := if i.submit.MayBeLive() then Sent else Failed("rejected");
    UpdateIsCalm(w, h.(status := status), w.hist[h.id].(start := status));
    SideIsCalm(w, w);
    var w1 := if i.settled then Settle(w, h, status) else w;
    SideIsCalm(w1, Restarted(w1));
    SideIsCalm(w1, Recycle(w1, h.nonce, i.released));
    CalmTransitive(w, w1, Restarted(w1));
    CalmTransitive(w, w1, Recycle(w1, h.nonce, i.released));
  }

  lemma BuildIsCalm(cfg: Config, w: World, i: SendInput, n: nat)
    requires Admitted(cfg, i)
    ensures Calm(w, BuildSignSubmit(cfg, w, i, n))
  {
    hide Calm, Broadcast;
    SideIsCalm(w, Recycle(w, n, i.released));
    var approval := i.decision.value.approval;
    var r := SignEncode(SendBody(cfg, i, n), OfIntent(i.intent), approval, i.now, i.key);
    if r.Signed? {
      var w1 := Noted(w, Signs(SendBody(cfg, i, n), i.intent, approval, i.now));
      SideIsCalm(w, w1);
      SideIsCalm(w, Recycle(w1, n, i.released));
      BroadcastIsCalm(w1, i, NewHandle(i, n, approval, r.value));
      CalmTransitive(w, w1, Broadcast(w1, i, NewHandle(i, n, approval, r.value)));
    }
  }

  lemma SendIsCalm(cfg: Config, w: World, i: SendInput)
    ensures Calm(w, Send(cfg, w, i))
  {
    hide Calm, BuildSignSubmit;
    SideIsCalm(w, w);
    SideIsCalm(w, Restarted(w));
    if Admitted(cfg, i) {
      var (w1, n) := Allocated(w, i);
      SideIsCalm(w, w1);
      SideIsCalm(w, Restarted(w1));
      BuildIsCalm(cfg, w1, i, n);
      CalmTransitive(w, w1, BuildSignSubmit(cfg, w1, i, n));
    }
  }

  lemma ReplaceIsCalm(w: World, h: TxHandle, fees: Fees, approval: PolicyApproval, a: BumpInput)
    requires Stored(w, h.id) == Some(h) && h.id in w.hist && !h.status.IsTerminal() && DecodeFees(h.signed).Some?
    ensures Calm(w, Replace(w, h, fees, approval, a))
  {
    hide Calm;
    SideIsCalm(w, w);
    var r := SignEncode(BumpBody(h, fees), h.intentHash, approval, a.now, a.key);
    if r.Signed? {
      var w2 := Submit(Noted(w, Signs(BumpBody(h, fees), h.intent, approval, a.now)), ByBump, h.id, r.value.encoded, EscalatedRoute(h), a.submit);
      SideIsCalm(w, w2);
      var h1, hi := Bumped(h, r.value, a.now), w.hist[h.id].(via := w.hist[h.id].via + [EscalatedRoute(h)]);
      UpdateIsCalm(w2, h1, hi);
      var w3 := Update(w2, h1, hi);
      SideIsCalm(w3, w3.(approvals := w2.approvals[h.id := approval]));
      CalmTransitive(w, w2, w3);
      CalmTransitive(w, w3, w3.(approvals := w2.approvals[h.id := approval]));
    }
  }

  lemma BumpIsCalm(cfg: Config, w: World, id: HandleId, a: BumpInput)
    requires Inv(cfg, w)
    ensures Calm(w, Bump(cfg, w, id, a))
  {
    hide Inv, Calm, Replace, GasOracle.Bump;
    SideIsCalm(w, w);
    if Tracked(cfg, w, id) {
      IdentityAt(cfg, w, id);
      var h := w.handles[id];
      var fees := BumpFees(cfg, h, a.baseFee);
      if fees.Some? && BumpApproval(w, h, fees.value, a).Some? {
        ReplaceIsCalm(w, h, fees.value, BumpApproval(w, h, fees.value, a).value, a);
      }
    }
  }

  lemma CancelPricedIsCalm(cfg: Config, w: World, target: TxHandle, basis: Fees, approval: PolicyApproval, a: CancelInput)
    requires Stored(w, target.id) == Some(target) && target.id in w.hist && !target.status.IsTerminal()
    ensures CalmBut(w, CancelPriced(cfg, w, target, basis, approval, a), Some(target.id))
  {
    hide Calm, CalmBut;
    var (w1, r) := TryCancelTwice(cfg, w, target, basis, approval, a);
    assert w1.handles == w.handles && w1.hist == w.hist && w.live <= w1.live && w.log <= w1.log;
    hide TryCancelTwice;
    SideIsCalm(w, w1);
    CalmExcepts(w, w1, target.id);
    if r.Out? {
      var h := CancelHandle(target, approval, r.tx, a.now);
      TrackIsCalm(w1, h, FromCancel);
      CalmExcepts(w1, Track(w1, h, FromCancel), target.id);
      CalmButTransitive(w, w1, Track(w1, h, FromCancel), Some(target.id));
    } else {
      UpdateIsCalm(w1, target.(cancelled := false), w1.hist[target.id]);
      CalmButTransitive(w, w1, Flag(w1, target.id, false), Some(target.id));
    }
  }

  lemma CancelIsCalm(cfg: Config, w: World, id: HandleId, a: CancelInput)
    requires Inv(cfg, w)
    ensures CalmBut(w, CancelTx(cfg, w, id, a), Some(id))
  {
    hide Inv, Calm, CalmBut, CancelPriced;
    SideIsCalm(w, w);
    CalmExcepts(w, w, id);
    if id in w.handles && !w.handles[id].status.IsTerminal() {
      IdentityAt(cfg, w, id);
      UpdateIsCalm(w, w.handles[id].(cancelled := true), w.hist[id]);
      var w1 := Flag(w, id, true);
      if DecodeFees(w.handles[id].signed).Some? && a.decision.Ok? && a.decision.value.Allow? {
        var fees, approval := DecodeFees(w.handles[id].signed).value.fees, a.decision.value.approval;
        CancelPricedIsCalm(cfg, w1, w1.handles[id], fees, approval, a);
        CalmButTransitive(w, w1, CancelPriced(cfg, w1, w1.handles[id], fees, approval, a), Some(id));
      }
    }
  }

  // ----- confirm -----

  /** No handle is newly confirmed, but perhaps the one under `id` at the block given. */
  ghost predicate ConfirmsOnly(w: World, w': World, id: HandleId, at: Option<nat>) {
    forall other | other in w'.handles && w'.handles[other].status.Confirmed? ::
      || (other in w.handles && w.handles[other].status == w'.handles[other].status)
      || (other == id && at == Some(w'.handles[other].status.block))
  }

  ghost predicate RefillsOnly(w: World, w': World, id: HandleId, n: nat) {
    forall other :: Refilled(w', other) == Refilled(w, other) + (if other == id then n else 0)
  }

  lemma CountedExtends(w: World, h: TxHandle)
    requires h.id in w.hist
    ensures Extends(w, Counted(w, h)) && RefillsOnly(w, Counted(w, h), h.id, 1) && FlagsKept(w, Counted(w, h), None)
    ensures ObservesOnly(w, Counted(w, h), None)
  {
    assert forall id | id in w.handles :: Counted(w, h).handles[id] == w.handles[id];
  }

  lemma OnSettledRuns(cfg: Config, w: World, h: TxHandle, i: SendInput)
    requires h.id in w.hist
    ensures var w' := OnSettled(cfg, w, h, i);
            && Extends(w, w') && ConfirmsOnly(w, w', h.id, None) && FlagsKept(w, w', None) && ObservesOnly(w, w', None)
            && RefillsOnly(w, w', h.id, if Refilling(cfg, h) then 1 else 0)
  {
    if Refilling(cfg, h) {
      var w1 := Counted(w, h);
      CountedExtends(w, h);
      SendIsCalm(cfg, w1, RefillInput(h, i));
      var w2 := Send(cfg, w1, RefillInput(h, i));
      assert w1.handles == w.handles;
      hide Send;
      ExtendsTransitive(w, w1, w2);
      FlagsTransitive(w, w1, w2, None);
      ObservesTransitive(w, w1, w2, None);
      hide Extends, FlagsKept, ObservesOnly;
      forall id ensures Refilled(w2, id) == Refilled(w, id) + (if id == h.id then 1 else 0) {
        assert Refilled(w2, id) == Refilled(w1, id);
      }
    } else {
      SideIsCalm(w, OnSettled(cfg, w, h, i));
    }
  }

  /** The evidence for a confirmation: this pass works from an accepted view, and read of one of the
      handle's recorded broadcasts a successful receipt in block `b`, anchored to the canonical chain and
      final; a self-relayed request also shows its own call succeeding. */
  ghost predicate ConfirmedBy(cfg: Config, w: World, id: HandleId, a: AdvanceInput, b: nat) {
    && Tracked(cfg, w, id) && w.cycle.Some? && a.wrote
    && var c := w.cycle.value;
    && c.view.finalized <= c.view.latest && IsFinal(b, c.view, c.finality)
    && exists i: nat, r, hash :: Anchored(w.handles[id], a.chain, i, r, b, hash) && Succeeded(w.handles[id], r)
  }

  ghost predicate Succeeded(h: TxHandle, r: Receipt) {
    r.success && (h.meta.Some? && h.meta.value.task.None? ==> FirstMatchSucceeds(h.meta.value, r.logs))
  }

  lemma ConfirmationHasEvidence(cfg: Config, w: World, id: HandleId, a: AdvanceInput, b: nat)
    requires Tracked(cfg, w, id) && w.cycle.Some? && a.wrote && CycleOk(w)
    requires var o := Seen(w, id, a.chain); Transition(w.handles[id].status, o.event, o.view, o.cfg) == Some(Confirmed(b))
    ensures ConfirmedBy(cfg, w, id, a, b)
  {
    var h, c, o := w.handles[id], w.cycle.value, Seen(w, id, a.chain);
    assert o.event.OwnMined? && o.event.block == b && o.event.outcome.Executed?;
    EventMeaning(h, c.minedNonce, a.chain);
    assert OwnEvidence(h, a.chain, b, o.event.blockHash, Executed);
    var i: nat, r :| Anchored(h, a.chain, i, r, b, o.event.blockHash) && Executed == OutcomeOf(r, h);
    if h.meta.Some? {
      InnerIsFirstMatch(h.meta.value, r.logs);
    }
    assert Succeeded(h, r);
  }

  /** The block this advance confirms its handle at, if it does. */
  function ConfirmedAt(w: World, id: HandleId, a: AdvanceInput): Option<nat>
    requires id in w.handles && w.cycle.Some?
  {
    var o := Seen(w, id, a.chain);
    match Transition(w.handles[id].status, o.event, o.view, o.cfg)
    case Some(Confirmed(b)) => if a.wrote then Some(b) else None
    case _ => None
  }

  lemma ConfirmedAtHasEvidence(cfg: Config, w: World, id: HandleId, a: AdvanceInput)
    requires Tracked(cfg, w, id) && w.cycle.Some? && CycleOk(w)
    ensures var at := ConfirmedAt(w, id, a); at.Some? ==> ConfirmedBy(cfg, w, id, a, at.value)
  {
    if ConfirmedAt(w, id, a).Some? {
      ConfirmationHasEvidence(cfg, w, id, a, ConfirmedAt(w, id, a).value);
    }
  }

  /** A handle moved by one observation: its history is one longer, and only its status is new. */
  lemma ObservedUpdate(w: World, id: HandleId, status: TxStatus, o: Obs)
    requires id in w.handles && id in w.hist && w.handles[id].id == id && !w.handles[id].status.IsTerminal() && w.cycle.Some?
    requires o.view == w.cycle.value.view && o.cfg == w.cycle.value.finality
    ensures var w' := Update(w, w.handles[id].(status := status), w.hist[id].(obs := w.hist[id].obs + [o]));
            && Extends(w, w') && FlagsKept(w, w', None) && RefillsOnly(w, w', id, 0)
            && ConfirmsOnly(w, w', id, if status.Confirmed? then Some(status.block) else None)
            && ObservesOnly(w, w', Some(id)) && ObservedIn(w, w', id) && Created(w', id) == Created(w, id)
  {
    UpdateExtends(w, w.handles[id].(status := status), w.hist[id].(obs := w.hist[id].obs + [o]));
    hide Extends;
  }

  /** What advancing `id` on chain may do. */
  ghost predicate Advances(cfg: Config, w: World, id: HandleId, a: AdvanceInput, w': World)
    requires id in w.handles && id in w.hist && w.cycle.Some?
  {
    && Extends(w, w') && ConfirmsOnly(w, w', id, ConfirmedAt(w, id, a)) && FlagsKept(w, w', None)
    && RefillsOnly(w, w', id, if Refills(cfg, w, id, a) then 1 else 0)
    && ObservesOnly(w, w', Some(id)) && (Created(w', id) == Created(w, id) ==> ObservedIn(w, w', id))
  }

  lemma AdvanceOnChainRuns(cfg: Config, w: World, id: HandleId, a: AdvanceInput)
    requires Tracked(cfg, w, id) && w.cycle.Some? && id in w.hist && CycleOk(w)
    requires w.handles[id].id == id && !IsAwaitingRelay(w.handles[id])
    ensures Advances(cfg, w, id, a, AdvanceOnChain(cfg, w, id, a))
  {
    hide OnSettled, Extends, FlagsKept, ConfirmsOnly, RefillsOnly, ObservesOnly, ObservedIn;
    var h, o := w.handles[id], Seen(w, id, a.chain);
    var hi := w.hist[id].(obs := w.hist[id].obs + [o]);
    match Transition(h.status, o.event, o.view, o.cfg)
    case None => ObservedUpdate(w, id, h.status, o);
    case Some(next) =>
      if a.wrote {
        var h1 := h.(status := Resolved(h, next));
        var w1 := Update(w, h1, hi);
        ObservedUpdate(w, id, h1.status, o);
        OnSettledRuns(cfg, w1, h1, a.refill);
        ObservedStays(w, w1, OnSettled(cfg, w1, h1, a.refill), id);
        ComposeRuns(w, w1, OnSettled(cfg, w1, h1, a.refill), id, ConfirmedAt(w, id, a),
                    if Refilling(cfg, h1) then 1 else 0);
      } else {
        UnchangedRuns(w, id);
      }
  }

  lemma UnchangedRuns(w: World, id: HandleId)
    requires id in w.hist && w.cycle.Some?
    ensures Extends(w, w) && ConfirmsOnly(w, w, id, None) && FlagsKept(w, w, None) && RefillsOnly(w, w, id, 0)
    ensures ObservesOnly(w, w, Some(id)) && ObservedIn(w, w, id)
  {
    SideIsCalm(w, w);
  }

  /** The observations of `id` are as they were, or one longer by a sight of this pass's view. */
  predicate ObservedIn(w: World, w': World, id: HandleId)
    requires id in w.hist && w.cycle.Some?
  {
    || Unobserved(w, w', id)
    || (&& id in w'.hist && w'.hist[id].start == w.hist[id].start
        && |w'.hist[id].obs| == |w.hist[id].obs| + 1 && w.hist[id].obs <= w'.hist[id].obs
        && w'.hist[id].obs[|w.hist[id].obs|].view == w.cycle.value.view
        && w'.hist[id].obs[|w.hist[id].obs|].cfg == w.cycle.value.finality)
  }

  lemma ObservedStays(w: World, w1: World, w2: World, id: HandleId)
    requires Extends(w, w1) && Extends(w1, w2) && ObservesOnly(w, w1, Some(id)) && ObservesOnly(w1, w2, None)
    requires id in w.hist && w.cycle.Some? && ObservedIn(w, w1, id) && Created(w1, id) == Created(w, id)
    ensures ObservesOnly(w, w2, Some(id)) && (Created(w2, id) == Created(w, id) ==> ObservedIn(w, w2, id))
  {
    assert ObservesOnly(w1, w2, Some(id));
    ObservesTransitive(w, w1, w2, Some(id));
    if Created(w2, id) == Created(w, id) {
      assert Unobserved(w1, w2, id);
    }
  }

  lemma ComposeRuns(w: World, w1: World, w2: World, id: HandleId, at: Option<nat>, n: nat)
    requires Extends(w, w1) && ConfirmsOnly(w, w1, id, at) && RefillsOnly(w, w1, id, 0) && FlagsKept(w, w1, None)
    requires Extends(w1, w2) && ConfirmsOnly(w1, w2, id, None) && RefillsOnly(w1, w2, id, n) && FlagsKept(w1, w2, None)
    ensures Extends(w, w2) && ConfirmsOnly(w, w2, id, at) && RefillsOnly(w, w2, id, n) && FlagsKept(w, w2, None)
  {
    ExtendsTransitive(w, w1, w2);
    FlagsTransitive(w, w1, w2, None);
    hide Extends, FlagsKept;
    forall other ensures Refilled(w2, other) == Refilled(w, other) + (if other == id then n else 0) {
      assert Refilled(w1, other) == Refilled(w, other) + (if other == id then 0 else 0);
    }
  }

  lemma PollTaskRuns(cfg: Config, w: World, id: HandleId, a: AdvanceInput)
    requires Tracked(cfg, w, id) && id in w.hist && w.handles[id].id == id && w.hist[id].obs == []
    ensures Calm(w, PollTask(cfg, w, id, a))
  {
    var h, hi := w.handles[id], w.hist[id];
    SideIsCalm(w, w);
    if a.poll.Ok? && a.poll.value.Included? {
      UpdateIsCalm(w, h.(broadcasts := h.broadcasts + [a.poll.value.hash], status := Sent),
                   hi.(via := hi.via + [h.route], start := Sent));
    } else if a.poll.Ok? && a.poll.value.RelayFailed? {
      var h1 := h.(status := Failed(a.poll.value.reason));
      var w1 := Update(w, h1, hi.(start := h1.status));
      UpdateIsCalm(w, h1, hi.(start := h1.status));
      SideIsCalm(w1, w1.(approvals := w1.approvals - {h1.id}));
      CalmTransitive(w, w1, w1.(approvals := w1.approvals - {h1.id}));
    }
  }

  // ----- one step -----

  ghost predicate ConfirmsBy(cfg: Config, w: World, s: Step, id: HandleId, b: nat) {
    s.DoAdvance? && s.id == id && ConfirmedBy(cfg, w, id, s.advance, b)
  }

  predicate RefillsBy(cfg: Config, w: World, s: Step, id: HandleId) {
    s.DoAdvance? && s.id == id && Refills(cfg, w, id, s.advance)
  }

  /** The handle whose cancelled flag a step may change. */
  function FlaggedBy(s: Step): Option<HandleId> {
    if s.DoCancel? then Some(s.id) else None
  }

  /** What one step may do: histories only grow, a confirmation needs its evidence in that step, a refill
      happens exactly where a displaced transaction not marked cancelled is persisted as replaced, and only
      a cancel changes a mark, of its target. */
  ghost predicate StepRuns(cfg: Config, w: World, s: Step, w': World) {
    && Extends(w, w')
    && (forall id | id in w'.handles && w'.handles[id].status.Confirmed? ::
          || (id in w.handles && w.handles[id].status == w'.handles[id].status)
          || ConfirmsBy(cfg, w, s, id, w'.handles[id].status.block))
    && (forall id :: Refilled(w', id) == Refilled(w, id) + (if RefillsBy(cfg, w, s, id) then 1 else 0))
    && FlagsKept(w, w', FlaggedBy(s))
    && ObservesOnly(w, w', AdvancedBy(s))
    && (forall id | AdvancedBy(s) == Some(id) && id in w.hist && Created(w', id) == Created(w, id) ::
          if w.cycle.Some? then ObservedIn(w, w', id) else Unobserved(w, w', id))
  }

  /** The handle a step may add an observation of. */
  function AdvancedBy(s: Step): Option<HandleId> {
    if s.DoAdvance? then Some(s.id) else None
  }

  lemma CalmStep(cfg: Config, w: World, s: Step, w': World)
    requires CalmBut(w, w', FlaggedBy(s)) && (forall id :: !RefillsBy(cfg, w, s, id))
    ensures StepRuns(cfg, w, s, w')
  {
    hide Extends, FlagsKept, Unobserved;
  }

  lemma AdvanceStepFrom(cfg: Config, w: World, id: HandleId, a: AdvanceInput, w': World)
    requires id in w.handles && id in w.hist && w.cycle.Some? && Advances(cfg, w, id, a, w')
    requires var at := ConfirmedAt(w, id, a); at.Some? ==> ConfirmedBy(cfg, w, id, a, at.value)
    ensures StepRuns(cfg, w, DoAdvance(id, a), w')
  {
    hide Extends, ConfirmedAt, ConfirmedBy, Refills, FlagsKept, ObservesOnly, ObservedIn;
  }

  lemma QuietAdvance(cfg: Config, w: World, id: HandleId, a: AdvanceInput, w': World)
    requires Calm(w, w')
    requires !Tracked(cfg, w, id) || w.cycle.None? || id !in w.hist || IsAwaitingRelay(w.handles[id])
    ensures StepRuns(cfg, w, DoAdvance(id, a), w')
  {
    hide CalmBut, StepRuns;
    CalmStep(cfg, w, DoAdvance(id, a), w');
  }

  lemma AwaitingIsUnobserved(cfg: Config, w: World, id: HandleId)
    requires Inv(cfg, w) && id in w.handles && IsAwaitingRelay(w.handles[id])
    ensures id in w.hist && w.hist[id].obs == []
  {
    GoodAt(cfg, w, id);
  }

  lemma AdvanceStep(cfg: Config, w: World, id: HandleId, a: AdvanceInput)
    requires Inv(cfg, w)
    ensures StepRuns(cfg, w, DoAdvance(id, a), Advance(cfg, w, id, a))
  {
    assert CycleOk(w);
    hide Inv, Calm, StepRuns, PollTask, AdvanceOnChain, ConfirmedAt, ConfirmedBy, Advances;
    if Tracked(cfg, w, id) && w.cycle.Some? && id in w.hist {
      IdentityAt(cfg, w, id);
      if IsAwaitingRelay(w.handles[id]) {
        AwaitingIsUnobserved(cfg, w, id);
        PollTaskRuns(cfg, w, id, a);
        QuietAdvance(cfg, w, id, a, PollTask(cfg, w, id, a));
      } else {
        AdvanceOnChainRuns(cfg, w, id, a);
        ConfirmedAtHasEvidence(cfg, w, id, a);
        AdvanceStepFrom(cfg, w, id, a, AdvanceOnChain(cfg, w, id, a));
      }
    } else {
      SideIsCalm(w, w);
      QuietAdvance(cfg, w, id, a, w);
    }
  }

  lemma StepIsSound(cfg: Config, w: World, s: Step)
    requires Inv(cfg, w)
    ensures StepRuns(cfg, w, s, Apply(cfg, w, s))
  {
    hide Inv, StepRuns, CalmBut, Send, CancelTx, BeginCycle, Advance, Bump;
    if s.DoAdvance? {
      AdvanceStep(cfg, w, s.id, s.advance);
    } else {
      match s {
        case DoSend(i) => SendIsCalm(cfg, w, i);
        case DoTask(intent, task, at, wrote) => TrackIsCalm(w, TaskHandle(intent, task, at), FromTask); SideIsCalm(w, w);
        case DoCancel(id, a) => CancelIsCalm(cfg, w, id, a);
        case DoTrack(id, approval) => SideIsCalm(w, w.(approvals := w.approvals[id := approval]));
        case DoRestart => SideIsCalm(w, Restarted(w));
        case DoRecover(id, outcome) => SideIsCalm(w, Recover(cfg, w, id, outcome));
        case DoBeginCycle(block, count, finalized, reset) => BeginCycleIsCalm(cfg, w, block, count, finalized, reset);
        case DoBump(id, a) => BumpIsCalm(cfg, w, id, a);
      }
      CalmStep(cfg, w, s, Apply(cfg, w, s));
    }
  }

  lemma BeginCycleIsCalm(
    cfg: Config, w: World, block: Answer<nat>, count: Answer<nat>, finalized: Answer<Option<nat>>, reset: bool)
    ensures Calm(w, BeginCycle(cfg, w, block, count, finalized, reset))
  {
    SideIsCalm(w, BeginCycle(cfg, w, block, count, finalized, reset));
  }

  lemma EvidenceIsSeen(w: World, id: HandleId, a: AdvanceInput, i: nat, r: Receipt, b: nat, hash: BlockHash)
    requires id in w.handles && w.cycle.Some?
    requires Anchored(w.handles[id], a.chain, i, r, b, hash) && Succeeded(w.handles[id], r)
    ensures Seen(w, id, a.chain).event == OwnMined(b, hash, Executed)
  {
    var h := w.handles[id];
    if h.meta.Some? {
      InnerIsFirstMatch(h.meta.value, r.logs);
    }
    AnchoredIsReported(h, |h.broadcasts|, w.cycle.value.minedNonce, a.chain, i, r, b, hash);
  }

  /** The converse: with the evidence in hand the advance does confirm. */
  lemma EvidenceConfirms(cfg: Config, w: World, id: HandleId, a: AdvanceInput, b: nat)
    requires Inv(cfg, w) && id in w.hist && ConfirmedBy(cfg, w, id, a, b)
    ensures Stored(Advance(cfg, w, id, a), id) == Some(w.handles[id].(status := Confirmed(b)))
  {
    hide Inv, Anchored, Succeeded, Seen;
    var h := w.handles[id];
    IdentityAt(cfg, w, id);
    var i: nat, r, hash :| Anchored(h, a.chain, i, r, b, hash) && Succeeded(h, r);
    AnchoredHasBroadcast(h, a.chain, i, r, b, hash);
    EvidenceIsSeen(w, id, a, i, r, b, hash);
    SeenConfirms(cfg, w, id, a, b, hash);
  }

  lemma AnchoredHasBroadcast(h: TxHandle, chain: ChainReads, i: nat, r: Receipt, b: nat, hash: BlockHash)
    requires Anchored(h, chain, i, r, b, hash)
    ensures h.broadcasts != []
  {
  }

  lemma SeenConfirms(cfg: Config, w: World, id: HandleId, a: AdvanceInput, b: nat, hash: BlockHash)
    requires Tracked(cfg, w, id) && w.cycle.Some? && id in w.hist && a.wrote
    requires w.handles[id].id == id && w.handles[id].broadcasts != []
    requires Seen(w, id, a.chain).event == OwnMined(b, hash, Executed) && IsFinal(b, w.cycle.value.view, w.cycle.value.finality)
    ensures Stored(Advance(cfg, w, id, a), id) == Some(w.handles[id].(status := Confirmed(b)))
  {
    hide EventFor, Send, IsFinal;
    var h, o := w.handles[id], Seen(w, id, a.chain);
    assert Transition(h.status, o.event, o.view, o.cfg) == Some(Confirmed(b));
  }

  // ----- what a send and a refill touch -----

  predicate SameAt(w: World, w': World, id: HandleId) {
    Stored(w', id) == Stored(w, id) && Created(w', id) == Created(w, id)
  }

  lemma SendTouchesOneId(cfg: Config, w: World, i: SendInput, id: HandleId)
    requires id != HandleId(OfIntent(i.intent), Allocated(w, i).1)
    ensures SameAt(w, Send(cfg, w, i), id)
  {
    hide Broadcast, Allocate;
    var (w1, n) := Allocated(w, i);
    if Admitted(cfg, i) {
      var approval := i.decision.value.approval;
      var r := SignEncode(SendBody(cfg, i, n), OfIntent(i.intent), approval, i.now, i.key);
      if r.Signed? {
        var h := NewHandle(i, n, approval, r.value);
        assert h.id != id;
        BroadcastTouchesOneId(Noted(w1, Signs(SendBody(cfg, i, n), i.intent, approval, i.now)), i, h, id);
      }
    }
  }

  lemma BroadcastTouchesOneId(w: World, i: SendInput, h: TxHandle, id: HandleId)
    requires id != h.id
    ensures SameAt(w, Broadcast(w, i, h), id)
  {
    var w1 := Track(w, h, FromSend);
    assert SameAt(w, w1, id);
    var w2 := Submit(w1, BySend, h.id, h.signed, i.route, i.submit);
    assert SameAt(w, w2, id);
    hide Track, Submit;
    ConcludeTouchesOneId(w2, i, h, id);
    assert SameAt(w1, Restarted(w1), id) && SameAt(w2, Restarted(w2), id);
  }

  lemma ConcludeTouchesOneId(w: World, i: SendInput, h: TxHandle, id: HandleId)
    requires id != h.id
    ensures SameAt(w, Conclude(w, i, h), id)
  {
  }

  /** A send leaves every unsettled transaction signed here as it is: it takes a nonce none of them holds. */
  lemma SendLeavesHoldersAlone(cfg: Config, w: World, i: SendInput, id: HandleId)
    requires Inv(cfg, w) && NonceOk(w) && id in w.handles && Holds(w.handles[id])
    ensures SameAt(w, Send(cfg, w, i), id)
  {
    hide Inv, NonceOk, BuildSignSubmit;
    if Admitted(cfg, i) && Allocates(w, i) {
      IdentityAt(cfg, w, id);
      AllocatedIsFresh(w, i);
      HolderReserved(w, id);
      SendTouchesOneId(cfg, w, i, id);
    }
  }

  lemma OnSettledTouches(cfg: Config, w: World, h: TxHandle, i: SendInput, id: HandleId)
    requires h.id in w.hist
    requires Refilling(cfg, h) ==> id != HandleId(OfIntent(h.intent), Allocated(w, RefillInput(h, i)).1)
    ensures SameAt(w, OnSettled(cfg, w, h, i), id)
  {
    if Refilling(cfg, h) {
      hide Send;
      SendTouchesOneId(cfg, Counted(w, h), RefillInput(h, i), id);
    }
  }

  /** The nonce an advance's refill takes is held by no unsettled transaction signed here, the displaced
      one included: so its child has another nonce and another id, and the pass over the pending handles
      sees each of the others as it was when the pass began. */
  lemma AdvanceTouchesOnlyItsOwn(cfg: Config, w: World, id: HandleId, a: AdvanceInput, other: HandleId)
    requires Inv(cfg, w) && NonceOk(w) && Tracked(cfg, w, id)
    requires other in w.handles && Holds(w.handles[other])
    ensures other != id ==> SameAt(w, Advance(cfg, w, id, a), other)
    ensures Created(Advance(cfg, w, id, a), other) == Created(w, other)
    ensures Refills(cfg, w, id, a) ==> Allocated(w, RefillInput(w.handles[id], a.refill)).1 != w.handles[other].nonce
  {
    hide Inv, NonceOk, Reserved, Allocated, PollTask, AdvanceOnChain, PoolOk;
    IdentityAt(cfg, w, other);
    IdentityAt(cfg, w, id);
    HolderReserved(w, other);
    NextNonceIsInPool(w, RefillInput(w.handles[id], a.refill));
    if w.cycle.Some? {
      if IsAwaitingRelay(w.handles[id]) {
        PollTouches(cfg, w, id, a, other);
      } else {
        AdvanceOnChainTouches(cfg, w, id, a, other);
      }
    }
  }

  lemma PollTouches(cfg: Config, w: World, id: HandleId, a: AdvanceInput, other: HandleId)
    requires id in w.handles && id in w.hist && w.handles[id].id == id
    ensures other != id ==> SameAt(w, PollTask(cfg, w, id, a), other)
    ensures Created(PollTask(cfg, w, id, a), other) == Created(w, other)
  {
  }

  lemma AdvanceOnChainTouches(cfg: Config, w: World, id: HandleId, a: AdvanceInput, other: HandleId)
    requires id in w.handles && id in w.hist && w.cycle.Some? && w.handles[id].id == id
    requires other.nonce != Allocated(w, RefillInput(w.handles[id], a.refill)).1
    ensures other != id ==> SameAt(w, AdvanceOnChain(cfg, w, id, a), other)
    ensures Created(AdvanceOnChain(cfg, w, id, a), other) == Created(w, other)
  {
    var h, o := w.handles[id], Seen(w, id, a.chain);
    var hi := w.hist[id].(obs := w.hist[id].obs + [o]);
    match Transition(h.status, o.event, o.view, o.cfg)
    case None =>
    case Some(next) =>
      var h1 := h.(status := Resolved(h, next));
      hide Send, Allocate;
      OnSettledTouches(cfg, Update(w, h1, hi), h1, a.refill, other);
  }
}
