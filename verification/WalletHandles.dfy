/** What every step keeps of every tracked transaction, its history and the effect log. */
module WalletHandles {
  import opened Types
  import opened Lifecycle
  import opened Signing
  import opened Executor
  import opened Wallet

  // ----- the invariant -----

  function FeesAt(b: TxHash): Fees {
    if b.HashOf? then b.body.fees else Fees(0, 0)
  }

  function FeesOf(bs: seq<TxHash>): seq<Fees> {
    seq(|bs|, i requires 0 <= i < |bs| => FeesAt(bs[i]))
  }

  predicate Identified(cfg: Config, id: HandleId, h: TxHandle) {
    && h.id == id == HandleId(h.intentHash, h.nonce)
    && h.intentHash == OfIntent(h.intent)
    && h.account == h.intent.account && (h.IsTask() || h.account == cfg.account)
  }

  /** A signed version of the handle's own transaction: same chain, nonce, gas limit, target, value and
      input as the stored one, at whatever fees. */
  predicate VersionOf(h: TxHandle, b: TxHash) {
    && b.HashOf? && h.signed.Signed1559?
    && b.body == BuildTx(h.intent, h.nonce, h.signed.body.gasLimit, b.body.fees)
  }

  /** A handle of a transaction signed here. */
  ghost predicate Ordinary(h: TxHandle) {
    && h.broadcasts != []
    && h.signed.Signed1559?
    && h.broadcasts[|h.broadcasts| - 1] == HashOf(h.signed.body, h.signed.sig)
    && (forall i | 0 <= i < |h.broadcasts| :: VersionOf(h, h.broadcasts[i]))
    && GasOracle.Climbs(FeesOf(h.broadcasts))
    && (forall i | 0 <= i < |h.broadcasts| :: h.envelope.Admits(FeesAt(h.broadcasts[i])))
  }

  ghost predicate HandleOk(cfg: Config, id: HandleId, h: TxHandle) {
    && Identified(cfg, id, h)
    && (if h.IsTask() then h.signed == Nothing && h.route == Public && h.nonce == GasOracle.Min(h.meta.value.nonce, U64_MAX)
        else Ordinary(h))
  }

  /** The first `k` broadcasts went the first route, the later ones went public. */
  predicate SplitAt(via: seq<Route>, first: Route, k: nat) {
    && k <= |via|
    && (forall i | 0 <= i < k :: via[i] == first)
    && (forall i | k <= i < |via| :: via[i] == Public)
  }

  predicate Escalates(r: Route) {
    r.Private? && r.via.escalation.PublicAfter?
  }

  /** Only an escalating route is ever left, only for the public one, and only after at most the larger
      of its cycles and one recorded private broadcasts. */
  ghost predicate RouteOk(h: TxHandle, hi: History) {
    && |hi.via| == |h.broadcasts|
    && (!Escalates(hi.route) ==> h.route == hi.route && SplitAt(hi.via, hi.route, |hi.via|))
    && (Escalates(hi.route) ==>
          && (h.route == hi.route ==> PrivatelySent(hi, |hi.via|))
          && (h.route != hi.route ==> h.route == Public && LeftInTime(hi)))
  }

  /** The private route was left after exactly the larger of its cycles and one private broadcasts. */
  predicate LeftInTime(hi: History) {
    Escalates(hi.route) && PrivatelySent(hi, GasOracle.Max(hi.route.via.escalation.cycles, 1))
  }

  predicate PrivatelySent(hi: History, k: nat) {
    Escalates(hi.route) && SplitAt(hi.via, hi.route, k) && k <= GasOracle.Max(hi.route.via.escalation.cycles, 1)
  }

  /** The stored status is the lifecycle's run over the observations that were persisted; a dropped
      handle is a cancelled one whose run ended replaced. */
  predicate StatusOk(h: TxHandle, hi: History) {
    && (hi.start.Pending? || hi.start.Sent? || (hi.start.Failed? && hi.obs == []))
    && (if h.status.Dropped? then h.cancelled && Lifecycle.Run(hi.start, hi.obs) == Replaced
        else h.status == Lifecycle.Run(hi.start, hi.obs))
    && (h.broadcasts == [] ==> hi.obs == [])
  }

  predicate CountsOk(h: TxHandle, hi: History) {
    hi.refilled + (if h.status.IsTerminal() then 0 else 1) <= hi.created
  }

  ghost predicate Good(cfg: Config, id: HandleId, h: TxHandle, hi: History) {
    && HandleOk(cfg, id, h)
    && (hi.origin.FromTask? <==> h.IsTask())
    && (hi.origin.FromTask? ==> hi.route == Public)
    && RouteOk(h, hi)
    && StatusOk(h, hi)
    && CountsOk(h, hi)
  }

  ghost predicate HandlesOk(cfg: Config, w: World) {
    && w.hist.Keys == w.handles.Keys
    && forall id | id in w.handles :: Good(cfg, id, w.handles[id], w.hist[id])
  }

  predicate RouteAllowed(h: TxHandle, route: Route) {
    route == h.route || (Escalates(h.route) && route == Public)
  }

  /** A body that can displace the target: its chain and nonce, nothing sent to its own account, at the gas
      of a plain transfer, each fee above the stored one unless that is the largest there is. */
  predicate Displaces(target: TxHandle, body: TxBody) {
    && body.chainId == target.intent.chainId && body.nonce == target.nonce
    && body.to == TxKind.Call(target.account) && body.value == 0 && body.input == [] && body.gasLimit == 21_000
    && target.signed.Signed1559?
    && (body.fees.maxFee > target.signed.body.fees.maxFee || target.signed.body.fees.maxFee == U128_MAX)
    && (body.fees.tip > target.signed.body.fees.tip || target.signed.body.fees.tip == U128_MAX)
  }

  /** What may leave the wallet: a signature over a body built from an intent whose unexpired, admitting
      approval binds it; and a submission for an unsettled stored handle, at its nonce and on its route,
      which is byte for byte the stored transaction when a send or a recovery makes it. */
  predicate EffectOk(e: Effect) {
    match e
    case Signs(body, intent, approval, now) =>
      && Authorized(body, OfIntent(intent), approval, now)
      && body == BuildTx(intent, body.nonce, body.gasLimit, body.fees)
    case Submits(actor, id, bytes, route, _, stored) =>
      && stored.Some? && stored.value.id == id && !stored.value.status.IsTerminal()
      && bytes.Signed1559? && bytes.body.nonce == stored.value.nonce
      && RouteAllowed(stored.value, route)
      && match actor {
           case BySend | ByRecover => bytes == stored.value.signed && route == stored.value.route
           case ByBump => VersionOf(stored.value, HashOf(bytes.body, bytes.sig)) && stored.value.envelope.Admits(bytes.body.fees)
           case ByCancel => route == stored.value.route && Displaces(stored.value, bytes.body)
         }
  }

  predicate LogOk(w: World) {
    forall e | e in w.log :: EffectOk(e)
  }

  predicate CycleOk(w: World) {
    w.cycle.Some? ==> w.cycle.value.view.finalized <= w.cycle.value.view.latest == w.lastLatest
  }

  ghost predicate Inv(cfg: Config, w: World) {
    HandlesOk(cfg, w) && LogOk(w) && CycleOk(w)
  }

  lemma GoodAt(cfg: Config, w: World, id: HandleId)
    requires Inv(cfg, w) && id in w.handles
    ensures id in w.hist && Good(cfg, id, w.handles[id], w.hist[id])
  {
  }

  /** The plain facts about a stored handle that most arguments need. */
  lemma IdentityAt(cfg: Config, w: World, id: HandleId)
    requires Inv(cfg, w) && id in w.handles
    ensures id in w.hist && Identified(cfg, id, w.handles[id])
    ensures if w.handles[id].IsTask()
            then w.handles[id].signed == Nothing && w.handles[id].nonce == GasOracle.Min(w.handles[id].meta.value.nonce, U64_MAX)
            else w.handles[id].signed.Signed1559? && w.handles[id].signed.body.nonce == w.handles[id].nonce
                 && w.handles[id].broadcasts != []
  {
    GoodAt(cfg, w, id);
    var h := w.handles[id];
    if !h.IsTask() {
      assert VersionOf(h, h.broadcasts[|h.broadcasts| - 1]);
    }
  }

  // ----- elementary changes -----

  lemma HistoryKeeps(cfg: Config, w: World, id: HandleId, hi: History)
    requires Inv(cfg, w) && id in w.handles && Good(cfg, id, w.handles[id], hi)
    ensures Inv(cfg, w.(hist := w.hist[id := hi]))
  {
  }

  lemma UpdateKeeps(cfg: Config, w: World, h: TxHandle, hi: History)
    requires Inv(cfg, w) && Good(cfg, h.id, h, hi)
    ensures Inv(cfg, Update(w, h, hi))
  {
  }

  lemma EffectKeeps(cfg: Config, w: World, w': World, e: Effect)
    requires Inv(cfg, w) && EffectOk(e)
    requires w'.handles == w.handles && w'.hist == w.hist && w'.cycle == w.cycle && w'.lastLatest == w.lastLatest
    requires w'.log == w.log + [e]
    ensures Inv(cfg, w')
  {
  }

  /** Nonces and the executor's memory are no part of the invariant, but for the cycle's head. */
  lemma SideKeeps(cfg: Config, w: World)
    requires Inv(cfg, w)
    ensures Inv(cfg, Restarted(w))
    ensures forall n: nat, ok :: Inv(cfg, Recycle(w, n, ok))
    ensures forall v :: Inv(cfg, w.(nonce := v))
    ensures forall a :: Inv(cfg, w.(approvals := a))
  {
  }

  lemma NewGood(cfg: Config, h: TxHandle, hi: History)
    requires HandleOk(cfg, h.id, h) && (hi.origin.FromTask? <==> h.IsTask())
    requires (h.status.Pending? || h.status.Sent?) && hi.start == h.status && hi.obs == []
    requires |h.broadcasts| <= 1 && hi.route == h.route && hi.via == (if h.broadcasts == [] then [] else [h.route])
    requires hi.refilled < hi.created
    ensures Good(cfg, h.id, h, hi)
  {
    hide Ordinary;
    assert SplitAt(hi.via, hi.route, |hi.via|);
  }

  /** Of any id, refills never outnumber creations. */
  lemma CountsAt(cfg: Config, w: World, id: HandleId)
    requires Inv(cfg, w)
    ensures Refilled(w, id) <= Created(w, id)
  {
    if id in w.handles {
      assert Good(cfg, id, w.handles[id], w.hist[id]);
    }
  }

  lemma TrackKeeps(cfg: Config, w: World, h: TxHandle, origin: Origin)
    requires Inv(cfg, w) && HandleOk(cfg, h.id, h) && (origin.FromTask? <==> h.IsTask())
    requires h.status.Pending? || h.status.Sent?
    requires |h.broadcasts| <= 1
    ensures Inv(cfg, Track(w, h, origin))
  {
    hide Inv, HandleOk, Good;
    var hi := Track(w, h, origin).hist[h.id];
    CountsAt(cfg, w, h.id);
    NewGood(cfg, h, hi);
    UpdateKeeps(cfg, w, h, hi);
  }

  // ----- send -----

  lemma SignedHandleOk(
    cfg: Config, h: TxHandle, gasLimit: nat, fees: Fees, approval: PolicyApproval, now: nat, key: Answer<nat>)
    requires Identified(cfg, h.id, h) && !h.IsTask()
    requires var r := SignEncode(BuildTx(h.intent, h.nonce, gasLimit, fees), h.intentHash, approval, now, key);
             r.Signed? && h.signed == r.value.encoded && h.broadcasts == [r.value.hash]
    requires h.envelope == approval.envelope
    ensures HandleOk(cfg, h.id, h)
  {
    assert FeesOf(h.broadcasts) == [fees];
  }

  lemma SettledGood(cfg: Config, id: HandleId, h: TxHandle, hi: History, status: TxStatus)
    requires Good(cfg, id, h, hi) && h.status.Pending? && hi.obs == [] && (status.Sent? || status.Failed?)
    ensures Good(cfg, id, h.(status := status), hi.(start := status))
  {
    SameRoute(h, hi, h.(status := status), hi.(start := status));
    OrdinaryIgnoresStatus(h, status);
  }

  lemma SettleKeeps(cfg: Config, w: World, h: TxHandle, status: TxStatus)
    requires Inv(cfg, w) && Stored(w, h.id) == Some(h) && h.status.Pending? && h.id in w.hist && w.hist[h.id].obs == []
    requires status.Sent? || status.Failed?
    ensures Inv(cfg, Settle(w, h, status))
  {
    hide Inv, Good;
    GoodAt(cfg, w, h.id);
    SettledGood(cfg, h.id, h, w.hist[h.id], status);
    UpdateKeeps(cfg, w, h.(status := status), w.hist[h.id].(start := status));
  }

  lemma PersistAndSubmitKeeps(cfg: Config, w: World, i: SendInput, h: TxHandle)
    requires Inv(cfg, w) && HandleOk(cfg, h.id, h) && !h.IsTask() && h.status.Pending? && |h.broadcasts| == 1
    requires h.route == i.route
    ensures Inv(cfg, Track(w, h, FromSend))
    ensures Inv(cfg, Submit(Track(w, h, FromSend), BySend, h.id, h.signed, i.route, i.submit))
  {
    var w1 := Track(w, h, FromSend);
    TrackKeeps(cfg, w, h, FromSend);
    assert VersionOf(h, h.broadcasts[0]);
    hide Inv, HandleOk, VersionOf;
    var w2 := Submit(w1, BySend, h.id, h.signed, i.route, i.submit);
    EffectKeeps(cfg, w1, w2, Submits(BySend, h.id, h.signed, i.route, i.submit, Some(h)));
  }

  lemma BroadcastKeeps(cfg: Config, w: World, i: SendInput, h: TxHandle)
    requires Inv(cfg, w) && HandleOk(cfg, h.id, h) && !h.IsTask() && h.status.Pending? && |h.broadcasts| == 1
    requires h.route == i.route
    ensures Inv(cfg, Broadcast(w, i, h))
  {
    hide HandlesOk, LogOk, HandleOk;
    PersistAndSubmitKeeps(cfg, w, i, h);
    var w2 := Submit(Track(w, h, FromSend), BySend, h.id, h.signed, i.route, i.submit);
    SettleKeeps(cfg, w2, h, Sent);
    SettleKeeps(cfg, w2, h, Failed("rejected"));
    SideKeeps(cfg, w2);
    SideKeeps(cfg, Settle(w2, h, Sent));
    SideKeeps(cfg, Settle(w2, h, Failed("rejected")));
    SideKeeps(cfg, Track(w, h, FromSend));
  }

  lemma SendKeeps(cfg: Config, w: World, i: SendInput)
    requires Inv(cfg, w)
    ensures Inv(cfg, Send(cfg, w, i))
  {
    if Admitted(cfg, i) && !i.crash.BeforeAllocate? && Allocates(w, i) && !i.crash.AfterAllocate? {
      var (w1, n) := Allocated(w, i);
      BuildSignSubmitKeeps(cfg, w1, i, n);
    }
  }

  lemma BuildSignSubmitKeeps(cfg: Config, w: World, i: SendInput, n: nat)
    requires Inv(cfg, w) && Admitted(cfg, i)
    ensures Inv(cfg, BuildSignSubmit(cfg, w, i, n))
  {
    var approval := i.decision.value.approval;
    var body := SendBody(cfg, i, n);
    var r := SignEncode(body, OfIntent(i.intent), approval, i.now, i.key);
    if r.Signed? {
      var e := Signs(body, i.intent, approval, i.now);
      EffectKeeps(cfg, w, Noted(w, e), e);
      var h := NewHandle(i, n, approval, r.value);
      SignedHandleOk(cfg, h, body.gasLimit, body.fees, approval, i.now, i.key);
      BroadcastKeeps(cfg, Noted(w, e), i, h);
    }
  }

  // ----- recover and confirm -----

  lemma RecoverKeeps(cfg: Config, w: World, id: HandleId, outcome: SubmitOutcome)
    requires Inv(cfg, w)
    ensures Inv(cfg, Recover(cfg, w, id, outcome))
  {
    if Tracked(cfg, w, id) && w.handles[id].signed != Nothing {
      var h := w.handles[id];
      assert Good(cfg, id, h, w.hist[id]);
      assert VersionOf(h, h.broadcasts[|h.broadcasts| - 1]);
      hide Inv, HandlesOk, Good, VersionOf;
      EffectKeeps(cfg, w, Submit(w, ByRecover, id, h.signed, h.route, outcome),
                  Submits(ByRecover, id, h.signed, h.route, outcome, Some(h)));
    }
  }

  lemma ObservedStatus(h: TxHandle, hi: History, o: Obs)
    requires StatusOk(h, hi) && !h.status.IsTerminal() && h.broadcasts != []
    ensures var status := Resolved(h, Next(h.status, o));
            StatusOk(h.(status := status), hi.(obs := hi.obs + [o]))
  {
    RunSnoc(hi.start, hi.obs, o);
    assert !hi.start.Failed?;
  }

  lemma AdvancedGood(cfg: Config, id: HandleId, h: TxHandle, hi: History, o: Obs)
    requires Good(cfg, id, h, hi) && !h.status.IsTerminal() && h.broadcasts != []
    ensures Good(cfg, id, h.(status := Resolved(h, Next(h.status, o))), hi.(obs := hi.obs + [o]))
  {
    ObservedStatus(h, hi, o);
    SameRoute(h, hi, h.(status := Resolved(h, Next(h.status, o))), hi.(obs := hi.obs + [o]));
    OrdinaryIgnoresStatus(h, Resolved(h, Next(h.status, o)));
  }

  lemma OrdinaryIgnoresStatus(h: TxHandle, status: TxStatus)
    ensures Ordinary(h) <==> Ordinary(h.(status := status))
  {
    var h' := h.(status := status);
    assert forall b :: VersionOf(h, b) <==> VersionOf(h', b);
  }

  lemma SameRoute(h: TxHandle, hi: History, h': TxHandle, hi': History)
    requires RouteOk(h, hi) && h'.route == h.route && h'.broadcasts == h.broadcasts && hi'.route == hi.route && hi'.via == hi.via
    ensures RouteOk(h', hi')
  {
  }

  function Counted(w: World, h: TxHandle): World
    requires h.id in w.hist
  {
    var hi := w.hist[h.id];
    w.(approvals := w.approvals - {h.id}, hist := w.hist[h.id := hi.(refilled := hi.refilled + 1)])
  }

  lemma CountedGood(cfg: Config, id: HandleId, h: TxHandle, hi: History)
    requires Good(cfg, id, h, hi) && h.status.IsTerminal() && hi.refilled + 1 <= hi.created
    ensures Good(cfg, id, h, hi.(refilled := hi.refilled + 1))
  {
    SameRoute(h, hi, h, hi.(refilled := hi.refilled + 1));
  }

  lemma CountedKeeps(cfg: Config, w: World, h: TxHandle)
    requires Inv(cfg, w) && Stored(w, h.id) == Some(h) && h.status.IsTerminal()
    requires h.id in w.hist && w.hist[h.id].refilled + 1 <= w.hist[h.id].created
    ensures Inv(cfg, Counted(w, h))
  {
    hide Inv, Good;
    GoodAt(cfg, w, h.id);
    var hi := w.hist[h.id].(refilled := w.hist[h.id].refilled + 1);
    CountedGood(cfg, h.id, h, w.hist[h.id]);
    HistoryKeeps(cfg, w, h.id, hi);
    SideKeeps(cfg, w.(hist := w.hist[h.id := hi]));
  }

  lemma OnSettledKeeps(cfg: Config, w: World, h: TxHandle, i: SendInput)
    requires Inv(cfg, w) && Stored(w, h.id) == Some(h) && h.status.IsTerminal()
    requires h.id in w.hist && w.hist[h.id].refilled + 1 <= w.hist[h.id].created
    ensures Inv(cfg, OnSettled(cfg, w, h, i))
  {
    hide Inv, Send;
    SideKeeps(cfg, w);
    CountedKeeps(cfg, w, h);
    SendKeeps(cfg, Counted(w, h), RefillInput(h, i));
  }

  lemma UnsettledCounts(cfg: Config, id: HandleId, h: TxHandle, hi: History)
    requires Good(cfg, id, h, hi) && !h.status.IsTerminal()
    ensures h.id == id && hi.refilled + 1 <= hi.created && (h.broadcasts == [] ==> IsAwaitingRelay(h))
  {
  }

  lemma AdvanceOnChainKeeps(cfg: Config, w: World, id: HandleId, a: AdvanceInput)
    requires Inv(cfg, w) && Tracked(cfg, w, id) && w.cycle.Some? && id in w.hist && !IsAwaitingRelay(w.handles[id])
    ensures Inv(cfg, AdvanceOnChain(cfg, w, id, a))
  {
    hide Inv, Good, Seen;
    var h, hi, o := w.handles[id], w.hist[id], Seen(w, id, a.chain);
    var h1, hi1 := h.(status := Resolved(h, Next(h.status, o))), hi.(obs := hi.obs + [o]);
    GoodAt(cfg, w, id);
    UnsettledCounts(cfg, id, h, hi);
    AdvancedGood(cfg, id, h, hi, o);
    UpdateKeeps(cfg, w, h1, hi1);
    if Transition(h.status, o.event, o.view, o.cfg).Some? && h1.status.IsTerminal() {
      OnSettledKeeps(cfg, Update(w, h1, hi1), h1, a.refill);
    }
  }

  lemma PolledGood(cfg: Config, id: HandleId, h: TxHandle, hi: History, hash: TxHash)
    requires Good(cfg, id, h, hi) && !h.status.IsTerminal() && IsAwaitingRelay(h)
    ensures Good(cfg, id, h.(broadcasts := h.broadcasts + [hash], status := Sent), hi.(via := hi.via + [h.route], start := Sent))
  {
    assert hi.obs == [];
    assert hi.route == Public;
  }

  lemma PollTaskKeeps(cfg: Config, w: World, id: HandleId, a: AdvanceInput)
    requires Inv(cfg, w) && Tracked(cfg, w, id) && id in w.hist && IsAwaitingRelay(w.handles[id])
    ensures Inv(cfg, PollTask(cfg, w, id, a))
  {
    var h, hi := w.handles[id], w.hist[id];
    assert Good(cfg, id, h, hi);
    if a.poll.Ok? && a.poll.value.Included? {
      PolledGood(cfg, id, h, hi, a.poll.value.hash);
      UpdateKeeps(cfg, w, h.(broadcasts := h.broadcasts + [a.poll.value.hash], status := Sent),
                  hi.(via := hi.via + [h.route], start := Sent));
    }
    if a.poll.Ok? && a.poll.value.RelayFailed? {
      var h1 := h.(status := Failed(a.poll.value.reason));
      SameRoute(h, hi, h1, hi.(start := h1.status));
      UpdateKeeps(cfg, w, h1, hi.(start := h1.status));
      OnSettledKeeps(cfg, Update(w, h1, hi.(start := h1.status)), h1, a.refill);
    }
  }

  lemma AdvanceKeeps(cfg: Config, w: World, id: HandleId, a: AdvanceInput)
    requires Inv(cfg, w)
    ensures Inv(cfg, Advance(cfg, w, id, a))
  {
    hide Inv, AdvanceOnChain, PollTask;
    if Tracked(cfg, w, id) && w.cycle.Some? && id in w.hist {
      if IsAwaitingRelay(w.handles[id]) {
        PollTaskKeeps(cfg, w, id, a);
      } else {
        AdvanceOnChainKeeps(cfg, w, id, a);
      }
    }
  }

  lemma BeginCycleKeeps(
    cfg: Config, w: World, block: Answer<nat>, count: Answer<nat>, finalized: Answer<Option<nat>>, reset: bool)
    requires Inv(cfg, w)
    ensures Inv(cfg, BeginCycle(cfg, w, block, count, finalized, reset))
  {
  }

  // ----- escalate -----

  lemma RouteExtended(h: TxHandle, hi: History, h': TxHandle, hi': History)
    requires RouteOk(h, hi) && h.broadcasts != []
    requires h'.route == EscalatedRoute(h) && |h'.broadcasts| == |h.broadcasts| + 1
    requires hi'.route == hi.route && hi'.via == hi.via + [h'.route]
    ensures RouteOk(h', hi')
  {
    if Escalates(hi.route) {
      if h'.route == hi.route {
        assert PrivatelySent(hi', |hi'.via|);
      } else if h.route == hi.route {
        assert |hi.via| == GasOracle.Max(hi.route.via.escalation.cycles, 1);
      }
    }
  }

  lemma FeesExtended(bs: seq<TxHash>, b: TxHash)
    requires bs != [] && b.HashOf? && GasOracle.Climbs(FeesOf(bs)) && GasOracle.RaisedFrom(FeesAt(bs[|bs| - 1]), b.body.fees)
    ensures GasOracle.Climbs(FeesOf(bs + [b]))
  {
    assert FeesOf(bs + [b]) == FeesOf(bs) + [b.body.fees];
  }

  lemma OrdinaryExtended(h: TxHandle, fees: Fees, sig: Types.Signature, now: nat)
    requires Ordinary(h) && h.envelope.Admits(fees) && GasOracle.RaisedFrom(h.signed.body.fees, fees)
    ensures var body := BumpBody(h, fees);
            Ordinary(Bumped(h, SignedTx(Signed1559(body, sig), HashOf(body, sig)), now))
  {
    var body := BumpBody(h, fees);
    var h' := Bumped(h, SignedTx(Signed1559(body, sig), HashOf(body, sig)), now);
    FeesExtended(h.broadcasts, HashOf(body, sig));
    assert h'.broadcasts == h.broadcasts + [HashOf(body, sig)];
    forall i | 0 <= i < |h'.broadcasts|
      ensures VersionOf(h', h'.broadcasts[i]) && h'.envelope.Admits(FeesAt(h'.broadcasts[i]))
    {
      if i < |h.broadcasts| {
        assert VersionOf(h, h.broadcasts[i]) && h.envelope.Admits(FeesAt(h.broadcasts[i]));
      }
    }
  }

  lemma BumpedGood(cfg: Config, id: HandleId, h: TxHandle, hi: History, fees: Fees, sig: Types.Signature, now: nat)
    requires Good(cfg, id, h, hi) && !h.IsTask()
    requires h.envelope.Admits(fees) && GasOracle.RaisedFrom(h.signed.body.fees, fees)
    ensures var body := BumpBody(h, fees);
            Good(cfg, id, Bumped(h, SignedTx(Signed1559(body, sig), HashOf(body, sig)), now), hi.(via := hi.via + [EscalatedRoute(h)]))
  {
    var body := BumpBody(h, fees);
    var h' := Bumped(h, SignedTx(Signed1559(body, sig), HashOf(body, sig)), now);
    OrdinaryExtended(h, fees, sig, now);
    RouteExtended(h, hi, h', hi.(via := hi.via + [EscalatedRoute(h)]));
  }

  lemma ReplaceKeeps(cfg: Config, w: World, h: TxHandle, fees: Fees, approval: PolicyApproval, a: BumpInput)
    requires Inv(cfg, w) && Stored(w, h.id) == Some(h) && h.id in w.hist && !h.status.IsTerminal() && !h.IsTask()
    requires DecodeFees(h.signed).Some? && h.envelope.Admits(fees) && GasOracle.RaisedFrom(h.signed.body.fees, fees)
    ensures Inv(cfg, Replace(w, h, fees, approval, a))
  {
    hide Inv, Good, GasOracle.RaisedFrom;
    var body := BumpBody(h, fees);
    GoodAt(cfg, w, h.id);
    IdentityAt(cfg, w, h.id);
    if SignEncode(body, h.intentHash, approval, a.now, a.key).Signed? {
      var tx := SignEncode(body, h.intentHash, approval, a.now, a.key).value;
      var e := Signs(body, h.intent, approval, a.now);
      EffectKeeps(cfg, w, Noted(w, e), e);
      var w2 := Submit(Noted(w, e), ByBump, h.id, tx.encoded, EscalatedRoute(h), a.submit);
      EffectKeeps(cfg, Noted(w, e), w2, Submits(ByBump, h.id, tx.encoded, EscalatedRoute(h), a.submit, Some(h)));
      BumpedGood(cfg, h.id, h, w.hist[h.id], fees, a.key.value, a.now);
      var w3 := Update(w2, Bumped(h, tx, a.now), w.hist[h.id].(via := w.hist[h.id].via + [EscalatedRoute(h)]));
      UpdateKeeps(cfg, w2, Bumped(h, tx, a.now), w.hist[h.id].(via := w.hist[h.id].via + [EscalatedRoute(h)]));
      SideKeeps(cfg, w3);
    }
  }

  lemma BumpKeeps(cfg: Config, w: World, id: HandleId, a: BumpInput)
    requires Inv(cfg, w)
    ensures Inv(cfg, Bump(cfg, w, id, a))
  {
    hide Inv, GasOracle.Bump, GasOracle.RaisedFrom, Replace;
    if Tracked(cfg, w, id) && Stuck(cfg, w.handles[id], a.now) {
      var h := w.handles[id];
      IdentityAt(cfg, w, id);
      var fees := BumpFees(cfg, h, a.baseFee);
      if fees.Some? {
        GasOracle.BumpRaises(h.signed.body.fees, a.baseFee.value, cfg.ceiling);
        var approval := BumpApproval(w, h, fees.value, a);
        if approval.Some? {
          ReplaceKeeps(cfg, w, h, fees.value, approval.value, a);
        }
      }
    }
  }

  // ----- cancel -----

  lemma FlagKeeps(cfg: Config, w: World, id: HandleId, cancelled: bool)
    requires Inv(cfg, w) && id in w.handles && !w.handles[id].status.IsTerminal()
    ensures Inv(cfg, Flag(w, id, cancelled))
  {
    var h, hi := w.handles[id], w.hist[id];
    assert Good(cfg, id, h, hi);
    FlaggedGood(cfg, id, h, hi, cancelled);
    hide Good;
    UpdateKeeps(cfg, w, h.(cancelled := cancelled), hi);
  }

  lemma FlaggedGood(cfg: Config, id: HandleId, h: TxHandle, hi: History, cancelled: bool)
    requires Good(cfg, id, h, hi) && !h.status.IsTerminal()
    ensures Good(cfg, id, h.(cancelled := cancelled), hi)
  {
    var h' := h.(cancelled := cancelled);
    SameRoute(h, hi, h', hi);
    assert forall b :: VersionOf(h, b) <==> VersionOf(h', b);
  }

  lemma CancelDisplaces(target: TxHandle, baseFee: u128, ceiling: u128)
    requires target.signed.Signed1559? && GasOracle.Bump(target.signed.body.fees, baseFee, ceiling).Ok?
    ensures Displaces(target, CancelBody(target, GasOracle.Bump(target.signed.body.fees, baseFee, ceiling).value))
  {
    GasOracle.RbfIsStrict(target.signed.body.fees.maxFee);
    GasOracle.RbfIsStrict(target.signed.body.fees.tip);
  }

  lemma TryCancelKeeps(cfg: Config, w: World, target: TxHandle, basis: Fees, approval: PolicyApproval, now: nat, a: Attempt)
    requires Inv(cfg, w) && Stored(w, target.id) == Some(target) && !target.status.IsTerminal()
    requires target.signed.Signed1559? && basis == target.signed.body.fees
    ensures var (w', r) := TryCancel(cfg, w, target, basis, approval, now, a);
            && Inv(cfg, w') && w'.handles == w.handles && w'.hist == w.hist
            && (r.Out? ==> exists fees, key :: OutIs(target, approval, now, r.tx, fees, key))
  {
    hide Inv, GasOracle.Bump;
    if a.baseFee.Ok? && GasOracle.Bump(basis, a.baseFee.value, cfg.ceiling).Ok? {
      var fees := GasOracle.Bump(basis, a.baseFee.value, cfg.ceiling).value;
      var body := CancelBody(target, fees);
      var r := SignEncode(body, OfIntent(CancelIntent(target)), approval, now, a.key);
      if r.Signed? {
        var e := Signs(body, CancelIntent(target), approval, now);
        EffectKeeps(cfg, w, Noted(w, e), e);
        CancelDisplaces(target, a.baseFee.value, cfg.ceiling);
        EffectKeeps(cfg, Noted(w, e), Submit(Noted(w, e), ByCancel, target.id, r.value.encoded, target.route, a.submit),
                    Submits(ByCancel, target.id, r.value.encoded, target.route, a.submit, Some(target)));
        assert OutIs(target, approval, now, r.value, fees, a.key);
      }
    }
  }

  /** A cancel's transaction, as its signer produced it. */
  predicate OutIs(target: TxHandle, approval: PolicyApproval, now: nat, tx: SignedTx, fees: Fees, key: Answer<nat>) {
    && SignEncode(CancelBody(target, fees), OfIntent(CancelIntent(target)), approval, now, key) == Signed(tx)
    && Displaces(target, CancelBody(target, fees))
  }

  lemma TryCancelTwiceKeeps(cfg: Config, w: World, target: TxHandle, basis: Fees, approval: PolicyApproval, a: CancelInput)
    requires Inv(cfg, w) && Stored(w, target.id) == Some(target) && !target.status.IsTerminal()
    requires target.signed.Signed1559? && basis == target.signed.body.fees
    ensures var (w', r) := TryCancelTwice(cfg, w, target, basis, approval, a);
            && Inv(cfg, w') && w'.handles == w.handles && w'.hist == w.hist
            && (r.Out? ==> exists fees, key :: OutIs(target, approval, a.now, r.tx, fees, key))
  {
    hide Inv, TryCancel, OutIs;
    TryCancelKeeps(cfg, w, target, basis, approval, a.now, a.first);
    var (w1, r) := TryCancel(cfg, w, target, basis, approval, a.now, a.first);
    TryCancelKeeps(cfg, w1, target, basis, approval, a.now, a.second);
  }

  lemma CancelHandleOk(cfg: Config, target: TxHandle, approval: PolicyApproval, tx: SignedTx, now: nat, fees: Fees, key: Answer<nat>)
    requires target.account == cfg.account && OutIs(target, approval, now, tx, fees, key)
    ensures var h := CancelHandle(target, approval, tx, now);
            HandleOk(cfg, h.id, h) && !h.IsTask() && h.status.Sent? && |h.broadcasts| == 1
  {
    SignedHandleOk(cfg, CancelHandle(target, approval, tx, now), CANCEL_GAS_LIMIT, fees, approval, now, key);
  }

  lemma CancelPricedKeeps(cfg: Config, w: World, target: TxHandle, basis: Fees, approval: PolicyApproval, a: CancelInput)
    requires Inv(cfg, w) && Stored(w, target.id) == Some(target) && !target.status.IsTerminal() && target.account == cfg.account
    requires target.signed.Signed1559? && basis == target.signed.body.fees
    ensures Inv(cfg, CancelPriced(cfg, w, target, basis, approval, a))
  {
    hide Inv, TryCancelTwice, OutIs, HandleOk;
    TryCancelTwiceKeeps(cfg, w, target, basis, approval, a);
    var (w1, r) := TryCancelTwice(cfg, w, target, basis, approval, a);
    if r.Out? {
      var fees, key :| OutIs(target, approval, a.now, r.tx, fees, key);
      CancelHandleOk(cfg, target, approval, r.tx, a.now, fees, key);
      TrackKeeps(cfg, w1, CancelHandle(target, approval, r.tx, a.now), FromCancel);
    } else {
      FlagKeeps(cfg, w1, target.id, false);
    }
  }

  lemma CancelKeeps(cfg: Config, w: World, id: HandleId, a: CancelInput)
    requires Inv(cfg, w)
    ensures Inv(cfg, CancelTx(cfg, w, id, a))
  {
    if id in w.handles && !w.handles[id].status.IsTerminal() {
      assert Good(cfg, id, w.handles[id], w.hist[id]);
      FlagKeeps(cfg, w, id, true);
      var w1 := Flag(w, id, true);
      hide Inv, Good, CancelPriced;
      if DecodeFees(w.handles[id].signed).Some? && a.decision.Ok? && a.decision.value.Allow? {
        CancelPricedKeeps(cfg, w1, w1.handles[id], DecodeFees(w.handles[id].signed).value.fees, a.decision.value.approval, a);
      }
    }
  }

  // ----- every run -----

  lemma StepKeeps(cfg: Config, w: World, s: Step)
    requires Inv(cfg, w)
    ensures Inv(cfg, Apply(cfg, w, s))
  {
    hide Inv, Send, CancelTx, Recover, BeginCycle, Advance, Bump;
    match s
    case DoSend(i) => SendKeeps(cfg, w, i);
    case DoTask(intent, task, at, wrote) => if wrote { TrackKeeps(cfg, w, TaskHandle(intent, task, at), FromTask); }
    case DoCancel(id, a) => CancelKeeps(cfg, w, id, a);
    case DoTrack(id, approval) => SideKeeps(cfg, w);
    case DoRestart => SideKeeps(cfg, w);
    case DoRecover(id, outcome) => RecoverKeeps(cfg, w, id, outcome);
    case DoBeginCycle(block, count, finalized, reset) => BeginCycleKeeps(cfg, w, block, count, finalized, reset);
    case DoAdvance(id, a) => AdvanceKeeps(cfg, w, id, a);
    case DoBump(id, a) => BumpKeeps(cfg, w, id, a);
  }

  /** Every reachable world satisfies the invariant, whatever the answers and crashes. */
  lemma {:induction false} RunKeeps(cfg: Config, steps: seq<Step>)
    ensures Inv(cfg, RunFrom(cfg, INIT, steps))
    decreases |steps|
  {
    if steps != [] {
      RunKeeps(cfg, steps[..|steps| - 1]);
      StepKeeps(cfg, RunFrom(cfg, INIT, steps[..|steps| - 1]), steps[|steps| - 1]);
    }
  }
}
