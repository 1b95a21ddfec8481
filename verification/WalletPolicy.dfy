/** The native policy engine joined to the wallet: in a run whose decisions are the engine's answers to what
    each path asks, every signature covers an intent the rules permit. */
module WalletPolicy {
  import opened Types
  import opened Lifecycle
  import opened Signing
  import opened Executor
  import opened Wallet
  import opened WalletHandles
  import opened WalletPromises
  import opened Policy

  datatype Engine = Engine(rules: seq<Rule>, caps: GasEnvelope, ttl: nat)

  /** The requests the wallet's transaction paths make. */
  predicate Asked(request: SigningRequest) {
    request.Transaction? || (request.Cancel? && request.intent.IsSelfSend())
  }

  ghost predicate Gave(e: Engine, request: SigningRequest, at: nat, approval: PolicyApproval) {
    Asked(request) && Evaluate(e.rules, e.caps, e.ttl, at, request) == Allow(approval)
  }

  /** The engine gave this approval at some time, for something a path asks. */
  ghost predicate Given(e: Engine, approval: PolicyApproval) {
    exists request, at: nat :: Gave(e, request, at, approval)
  }

  /** The decision, if there is one, is the engine's on this request at some time. */
  ghost predicate DecidedBy(e: Engine, decision: Answer<Decision>, request: SigningRequest) {
    decision.Ok? ==> exists at: nat :: decision.value == Evaluate(e.rules, e.caps, e.ttl, at, request)
  }

  /** Nothing, sent by the target's account to itself on the target's chain. */
  function CancelOf(target: TxHandle): TxIntent {
    TxIntent(target.intent.chainId, target.account, TxKind.Call(target.account), 0, [], None)
  }

  /** Every decision of the step is the engine's on what its path asks, and an approval put in the cache was
      given by it. */
  ghost predicate Governed(e: Engine, w: World, s: Step) {
    match s
    case DoSend(i) => DecidedBy(e, i.decision, Transaction(i.intent))
    case DoAdvance(id, a) => id in w.handles ==> DecidedBy(e, a.refill.decision, Transaction(w.handles[id].intent))
    case DoBump(id, a) => id in w.handles ==> DecidedBy(e, a.decision, BumpRequest(w.handles[id].intent))
    case DoCancel(id, a) => id in w.handles ==> DecidedBy(e, a.decision, SigningRequest.Cancel(CancelOf(w.handles[id])))
    case DoTrack(_, approval) => Given(e, approval)
    case _ => true
  }

  /** Every cached approval and every approval a signature used was given by the engine. */
  ghost predicate PolicyOk(e: Engine, w: World) {
    && (forall id | id in w.approvals :: Given(e, w.approvals[id]))
    && (forall x | x in w.log && x.Signs? :: Given(e, x.approval))
  }

  lemma DecidedIsGiven(e: Engine, decision: Answer<Decision>, request: SigningRequest)
    requires DecidedBy(e, decision, request) && Asked(request) && decision.Ok? && decision.value.Allow?
    ensures Given(e, decision.value.approval)
  {
    var at: nat :| decision.value == Evaluate(e.rules, e.caps, e.ttl, at, request);
    assert Gave(e, request, at, decision.value.approval);
  }

  // ----- what each step signs with -----

  /** The only new signatures use `approval`, the cache gained nothing but perhaps it, and nothing new was
      submitted as a recovery. */
  ghost predicate SignsWith(w: World, w': World, approval: Option<PolicyApproval>) {
    && (forall x | x in w'.log :: x in w.log || (if x.Signs? then approval == Some(x.approval) else !x.actor.ByRecover?))
    && (forall id | id in w'.approvals ::
          (id in w.approvals && w'.approvals[id] == w.approvals[id]) || approval == Some(w'.approvals[id]))
  }

  lemma SignsWithKeeps(e: Engine, w: World, w': World, approval: Option<PolicyApproval>)
    requires PolicyOk(e, w) && SignsWith(w, w', approval) && (approval.Some? ==> Given(e, approval.value))
    ensures PolicyOk(e, w')
  {
    hide Given;
  }

  lemma SignsWithTransitive(w: World, w1: World, w2: World, approval: Option<PolicyApproval>)
    requires SignsWith(w, w1, approval) && SignsWith(w1, w2, approval)
    ensures SignsWith(w, w2, approval)
  {
  }

  function Approved(decision: Answer<Decision>): Option<PolicyApproval> {
    if decision.Ok? && decision.value.Allow? then Some(decision.value.approval) else None
  }

  lemma BroadcastSignsNothing(w: World, i: SendInput, h: TxHandle)
    ensures SignsWith(w, Broadcast(w, i, h), None)
  {
    var w1 := Track(w, h, FromSend);
    var w2 := Submit(w1, BySend, h.id, h.signed, i.route, i.submit);
    assert SignsWith(w, w1, None) && SignsWith(w, w2, None);
    hide Track, Submit;
    assert SignsWith(w2, Conclude(w2, i, h), None);
    SignsWithTransitive(w, w2, Conclude(w2, i, h), None);
  }

  lemma BuildSignsWith(cfg: Config, w: World, i: SendInput, n: nat)
    requires Admitted(cfg, i)
    ensures SignsWith(w, BuildSignSubmit(cfg, w, i, n), Approved(i.decision))
  {
    hide Broadcast;
    var approval := i.decision.value.approval;
    var r := SignEncode(SendBody(cfg, i, n), OfIntent(i.intent), approval, i.now, i.key);
    if r.Signed? {
      var w1, h := Noted(w, Signs(SendBody(cfg, i, n), i.intent, approval, i.now)), NewHandle(i, n, approval, r.value);
      BroadcastSignsNothing(w1, i, h);
      assert SignsWith(w, w1, Some(approval)) && SignsWith(w1, Broadcast(w1, i, h), Some(approval));
      SignsWithTransitive(w, w1, Broadcast(w1, i, h), Some(approval));
    }
  }

  lemma SendSignsWith(cfg: Config, w: World, i: SendInput)
    ensures SignsWith(w, Send(cfg, w, i), Approved(i.decision))
  {
    hide BuildSignSubmit;
    if Admitted(cfg, i) {
      var (w1, n) := Allocated(w, i);
      BuildSignsWith(cfg, w1, i, n);
    }
  }

  lemma OnSettledSignsWith(cfg: Config, w: World, h: TxHandle, i: SendInput)
    requires h.id in w.hist
    ensures SignsWith(w, OnSettled(cfg, w, h, i), Approved(i.decision))
  {
    hide Send;
    SendSignsWith(cfg, Counted(w, h), RefillInput(h, i));
    assert SignsWith(w, Counted(w, h), Approved(i.decision));
    SignsWithTransitive(w, Counted(w, h), Send(cfg, Counted(w, h), RefillInput(h, i)), Approved(i.decision));
  }

  lemma AdvanceSignsWith(cfg: Config, w: World, id: HandleId, a: AdvanceInput)
    requires Inv(cfg, w)
    ensures SignsWith(w, Advance(cfg, w, id, a), Approved(a.refill.decision))
  {
    hide Inv, OnSettled, Seen;
    if Tracked(cfg, w, id) && w.cycle.Some? && id in w.hist {
      IdentityAt(cfg, w, id);
      var h, hi := w.handles[id], w.hist[id];
      if IsAwaitingRelay(h) {
        if a.poll.Ok? && a.poll.value.RelayFailed? {
          var h1 := h.(status := Failed(a.poll.value.reason));
          SettledSignsWith(cfg, w, h1, hi.(start := h1.status), a.refill);
        }
      } else {
        var o := Seen(w, id, a.chain);
        var next := Transition(h.status, o.event, o.view, o.cfg);
        if next.Some? {
          SettledSignsWith(cfg, w, h.(status := Resolved(h, next.value)), hi.(obs := hi.obs + [o]), a.refill);
        }
      }
    }
  }

  lemma SettledSignsWith(cfg: Config, w: World, h: TxHandle, hi: History, i: SendInput)
    ensures SignsWith(w, OnSettled(cfg, Update(w, h, hi), h, i), Approved(i.decision))
  {
    hide OnSettled;
    var w1 := Update(w, h, hi);
    OnSettledSignsWith(cfg, w1, h, i);
    assert SignsWith(w, w1, Approved(i.decision));
    SignsWithTransitive(w, w1, OnSettled(cfg, w1, h, i), Approved(i.decision));
  }

  lemma ReplaceSignsWith(w: World, h: TxHandle, fees: Fees, approval: PolicyApproval, a: BumpInput)
    requires DecodeFees(h.signed).Some? && h.id in w.hist
    ensures SignsWith(w, Replace(w, h, fees, approval, a), Some(approval))
  {
  }

  lemma BumpKeepsPolicy(e: Engine, cfg: Config, w: World, id: HandleId, a: BumpInput)
    requires PolicyOk(e, w) && Governed(e, w, DoBump(id, a))
    ensures PolicyOk(e, Bump(cfg, w, id, a))
  {
    hide GasOracle.Bump, Replace, Given;
    if Tracked(cfg, w, id) && w.handles[id].id in w.hist {
      var h := w.handles[id];
      var fees := BumpFees(cfg, h, a.baseFee);
      if fees.Some? && BumpApproval(w, h, fees.value, a).Some? {
        var approval := BumpApproval(w, h, fees.value, a).value;
        if !(h.id in w.approvals && approval == w.approvals[h.id]) {
          DecidedIsGiven(e, a.decision, BumpRequest(h.intent));
        }
        ReplaceSignsWith(w, h, fees.value, approval, a);
        SignsWithKeeps(e, w, Replace(w, h, fees.value, approval, a), Some(approval));
      }
    }
  }

  lemma CancelSignsWith(cfg: Config, w: World, id: HandleId, a: CancelInput)
    ensures SignsWith(w, CancelTx(cfg, w, id, a), Approved(a.decision))
  {
    hide CancelPriced;
    if id in w.handles && !w.handles[id].status.IsTerminal() && a.decision.Ok? && a.decision.value.Allow? {
      var w1 := Flag(w, id, true);
      assert SignsWith(w, w1, Approved(a.decision));
      if DecodeFees(w.handles[id].signed).Some? && id in w1.handles {
        var fees, approval := DecodeFees(w.handles[id].signed).value.fees, a.decision.value.approval;
        PricedSignsWith(cfg, w1, w1.handles[id], fees, approval, a);
        SignsWithTransitive(w, w1, CancelPriced(cfg, w1, w1.handles[id], fees, approval, a), Approved(a.decision));
      }
    }
  }

  lemma TrySignsWith(cfg: Config, w: World, target: TxHandle, basis: Fees, approval: PolicyApproval, now: nat, a: Attempt)
    ensures SignsWith(w, TryCancel(cfg, w, target, basis, approval, now, a).0, Some(approval))
  {
    hide GasOracle.Bump;
  }

  lemma PricedSignsWith(cfg: Config, w: World, target: TxHandle, basis: Fees, approval: PolicyApproval, a: CancelInput)
    ensures SignsWith(w, CancelPriced(cfg, w, target, basis, approval, a), Some(approval))
  {
    hide TryCancel;
    TrySignsWith(cfg, w, target, basis, approval, a.now, a.first);
    var (w1, _) := TryCancel(cfg, w, target, basis, approval, a.now, a.first);
    TrySignsWith(cfg, w1, target, basis, approval, a.now, a.second);
    var (w2, r) := TryCancelTwice(cfg, w, target, basis, approval, a);
    assert SignsWith(w, w2, Some(approval));
    hide TryCancelTwice;
    var w3 := CancelPriced(cfg, w, target, basis, approval, a);
    assert w3.log == w2.log && w3.approvals == w2.approvals;
  }

  // ----- every run -----

  lemma StepKeepsPolicy(e: Engine, cfg: Config, w: World, s: Step)
    requires Inv(cfg, w) && PolicyOk(e, w) && Governed(e, w, s)
    ensures PolicyOk(e, Apply(cfg, w, s))
  {
    hide Inv, Given, DecidedBy, Send, CancelTx, Advance, Bump;
    match s
    case DoSend(i) =>
      if Approved(i.decision).Some? { DecidedIsGiven(e, i.decision, Transaction(i.intent)); }
      SendSignsWith(cfg, w, i);
      SignsWithKeeps(e, w, Send(cfg, w, i), Approved(i.decision));
    case DoTask(_, _, _, _) =>
    case DoCancel(id, a) =>
      if id in w.handles {
        if Approved(a.decision).Some? { DecidedIsGiven(e, a.decision, SigningRequest.Cancel(CancelOf(w.handles[id]))); }
        CancelSignsWith(cfg, w, id, a);
        SignsWithKeeps(e, w, CancelTx(cfg, w, id, a), Approved(a.decision));
      } else {
        UnknownCancel(cfg, w, id, a);
      }
    case DoTrack(_, _) =>
    case DoRestart =>
    case DoRecover(_, _) =>
    case DoBeginCycle(_, _, _, _) =>
    case DoAdvance(id, a) =>
      if id in w.handles {
        if Approved(a.refill.decision).Some? { DecidedIsGiven(e, a.refill.decision, Transaction(w.handles[id].intent)); }
        AdvanceSignsWith(cfg, w, id, a);
        SignsWithKeeps(e, w, Advance(cfg, w, id, a), Approved(a.refill.decision));
      } else {
        UnknownAdvance(cfg, w, id, a);
      }
    case DoBump(id, a) => BumpKeepsPolicy(e, cfg, w, id, a);
  }

  lemma UnknownCancel(cfg: Config, w: World, id: HandleId, a: CancelInput)
    requires id !in w.handles
    ensures CancelTx(cfg, w, id, a) == w
  {
  }

  lemma UnknownAdvance(cfg: Config, w: World, id: HandleId, a: AdvanceInput)
    requires id !in w.handles
    ensures Advance(cfg, w, id, a) == w
  {
  }

  ghost predicate GovernedRun(e: Engine, cfg: Config, steps: seq<Step>) {
    forall k | 0 <= k < |steps| :: Governed(e, Reached(cfg, steps[..k]), steps[k])
  }

  lemma {:induction false} RunKeepsPolicy(e: Engine, cfg: Config, steps: seq<Step>)
    requires GovernedRun(e, cfg, steps)
    ensures PolicyOk(e, Reached(cfg, steps))
    decreases |steps|
  {
    hide Inv, Governed, Apply, Given;
    if steps != [] {
      var n := |steps| - 1;
      var before := steps[..n];
      assert forall k | 0 <= k < n :: before[..k] == steps[..k] && before[k] == steps[k];
      RunKeepsPolicy(e, cfg, before);
      RunKeeps(cfg, before);
      StepKeepsPolicy(e, cfg, Reached(cfg, before), steps[n]);
    }
  }

  /** The rules permit this intent as a transaction, or it is a self-send they permit as a cancel. */
  ghost predicate RulesPermit(e: Engine, intent: TxIntent) {
    Permitted(e.rules, Transaction(intent)) || (intent.IsSelfSend() && Permitted(e.rules, SigningRequest.Cancel(intent)))
  }

  /** In a governed run, every signature, of a send, refill, bump or cancel, covers an intent the rules permit,
      within the engine's fee caps and within its time to live of a decision. */
  lemma EverySignatureIsPermitted(e: Engine, cfg: Config, steps: seq<Step>, x: Effect) returns (request: SigningRequest, at: nat)
    requires GovernedRun(e, cfg, steps) && x in Reached(cfg, steps).log && x.Signs?
    ensures RulesPermit(e, x.intent) && e.caps.Admits(x.body.fees)
    ensures Gave(e, request, at, x.approval) && (request == Transaction(x.intent) || request == SigningRequest.Cancel(x.intent))
    ensures x.now <= at + e.ttl
    ensures x.body == BuildTx(x.intent, x.body.nonce, x.body.gasLimit, x.body.fees)
  {
    hide RunFrom, GovernedRun;
    RunKeepsPolicy(e, cfg, steps);
    SignaturesAreApproved(cfg, steps, x);
    request, at :| Gave(e, request, at, x.approval);
    ValidateAgreesWithEvaluate(e.rules, e.caps, e.ttl, at, request);
  }

  // ----- only recoveries recover -----

  /** No other step submits as a recovery. */
  lemma OnlyRecoverRecovers(cfg: Config, w: World, s: Step, x: Effect)
    requires Inv(cfg, w) && !s.DoRecover? && x in Apply(cfg, w, s).log && x.Submits? && x.actor.ByRecover?
    ensures x in w.log
  {
    hide Inv, Send, CancelTx, Advance, Bump;
    match s
    case DoSend(i) => SendSignsWith(cfg, w, i);
    case DoTask(_, _, _, _) =>
    case DoCancel(id, a) => CancelSignsWith(cfg, w, id, a);
    case DoTrack(_, _) =>
    case DoRestart =>
    case DoBeginCycle(_, _, _, _) =>
    case DoAdvance(id, a) => AdvanceSignsWith(cfg, w, id, a);
    case DoBump(id, a) => BumpRecoversNothing(cfg, w, id, a, x);
  }

  lemma BumpRecoversNothing(cfg: Config, w: World, id: HandleId, a: BumpInput, x: Effect)
    requires x in Bump(cfg, w, id, a).log && x.Submits? && x.actor.ByRecover?
    ensures x in w.log
  {
    hide GasOracle.Bump, Replace;
    if Tracked(cfg, w, id) && w.handles[id].id in w.hist {
      var h := w.handles[id];
      var fees := BumpFees(cfg, h, a.baseFee);
      if fees.Some? && BumpApproval(w, h, fees.value, a).Some? {
        ReplaceSignsWith(w, h, fees.value, BumpApproval(w, h, fees.value, a).value, a);
      }
    }
  }
}
