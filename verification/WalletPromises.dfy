/** The wallet's promises over every serialised run of sends, cancellations, restarts and executor
    passes, for every answer of the outside world. */
module WalletPromises {
  import opened Types
  import opened Nonces
  import opened Lifecycle
  import opened Signing
  import opened Executor
  import opened Wallet
  import opened WalletHandles
  import opened WalletNonces
  import opened WalletRuns

  function Reached(cfg: Config, steps: seq<Step>): World {
    RunFrom(cfg, INIT, steps)
  }

  lemma {:induction false} RunExtends(cfg: Config, steps: seq<Step>, k: nat)
    requires k <= |steps|
    ensures Extends(Reached(cfg, steps[..k]), Reached(cfg, steps))
    decreases |steps|
  {
    if k == |steps| {
      assert steps[..k] == steps;
      SideIsCalm(Reached(cfg, steps), Reached(cfg, steps));
    } else {
      var before := steps[..|steps| - 1];
      assert before[..k] == steps[..k];
      RunExtends(cfg, before, k);
      RunKeeps(cfg, before);
      hide Inv, Extends;
      StepIsSound(cfg, Reached(cfg, before), steps[|steps| - 1]);
      ExtendsTransitive(Reached(cfg, steps[..k]), Reached(cfg, before), Reached(cfg, steps));
    }
  }

  // ----- nonces -----

  /** The second write of a certainly rejected send succeeds. */
  predicate TerminalWritesSucceed(s: Step) {
    match s
    case DoSend(i) => i.submit.MayBeLive() || i.settled
    case DoAdvance(_, a) => a.refill.submit.MayBeLive() || a.refill.settled
    case _ => true
  }

  lemma {:induction false} RunKeepsNonces(cfg: Config, steps: seq<Step>)
    requires forall s | s in steps :: TerminalWritesSucceed(s)
    ensures NonceOk(Reached(cfg, steps))
    decreases |steps|
  {
    if steps != [] {
      var before, s := steps[..|steps| - 1], steps[|steps| - 1];
      assert TerminalWritesSucceed(s);
      RunKeepsNonces(cfg, before);
      RunKeeps(cfg, before);
      hide Inv, NonceOk;
      StepKeepsNoncesIff(cfg, Reached(cfg, before), s);
    }
  }

  ghost predicate StaysSound(cfg: Config, steps: seq<Step>) {
    forall k | 0 <= k <= |steps| :: NonceOk(Reached(cfg, steps[..k]))
  }

  ghost predicate NeverLeaks(cfg: Config, steps: seq<Step>) {
    forall k | 0 <= k < |steps| :: !StepLeaks(cfg, Reached(cfg, steps[..k]), steps[k])
  }

  lemma NothingIsSound()
    ensures NonceOk(INIT)
  {
  }

  /** Throughout a run the nonces are sound exactly when no step leaks. */
  lemma {:induction false} RunIsSoundIff(cfg: Config, steps: seq<Step>)
    ensures StaysSound(cfg, steps) <==> NeverLeaks(cfg, steps)
    decreases |steps|
  {
    hide NonceOk, StepLeaks, Apply, Inv;
    if steps == [] {
      NothingIsSound();
      assert steps[..0] == [];
    } else {
      var n := |steps| - 1;
      var before := steps[..n];
      assert steps[..n + 1] == steps && before[..n] == before;
      assert forall k | 0 <= k <= n :: before[..k] == steps[..k];
      RunIsSoundIff(cfg, before);
      RunKeeps(cfg, before);
      if StaysSound(cfg, before) {
        assert NonceOk(Reached(cfg, before[..n]));
        StepKeepsNoncesIff(cfg, Reached(cfg, before), steps[n]);
      }
    }
  }

  /** A nonce whose broadcast may once have been live is never available again. */
  lemma LiveNonceNeverReturns(cfg: Config, steps: seq<Step>, k: nat, n: nat)
    requires forall s | s in steps :: TerminalWritesSucceed(s)
    requires k <= |steps| && n in Reached(cfg, steps[..k]).live
    ensures !InPool(Reached(cfg, steps).nonce.value, n)
  {
    RunExtends(cfg, steps, k);
    RunKeepsNonces(cfg, steps);
    assert Reserved(Reached(cfg, steps), n);
  }

  /** Two unsettled sends never share a nonce. */
  lemma UnsettledSendsNeverShareANonce(cfg: Config, steps: seq<Step>, i: HandleId, j: HandleId)
    requires forall s | s in steps :: TerminalWritesSucceed(s)
    requires i != j && SendHolds(Reached(cfg, steps), i) && SendHolds(Reached(cfg, steps), j)
    ensures Reached(cfg, steps).handles[i].nonce != Reached(cfg, steps).handles[j].nonce
  {
    RunKeepsNonces(cfg, steps);
  }

  // ----- confirmation -----

  ghost predicate ConfirmStep(cfg: Config, steps: seq<Step>, k: nat, id: HandleId, b: nat) {
    k < |steps| && ConfirmsBy(cfg, Reached(cfg, steps[..k]), steps[k], id, b)
  }

  /** The pass under way began at step `j`, from that step's reads, and no other has since. */
  ghost predicate BeganAt(cfg: Config, steps: seq<Step>, j: nat, c: Cycle) {
    && j < |steps| && steps[j].DoBeginCycle? && steps[j].reset
    && Consistent(Reached(cfg, steps[..j]).lastLatest, steps[j].block, steps[j].count, steps[j].finalized)
    && TakenFrom(c, cfg.required, steps[j].block.value, steps[j].count.value, steps[j].finalized.value)
    && forall k | j < k < |steps| :: !steps[k].DoBeginCycle?
  }

  /** Block `b` is final by the reads of step `j`: at or below the finalized block where the chain names one,
      else under enough blocks of the head. */
  predicate FinalByReads(cfg: Config, s: Step, b: nat) {
    && s.DoBeginCycle? && s.block.Ok? && s.finalized.Ok?
    && match s.finalized.value
       case Some(f) => b <= f
       case None => cfg.required <= 1 || b + cfg.required <= s.block.value + 1
  }

  lemma AdvanceKeepsCycle(cfg: Config, w: World, id: HandleId, a: AdvanceInput)
    ensures var w' := Advance(cfg, w, id, a); w'.cycle == w.cycle || w'.cycle == None
  {
    hide Send, Seen;
    if Tracked(cfg, w, id) && w.cycle.Some? && id in w.hist && !IsAwaitingRelay(w.handles[id]) {
      var h, o := w.handles[id], Seen(w, id, a.chain);
      var hi := w.hist[id].(obs := w.hist[id].obs + [o]);
      match Transition(h.status, o.event, o.view, o.cfg)
      case None =>
      case Some(next) =>
        var h1 := h.(status := Resolved(h, next));
        var w1 := Update(w, h1, hi);
        if h1.id in w1.hist {
          SendKeepsCycle(cfg, Counted(w1, h1), RefillInput(h1, a.refill));
        }
    }
  }

  lemma SendKeepsCycle(cfg: Config, w: World, i: SendInput)
    ensures var w' := Send(cfg, w, i); w'.cycle == w.cycle || w'.cycle == None
  {
    hide BuildSignSubmit;
    if Admitted(cfg, i) {
      var (w1, n) := Allocated(w, i);
      BuildTouchesNonce(cfg, w1, i, n);
    }
  }

  lemma StepKeepsCycle(cfg: Config, w: World, s: Step)
    requires !s.DoBeginCycle?
    ensures var w' := Apply(cfg, w, s); w'.cycle == w.cycle || w'.cycle == None
  {
    hide Send, CancelTx, Advance, Bump;
    match s
    case DoSend(i) => SendKeepsCycle(cfg, w, i);
    case DoTask(_, _, _, _) =>
    case DoCancel(id, a) => CancelKeepsPool(cfg, w, id, a);
    case DoTrack(_, _) =>
    case DoRestart =>
    case DoRecover(_, _) =>
    case DoAdvance(id, a) => AdvanceKeepsCycle(cfg, w, id, a);
    case DoBump(id, a) => BumpKeepsPool(cfg, w, id, a);
  }

  /** Every pass works from the reads of one step of the run. */
  lemma {:induction false} CycleHasItsReads(cfg: Config, steps: seq<Step>) returns (j: nat)
    requires Reached(cfg, steps).cycle.Some?
    ensures BeganAt(cfg, steps, j, Reached(cfg, steps).cycle.value)
    decreases |steps|
  {
    j := |steps| - 1;
    var before, s := steps[..j], steps[j];
    var w := Reached(cfg, before);
    if s.DoBeginCycle? {
      CycleMeaning(w.lastLatest, cfg.required, s.block, s.count, s.finalized);
      hide ReadCycle;
    } else {
      StepKeepsCycle(cfg, w, s);
      hide Apply;
      var k := CycleHasItsReads(cfg, before);
      assert before[k] == steps[k] && before[..k] == steps[..k];
      j := k;
    }
  }

  lemma FinalIffByReads(cfg: Config, steps: seq<Step>, j: nat, c: Cycle, b: nat)
    requires BeganAt(cfg, steps, j, c)
    ensures IsFinal(b, c.view, c.finality) <==> FinalByReads(cfg, steps[j], b)
  {
    hide RunFrom;
  }

  /** Step `k` confirmed on the evidence it held, in the pass begun at step `j`, whose reads make the block
      final. */
  ghost predicate ConfirmedOnReads(cfg: Config, steps: seq<Step>, k: nat, j: nat, id: HandleId, b: nat) {
    && ConfirmStep(cfg, steps, k, id, b)
    && Reached(cfg, steps[..k]).cycle.Some?
    && BeganAt(cfg, steps[..k], j, Reached(cfg, steps[..k]).cycle.value)
    && FinalByReads(cfg, steps[j], b)
  }

  lemma ConfirmStepHasReads(cfg: Config, steps: seq<Step>, k: nat, id: HandleId, b: nat) returns (j: nat)
    requires ConfirmStep(cfg, steps, k, id, b)
    ensures ConfirmedOnReads(cfg, steps, k, j, id, b)
  {
    hide RunFrom;
    j := CycleHasItsReads(cfg, steps[..k]);
    FinalIffByReads(cfg, steps[..k], j, Reached(cfg, steps[..k]).cycle.value, b);
  }

  ghost predicate IsConfirmed(w: World, id: HandleId, b: nat) {
    id in w.handles && w.handles[id].status == Confirmed(b)
  }

  lemma ConfirmedByLastOrBefore(cfg: Config, steps: seq<Step>, id: HandleId, b: nat)
    requires steps != [] && IsConfirmed(Reached(cfg, steps), id, b)
    ensures IsConfirmed(Reached(cfg, steps[..|steps| - 1]), id, b) || ConfirmStep(cfg, steps, |steps| - 1, id, b)
  {
    hide Inv, Extends, ConfirmsBy, Apply, FlagsKept, ObservesOnly;
    var n := |steps| - 1;
    RunKeeps(cfg, steps[..n]);
    StepIsSound(cfg, Reached(cfg, steps[..n]), steps[n]);
  }

  lemma ConfirmStepExtends(cfg: Config, before: seq<Step>, steps: seq<Step>, k: nat, id: HandleId, b: nat)
    requires before <= steps && ConfirmStep(cfg, before, k, id, b)
    ensures ConfirmStep(cfg, steps, k, id, b)
  {
    hide ConfirmsBy;
    assert before[..k] == steps[..k] && before[k] == steps[k];
  }

  /** Since `id` was seen unconfirmed, it was not created anew and is now confirmed: some step did it. */
  lemma {:induction false} ConfirmedSince(cfg: Config, steps: seq<Step>, from: nat, id: HandleId, b: nat) returns (k: nat)
    requires from <= |steps| && Created(Reached(cfg, steps), id) == Created(Reached(cfg, steps[..from]), id)
    requires !IsConfirmed(Reached(cfg, steps[..from]), id, b) && IsConfirmed(Reached(cfg, steps), id, b)
    ensures from <= k < |steps| && ConfirmStep(cfg, steps, k, id, b)
    decreases |steps|
  {
    hide RunFrom, ConfirmStep, Created, Extends, IsConfirmed;
    assert steps[..|steps|] == steps;
    k := |steps| - 1;
    var before := steps[..k];
    ConfirmedByLastOrBefore(cfg, steps, id, b);
    if IsConfirmed(Reached(cfg, before), id, b) {
      assert before[..from] == steps[..from];
      RunExtends(cfg, steps, k);
      RunExtends(cfg, before, from);
      CreatedBetween(Reached(cfg, steps[..from]), Reached(cfg, before), Reached(cfg, steps), id);
      k := ConfirmedSince(cfg, before, from, id, b);
      ConfirmStepExtends(cfg, before, steps, k, id, b);
    }
  }

  lemma {:induction false} SomeStepConfirmed(cfg: Config, steps: seq<Step>, id: HandleId, b: nat) returns (k: nat)
    requires IsConfirmed(Reached(cfg, steps), id, b)
    ensures ConfirmStep(cfg, steps, k, id, b)
    decreases |steps|
  {
    hide ConfirmStep;
    k := |steps| - 1;
    ConfirmedByLastOrBefore(cfg, steps, id, b);
    if !ConfirmStep(cfg, steps, k, id, b) {
      var before := steps[..k];
      k := SomeStepConfirmed(cfg, before, id, b);
      ConfirmStepExtends(cfg, before, steps, k, id, b);
    }
  }

  /** No false confirmation: a stored confirmation was made by a step that held its evidence, in a pass
      whose reads make the block final. */
  lemma NoFalseConfirmed(cfg: Config, steps: seq<Step>, id: HandleId, b: nat)
    requires var w := Reached(cfg, steps); id in w.handles && w.handles[id].status == Confirmed(b)
    ensures exists k: nat, j: nat :: ConfirmedOnReads(cfg, steps, k, j, id, b)
  {
    hide RunFrom, ConfirmedOnReads;
    var k := SomeStepConfirmed(cfg, steps, id, b);
    var j := ConfirmStepHasReads(cfg, steps, k, id, b);
  }

  /** And it is not withheld: on a successful, anchored receipt of a tracked handle, final by the reads of
      the pass, an advance that can write confirms. */
  lemma FinalReadsConfirm(
    cfg: Config, steps: seq<Step>, j: nat, id: HandleId, a: AdvanceInput, i: nat, r: Receipt, b: nat, hash: BlockHash)
    requires var w := Reached(cfg, steps);
             Tracked(cfg, w, id) && w.cycle.Some? && BeganAt(cfg, steps, j, w.cycle.value) && FinalByReads(cfg, steps[j], b)
    requires a.wrote && Anchored(Reached(cfg, steps).handles[id], a.chain, i, r, b, hash)
    requires Succeeded(Reached(cfg, steps).handles[id], r)
    ensures Stored(Advance(cfg, Reached(cfg, steps), id, a), id) == Some(Reached(cfg, steps).handles[id].(status := Confirmed(b)))
  {
    hide RunFrom, Inv, Advance, Anchored, Succeeded;
    var w := Reached(cfg, steps);
    RunKeeps(cfg, steps);
    GoodAt(cfg, w, id);
    CycleIsConsistent(cfg, w);
    FinalIffByReads(cfg, steps, j, w.cycle.value, b);
    assert ConfirmedBy(cfg, w, id, a, b);
    EvidenceConfirms(cfg, w, id, a, b);
  }

  lemma CycleIsConsistent(cfg: Config, w: World)
    requires Inv(cfg, w) && w.cycle.Some?
    ensures w.cycle.value.view.finalized <= w.cycle.value.view.latest
  {
  }

  /** A confirmation is for good: until its id is created anew the handle never changes again. */
  lemma ConfirmedForGood(cfg: Config, steps: seq<Step>, k: nat, id: HandleId, b: nat)
    requires ConfirmStep(cfg, steps, k, id, b)
    requires Created(Reached(cfg, steps), id) == Created(Reached(cfg, steps[..k + 1]), id)
    ensures Stored(Reached(cfg, steps), id) == Some(Reached(cfg, steps[..k]).handles[id].(status := Confirmed(b)))
  {
    hide Inv, Advance, ConfirmedBy;
    var w := Reached(cfg, steps[..k]);
    RunKeeps(cfg, steps[..k]);
    EvidenceTracks(cfg, w, id, steps[k].advance, b);
    GoodAt(cfg, w, id);
    EvidenceConfirms(cfg, w, id, steps[k].advance, b);
    assert steps[..k + 1][..k] == steps[..k];
    assert Reached(cfg, steps[..k + 1]) == Advance(cfg, w, id, steps[k].advance);
    RunExtends(cfg, steps, k + 1);
    SettledStays(Reached(cfg, steps[..k + 1]), Reached(cfg, steps), id);
  }

  lemma EvidenceTracks(cfg: Config, w: World, id: HandleId, a: AdvanceInput, b: nat)
    requires ConfirmedBy(cfg, w, id, a, b)
    ensures id in w.handles
  {
  }

  lemma SettledStays(w: World, w': World, id: HandleId)
    requires Extends(w, w') && id in w.handles && w.handles[id].status.IsTerminal() && Created(w', id) == Created(w, id)
    ensures Stored(w', id) == Stored(w, id)
  {
  }

  /** A replaced or dropped handle carries its history: among its persisted observations a stretch of
      foreign-mined reads, uninterrupted but for unusable ones, that was final strictly after it began. */
  lemma ReplacedCarriesHistory(cfg: Config, steps: seq<Step>, id: HandleId)
    requires var w := Reached(cfg, steps); id in w.handles && (w.handles[id].status.Replaced? || w.handles[id].status.Dropped?)
    ensures id in Reached(cfg, steps).hist
    ensures var hi := Reached(cfg, steps).hist[id];
            exists i: nat, k: nat :: ReplacementEvidence(hi.start, hi.obs, i, k)
    ensures Reached(cfg, steps).handles[id].status.Dropped? ==> Reached(cfg, steps).handles[id].cancelled
  {
    hide Inv, RunFrom, HandleOk, RouteOk;
    RunKeeps(cfg, steps);
    var w := Reached(cfg, steps);
    GoodAt(cfg, w, id);
    ReplacedIffFinalStretch(w.hist[id].start, w.hist[id].obs);
  }

  /** An unsettled handle's status, from what was observed of it: mined where the last word is its own
      transaction, replacing where it is a foreign one, since the head that stretch began at; else sent if
      the nonce was ever seen consumed, and as it started if not. */
  lemma UnsettledStatusMeaning(cfg: Config, steps: seq<Step>, id: HandleId)
    requires id in Reached(cfg, steps).handles && !Reached(cfg, steps).handles[id].status.IsTerminal()
    ensures id in Reached(cfg, steps).hist
    ensures var h, hi := Reached(cfg, steps).handles[id], Reached(cfg, steps).hist[id];
            && (forall j: nat | LastWordAt(hi.obs, j) ::
                  match hi.obs[j].event
                  case OwnMined(b, hash, _) => h.status == Mined(b, hash)
                  case ForeignMined => h.status.Replacing?
                  case _ => h.status == if EverMined(hi.obs) then Sent else hi.start)
            && ((forall j: nat :: !LastWordAt(hi.obs, j)) ==> h.status == hi.start)
            && (forall since :: h.status == Replacing(since) <==> exists i: nat :: StretchStart(hi.obs, i) && since == hi.obs[i].view.latest)
  {
    hide Inv, RunFrom, HandleOk, RouteOk;
    RunKeeps(cfg, steps);
    var w := Reached(cfg, steps);
    GoodAt(cfg, w, id);
    var hi := w.hist[id];
    hide Lifecycle.Run;
    UnsettledClosedForm(hi.start, hi.obs);
    forall since ensures Lifecycle.Run(hi.start, hi.obs) == Replacing(since) <==>
                         exists i: nat :: StretchStart(hi.obs, i) && since == hi.obs[i].view.latest
    {
      ReplacingIffInStretch(hi.start, hi.obs, since);
    }
  }

  // ----- broadcasts and fees -----

  /** Every recorded broadcast of a transaction signed here is that transaction: same chain, nonce, gas
      limit, target, value and input, within the approved envelope; the last one is what is stored. */
  lemma BroadcastsAreOneTransaction(cfg: Config, steps: seq<Step>, id: HandleId, i: nat)
    requires var w := Reached(cfg, steps); id in w.handles && !w.handles[id].IsTask() && i < |w.handles[id].broadcasts|
    ensures var h := Reached(cfg, steps).handles[id];
            && h.signed.Signed1559? && h.broadcasts[i].HashOf?
            && h.broadcasts[i].body == h.signed.body.(fees := h.broadcasts[i].body.fees)
            && h.signed.body == BuildTx(h.intent, h.nonce, h.signed.body.gasLimit, h.signed.body.fees)
            && h.envelope.Admits(h.broadcasts[i].body.fees)
            && h.broadcasts[|h.broadcasts| - 1] == HashOf(h.signed.body, h.signed.sig)
  {
    RunKeeps(cfg, steps);
    var w := Reached(cfg, steps);
    var h := w.handles[id];
    assert Good(cfg, id, h, w.hist[id]);
    assert VersionOf(h, h.broadcasts[i]) && VersionOf(h, h.broadcasts[|h.broadcasts| - 1]);
    assert h.envelope.Admits(FeesAt(h.broadcasts[i]));
  }

  /** The approved envelope bounds how often a stuck transaction is bumped: n bumps from fee f under cap c
      satisfy 11^n * f <= 10^n * c, for both fees. */
  lemma BumpsAreBounded(cfg: Config, steps: seq<Step>, id: HandleId)
    requires id in Reached(cfg, steps).handles && !Reached(cfg, steps).handles[id].IsTask()
    requires var e := Reached(cfg, steps).handles[id].envelope; e.maxFeeCap <= U128_MAX / 110 && e.maxTipCap <= U128_MAX / 110
    ensures var h := Reached(cfg, steps).handles[id];
            var n := |h.broadcasts| - 1;
            && n >= 0
            && GasOracle.Pow(11, n) * FeesAt(h.broadcasts[0]).maxFee <= GasOracle.Pow(10, n) * h.envelope.maxFeeCap
            && GasOracle.Pow(11, n) * FeesAt(h.broadcasts[0]).tip <= GasOracle.Pow(10, n) * h.envelope.maxTipCap
    ensures var h := Reached(cfg, steps).handles[id];
            h.envelope == DEFAULT_ENVELOPE && FeesAt(h.broadcasts[0]).maxFee >= 1 ==> |h.broadcasts| <= 320
  {
    hide Inv, RunFrom;
    RunKeeps(cfg, steps);
    var w := Reached(cfg, steps);
    var h := w.handles[id];
    GoodAt(cfg, w, id);
    assert GasOracle.Within(FeesOf(h.broadcasts), h.envelope);
    GasOracle.EnvelopeBoundsBumps(FeesOf(h.broadcasts), h.envelope);
    if h.envelope == DEFAULT_ENVELOPE && FeesAt(h.broadcasts[0]).maxFee >= 1 {
      GasOracle.DefaultEnvelopeBound(FeesOf(h.broadcasts));
    }
  }

  // ----- routes -----

  /** A handle that does not escalate stays on its first route. One that does leaves it, once and for the
      public one, after exactly the larger of its cycles and one recorded private broadcasts, and until
      then has at most that many. */
  lemma RoutesAreKept(cfg: Config, steps: seq<Step>, id: HandleId)
    requires id in Reached(cfg, steps).handles
    ensures id in Reached(cfg, steps).hist
    ensures var w := Reached(cfg, steps); var h, hi := w.handles[id], w.hist[id];
            && |hi.via| == |h.broadcasts|
            && RouteAllowed(h.(route := hi.route), h.route)
            && (!Escalates(hi.route) ==> forall r | r in hi.via :: r == hi.route)
            && (Escalates(hi.route) && h.route == hi.route ==> PrivatelySent(hi, |hi.via|))
            && (Escalates(hi.route) && h.route != hi.route ==> h.route == Public && LeftInTime(hi))
  {
    hide Inv, RunFrom, HandleOk, StatusOk;
    RunKeeps(cfg, steps);
    GoodAt(cfg, Reached(cfg, steps), id);
  }

  /** Whatever is submitted goes out on the route of the stored handle, or publicly if that one escalates. */
  lemma SubmissionsFollowTheRoute(cfg: Config, steps: seq<Step>, e: Effect)
    requires e in Reached(cfg, steps).log && e.Submits?
    ensures e.stored.Some? && RouteAllowed(e.stored.value, e.route)
    ensures !e.actor.ByBump? ==> e.route == e.stored.value.route
  {
    RunKeeps(cfg, steps);
    assert EffectOk(e);
  }

  /** Every cancel submitted can displace its target: the target's chain and nonce, nothing sent to its own
      account, at the gas of a plain transfer, on its route, at fees above the stored ones. */
  lemma CancelsCanDisplace(cfg: Config, steps: seq<Step>, e: Effect)
    requires e in Reached(cfg, steps).log && e.Submits? && e.actor.ByCancel?
    ensures e.stored.Some? && e.stored.value.signed.Signed1559? && e.bytes.Signed1559? && e.route == e.stored.value.route
    ensures var target, fees := e.stored.value, e.bytes.body.fees;
            && e.bytes.body == TxBody(target.intent.chainId, target.nonce, 21_000, fees, TxKind.Call(target.account), 0, [])
            && (target.signed.body.fees.maxFee < U128_MAX ==> fees.maxFee > target.signed.body.fees.maxFee)
            && (target.signed.body.fees.tip < U128_MAX ==> fees.tip > target.signed.body.fees.tip)
  {
    RunKeeps(cfg, steps);
    assert EffectOk(e);
  }

  // ----- signatures and persistence -----

  /** Every signature covers a body built from an intent bound by an unexpired approval admitting its fees. */
  lemma SignaturesAreApproved(cfg: Config, steps: seq<Step>, e: Effect)
    requires e in Reached(cfg, steps).log && e.Signs?
    ensures Authorized(e.body, OfIntent(e.intent), e.approval, e.now)
    ensures e.body == BuildTx(e.intent, e.body.nonce, e.body.gasLimit, e.body.fees)
  {
    RunKeeps(cfg, steps);
    assert EffectOk(e);
  }

  /** What a send or a recovery broadcasts was stored before, byte for byte, as an unsettled handle. */
  lemma PersistedBeforeBroadcast(cfg: Config, steps: seq<Step>, e: Effect)
    requires e in Reached(cfg, steps).log && e.Submits? && (e.actor.BySend? || e.actor.ByRecover?)
    ensures e.stored.Some? && e.stored.value.id == e.id && e.stored.value.signed == e.bytes
            && e.stored.value.route == e.route && !e.stored.value.status.IsTerminal()
  {
    RunKeeps(cfg, steps);
    assert EffectOk(e);
  }

  // ----- refills -----

  /** How many steps of the run refilled the intent of this id. */
  function RefillCount(cfg: Config, steps: seq<Step>, id: HandleId): nat
    decreases |steps|
  {
    if steps == [] then 0
    else
      var before := steps[..|steps| - 1];
      RefillCount(cfg, before, id) + (if RefillsBy(cfg, Reached(cfg, before), steps[|steps| - 1], id) then 1 else 0)
  }

  lemma {:induction false} RefillsAreCounted(cfg: Config, steps: seq<Step>, id: HandleId)
    ensures RefillCount(cfg, steps, id) == Refilled(Reached(cfg, steps), id)
    decreases |steps|
  {
    if steps != [] {
      var before := steps[..|steps| - 1];
      RefillsAreCounted(cfg, before, id);
      RunKeeps(cfg, before);
      hide Inv, Extends, ConfirmsBy, RefillsBy;
      StepIsSound(cfg, Reached(cfg, before), steps[|steps| - 1]);
    }
  }

  /** Refills never outnumber the times an id was created, and lag behind while it is unsettled: each
      displaced handle is refilled at most once. */
  lemma RefillAtMostOncePerCreation(cfg: Config, steps: seq<Step>, id: HandleId)
    ensures var w := Reached(cfg, steps);
            RefillCount(cfg, steps, id) + (if id in w.handles && !w.handles[id].status.IsTerminal() then 1 else 0) <= Created(w, id)
  {
    RefillsAreCounted(cfg, steps, id);
    RunKeeps(cfg, steps);
    var w := Reached(cfg, steps);
    if id in w.handles {
      assert Good(cfg, id, w.handles[id], w.hist[id]);
    }
  }

  /** The highest mined count any pass of the run committed. */
  function HighestMined(cfg: Config, steps: seq<Step>): nat
    decreases |steps|
  {
    if steps == [] then 0
    else NextFloor(cfg, Reached(cfg, steps[..|steps| - 1]), steps[|steps| - 1], HighestMined(cfg, steps[..|steps| - 1]))
  }

  lemma {:induction false} RunKeepsFloor(cfg: Config, steps: seq<Step>)
    ensures FloorOk(Reached(cfg, steps), HighestMined(cfg, steps))
    decreases |steps|
  {
    if steps != [] {
      RunKeepsFloor(cfg, steps[..|steps| - 1]);
      hide FloorOk, Apply, NextFloor;
      StepFloor(cfg, Reached(cfg, steps[..|steps| - 1]), steps[|steps| - 1], HighestMined(cfg, steps[..|steps| - 1]));
    }
  }

  /** Whatever crashed, restarted or leaked, a send never takes a nonce below the highest mined count the
      run has committed. */
  lemma SendsStayAboveMined(cfg: Config, steps: seq<Step>, i: SendInput)
    ensures Allocated(Reached(cfg, steps), i).1 >= HighestMined(cfg, steps)
  {
    RunKeepsFloor(cfg, steps);
    hide RunFrom, HighestMined;
    AllocatedFloor(Reached(cfg, steps), i, HighestMined(cfg, steps));
  }

  /** A refill follows a persisted replacement of a handle not marked cancelled. Its child takes a nonce
      at or above every mined count the run committed, so a later one than the displaced handle's, and
      hence another id; the displaced handle stays replaced. */
  lemma RefillTakesALaterNonce(cfg: Config, steps: seq<Step>, s: Step, id: HandleId, child: HandleId)
    requires RefillsBy(cfg, Reached(cfg, steps), s, id)
    requires Created(Apply(cfg, Reached(cfg, steps), s), child) != Created(Reached(cfg, steps), child)
    ensures var w, w' := Reached(cfg, steps), Apply(cfg, Reached(cfg, steps), s);
            && !w.handles[id].cancelled
            && child.intentHash == id.intentHash && child.nonce >= HighestMined(cfg, steps) > id.nonce
            && Stored(w', id) == Some(w.handles[id].(status := Replaced))
  {
    hide Inv, FloorOk, RunFrom, Advance, HighestMined;
    var w := Reached(cfg, steps);
    RunKeeps(cfg, steps);
    RunKeepsFloor(cfg, steps);
    IdentityAt(cfg, w, id);
    RefillOf(cfg, w, id, s.advance, child, HighestMined(cfg, steps));
  }

  lemma RefillOf(cfg: Config, w: World, id: HandleId, a: AdvanceInput, child: HandleId, c: nat)
    requires Refills(cfg, w, id, a) && w.handles[id].id == id == HandleId(OfIntent(w.handles[id].intent), w.handles[id].nonce)
    requires FloorOk(w, c)
    ensures c > id.nonce
    ensures Created(Advance(cfg, w, id, a), child) != Created(w, child) ==>
              child.intentHash == id.intentHash && child.nonce >= c
    ensures Stored(Advance(cfg, w, id, a), id) == Some(w.handles[id].(status := Replaced))
  {
    var h, o := w.handles[id], Seen(w, id, a.chain);
    var hi := w.hist[id].(obs := w.hist[id].obs + [o]);
    var h1, i := h.(status := Replaced), RefillInput(h, a.refill);
    var w1 := Update(w, h1, hi);
    AllocatedFloor(w, i, c);
    EventMeaning(h, w.cycle.value.minedNonce, a.chain);
    hide FloorOk, Send, Allocate, EventFor;
    assert Allocated(w1, i).1 == Allocated(w, i).1;
    OnSettledTouches(cfg, w1, h1, a.refill, id);
    if child != HandleId(OfIntent(h.intent), Allocated(w, i).1) {
      OnSettledTouches(cfg, w1, h1, a.refill, child);
    }
  }

  // ----- gaps -----

  /** A gap is for good: whatever the run does next, its nonce is never available and never used. */
  lemma {:induction false} GapsLast(cfg: Config, steps: seq<Step>, k: nat, n: nat)
    requires k <= |steps| && Gap(Reached(cfg, steps[..k]), n)
    ensures Gap(Reached(cfg, steps), n)
    decreases |steps|
  {
    hide RunFrom, Inv, Gap, Apply, HighestMined;
    if k == |steps| {
      assert steps[..k] == steps;
    } else {
      var before := steps[..|steps| - 1];
      assert before[..k] == steps[..k];
      GapsLast(cfg, before, k, n);
      RunKeeps(cfg, before);
      RunKeepsFloor(cfg, before);
      LastStep(cfg, steps);
      StepKeepsGap(cfg, Reached(cfg, before), steps[|steps| - 1], n);
    }
  }

  // ----- whose nonce -----

  /** A foreign sight speaks of the account's own nonce exactly for a transaction signed here: all its
      broadcasts carry the nonce that is compared. For a managed-relay handle that is the forwarder's. */
  lemma ForeignSpeaksOfOwnNonceIff(cfg: Config, steps: seq<Step>, id: HandleId, mined: nat, chain: ChainReads)
    requires id in Reached(cfg, steps).handles && EventFor(Reached(cfg, steps).handles[id], mined, chain) == ForeignMined
    ensures var h := Reached(cfg, steps).handles[id];
            && NoReceipt(h, chain) && h.nonce < mined
            && (h.signed.Signed1559? && h.signed.body.nonce == h.nonce <==> !h.IsTask())
            && (!h.IsTask() ==> forall b | b in h.broadcasts :: b.HashOf? && b.body.nonce < mined)
            && (h.IsTask() ==> h.nonce == GasOracle.Min(h.meta.value.nonce, U64_MAX))
  {
    hide Inv, RunFrom, EventFor;
    var w := Reached(cfg, steps);
    var h := w.handles[id];
    RunKeeps(cfg, steps);
    EventMeaning(h, mined, chain);
    IdentityAt(cfg, w, id);
    GoodAt(cfg, w, id);
    hide RouteOk, StatusOk, CountsOk;
    if !h.IsTask() {
      forall b | b in h.broadcasts ensures b.HashOf? && b.body.nonce < mined {
        var i :| 0 <= i < |h.broadcasts| && h.broadcasts[i] == b;
        assert VersionOf(h, h.broadcasts[i]);
      }
    }
  }

  // ----- heads -----

  /** The step ends in a new executor, whose memory is empty. */
  predicate Restarts(s: Step) {
    match s
    case DoRestart => true
    case DoSend(i) => !i.crash.NoCrash?
    case DoAdvance(_, a) => !a.refill.crash.NoCrash?
    case _ => false
  }

  lemma BroadcastKeepsHead(w: World, i: SendInput, h: TxHandle)
    requires i.crash.NoCrash?
    ensures Broadcast(w, i, h).lastLatest == w.lastLatest
  {
  }

  lemma SendKeepsHead(cfg: Config, w: World, i: SendInput)
    requires i.crash.NoCrash?
    ensures Send(cfg, w, i).lastLatest == w.lastLatest
  {
    hide Broadcast;
    if Admitted(cfg, i) {
      var (w1, n) := Allocated(w, i);
      var approval := i.decision.value.approval;
      var r := SignEncode(SendBody(cfg, i, n), OfIntent(i.intent), approval, i.now, i.key);
      if r.Signed? {
        BroadcastKeepsHead(Noted(w1, Signs(SendBody(cfg, i, n), i.intent, approval, i.now)), i, NewHandle(i, n, approval, r.value));
      }
    }
  }

  lemma AdvanceKeepsHead(cfg: Config, w: World, id: HandleId, a: AdvanceInput)
    requires a.refill.crash.NoCrash?
    ensures Advance(cfg, w, id, a).lastLatest == w.lastLatest
  {
    hide Send, Seen;
    if Tracked(cfg, w, id) && w.cycle.Some? && id in w.hist && !IsAwaitingRelay(w.handles[id]) {
      var h, o := w.handles[id], Seen(w, id, a.chain);
      var hi := w.hist[id].(obs := w.hist[id].obs + [o]);
      match Transition(h.status, o.event, o.view, o.cfg)
      case None =>
      case Some(next) =>
        var h1 := h.(status := Resolved(h, next));
        var w1 := Update(w, h1, hi);
        if h1.id in w1.hist {
          SendKeepsHead(cfg, Counted(w1, h1), RefillInput(h1, a.refill));
        }
    }
  }

  /** Within an executor's life the accepted head never moves back. */
  lemma HeadStep(cfg: Config, w: World, s: Step)
    requires !Restarts(s)
    ensures Apply(cfg, w, s).lastLatest >= w.lastLatest
  {
    hide Send, CancelTx, Advance, Bump;
    match s
    case DoSend(i) => SendKeepsHead(cfg, w, i);
    case DoTask(_, _, _, _) =>
    case DoCancel(id, a) => CancelKeepsPool(cfg, w, id, a);
    case DoTrack(_, _) =>
    case DoRecover(_, _) =>
    case DoBeginCycle(_, _, _, _) =>
    case DoAdvance(id, a) => AdvanceKeepsHead(cfg, w, id, a);
    case DoBump(id, a) => BumpKeepsPool(cfg, w, id, a);
  }

  ghost predicate NoRestartFrom(steps: seq<Step>, k: nat) {
    forall j | k <= j < |steps| :: !Restarts(steps[j])
  }

  /** The observations recorded from length `m` on, their heads never moving back and none above `head`. */
  predicate SteadyFrom(obs: seq<Obs>, m: nat, head: nat) {
    && m <= |obs|
    && (forall p, q | m <= p < q < |obs| :: obs[p].view.latest <= obs[q].view.latest)
    && (forall p | m <= p < |obs| :: obs[p].view.latest <= head)
  }

  /** The later history continues the earlier one, steadily up to `head`. */
  predicate Recorded(hi: History, hi': History, head: nat) {
    hi.obs <= hi'.obs && (hi.obs == [] || hi'.start == hi.start) && SteadyFrom(hi'.obs, |hi.obs|, head)
  }

  lemma RecordedSnoc(hi: History, hi1: History, hi2: History, head: nat, head': nat)
    requires Recorded(hi, hi1, head) && head <= head' && (hi1.obs == [] || hi2.start == hi1.start)
    requires hi2.obs == hi1.obs || (hi1.obs <= hi2.obs && |hi2.obs| == |hi1.obs| + 1 && hi2.obs[|hi1.obs|].view.latest == head)
    ensures Recorded(hi, hi2, head')
  {
    assert forall p | 0 <= p < |hi1.obs| :: hi2.obs[p] == hi1.obs[p];
  }

  lemma ReachedInv(cfg: Config, steps: seq<Step>)
    ensures Inv(cfg, Reached(cfg, steps))
  {
    hide Inv;
    RunKeeps(cfg, steps);
  }

  lemma RecordedSelf(hi: History, head: nat)
    ensures Recorded(hi, hi, head)
  {
  }

  lemma LastStep(cfg: Config, steps: seq<Step>)
    requires steps != []
    ensures Reached(cfg, steps) == Apply(cfg, Reached(cfg, steps[..|steps| - 1]), steps[|steps| - 1])
  {
    hide Apply;
  }

  /** While the executor lives and an id is not created anew, its recorded observations only grow, and
      the heads of those added never move back. */
  lemma {:induction false} RecordedHeadsAreSteady(cfg: Config, steps: seq<Step>, k: nat, id: HandleId)
    requires k <= |steps| && NoRestartFrom(steps, k) && id in Reached(cfg, steps[..k]).hist
    requires Created(Reached(cfg, steps), id) == Created(Reached(cfg, steps[..k]), id)
    ensures id in Reached(cfg, steps).hist
    ensures Recorded(Reached(cfg, steps[..k]).hist[id], Reached(cfg, steps).hist[id], Reached(cfg, steps).lastLatest)
    decreases |steps|
  {
    hide Reached, RunFrom, Inv, Apply, Extends, Recorded, Created;
    if k == |steps| {
      assert steps[..k] == steps;
      RecordedSelf(Reached(cfg, steps).hist[id], Reached(cfg, steps).lastLatest);
    } else {
      var n := |steps| - 1;
      var before, s := steps[..n], steps[n];
      assert before[..k] == steps[..k];
      var w0, w := Reached(cfg, steps[..k]), Reached(cfg, before);
      LastStep(cfg, steps);
      RunExtends(cfg, steps, n);
      RunExtends(cfg, before, k);
      CreatedBetween(w0, w, Reached(cfg, steps), id);
      RecordedHeadsAreSteady(cfg, before, k, id);
      ReachedInv(cfg, before);
      ObservedStep(cfg, w, s, id);
      HeadStep(cfg, w, s);
      RecordedSnoc(w0.hist[id], w.hist[id], Apply(cfg, w, s).hist[id], w.lastLatest, Apply(cfg, w, s).lastLatest);
    }
  }

  lemma CreatedBetween(w: World, w1: World, w2: World, id: HandleId)
    requires Extends(w, w1) && Extends(w1, w2) && Created(w2, id) == Created(w, id)
    ensures Created(w1, id) == Created(w, id)
  {
    assert Created(w, id) <= Created(w1, id) <= Created(w2, id);
  }

  /** One step adds at most one observation, at the head last accepted. */
  lemma ObservedStep(cfg: Config, w: World, s: Step, id: HandleId)
    requires Inv(cfg, w) && id in w.hist && Created(Apply(cfg, w, s), id) == Created(w, id)
    ensures id in Apply(cfg, w, s).hist
    ensures var hi, hi' := w.hist[id], Apply(cfg, w, s).hist[id];
            && (hi.obs == [] || hi'.start == hi.start)
            && (hi'.obs == hi.obs || (hi.obs <= hi'.obs && |hi'.obs| == |hi.obs| + 1 && hi'.obs[|hi.obs|].view.latest == w.lastLatest))
  {
    assert CycleOk(w);
    hide Inv, Apply, Extends, FlagsKept;
    StepIsSound(cfg, w, s);
    if AdvancedBy(s) != Some(id) {
      assert Unobserved(w, Apply(cfg, w, s), id);
    }
  }

  lemma {:induction false} RunSplits(state: TxStatus, obs: seq<Obs>, m: nat)
    requires m <= |obs|
    ensures Lifecycle.Run(state, obs) == Lifecycle.Run(Lifecycle.Run(state, obs[..m]), obs[m..])
    decreases |obs| - m
  {
    if m == |obs| {
      assert obs[..m] == obs && obs[m..] == [];
    } else {
      var n := |obs| - 1;
      RunSplits(state, obs[..n], m);
      assert obs[..n][..m] == obs[..m] && obs[..n][m..] == obs[m..][..n - m];
    }
  }

  /** Good reads settle a stored handle: if, while the executor lives, every observation it records of an
      unsettled handle is the same sight of its own transaction under the depth rule, the handle is
      settled exactly when the last recorded head is deep enough. */
  lemma OwnSightSettlesStored(cfg: Config, steps: seq<Step>, k: nat, id: HandleId, own: ChainEvent)
    requires k <= |steps| && NoRestartFrom(steps, k) && Created(Reached(cfg, steps), id) == Created(Reached(cfg, steps[..k]), id)
    requires id in Reached(cfg, steps[..k]).handles && !Reached(cfg, steps[..k]).handles[id].status.IsTerminal()
    requires id in Reached(cfg, steps[..k]).hist && id in Reached(cfg, steps).hist && id in Reached(cfg, steps).handles
    requires var m, obs := |Reached(cfg, steps[..k]).hist[id].obs|, Reached(cfg, steps).hist[id].obs;
             m < |obs| && own.OwnMined? && forall j | m <= j < |obs| :: obs[j].event == own && obs[j].cfg == FinalityConfig(Depth, cfg.required)
    ensures var w := Reached(cfg, steps); var obs := w.hist[id].obs;
            w.handles[id].status.IsTerminal() <==> SaturatingSub(obs[|obs| - 1].view.latest, own.block) + 1 >= cfg.required
  {
    hide Inv, RunFrom;
    RecordedHeadsAreSteady(cfg, steps, k, id);
    RunKeeps(cfg, steps[..k]);
    RunKeeps(cfg, steps);
    var w0, w := Reached(cfg, steps[..k]), Reached(cfg, steps);
    GoodAt(cfg, w0, id);
    GoodAt(cfg, w, id);
    hide HandleOk, RouteOk, CountsOk;
    var m, hi := |w0.hist[id].obs|, w.hist[id];
    assert hi.obs[..m] == w0.hist[id].obs;
    OwnSuffixSettles(cfg.required, hi.start, hi.obs, m, own, w.lastLatest);
  }

  /** The same for a foreign transaction: if every observation recorded of an unsettled handle is a foreign
      sight under the depth rule, the handle ends replaced, or dropped if it is marked cancelled, exactly
      when an observation was recorded after the clock started and the last head is deep enough. */
  lemma ForeignSightSettlesStored(cfg: Config, steps: seq<Step>, k: nat, id: HandleId)
    requires k <= |steps| && NoRestartFrom(steps, k) && Created(Reached(cfg, steps), id) == Created(Reached(cfg, steps[..k]), id)
    requires id in Reached(cfg, steps[..k]).handles && !Reached(cfg, steps[..k]).handles[id].status.IsTerminal()
    requires id in Reached(cfg, steps[..k]).hist && id in Reached(cfg, steps).hist && id in Reached(cfg, steps).handles
    requires var m, obs := |Reached(cfg, steps[..k]).hist[id].obs|, Reached(cfg, steps).hist[id].obs;
             m < |obs| && forall j | m <= j < |obs| :: obs[j].event.ForeignMined? && obs[j].cfg == FinalityConfig(Depth, cfg.required)
    ensures var w0, w := Reached(cfg, steps[..k]), Reached(cfg, steps);
            var status, rest := w0.handles[id].status, w.hist[id].obs[|w0.hist[id].obs|..];
            (w.handles[id].status.Replaced? || w.handles[id].status.Dropped?) <==>
            && |rest| > FirstJudged(status)
            && SaturatingSub(rest[|rest| - 1].view.latest, ClockStart(status, rest)) + 1 >= cfg.required
  {
    hide Inv, RunFrom;
    RecordedHeadsAreSteady(cfg, steps, k, id);
    RunKeeps(cfg, steps[..k]);
    RunKeeps(cfg, steps);
    var w0, w := Reached(cfg, steps[..k]), Reached(cfg, steps);
    GoodAt(cfg, w0, id);
    GoodAt(cfg, w, id);
    hide HandleOk, RouteOk, CountsOk;
    var m, hi := |w0.hist[id].obs|, w.hist[id];
    assert hi.obs[..m] == w0.hist[id].obs;
    ForeignSuffixSettles(cfg.required, hi.start, hi.obs, m, w0.handles[id].status, w.lastLatest);
  }

  lemma ForeignSuffixSettles(required: nat, start: TxStatus, obs: seq<Obs>, m: nat, status: TxStatus, head: nat)
    requires m < |obs| && SteadyFrom(obs, m, head)
    requires forall j | m <= j < |obs| :: obs[j].event.ForeignMined? && obs[j].cfg == FinalityConfig(Depth, required)
    requires var state := Lifecycle.Run(start, obs[..m]);
             !state.IsTerminal() && (state == status || (!state.Replacing? && !status.Replacing?))
    ensures var rest := obs[m..];
            Lifecycle.Run(start, obs) == Replaced <==>
            |rest| > FirstJudged(status) && SaturatingSub(rest[|rest| - 1].view.latest, ClockStart(status, rest)) + 1 >= required
  {
    RunSplits(start, obs, m);
    var rest := obs[m..];
    assert forall j | 0 <= j < |rest| :: rest[j] == obs[m + j];
    hide Lifecycle.Run;
    ForeignLastHeadDecides(Lifecycle.Run(start, obs[..m]), rest, required);
  }

  lemma OwnSuffixSettles(required: nat, start: TxStatus, obs: seq<Obs>, m: nat, own: ChainEvent, head: nat)
    requires m < |obs| && SteadyFrom(obs, m, head) && own.OwnMined?
    requires forall j | m <= j < |obs| :: obs[j].event == own && obs[j].cfg == FinalityConfig(Depth, required)
    requires !Lifecycle.Run(start, obs[..m]).IsTerminal()
    ensures Lifecycle.Run(start, obs).IsTerminal() <==> SaturatingSub(obs[|obs| - 1].view.latest, own.block) + 1 >= required
  {
    RunSplits(start, obs, m);
    var rest := obs[m..];
    assert forall j | 0 <= j < |rest| :: rest[j] == obs[m + j];
    hide Lifecycle.Run;
    OwnLastHeadDecides(Lifecycle.Run(start, obs[..m]), rest, required, own);
  }
}
