/** Cancellation: which attempts it makes, when the target is left marked as cancelled, and what that mark
    is worth over a run (src/core/wallet/transaction_manager.rs). */
module Cancellation {
  import opened Types
  import opened Signing
  import opened Wallet
  import opened WalletHandles
  import opened WalletRuns
  import opened WalletPromises

  // ----- the attempts -----

  /** A cancel attempt is priced and signed, so it is submitted. */
  predicate Attempted(cfg: Config, target: TxHandle, basis: Fees, approval: PolicyApproval, now: nat, a: Attempt) {
    && a.baseFee.Ok?
    && var fees := GasOracle.Bump(basis, a.baseFee.value, cfg.ceiling);
    && fees.Ok?
    && SignEncode(CancelBody(target, fees.value), OfIntent(CancelIntent(target)), approval, now, a.key).Signed?
  }

  /** The last submission is known to be accepted. */
  predicate LastKnown(outcomes: seq<SubmitOutcome>) {
    outcomes != [] && outcomes[|outcomes| - 1].Known()
  }

  predicate SomeLive(outcomes: seq<SubmitOutcome>) {
    exists o :: o in outcomes && o.MayBeLive()
  }

  /** The outcomes of the submissions a cancellation makes, in order. */
  function CancelOutcomes(cfg: Config, target: TxHandle, basis: Fees, approval: PolicyApproval, a: CancelInput): seq<SubmitOutcome> {
    if !Attempted(cfg, target, basis, approval, a.now, a.first) then []
    else if a.first.submit.Known() || !a.first.submit.error.IsUnderpriced() || !a.refetched
            || !Attempted(cfg, target, basis, approval, a.now, a.second)
    then [a.first.submit]
    else [a.first.submit, a.second.submit]
  }

  predicate IsCancelSubmit(e: Effect, target: TxHandle, outcome: SubmitOutcome) {
    e.Submits? && e.actor.ByCancel? && e.id == target.id && e.outcome == outcome
  }

  /** The log grew by a signature and a submission for each of these outcomes, and by nothing else. */
  predicate LogsCancels(before: seq<Effect>, after: seq<Effect>, target: TxHandle, outcomes: seq<SubmitOutcome>) {
    && before <= after
    && |after| == |before| + 2 * |outcomes|
    && (|outcomes| > 0 ==> after[|before|].Signs? && IsCancelSubmit(after[|before| + 1], target, outcomes[0]))
    && (|outcomes| > 1 ==> after[|before| + 2].Signs? && IsCancelSubmit(after[|before| + 3], target, outcomes[1]))
  }

  lemma OneAttempt(cfg: Config, w: World, target: TxHandle, basis: Fees, approval: PolicyApproval, now: nat, a: Attempt)
    ensures var (w', r) := TryCancel(cfg, w, target, basis, approval, now, a);
            && w'.handles == w.handles && w'.hist == w.hist
            && (Attempted(cfg, target, basis, approval, now, a) ==>
                  && LogsCancels(w.log, w'.log, target, [a.submit])
                  && (r.Out? <==> a.submit.Known())
                  && (r.Underpriced? <==> !a.submit.Known() && a.submit.error.IsUnderpriced()))
            && (!Attempted(cfg, target, basis, approval, now, a) ==> w' == w && r == GaveUp)
  {
  }

  /** A cancellation makes at most two submissions, the second only after an underpriced first, and
      succeeds exactly when the last one is known to be accepted. */
  lemma CancelAttempts(cfg: Config, w: World, target: TxHandle, basis: Fees, approval: PolicyApproval, a: CancelInput)
    ensures var (w', r) := TryCancelTwice(cfg, w, target, basis, approval, a);
            var outcomes := CancelOutcomes(cfg, target, basis, approval, a);
            && LogsCancels(w.log, w'.log, target, outcomes)
            && w'.handles == w.handles && w'.hist == w.hist
            && (r.Out? <==> LastKnown(outcomes))
  {
    hide TryCancel, Attempted;
    OneAttempt(cfg, w, target, basis, approval, a.now, a.first);
    var (w1, _) := TryCancel(cfg, w, target, basis, approval, a.now, a.first);
    OneAttempt(cfg, w1, target, basis, approval, a.now, a.second);
  }

  lemma SameCancel(cfg: Config, h: TxHandle, h': TxHandle, basis: Fees, approval: PolicyApproval, a: CancelInput)
    requires h' == h.(cancelled := true)
    ensures CancelOutcomes(cfg, h', basis, approval, a) == CancelOutcomes(cfg, h, basis, approval, a)
  {
  }

  // ----- the mark of one cancellation -----

  /** The cancellation gets as far as marking its target. */
  predicate Marks(w: World, id: HandleId, a: CancelInput) {
    id in w.handles && !w.handles[id].status.IsTerminal() && a.decision.Ok? && a.decision.value.Allow? && a.flagged
  }

  /** The target is the cancel of its own nonce, so that its cancel takes over its id. */
  predicate IsOwnCancel(h: TxHandle) {
    h.intentHash == OfIntent(TxIntent(h.intent.chainId, h.account, TxKind.Call(h.account), 0, [], None))
  }

  /** The outcomes of what a cancel step submits. */
  function Submitted(cfg: Config, w: World, id: HandleId, a: CancelInput): seq<SubmitOutcome> {
    if !Marks(w, id, a) then []
    else match DecodeFees(w.handles[id].signed)
      case None => []
      case Some(current) => CancelOutcomes(cfg, w.handles[id], current.fees, a.decision.value.approval, a)
  }

  /** The cancel's handle replaces its target's. */
  predicate TakesOver(cfg: Config, w: World, id: HandleId, a: CancelInput) {
    Marks(w, id, a) && LastKnown(Submitted(cfg, w, id, a)) && IsOwnCancel(w.handles[id]) && a.recorded
  }

  /** The target ends marked: its bytes cannot be priced, or the cancel is known to be accepted, or the
      write that takes the mark back fails. */
  predicate EndsMarked(cfg: Config, w: World, id: HandleId, a: CancelInput)
    requires Marks(w, id, a)
  {
    DecodeFees(w.handles[id].signed).None? || LastKnown(Submitted(cfg, w, id, a)) || !a.unflagged
  }

  lemma PricedMark(cfg: Config, w: World, target: TxHandle, basis: Fees, approval: PolicyApproval, a: CancelInput)
    requires Stored(w, target.id) == Some(target) && target.id in w.hist && target.cancelled
    requires target.id == HandleId(target.intentHash, target.nonce)
    ensures var w' := CancelPriced(cfg, w, target, basis, approval, a);
            var outcomes := CancelOutcomes(cfg, target, basis, approval, a);
            var over := LastKnown(outcomes) && IsOwnCancel(target) && a.recorded;
            && LogsCancels(w.log, w'.log, target, outcomes)
            && Created(w', target.id) == Created(w, target.id) + (if over then 1 else 0)
            && target.id in w'.handles
            && (over ==> !w'.handles[target.id].cancelled)
            && (!over ==> w'.handles[target.id] == target.(cancelled := LastKnown(outcomes) || !a.unflagged))
  {
    CancelAttempts(cfg, w, target, basis, approval, a);
    hide TryCancelTwice, CancelOutcomes, LogsCancels, LastKnown;
  }

  /** What one cancellation does to its target, for every target: nothing unless it gets to mark it; else
      the mark ends as said, the id is created anew exactly when the cancel takes it over, and the log
      grows by exactly the submissions made. */
  lemma CancelMarkExactly(cfg: Config, w: World, id: HandleId, a: CancelInput)
    requires Inv(cfg, w) && id in w.handles
    ensures var w' := CancelTx(cfg, w, id, a);
            && id in w'.handles
            && (!Marks(w, id, a) ==> w' == w)
            && LogsCancels(w.log, w'.log, w.handles[id], Submitted(cfg, w, id, a))
            && Created(w', id) == Created(w, id) + (if TakesOver(cfg, w, id, a) then 1 else 0)
            && (TakesOver(cfg, w, id, a) ==> !w'.handles[id].cancelled)
            && (Marks(w, id, a) && !TakesOver(cfg, w, id, a) ==>
                  w'.handles[id] == w.handles[id].(cancelled := EndsMarked(cfg, w, id, a)))
  {
    hide Inv, CancelPriced, CancelOutcomes;
    var h := w.handles[id];
    IdentityAt(cfg, w, id);
    if Marks(w, id, a) && DecodeFees(h.signed).Some? {
      var w1 := Flag(w, id, true);
      var fees, approval := DecodeFees(h.signed).value.fees, a.decision.value.approval;
      PricedMark(cfg, w1, w1.handles[id], fees, approval, a);
      SameCancel(cfg, h, w1.handles[id], fees, approval, a);
    }
  }

  /** A submission of this step may be live and yet its target is left unmarked. */
  predicate LosesMark(cfg: Config, w: World, id: HandleId, a: CancelInput) {
    && SomeLive(Submitted(cfg, w, id, a))
    && (if LastKnown(Submitted(cfg, w, id, a)) then id in w.handles && IsOwnCancel(w.handles[id]) && a.recorded else a.unflagged)
  }

  predicate HasMark(w: World, id: HandleId) {
    id in w.handles && w.handles[id].cancelled
  }

  /** A cancellation whose submission may be live leaves its target marked, except exactly when the last
      outcome is not known to be accepted and the mark is taken back, or the cancel takes over the id of a
      target that is itself a cancel. */
  lemma LiveCancelIsMarkedIff(cfg: Config, w: World, id: HandleId, a: CancelInput)
    requires Inv(cfg, w) && id in w.handles
    ensures (SomeLive(Submitted(cfg, w, id, a)) ==> HasMark(CancelTx(cfg, w, id, a), id)) <==> !LosesMark(cfg, w, id, a)
  {
    hide Inv, CancelTx, CancelOutcomes, LogsCancels;
    CancelMarkExactly(cfg, w, id, a);
  }

  // ----- the mark over runs -----

  /** Since the handle of this id was created, some cancel of it was submitted that may be live. */
  function CancelLive(cfg: Config, steps: seq<Step>, id: HandleId): bool
    decreases |steps|
  {
    if steps == [] then false
    else
      var before, s := steps[..|steps| - 1], steps[|steps| - 1];
      var w := Reached(cfg, before);
      Created(Apply(cfg, w, s), id) == Created(w, id)
      && (CancelLive(cfg, before, id) || (s.DoCancel? && s.id == id && SomeLive(Submitted(cfg, w, id, s.cancel))))
  }

  /** Every unsettled handle with a possibly live cancel is marked. */
  ghost predicate Marked(cfg: Config, steps: seq<Step>) {
    var w := Reached(cfg, steps);
    forall id | id in w.handles && CancelLive(cfg, steps, id) && !w.handles[id].status.IsTerminal() :: w.handles[id].cancelled
  }

  /** The step takes the mark of its target back while a cancel of it, this one or an earlier one, may be
      live. */
  predicate Unmarks(cfg: Config, before: seq<Step>, s: Step) {
    && s.DoCancel?
    && var w := Reached(cfg, before);
    && Marks(w, s.id, s.cancel)
    && !EndsMarked(cfg, w, s.id, s.cancel)
    && (CancelLive(cfg, before, s.id) || SomeLive(Submitted(cfg, w, s.id, s.cancel)))
  }

  lemma CancelLiveSnoc(cfg: Config, before: seq<Step>, s: Step, id: HandleId)
    ensures var w := Reached(cfg, before);
            && Reached(cfg, before + [s]) == Apply(cfg, w, s)
            && (CancelLive(cfg, before + [s], id) <==>
                  && Created(Apply(cfg, w, s), id) == Created(w, id)
                  && (CancelLive(cfg, before, id) || (s.DoCancel? && s.id == id && SomeLive(Submitted(cfg, w, id, s.cancel)))))
  {
    assert (before + [s])[..|before|] == before;
    hide Apply, Submitted;
  }

  /** An unsettled handle that is not newly created was there before, unsettled. */
  lemma WasThere(cfg: Config, w: World, w': World, id: HandleId)
    requires Inv(cfg, w') && Inv(cfg, w) && Extends(w, w')
    requires id in w'.handles && !w'.handles[id].status.IsTerminal() && Created(w', id) == Created(w, id)
    ensures id in w.handles && !w.handles[id].status.IsTerminal()
  {
    GoodAt(cfg, w', id);
    assert CountsOk(w'.handles[id], w'.hist[id]);
    assert Continues(w.handles[id], w'.handles[id]);
  }

  lemma OthersStayMarked(cfg: Config, before: seq<Step>, s: Step, id: HandleId)
    requires Marked(cfg, before) && FlaggedBy(s) != Some(id)
    requires var w' := Reached(cfg, before + [s]); id in w'.handles && CancelLive(cfg, before + [s], id) && !w'.handles[id].status.IsTerminal()
    ensures Reached(cfg, before + [s]).handles[id].cancelled
  {
    var w, w' := Reached(cfg, before), Reached(cfg, before + [s]);
    hide Inv, Apply, RunFrom, Submitted;
    CancelLiveSnoc(cfg, before, s, id);
    RunKeeps(cfg, before);
    RunKeeps(cfg, before + [s]);
    StepIsSound(cfg, w, s);
    WasThere(cfg, w, w', id);
  }

  lemma TargetMark(cfg: Config, before: seq<Step>, id: HandleId, a: CancelInput)
    requires Marked(cfg, before) && id in Reached(cfg, before).handles
    ensures var s := DoCancel(id, a); var w' := Reached(cfg, before + [s]);
            && id in w'.handles
            && (Unmarks(cfg, before, s) ==> CancelLive(cfg, before + [s], id) && !w'.handles[id].status.IsTerminal() && !w'.handles[id].cancelled)
            && (!Unmarks(cfg, before, s) && CancelLive(cfg, before + [s], id) && !w'.handles[id].status.IsTerminal() ==> w'.handles[id].cancelled)
  {
    var w := Reached(cfg, before);
    hide Inv, RunFrom, Submitted, CancelTx, LogsCancels, SomeLive;
    RunKeeps(cfg, before);
    CancelLiveSnoc(cfg, before, DoCancel(id, a), id);
    CancelMarkExactly(cfg, w, id, a);
    NoMarkNoSubmission(cfg, w, id, a);
  }

  lemma NoMarkNoSubmission(cfg: Config, w: World, id: HandleId, a: CancelInput)
    ensures !Marks(w, id, a) ==> !SomeLive(Submitted(cfg, w, id, a))
  {
  }

  lemma CancelOfNothing(cfg: Config, before: seq<Step>, id: HandleId, a: CancelInput)
    requires id !in Reached(cfg, before).handles
    ensures Reached(cfg, before + [DoCancel(id, a)]) == Reached(cfg, before)
  {
    CancelLiveSnoc(cfg, before, DoCancel(id, a), id);
  }

  /** One step of a run keeps every possibly live cancel marked exactly when it does not unmark one. */
  lemma MarkedStepIff(cfg: Config, before: seq<Step>, s: Step)
    requires Marked(cfg, before)
    ensures Marked(cfg, before + [s]) <==> !Unmarks(cfg, before, s)
  {
    hide RunFrom, CancelLive, Unmarks;
    var w' := Reached(cfg, before + [s]);
    if s.DoCancel? && s.id in Reached(cfg, before).handles {
      TargetMark(cfg, before, s.id, s.cancel);
    } else {
      OnlyCancelsUnmark(cfg, before, s);
    }
    if !Unmarks(cfg, before, s) {
      forall id | id in w'.handles && CancelLive(cfg, before + [s], id) && !w'.handles[id].status.IsTerminal()
        ensures w'.handles[id].cancelled
      {
        if FlaggedBy(s) != Some(id) {
          OthersStayMarked(cfg, before, s, id);
        } else if id !in Reached(cfg, before).handles {
          CancelOfNothing(cfg, before, id, s.cancel);
        }
      }
    }
  }

  lemma OnlyCancelsUnmark(cfg: Config, before: seq<Step>, s: Step)
    requires !s.DoCancel? || s.id !in Reached(cfg, before).handles
    ensures !Unmarks(cfg, before, s)
  {
  }

  ghost predicate StaysMarked(cfg: Config, steps: seq<Step>) {
    forall k | 0 <= k <= |steps| :: Marked(cfg, steps[..k])
  }

  ghost predicate NeverUnmarks(cfg: Config, steps: seq<Step>) {
    forall k | 0 <= k < |steps| :: !Unmarks(cfg, steps[..k], steps[k])
  }

  /** Throughout a run every possibly live cancel is marked exactly when no step unmarks one. */
  lemma {:induction false} MarkedRunIff(cfg: Config, steps: seq<Step>)
    ensures StaysMarked(cfg, steps) <==> NeverUnmarks(cfg, steps)
    decreases |steps|
  {
    hide Marked, Unmarks;
    if steps == [] {
      NothingToMark(cfg);
      assert steps[..0] == [];
    } else {
      var n := |steps| - 1;
      var before := steps[..n];
      assert before + [steps[n]] == steps[..n + 1] == steps;
      assert forall k | 0 <= k <= n :: before[..k] == steps[..k];
      MarkedRunIff(cfg, before);
      if StaysMarked(cfg, before) {
        assert Marked(cfg, before[..n]) && before[..n] == before;
        MarkedStepIff(cfg, before, steps[n]);
      }
    }
  }

  lemma NothingToMark(cfg: Config)
    ensures Marked(cfg, [])
  {
  }

  /** A cancelled transaction is not sent again: in a run whose steps unmark no possibly live cancel, a
      refill means that no cancel of the displaced handle may be live. */
  lemma RefillMeansNoLiveCancel(cfg: Config, steps: seq<Step>, s: Step, id: HandleId)
    requires NeverUnmarks(cfg, steps) && RefillsBy(cfg, Reached(cfg, steps), s, id)
    ensures !CancelLive(cfg, steps, id)
  {
    hide RunFrom, CancelLive, Unmarks;
    MarkedRunIff(cfg, steps);
    assert steps[..|steps|] == steps;
    assert Marked(cfg, steps);
  }
}
