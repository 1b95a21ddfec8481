/** The per-account tracking loop as it runs: passes over the pending handles that update the store, the
    approval cache and the last head seen, proved to refine runs of the wallet's steps
    (src/core/wallet/executor/mod.rs). */
module Tracking {
  import opened Types
  import opened Nonces
  import opened Lifecycle
  import opened Signing
  import opened Executor
  import opened Wallet
  import opened WalletHandles
  import opened WalletNonces
  import opened WalletRuns
  import opened WalletExact
  import opened WalletPolicy
  import opened Pipeline

  // ----- the steps of a pass -----

  function RecoverSteps(ids: seq<HandleId>, outcomes: HandleId -> SubmitOutcome): seq<Step> {
    seq(|ids|, k requires 0 <= k < |ids| => DoRecover(ids[k], outcomes(ids[k])))
  }

  function AdvanceSteps(ids: seq<HandleId>, answers: HandleId -> AdvanceInput): seq<Step> {
    seq(|ids|, k requires 0 <= k < |ids| => DoAdvance(ids[k], answers(ids[k])))
  }

  function BumpSteps(ids: seq<HandleId>, now: nat, answers: HandleId -> BumpInput): seq<Step> {
    seq(|ids|, k requires 0 <= k < |ids| => DoBump(ids[k], answers(ids[k]).(now := now)))
  }

  lemma RunSnocStep(cfg: Config, w: World, steps: seq<Step>, s: Step)
    ensures RunFrom(cfg, w, steps + [s]) == Apply(cfg, RunFrom(cfg, w, steps), s)
  {
    assert (steps + [s])[..|steps|] == steps;
  }

  /** One more step of a pass whose steps are given by position. */
  lemma NextStep(cfg: Config, w: World, steps: seq<Step>, k: nat)
    requires k < |steps|
    ensures RunFrom(cfg, w, steps[..k + 1]) == Apply(cfg, RunFrom(cfg, w, steps[..k]), steps[k])
  {
    assert steps[..k + 1] == steps[..k] + [steps[k]];
    RunSnocStep(cfg, w, steps[..k], steps[k]);
  }

  lemma {:induction false} RunCompose(cfg: Config, w: World, a: seq<Step>, b: seq<Step>)
    ensures RunFrom(cfg, w, a + b) == RunFrom(cfg, RunFrom(cfg, w, a), b)
    decreases |b|
  {
    if b == [] {
      assert a + b == a;
    } else {
      var n := |b| - 1;
      RunCompose(cfg, w, a, b[..n]);
      assert a + b == (a + b[..n]) + [b[n]];
      RunSnocStep(cfg, w, a + b[..n], b[n]);
    }
  }

  lemma NoAdvances(cfg: Config, w: World, answers: HandleId -> AdvanceInput)
    ensures RunFrom(cfg, w, AdvanceSteps([], answers)) == w
  {
  }

  lemma NoBumps(cfg: Config, w: World, now: nat, answers: HandleId -> BumpInput)
    ensures RunFrom(cfg, w, BumpSteps([], now, answers)) == w
  {
  }

  /** The pending handles of the account, each once, in whatever order the store lists them. */
  ghost predicate Lists(cfg: Config, w: World, ids: seq<HandleId>) {
    && (forall i, j | 0 <= i < j < |ids| :: ids[i] != ids[j])
    && (forall id :: id in ids <==> Tracked(cfg, w, id))
  }

  /** A pass of recoveries: its submissions in order, and nothing else. */
  lemma {:induction false} RecoverPass(cfg: Config, w: World, ids: seq<HandleId>, outcomes: HandleId -> SubmitOutcome, k: nat)
    requires k <= |ids|
    ensures var w' := RunFrom(cfg, w, RecoverSteps(ids, outcomes)[..k]);
            w'.handles == w.handles && w'.log == w.log + Rebroadcasts(cfg, w, ids[..k], outcomes)
    decreases k
  {
    var steps := RecoverSteps(ids, outcomes);
    if k > 0 {
      RecoverPass(cfg, w, ids, outcomes, k - 1);
      NextStep(cfg, w, steps, k - 1);
      var w1 := RunFrom(cfg, w, steps[..k - 1]);
      hide Wallet.Recover, RunFrom;
      RecoverExactly(cfg, w1, ids[k - 1], outcomes(ids[k - 1]));
      assert ids[..k][..k - 1] == ids[..k - 1] && ids[..k][k - 1] == ids[k - 1];
    } else {
      assert steps[..0] == [] && ids[..0] == [];
    }
  }

  /** Over the account's pending handles, that is every handle that should be out, and no other. */
  lemma RecoverPassCovers(cfg: Config, w: World, ids: seq<HandleId>, outcomes: HandleId -> SubmitOutcome)
    requires Lists(cfg, w, ids)
    ensures forall x :: x in Rebroadcasts(cfg, w, ids, outcomes) <==>
              exists id :: ShouldBeOut(cfg, w, id) && x == Rebroadcast(w, id, outcomes(id))
  {
    assert forall id | ShouldBeOut(cfg, w, id) :: Tracked(cfg, w, id);
    forall x ensures x in Rebroadcasts(cfg, w, ids, outcomes) <==>
                     exists id :: ShouldBeOut(cfg, w, id) && x == Rebroadcast(w, id, outcomes(id))
    {
      RebroadcastsCover(cfg, w, ids, outcomes, x);
    }
  }

  predicate IsRecovery(x: Effect) {
    x.Submits? && x.actor.ByRecover?
  }

  lemma {:induction false} OthersRecoverNothing(cfg: Config, w: World, steps: seq<Step>)
    requires Inv(cfg, w) && forall s | s in steps :: !s.DoRecover?
    ensures var w' := RunFrom(cfg, w, steps);
            Inv(cfg, w') && w.log <= w'.log && forall x | x in w'.log && IsRecovery(x) :: x in w.log
    decreases |steps|
  {
    hide Inv, Apply;
    if steps != [] {
      var n := |steps| - 1;
      OthersRecoverNothing(cfg, w, steps[..n]);
      var w1 := RunFrom(cfg, w, steps[..n]);
      StepKeeps(cfg, w1, steps[n]);
      StepIsSound(cfg, w1, steps[n]);
      forall x | x in RunFrom(cfg, w, steps).log && IsRecovery(x) ensures x in w.log {
        OnlyRecoverRecovers(cfg, w1, steps[n], x);
      }
    }
  }

  /** No step of a pass over `ids` leaks a nonce. */
  ghost predicate PassNeverLeaks(cfg: Config, w: World, steps: seq<Step>) {
    forall k | 0 <= k < |steps| :: !StepLeaks(cfg, RunFrom(cfg, w, steps[..k]), steps[k])
  }

  /** Reading a handle again at its turn is the same as working on a copy listed when the pass began, for
      every transaction signed here. */
  lemma {:induction false} CopiesStayCurrent(cfg: Config, w: World, ids: seq<HandleId>, answers: HandleId -> AdvanceInput, k: nat, at: nat)
    requires Inv(cfg, w) && NonceOk(w) && Lists(cfg, w, ids) && PassNeverLeaks(cfg, w, AdvanceSteps(ids, answers))
    requires k <= at < |ids| && ids[at] in w.handles && Holds(w.handles[ids[at]])
    ensures var w' := RunFrom(cfg, w, AdvanceSteps(ids, answers)[..k]);
            Inv(cfg, w') && NonceOk(w') && Stored(w', ids[at]) == Stored(w, ids[at])
    decreases k
  {
    hide Inv, NonceOk, StepLeaks, Advance;
    var steps := AdvanceSteps(ids, answers);
    if k > 0 {
      CopiesStayCurrent(cfg, w, ids, answers, k - 1, at);
      var w1 := RunFrom(cfg, w, steps[..k - 1]);
      NextStep(cfg, w, steps, k - 1);
      StepKeeps(cfg, w1, steps[k - 1]);
      StepKeepsNoncesIff(cfg, w1, steps[k - 1]);
      if Tracked(cfg, w1, ids[k - 1]) {
        AdvanceTouchesOnlyItsOwn(cfg, w1, ids[k - 1], answers(ids[k - 1]), ids[at]);
      } else {
        UntrackedAdvance(cfg, w1, ids[k - 1], answers(ids[k - 1]));
      }
    } else {
      assert steps[..0] == [];
    }
  }

  lemma UntrackedAdvance(cfg: Config, w: World, id: HandleId, a: AdvanceInput)
    requires !Tracked(cfg, w, id)
    ensures Advance(cfg, w, id, a) == w
  {
  }

  /** What a tick submits as recoveries is settled by its first pass. */
  lemma TickRecovers(
    cfg: Config, w0: World, w1: World, recovered: seq<HandleId>, outcomes: HandleId -> SubmitOutcome, begin: Step,
    advanced: seq<HandleId>, advances: HandleId -> AdvanceInput, bumped: seq<HandleId>, now: nat, bumps: HandleId -> BumpInput)
    requires Inv(cfg, w1) && w1 == RunFrom(cfg, w0, RecoverSteps(recovered, outcomes)) && begin.DoBeginCycle?
    requires w1.log == w0.log + Rebroadcasts(cfg, w0, recovered, outcomes)
    ensures var steps := RecoverSteps(recovered, outcomes) + [begin] + AdvanceSteps(advanced, advances) + BumpSteps(bumped, now, bumps);
            var w := RunFrom(cfg, w0, steps);
            && (forall x | x in Rebroadcasts(cfg, w0, recovered, outcomes) :: x in w.log)
            && (forall x | x in w.log && IsRecovery(x) :: x in w0.log || x in Rebroadcasts(cfg, w0, recovered, outcomes))
  {
    hide Inv, RunFrom, Rebroadcasts;
    var a, rest := RecoverSteps(recovered, outcomes), [begin] + AdvanceSteps(advanced, advances) + BumpSteps(bumped, now, bumps);
    assert a + [begin] + AdvanceSteps(advanced, advances) + BumpSteps(bumped, now, bumps) == a + rest;
    RunCompose(cfg, w0, a, rest);
    OthersRecoverNothing(cfg, w1, rest);
    var w := RunFrom(cfg, w1, rest);
    forall x | x in w1.log ensures x in w.log {
      var k :| 0 <= k < |w1.log| && w1.log[k] == x;
      assert w.log[k] == x;
    }
  }

  class AccountExecutor {
    const cfg: Config
    const ledger: Ledger
    const manager: TransactionManager
    var approvals: map<HandleId, PolicyApproval>
    var lastLatest: nat
    ghost var cycle: Option<Cycle>

    constructor (cfg: Config, ledger: Ledger, manager: TransactionManager)
      requires manager.cfg == cfg && manager.ledger == ledger
      ensures this.cfg == cfg && this.ledger == ledger && this.manager == manager
      ensures approvals == map[] && lastLatest == 0 && cycle == None
    {
      this.cfg, this.ledger, this.manager := cfg, ledger, manager;
      approvals, lastLatest, cycle := map[], 0, None;
    }

    ghost function Mem(): Memory
      reads this
    {
      Memory(approvals, lastLatest, cycle)
    }

    ghost function Now(): World
      reads this, ledger
    {
      ledger.View(Mem())
    }

    ghost predicate Valid()
      reads this, ledger
    {
      manager.cfg == cfg && manager.ledger == ledger && Inv(cfg, Now())
    }

    /** The store's list of the account's pending handles. */
    method PendingIds() returns (ids: seq<HandleId>)
      ensures Lists(cfg, Now(), ids)
    {
      ids := [];
      var todo := ledger.handles.Keys;
      while todo != {}
        invariant todo <= ledger.handles.Keys
        invariant forall i, j | 0 <= i < j < |ids| :: ids[i] != ids[j]
        invariant forall id :: id in ids <==> Tracked(cfg, Now(), id) && id !in todo
        decreases |todo|
      {
        var id :| id in todo;
        todo := todo - {id};
        if ledger.handles[id].account == cfg.account && !ledger.handles[id].status.IsTerminal() {
          ids := ids + [id];
        }
      }
    }

    /** Rebroadcast one handle on its stored route, if it should be in the mempool. */
    method RecoverOne(id: HandleId, outcome: SubmitOutcome)
      modifies ledger`live, ledger`log
      ensures Now() == Wallet.Recover(cfg, old(Now()), id, outcome)
    {
      if id in ledger.handles {
        var h := ledger.handles[id];
        if h.account == cfg.account && (h.status.Pending? || h.status.Sent?) && h.signed != Nothing {
          ghost var w := Wallet.Submit(Now(), ByRecover, id, h.signed, h.route, outcome);
          ledger.live, ledger.log := w.live, w.log;
        }
      }
    }

    /** Rebroadcast every pending handle; a failing submission never stops the pass. */
    method Recover(outcomes: HandleId -> SubmitOutcome) returns (ids: seq<HandleId>)
      requires Valid()
      modifies ledger`live, ledger`log
      ensures Valid() && Lists(cfg, old(Now()), ids)
      ensures Now() == RunFrom(cfg, old(Now()), RecoverSteps(ids, outcomes))
      ensures ledger.log == old(ledger.log) + Rebroadcasts(cfg, old(Now()), ids, outcomes)
      ensures forall x :: x in Rebroadcasts(cfg, old(Now()), ids, outcomes) <==>
                exists id :: ShouldBeOut(cfg, old(Now()), id) && x == Rebroadcast(old(Now()), id, outcomes(id))
    {
      hide Inv, Wallet.Recover, Lists, Rebroadcasts, ShouldBeOut;
      ids := PendingIds();
      ghost var w := Now();
      ghost var steps := RecoverSteps(ids, outcomes);
      for k := 0 to |ids|
        invariant Valid() && Now() == RunFrom(cfg, w, steps[..k])
      {
        NextStep(cfg, w, steps, k);
        StepKeeps(cfg, Now(), steps[k]);
        RecoverOne(ids[k], outcomes(ids[k]));
      }
      assert steps[..|ids|] == steps && ids[..|ids|] == ids;
      RecoverPass(cfg, w, ids, outcomes, |ids|);
      RecoverPassCovers(cfg, w, ids, outcomes);
    }

    // ----- confirm -----

    /** One consistent snapshot of the chain; a head that moved back or an inconsistent view is skipped. */
    method ReadCycle(block: Answer<nat>, count: Answer<nat>, finalized: Answer<Option<nat>>) returns (r: CycleRead)
      modifies this`lastLatest
      ensures r == Executor.ReadCycle(old(lastLatest), cfg.required, block, count, finalized)
      ensures r.Fresh? <==> Consistent(old(lastLatest), block, count, finalized)
      ensures r.Fresh? ==> TakenFrom(r.cycle, cfg.required, block.value, count.value, finalized.value)
      ensures lastLatest == if r.Fresh? then r.cycle.view.latest else old(lastLatest)
      ensures lastLatest >= old(lastLatest) && (r.Fresh? ==> r.cycle.view.finalized <= r.cycle.view.latest)
    {
      if block.Err? || count.Err? {
        return ReadFailed;
      }
      var latest := block.value;
      if latest < lastLatest {
        return Skip;
      }
      if finalized.Err? {
        return ReadFailed;
      }
      var mode, height := Depth, 0;
      if finalized.value.Some? {
        mode, height := Finalized, finalized.value.value;
      }
      if height > latest {
        return Skip;
      }
      lastLatest := latest;
      r := Fresh(Cycle(ChainView(latest, height), FinalityConfig(mode, cfg.required), count.value));
    }

    /** Drop the cached approval of a settled handle and, if a foreign transaction displaced it, send its
        intent again. */
    method OnSettled(h: TxHandle, i: SendInput)
      requires manager.cfg == cfg && manager.ledger == ledger && i.crash.NoCrash? && h.id in ledger.hist
      modifies this`approvals, ledger
      ensures Now() == Wallet.OnSettled(cfg, old(Now()), h, i)
    {
      approvals := approvals - {h.id};
      if cfg.refill && h.status.Replaced? {
        ghost var hi := ledger.hist[h.id];
        ledger.hist := ledger.hist[h.id := hi.(refilled := hi.refilled + 1)];
        var child := manager.Send(RefillInput(h, i), Mem());
      }
    }

    /** Move a chain-tracked handle by its distilled event, persist it, then do what settling takes. */
    method AdvanceOnChain(id: HandleId, c: Cycle, a: AdvanceInput)
      requires manager.cfg == cfg && manager.ledger == ledger && a.refill.crash.NoCrash?
      requires cycle == Some(c) && id in ledger.handles && id in ledger.hist && ledger.handles[id].id == id
      modifies this`approvals, ledger
      ensures Now() == Wallet.AdvanceOnChain(cfg, old(Now()), id, a)
    {
      hide Wallet.OnSettled;
      var h := ledger.handles[id];
      var event := DistillEvent(h, c.minedNonce, a.chain);
      ghost var hi := ledger.hist[id].(obs := ledger.hist[id].obs + [Obs(event, c.view, c.finality)]);
      match Transition(h.status, event, c.view, c.finality) {
        case None =>
          ledger.hist := ledger.hist[id := hi];
          assert ledger.handles == ledger.handles[id := h];
        case Some(next) =>
          if a.wrote {
            var h1 := h.(status := if next.Replaced? && h.cancelled then Dropped else next);
            ledger.Put(h1, hi);
            if h1.status.IsTerminal() {
              OnSettled(h1, a.refill);
            }
          }
      }
    }

    /** Ask the relay about a task that has no hash yet. */
    method PollTask(id: HandleId, a: AdvanceInput)
      requires manager.cfg == cfg && manager.ledger == ledger && a.refill.crash.NoCrash?
      requires id in ledger.handles && id in ledger.hist && ledger.handles[id].id == id
      modifies this`approvals, ledger
      ensures Now() == Wallet.PollTask(cfg, old(Now()), id, a)
    {
      if !cfg.relay || a.poll.Err? {
        return;
      }
      var h := ledger.handles[id];
      ghost var hi := ledger.hist[id];
      match a.poll.value {
        case RelayPending =>
        case Included(hash) =>
          if a.wrote {
            ledger.Put(h.(broadcasts := h.broadcasts + [hash], status := Sent), hi.(via := hi.via + [h.route], start := Sent));
          }
        case RelayFailed(reason) =>
          if a.wrote {
            var h1 := h.(status := Failed(reason));
            ledger.Put(h1, hi.(start := h1.status));
            OnSettled(h1, a.refill);
          }
      }
    }

    method AdvanceHandle(id: HandleId, c: Cycle, a: AdvanceInput)
      requires Valid() && a.refill.crash.NoCrash? && cycle == Some(c)
      modifies this`approvals, ledger
      ensures Now() == Wallet.Advance(cfg, old(Now()), id, a)
    {
      hide Inv, Wallet.PollTask, Wallet.AdvanceOnChain;
      if id in ledger.handles && ledger.handles[id].account == cfg.account && !ledger.handles[id].status.IsTerminal() {
        IdentityAt(cfg, Now(), id);
        if IsAwaitingRelay(ledger.handles[id]) {
          PollTask(id, a);
        } else {
          AdvanceOnChain(id, c, a);
        }
      }
    }

    /** Reconcile the allocator forward, then advance every pending handle against one snapshot. An error
        answer means the pass was given up. */
    method Confirm(
      block: Answer<nat>, count: Answer<nat>, finalized: Answer<Option<nat>>, reset: bool, answers: HandleId -> AdvanceInput)
      returns (ok: bool, ids: seq<HandleId>)
      requires Valid() && forall id :: answers(id).refill.crash.NoCrash?
      modifies this, ledger
      ensures Valid()
      ensures var w := BeginCycle(cfg, old(Now()), block, count, finalized, reset);
              && Now() == RunFrom(cfg, w, AdvanceSteps(ids, answers))
              && (if w.cycle.Some? then ok && Lists(cfg, w, ids) else ids == [])
              && (ok <==> !Executor.ReadCycle(old(lastLatest), cfg.required, block, count, finalized).ReadFailed?
                          && (Executor.ReadCycle(old(lastLatest), cfg.required, block, count, finalized).Fresh? ==> reset))
    {
      hide Inv, Lists, AdvanceSteps, RunFrom;
      StepKeeps(cfg, Now(), DoBeginCycle(block, count, finalized, reset));
      NoAdvances(cfg, BeginCycle(cfg, Now(), block, count, finalized, reset), answers);
      var read := ReadCycle(block, count, finalized);
      cycle := None;
      if !read.Fresh? || !reset {
        return read.Skip?, [];
      }
      var c := read.cycle;
      cycle := Some(c);
      ledger.nonce := Versioned(Reset(ledger.nonce.value, c.minedNonce), ledger.nonce.version + 1);
      ids := AdvanceAll(c, answers);
      ok := true;
    }

    method AdvanceAll(c: Cycle, answers: HandleId -> AdvanceInput) returns (ids: seq<HandleId>)
      requires Valid() && cycle == Some(c) && forall id :: answers(id).refill.crash.NoCrash?
      modifies this`approvals, ledger
      ensures Valid() && Lists(cfg, old(Now()), ids)
      ensures Now() == RunFrom(cfg, old(Now()), AdvanceSteps(ids, answers))
    {
      hide Inv, Wallet.Advance, Lists;
      ids := PendingIds();
      ghost var w := Now();
      ghost var steps := AdvanceSteps(ids, answers);
      for k := 0 to |ids|
        invariant Valid() && Now() == RunFrom(cfg, w, steps[..k])
      {
        NextStep(cfg, w, steps, k);
        StepKeeps(cfg, Now(), steps[k]);
        AdvanceHandle(ids[k], c, answers(ids[k]));
      }
      assert steps[..|ids|] == steps;
    }

    // ----- escalate -----

    method CacheApproval(id: HandleId, approval: PolicyApproval)
      modifies this`approvals
      ensures Now() == Apply(cfg, old(Now()), DoTrack(id, approval))
    {
      approvals := approvals[id := approval];
    }

    /** What entitles a bump to be signed: an entry of the cache that still fits, or else a new decision. */
    method BumpApproval(h: TxHandle, fees: Fees, a: BumpInput) returns (r: Option<PolicyApproval>)
      ensures r == Wallet.BumpApproval(Now(), h, fees, a)
      ensures r.Some? ==> r.value.envelope.Admits(fees)
    {
      if h.id in approvals {
        var cached := approvals[h.id];
        if cached.validUntil >= a.now && cached.envelope.Admits(fees) {
          return Some(cached);
        }
      }
      if a.decision.Err? || a.decision.value.Deny? || !a.decision.value.approval.envelope.Admits(fees) {
        return None;
      }
      r := Some(a.decision.value.approval);
    }

    /** Replace a stuck transaction at its own nonce with raised fees, and record it once it is known. */
    method Bump(id: HandleId, a: BumpInput)
      requires Valid()
      modifies this`approvals, ledger
      ensures Now() == Wallet.Bump(cfg, old(Now()), id, a)
    {
      hide Inv, Wallet.Replace, GasOracle.Bump;
      if id !in ledger.handles {
        return;
      }
      var h := ledger.handles[id];
      IdentityAt(cfg, Now(), id);
      if h.account != cfg.account || !Stuck(cfg, h, a.now) || a.count.Err? || h.nonce < a.count.value {
        return;
      }
      if a.baseFee.Err? || !h.signed.Signed1559? {
        return;
      }
      var raised := GasOracle.Bump(h.signed.body.fees, a.baseFee.value, cfg.ceiling);
      if raised.Err? || !h.envelope.Admits(raised.value) {
        return;
      }
      var approval := BumpApproval(h, raised.value, a);
      if approval.Some? {
        Replace(h, raised.value, approval.value, a);
      }
    }

    method Replace(h: TxHandle, fees: Fees, approval: PolicyApproval, a: BumpInput)
      requires h.id in ledger.hist && h.signed.Signed1559?
      modifies this`approvals, ledger
      ensures Now() == Wallet.Replace(old(Now()), h, fees, approval, a)
    {
      var body := BuildTx(h.intent, h.nonce, h.signed.body.gasLimit, fees);
      var signed := SignEncode(body, h.intentHash, approval, a.now, a.key);
      if signed.Refused? {
        return;
      }
      var route := h.route;
      if h.route.Private? && h.route.via.escalation.PublicAfter? && |h.broadcasts| >= h.route.via.escalation.cycles {
        route := Public;
      }
      ghost var w := Wallet.Submit(Noted(Now(), Signs(body, h.intent, approval, a.now)), ByBump, h.id, signed.value.encoded, route, a.submit);
      ledger.live, ledger.log := w.live, w.log;
      if a.submit.Known() && a.wrote {
        ghost var hi := ledger.hist[h.id];
        ledger.Put(h.(signed := signed.value.encoded, broadcasts := h.broadcasts + [signed.value.hash], lastBroadcastAt := a.now, route := route),
                   hi.(via := hi.via + [route]));
        approvals := approvals[h.id := approval];
      }
    }

    /** Bump every transaction that has outstayed the timeout. */
    method Escalate(now: nat, answers: HandleId -> BumpInput) returns (ids: seq<HandleId>)
      requires Valid()
      modifies this`approvals, ledger
      ensures Valid() && Lists(cfg, old(Now()), ids)
      ensures Now() == RunFrom(cfg, old(Now()), BumpSteps(ids, now, answers))
    {
      hide Inv, Wallet.Bump, Lists;
      ids := PendingIds();
      ghost var w := Now();
      ghost var steps := BumpSteps(ids, now, answers);
      for k := 0 to |ids|
        invariant Valid() && Now() == RunFrom(cfg, w, steps[..k])
      {
        NextStep(cfg, w, steps, k);
        StepKeeps(cfg, Now(), steps[k]);
        Bump(ids[k], answers(ids[k]).(now := now));
      }
      assert steps[..|ids|] == steps;
    }

    // ----- tick -----

    /** One executor cycle is a run of the wallet's steps: recover every pending handle, begin a cycle,
        advance every handle pending then, and, unless that pass was given up, bump the stuck ones. */
    method Tick(outcomes: HandleId -> SubmitOutcome,
                block: Answer<nat>, count: Answer<nat>, finalized: Answer<Option<nat>>, reset: bool, advances: HandleId -> AdvanceInput,
                now: nat, bumps: HandleId -> BumpInput)
      returns (ok: bool, recovered: seq<HandleId>, advanced: seq<HandleId>, bumped: seq<HandleId>)
      requires Valid() && forall id :: advances(id).refill.crash.NoCrash?
      modifies this, ledger
      ensures Valid() && Lists(cfg, old(Now()), recovered)
      ensures var begin := RecoverSteps(recovered, outcomes) + [DoBeginCycle(block, count, finalized, reset)];
              var w := RunFrom(cfg, old(Now()), begin);
              var w' := RunFrom(cfg, old(Now()), begin + AdvanceSteps(advanced, advances));
              && (if w.cycle.Some? then ok && Lists(cfg, w, advanced) else advanced == [])
              && (if ok then Lists(cfg, w', bumped) else bumped == [])
              && Now() == RunFrom(cfg, old(Now()), begin + AdvanceSteps(advanced, advances) + BumpSteps(bumped, now, bumps))
      ensures forall id | ShouldBeOut(cfg, old(Now()), id) :: Rebroadcast(old(Now()), id, outcomes(id)) in ledger.log
      ensures forall x | x in ledger.log && IsRecovery(x) ::
                x in old(ledger.log) || exists id :: ShouldBeOut(cfg, old(Now()), id) && x == Rebroadcast(old(Now()), id, outcomes(id))
    {
      hide Inv, Lists, BeginCycle, RunFrom, RecoverSteps, AdvanceSteps, BumpSteps;
      ghost var w0 := Now();
      recovered := Recover(outcomes);
      ghost var a, w1 := RecoverSteps(recovered, outcomes), Now();
      ghost var begin := DoBeginCycle(block, count, finalized, reset);
      RunSnocStep(cfg, w0, a, begin);
      ok, advanced := Confirm(block, count, finalized, reset, advances);
      ghost var c := AdvanceSteps(advanced, advances);
      RunCompose(cfg, w0, a + [begin], c);
      bumped := [];
      NoBumps(cfg, Now(), now, bumps);
      if ok {
        bumped := Escalate(now, bumps);
      }
      RunCompose(cfg, w0, a + [begin] + c, BumpSteps(bumped, now, bumps));
      TickRecovers(cfg, w0, w1, recovered, outcomes, begin, advanced, advances, bumped, now, bumps);
    }
  }
}
