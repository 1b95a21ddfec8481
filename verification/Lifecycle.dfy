/** The transaction lifecycle (src/core/wallet/executor/lifecycle.rs): a pure transition on persisted
    statuses, and what it guarantees over whole runs of chain observations.
*/
module Lifecycle {
  import opened Types

  datatype Finality = Finalized | Depth

  datatype FinalityConfig = FinalityConfig(mode: Finality, required: nat)

  datatype ChainView = ChainView(latest: nat, finalized: nat)

  datatype Outcome = Executed | Reverted

  /** One handle's chain reads of a cycle, distilled. */
  datatype ChainEvent =
    | NonceOpen
    | OwnMined(block: nat, blockHash: BlockHash, outcome: Outcome)
    | ForeignMined
    | Unknown

  function SaturatingSub(a: nat, b: nat): nat {
    if a >= b then a - b else 0
  }

  predicate IsFinal(block: nat, view: ChainView, cfg: FinalityConfig) {
    match cfg.mode
    case Finalized => block <= view.finalized
    case Depth => SaturatingSub(view.latest, block) + 1 >= cfg.required
  }

  function Settled(block: nat, outcome: Outcome): TxStatus {
    if outcome.Executed? then Confirmed(block) else Failed("reverted on-chain")
  }

  function Target(state: TxStatus, event: ChainEvent, view: ChainView, cfg: FinalityConfig): Option<TxStatus> {
    match event
    case Unknown => None
    case NonceOpen => if state.Mined? || state.Replacing? then Some(Sent) else None
    case OwnMined(block, blockHash, outcome) =>
      Some(if IsFinal(block, view, cfg) then Settled(block, outcome) else Mined(block, blockHash))
    case ForeignMined =>
      if !state.Replacing? then Some(Replacing(view.latest))
      else if IsFinal(state.sinceBlock, view, cfg) then Some(Replaced)
      else None
  }

  /** The next status, or None for no change. */
  function Transition(state: TxStatus, event: ChainEvent, view: ChainView, cfg: FinalityConfig): Option<TxStatus> {
    if state.IsTerminal() then None
    else
      var target := Target(state, event, view, cfg);
      if target == Some(state) then None else target
  }

  // ----- runs of observations -----

  datatype Obs = Obs(event: ChainEvent, view: ChainView, cfg: FinalityConfig)

  function Next(state: TxStatus, o: Obs): TxStatus {
    match Transition(state, o.event, o.view, o.cfg)
    case None => state
    case Some(next) => next
  }

  function Run(state: TxStatus, obs: seq<Obs>): TxStatus {
    if obs == [] then state else Next(Run(state, obs[..|obs| - 1]), obs[|obs| - 1])
  }

  lemma RunSnoc(state: TxStatus, obs: seq<Obs>, o: Obs)
    ensures Run(state, obs + [o]) == Next(Run(state, obs), o)
  {
    assert (obs + [o])[..|obs|] == obs;
  }

  /** A settled status is never revised. */
  lemma {:induction false} TerminalStays(state: TxStatus, obs: seq<Obs>, k: nat)
    requires k <= |obs| && Run(state, obs[..k]).IsTerminal()
    ensures Run(state, obs) == Run(state, obs[..k])
  {
    if k == |obs| {
      assert obs[..k] == obs;
    } else {
      assert obs[..|obs| - 1][..k] == obs[..k];
      TerminalStays(state, obs[..|obs| - 1], k);
    }
  }

  // ----- bad reads are invisible -----

  function Trusted(obs: seq<Obs>): seq<Obs> {
    if obs == [] then []
    else
      var init, last := Trusted(obs[..|obs| - 1]), obs[|obs| - 1];
      if last.event.Unknown? then init else init + [last]
  }

  /** Deleting every unreliable read from a run leaves its outcome unchanged. */
  lemma {:induction false} BadReadsAreInvisible(state: TxStatus, obs: seq<Obs>)
    ensures Run(state, Trusted(obs)) == Run(state, obs)
  {
    if obs != [] {
      var init, last := obs[..|obs| - 1], obs[|obs| - 1];
      BadReadsAreInvisible(state, init);
      RunSnoc(state, Trusted(init), last);
    }
  }

  // ----- what a settlement proves -----

  /** The run settles at observation `k`. */
  ghost predicate SettlesAt(state: TxStatus, obs: seq<Obs>, k: nat) {
    && k < |obs|
    && !Run(state, obs[..k]).IsTerminal()
    && Run(state, obs[..k + 1]).IsTerminal()
  }

  lemma {:induction false} SettlementExists(state: TxStatus, obs: seq<Obs>) returns (k: nat)
    requires !state.IsTerminal() && Run(state, obs).IsTerminal()
    ensures SettlesAt(state, obs, k) && Run(state, obs) == Next(Run(state, obs[..k]), obs[k])
  {
    k := |obs| - 1;
    if Run(state, obs[..k]).IsTerminal() {
      var j := SettlementExists(state, obs[..k]);
      assert obs[..k][..j] == obs[..j] && obs[..k][..j + 1] == obs[..j + 1];
      TerminalStays(state, obs, k);
      k := j;
    } else {
      assert obs[..k + 1] == obs;
    }
  }

  /** The run settles at `k` on our own transaction, successful in block `b`, with `b` final under that
      observation's view. */
  ghost predicate ConfirmEvidence(state: TxStatus, obs: seq<Obs>, k: nat, b: nat) {
    && SettlesAt(state, obs, k)
    && obs[k].event.OwnMined? && obs[k].event.block == b && obs[k].event.outcome.Executed?
    && IsFinal(b, obs[k].view, obs[k].cfg)
  }

  lemma SettlementDecides(state: TxStatus, obs: seq<Obs>, k: nat)
    requires SettlesAt(state, obs, k)
    ensures Run(state, obs) == Next(Run(state, obs[..k]), obs[k])
  {
    assert obs[..k + 1][..k] == obs[..k];
    TerminalStays(state, obs, k + 1);
  }

  /** A run from an unsettled status ends Confirmed at `b` exactly when it contains that evidence. */
  lemma ConfirmedIffOwnFinalSuccess(state: TxStatus, obs: seq<Obs>, b: nat)
    requires !state.IsTerminal()
    ensures Run(state, obs) == Confirmed(b) <==> exists k: nat :: ConfirmEvidence(state, obs, k, b)
  {
    if Run(state, obs) == Confirmed(b) {
      var k := SettlementExists(state, obs);
      assert ConfirmEvidence(state, obs, k, b);
    }
    if k: nat :| ConfirmEvidence(state, obs, k, b) {
      SettlementDecides(state, obs, k);
    }
  }

  // ----- replacement carries its history -----

  /** Says nothing against a foreign transaction holding the nonce. */
  predicate ForeignOrUnknown(e: ChainEvent) {
    e.ForeignMined? || e.Unknown?
  }

  /** The last trusted event before index `i`, if there is one, is not a foreign one. */
  predicate FreshAt(obs: seq<Obs>, i: nat)
    requires i <= |obs|
  {
    i == 0 || (if obs[i - 1].event.Unknown? then FreshAt(obs, i - 1) else !obs[i - 1].event.ForeignMined?)
  }

  /** Index `i` is the first foreign event of the unbroken foreign/unknown stretch that ends the run. */
  ghost predicate StretchStart(obs: seq<Obs>, i: nat) {
    && i < |obs|
    && obs[i].event.ForeignMined?
    && FreshAt(obs, i)
    && forall j | i < j < |obs| :: ForeignOrUnknown(obs[j].event)
  }

  /** The start of the current stretch, computed left to right. */
  function Clock(obs: seq<Obs>): (c: Option<nat>)
    ensures c.Some? ==> c.value < |obs|
  {
    if obs == [] then None
    else
      var was := Clock(obs[..|obs| - 1]);
      match obs[|obs| - 1].event
      case Unknown => was
      case ForeignMined => if was.Some? then was else Some(|obs| - 1)
      case _ => None
  }

  lemma {:induction false} FreshAtPrefix(obs: seq<Obs>, n: nat, i: nat)
    requires i <= n <= |obs|
    ensures FreshAt(obs[..n], i) <==> FreshAt(obs, i)
  {
    if i > 0 {
      FreshAtPrefix(obs, n, i - 1);
    }
  }

  /** Outside a stretch, the next foreign event starts one. */
  lemma {:induction false} NoClockMeansFresh(obs: seq<Obs>)
    ensures Clock(obs) == None <==> FreshAt(obs, |obs|)
  {
    if obs != [] {
      var n := |obs| - 1;
      NoClockMeansFresh(obs[..n]);
      FreshAtPrefix(obs, n, n);
    }
  }

  /** The computed clock is the declared stretch start. */
  lemma {:induction false} ClockIsStretchStart(obs: seq<Obs>, i: nat)
    ensures Clock(obs) == Some(i) <==> StretchStart(obs, i)
  {
    if obs != [] {
      var n := |obs| - 1;
      var init := obs[..n];
      ClockIsStretchStart(init, i);
      NoClockMeansFresh(init);
      if i < n {
        FreshAtPrefix(obs, n, i);
        assert StretchStart(obs, i) <==> StretchStart(init, i) && ForeignOrUnknown(obs[n].event);
        if StretchStart(init, i) {
          assert Clock(init) == Some(i);
        }
      } else if i == n {
        FreshAtPrefix(obs, n, n);
      }
    }
  }

  /** While unsettled, the status records the stretch: it is Replacing exactly inside one, with the head
      at the stretch's first foreign event. Any open-nonce or own-mined event restarts the clock. */
  lemma {:induction false} ReplacingCarriesItsStart(state: TxStatus, obs: seq<Obs>)
    requires !state.IsTerminal() && !state.Replacing?
    requires !Run(state, obs).IsTerminal()
    ensures match Clock(obs)
            case None => !Run(state, obs).Replacing?
            case Some(i) => Run(state, obs) == Replacing(obs[i].view.latest)
  {
    if obs != [] {
      var init := obs[..|obs| - 1];
      assert !Run(state, init).IsTerminal();
      ReplacingCarriesItsStart(state, init);
    }
  }

  lemma ReplacingIffInStretch(state: TxStatus, obs: seq<Obs>, since: nat)
    requires !state.IsTerminal() && !state.Replacing?
    requires !Run(state, obs).IsTerminal()
    ensures Run(state, obs) == Replacing(since) <==> exists i: nat :: StretchStart(obs, i) && since == obs[i].view.latest
  {
    ReplacingCarriesItsStart(state, obs);
    if Clock(obs).Some? {
      ClockIsStretchStart(obs, Clock(obs).value);
    }
    if i: nat :| StretchStart(obs, i) && since == obs[i].view.latest {
      ClockIsStretchStart(obs, i);
    }
  }

  /** The evidence for a replacement: a stretch that started at `i`, and a strictly later foreign event
      `k` at which the head recorded at `i` is final. */
  ghost predicate ReplacementEvidence(state: TxStatus, obs: seq<Obs>, i: nat, k: nat) {
    && i < k < |obs|
    && !Run(state, obs[..k]).IsTerminal()
    && StretchStart(obs[..k], i)
    && obs[k].event.ForeignMined?
    && IsFinal(obs[i].view.latest, obs[k].view, obs[k].cfg)
  }

  lemma EvidenceSettles(state: TxStatus, obs: seq<Obs>, i: nat, k: nat)
    requires !state.IsTerminal() && !state.Replacing? && ReplacementEvidence(state, obs, i, k)
    ensures Run(state, obs) == Replaced
  {
    ReplacingCarriesItsStart(state, obs[..k]);
    ClockIsStretchStart(obs[..k], i);
    assert Run(state, obs[..k]) == Replacing(obs[i].view.latest);
    assert obs[..k + 1][..k] == obs[..k];
    SettlementDecides(state, obs, k);
  }

  /** A run ends Replaced exactly when it contains that evidence. */
  lemma ReplacedIffFinalStretch(state: TxStatus, obs: seq<Obs>)
    requires !state.IsTerminal() && !state.Replacing?
    ensures Run(state, obs) == Replaced <==> exists i: nat, k: nat :: ReplacementEvidence(state, obs, i, k)
  {
    if Run(state, obs) == Replaced {
      var k := SettlementExists(state, obs);
      ReplacingCarriesItsStart(state, obs[..k]);
      var i := Clock(obs[..k]).value;
      ClockIsStretchStart(obs[..k], i);
      assert ReplacementEvidence(state, obs, i, k);
    }
    if i: nat, k: nat :| ReplacementEvidence(state, obs, i, k) {
      EvidenceSettles(state, obs, i, k);
    }
  }

  // ----- good reads settle -----

  /** Under unbroken sight of our own transaction, the run settles exactly when some observation finds
      it final, whatever the finality rule, and is tentatively mined until then. */
  lemma {:induction false} OwnMinedSettles(state: TxStatus, obs: seq<Obs>, own: ChainEvent)
    requires !state.IsTerminal() && own.OwnMined? && obs != []
    requires forall i | 0 <= i < |obs| :: obs[i].event == own
    ensures Run(state, obs) ==
            if exists i :: 0 <= i < |obs| && IsFinal(own.block, obs[i].view, obs[i].cfg)
            then Settled(own.block, own.outcome) else Mined(own.block, own.blockHash)
  {
    var n := |obs| - 1;
    var init := obs[..n];
    if n > 0 {
      OwnMinedSettles(state, init, own);
      if i :| 0 <= i < n && IsFinal(own.block, init[i].view, init[i].cfg) {
        assert IsFinal(own.block, obs[i].view, obs[i].cfg);
      }
      if i :| 0 <= i < |obs| && IsFinal(own.block, obs[i].view, obs[i].cfg) {
        assert i == n || IsFinal(own.block, init[i].view, init[i].cfg);
      }
    } else {
      assert Run(state, init) == state;
      if i :| 0 <= i < |obs| && IsFinal(own.block, obs[i].view, obs[i].cfg) {
        assert i == n;
      }
    }
  }

  /** Where the replacement clock stands once a foreign transaction is seen: where it already did, or at
      the head of the first sight. */
  function ClockStart(state: TxStatus, obs: seq<Obs>): nat
    requires obs != []
  {
    if state.Replacing? then state.sinceBlock else obs[0].view.latest
  }

  /** The first observation that may settle: the one that starts the clock does not. */
  function FirstJudged(state: TxStatus): nat {
    if state.Replacing? then 0 else 1
  }

  /** Under unbroken sight of a foreign transaction the run settles Replaced exactly when an observation
      after the clock started finds its start final. */
  lemma {:induction false} ForeignMinedSettles(state: TxStatus, obs: seq<Obs>)
    requires !state.IsTerminal() && obs != []
    requires forall i | 0 <= i < |obs| :: obs[i].event.ForeignMined?
    ensures Run(state, obs) ==
            if exists i :: FirstJudged(state) <= i < |obs| && IsFinal(ClockStart(state, obs), obs[i].view, obs[i].cfg)
            then Replaced else Replacing(ClockStart(state, obs))
  {
    var n := |obs| - 1;
    var init, since := obs[..n], ClockStart(state, obs);
    if n > 0 {
      ForeignMinedSettles(state, init);
      if i :| FirstJudged(state) <= i < n && IsFinal(since, init[i].view, init[i].cfg) {
        assert IsFinal(since, obs[i].view, obs[i].cfg);
      }
      if i :| FirstJudged(state) <= i < |obs| && IsFinal(since, obs[i].view, obs[i].cfg) {
        assert i == n || IsFinal(since, init[i].view, init[i].cfg);
      }
    } else {
      assert Run(state, init) == state;
      if i :| FirstJudged(state) <= i < |obs| && IsFinal(since, obs[i].view, obs[i].cfg) {
        assert i == 0;
      }
    }
  }

  /** The depth rule over a head that does not move back. */
  predicate SteadyDepth(obs: seq<Obs>, required: nat) {
    && (forall i | 0 <= i < |obs| :: obs[i].cfg == FinalityConfig(Depth, required))
    && (forall i, j | 0 <= i < j < |obs| :: obs[i].view.latest <= obs[j].view.latest)
  }

  lemma OwnLastHeadDecides(state: TxStatus, obs: seq<Obs>, required: nat, own: ChainEvent)
    requires !state.IsTerminal() && obs != [] && SteadyDepth(obs, required)
    requires own.OwnMined? && forall i | 0 <= i < |obs| :: obs[i].event == own
    ensures Run(state, obs).IsTerminal() <==> SaturatingSub(obs[|obs| - 1].view.latest, own.block) + 1 >= required
  {
    hide Run;
    OwnMinedSettles(state, obs, own);
    var n := |obs| - 1;
    if i :| 0 <= i < |obs| && IsFinal(own.block, obs[i].view, obs[i].cfg) {
      assert IsFinal(own.block, obs[n].view, obs[n].cfg);
    }
    assert IsFinal(own.block, obs[n].view, obs[n].cfg) <==> SaturatingSub(obs[n].view.latest, own.block) + 1 >= required;
  }

  lemma ForeignLastHeadDecides(state: TxStatus, obs: seq<Obs>, required: nat)
    requires !state.IsTerminal() && obs != [] && SteadyDepth(obs, required)
    requires forall i | 0 <= i < |obs| :: obs[i].event.ForeignMined?
    ensures Run(state, obs) == Replaced <==>
            |obs| > FirstJudged(state) && SaturatingSub(obs[|obs| - 1].view.latest, ClockStart(state, obs)) + 1 >= required
  {
    hide Run;
    ForeignMinedSettles(state, obs);
    var n, since := |obs| - 1, ClockStart(state, obs);
    if i :| FirstJudged(state) <= i < |obs| && IsFinal(since, obs[i].view, obs[i].cfg) {
      assert IsFinal(since, obs[n].view, obs[n].cfg);
    }
    assert IsFinal(since, obs[n].view, obs[n].cfg) <==> SaturatingSub(obs[n].view.latest, since) + 1 >= required;
  }

  // ----- the whole status -----

  /** Observation `j` is the last one that says anything. */
  ghost predicate LastWordAt(obs: seq<Obs>, j: nat) {
    j < |obs| && !obs[j].event.Unknown? && forall i | j < i < |obs| :: obs[i].event.Unknown?
  }

  /** The nonce was seen consumed at some time, by us or by another. */
  ghost predicate EverMined(obs: seq<Obs>) {
    exists i :: 0 <= i < |obs| && (obs[i].event.OwnMined? || obs[i].event.ForeignMined?)
  }

  /** The last word of a run that has not settled, and what it makes of the status. */
  lemma {:induction false} LastWordDecides(start: TxStatus, obs: seq<Obs>)
    requires (start.Pending? || start.Sent?) && !Run(start, obs).IsTerminal()
    ensures Run(start, obs).Mined? ==>
              exists j: nat :: LastWordAt(obs, j) && obs[j].event.OwnMined?
                               && Run(start, obs) == Mined(obs[j].event.block, obs[j].event.blockHash)
    ensures Run(start, obs).Replacing? ==> exists j: nat :: LastWordAt(obs, j) && obs[j].event.ForeignMined?
    ensures Run(start, obs).Pending? || Run(start, obs).Sent? ==>
              && Run(start, obs) == (if EverMined(obs) then Sent else start)
              && forall j: nat | LastWordAt(obs, j) :: obs[j].event.NonceOpen?
  {
    if obs != [] {
      var n := |obs| - 1;
      var init, o := obs[..n], obs[n];
      LastWordDecides(start, init);
      if o.event.Unknown? {
        forall j: nat ensures LastWordAt(obs, j) <==> LastWordAt(init, j) {
          assert j < n ==> init[j] == obs[j];
        }
        EverMinedGrows(obs);
      } else {
        assert LastWordAt(obs, n);
        assert forall j: nat | LastWordAt(obs, j) :: j == n;
        EverMinedGrows(obs);
        if Run(start, init).Mined? || Run(start, init).Replacing? {
          var j: nat :| LastWordAt(init, j) && (init[j].event.OwnMined? || init[j].event.ForeignMined?);
          assert EverMined(init);
        }
      }
    }
  }

  lemma EverMinedGrows(obs: seq<Obs>)
    requires obs != []
    ensures EverMined(obs) <==> EverMined(obs[..|obs| - 1]) || obs[|obs| - 1].event.OwnMined? || obs[|obs| - 1].event.ForeignMined?
  {
    var init := obs[..|obs| - 1];
    if EverMined(init) {
      var i :| 0 <= i < |init| && (init[i].event.OwnMined? || init[i].event.ForeignMined?);
      assert obs[i] == init[i];
    }
    if EverMined(obs) {
      var i :| 0 <= i < |obs| && (obs[i].event.OwnMined? || obs[i].event.ForeignMined?);
      assert i < |obs| - 1 ==> init[i] == obs[i];
    }
  }

  lemma LastWordIsUnique(obs: seq<Obs>, i: nat, j: nat)
    requires LastWordAt(obs, i) && LastWordAt(obs, j)
    ensures i == j
  {
  }

  /** The closed form of an unsettled run: mined where the last word is our own transaction, replacing where
      it is a foreign one; else sent if the nonce was ever seen consumed, and as it started if not. */
  lemma UnsettledClosedForm(start: TxStatus, obs: seq<Obs>)
    requires (start.Pending? || start.Sent?) && !Run(start, obs).IsTerminal()
    ensures forall j: nat | LastWordAt(obs, j) ::
              match obs[j].event
              case OwnMined(b, hash, _) => Run(start, obs) == Mined(b, hash)
              case ForeignMined => Run(start, obs).Replacing?
              case _ => Run(start, obs) == if EverMined(obs) then Sent else start
    ensures (forall j: nat :: !LastWordAt(obs, j)) ==> Run(start, obs) == start
  {
    hide Run;
    LastWordDecides(start, obs);
    UnsettledShapes(start, obs);
    forall j: nat, i: nat | LastWordAt(obs, j) && LastWordAt(obs, i) ensures i == j {
      LastWordIsUnique(obs, i, j);
    }
    if forall j: nat :: !LastWordAt(obs, j) {
      SilentMeansNothingMined(obs);
    }
  }

  lemma {:induction false} UnsettledShapes(start: TxStatus, obs: seq<Obs>)
    requires (start.Pending? || start.Sent?) && !Run(start, obs).IsTerminal()
    ensures Run(start, obs).Mined? || Run(start, obs).Replacing? || Run(start, obs).Pending? || Run(start, obs).Sent?
  {
  }

  lemma {:induction false} SilentMeansNothingMined(obs: seq<Obs>)
    requires forall j: nat :: !LastWordAt(obs, j)
    ensures !EverMined(obs)
  {
    if obs != [] {
      var n := |obs| - 1;
      assert !LastWordAt(obs, n);
      forall j: nat ensures !LastWordAt(obs[..n], j) {
        assert LastWordAt(obs[..n], j) ==> LastWordAt(obs, j);
      }
      SilentMeansNothingMined(obs[..n]);
      EverMinedGrows(obs);
    }
  }

  /** The run settles at `k` on our own transaction, reverted and final. */
  ghost predicate RevertEvidence(state: TxStatus, obs: seq<Obs>, k: nat) {
    && SettlesAt(state, obs, k)
    && obs[k].event.OwnMined? && obs[k].event.outcome.Reverted?
    && IsFinal(obs[k].event.block, obs[k].view, obs[k].cfg)
  }

  /** A run ends Failed exactly when it contains that evidence, and it never ends Dropped. */
  lemma FailedIffOwnFinalRevert(state: TxStatus, obs: seq<Obs>)
    requires !state.IsTerminal()
    ensures Run(state, obs).Failed? <==> exists k: nat :: RevertEvidence(state, obs, k)
    ensures !Run(state, obs).Dropped?
  {
    if Run(state, obs).IsTerminal() {
      var k := SettlementExists(state, obs);
      assert Run(state, obs).Failed? ==> RevertEvidence(state, obs, k);
    }
    if k: nat :| RevertEvidence(state, obs, k) {
      SettlementDecides(state, obs, k);
    }
  }
}
