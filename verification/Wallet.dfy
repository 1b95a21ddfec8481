/** One account's wallet as a step system: the send pipeline, cancellation and the executor's passes over
    a durable store (src/core/wallet/transaction_manager.rs, src/core/wallet/executor/mod.rs).

    Every answer of an RPC, relay, policy engine, key, store or submission is an arbitrary part of the
    step, and a send may crash between any two of its effects. Next to the wallet's own state a world
    keeps a history: the effects so far, how each tracked transaction came about and what was observed
    of it, and the nonces whose broadcast may be live.
*/
module Wallet {
  import opened Types
  import opened Nonces
  import opened Lifecycle
  import opened Signing
  import opened Executor
  import opened StateStore
  import GasOracle

  datatype Config = Config(
    account: Address, gasBufferPct: nat, ceiling: u128, required: nat, bumpTimeout: nat, refill: bool, relay: bool)

  // ----- history -----

  datatype Actor = BySend | ByRecover | ByBump | ByCancel

  /** What reaches the outside: a signature over a body, or a submission. `stored` is what the store
      held under the id at that moment. */
  datatype Effect =
    | Signs(body: TxBody, intent: TxIntent, approval: PolicyApproval, now: nat)
    | Submits(actor: Actor, id: HandleId, bytes: Encoded, route: Route, outcome: SubmitOutcome, stored: Option<TxHandle>)

  datatype Origin = FromSend | FromCancel | FromTask

  /** How the handle now stored under an id came about: its creator and first route, the route of each
      recorded broadcast, and the status it has run from with the observations since. The counters
      outlive re-creation: how often the id was created and how often it was refilled. */
  datatype History = History(
    origin: Origin, route: Route, via: seq<Route>, start: TxStatus, obs: seq<Obs>, created: nat, refilled: nat)

  datatype World = World(
    nonce: Versioned,
    handles: HandleTable,
    approvals: map<HandleId, PolicyApproval>,
    lastLatest: nat,
    cycle: Option<Cycle>,
    hist: map<HandleId, History>,
    live: set<nat>,
    log: seq<Effect>)

  const INIT := World(EMPTY, map[], map[], 0, None, map[], {}, [])

  // ----- elementary changes -----

  function Noted(w: World, e: Effect): World {
    w.(log := w.log + [e])
  }

  function Stored(w: World, id: HandleId): Option<TxHandle> {
    if id in w.handles then Some(w.handles[id]) else None
  }

  function Created(w: World, id: HandleId): nat {
    if id in w.hist then w.hist[id].created else 0
  }

  function Refilled(w: World, id: HandleId): nat {
    if id in w.hist then w.hist[id].refilled else 0
  }

  /** A handle written under an id it newly takes. */
  function Track(w: World, h: TxHandle, origin: Origin): World {
    var via := if h.broadcasts == [] then [] else [h.route];
    w.(handles := w.handles[h.id := h],
       hist := w.hist[h.id := History(origin, h.route, via, h.status, [], Created(w, h.id) + 1, Refilled(w, h.id))])
  }

  /** A handle overwritten together with its history. */
  function Update(w: World, h: TxHandle, hi: History): World {
    w.(handles := w.handles[h.id := h], hist := w.hist[h.id := hi])
  }

  function Submit(w: World, actor: Actor, id: HandleId, bytes: Encoded, route: Route, outcome: SubmitOutcome): World {
    w.(live := if outcome.MayBeLive() && bytes.Signed1559? then w.live + {bytes.body.nonce} else w.live,
       log := w.log + [Submits(actor, id, bytes, route, outcome, Stored(w, id))])
  }

  /** Hand a nonce back; the store may fail to. */
  function Recycle(w: World, n: nat, ok: bool): World {
    if ok && n < w.nonce.value.next
    then w.(nonce := Versioned(Nonces.Release(w.nonce.value, n), w.nonce.version + 1))
    else w
  }

  /** What a restart keeps: everything durable, none of the executor's memory. */
  function Restarted(w: World): World {
    w.(approvals := map[], lastLatest := 0, cycle := None)
  }

  // ----- send -----

  datatype SelfRelay = SelfRelay(forwarder: Address, signer: Address, nonce: nat)

  datatype Crash = NoCrash | BeforeAllocate | AfterAllocate | AfterPersist | AfterSubmit | AfterOutcome

  /** One send with the answers it meets: `wrote` and `settled` say whether the first and the second
      write of the handle succeed, `released` whether handing the nonce back does. */
  datatype SendInput = SendInput(
    intent: TxIntent, route: Route, selfRelay: Option<SelfRelay>, supported: bool,
    gas: Answer<nat>, fees: Answer<Fees>, decision: Answer<Decision>, pending: Answer<nat>, reserved: bool,
    now: nat, key: Answer<nat>, wrote: bool, submit: SubmitOutcome, settled: bool, released: bool, crash: Crash)

  function BufferedGas(cfg: Config, estimate: nat): nat {
    GasOracle.Min(GasOracle.SaturatingMul(estimate, 100 + cfg.gasBufferPct) / 100, U64_MAX)
  }

  /** The pipeline gets as far as allocating a nonce. */
  predicate Admitted(cfg: Config, i: SendInput) {
    i.supported && i.intent.account == cfg.account && i.gas.Ok? && i.fees.Ok? && i.decision.Ok? && i.decision.value.Allow?
  }

  predicate Allocates(w: World, i: SendInput) {
    i.reserved && (w.nonce.version == 0 ==> i.pending.Ok?)
  }

  function PendingNonce(i: SendInput): nat {
    if i.pending.Ok? then i.pending.value else 0
  }

  function Allocated(w: World, i: SendInput): (World, nat) {
    var (value, n) := Allocate(Reconciled(w.nonce, PendingNonce(i)));
    (w.(nonce := Versioned(value, w.nonce.version + 1)), n)
  }

  function NewHandle(i: SendInput, n: nat, approval: PolicyApproval, tx: SignedTx): TxHandle {
    TxHandle(
      HandleId(OfIntent(i.intent), n), i.intent.account, i.intent, OfIntent(i.intent), n, Pending, approval.envelope,
      tx.encoded, [tx.hash], i.now, false, i.route,
      match i.selfRelay { case None => None case Some(s) => Some(MetaContext(s.forwarder, s.signer, s.nonce, None)) })
  }

  function Send(cfg: Config, w: World, i: SendInput): World {
    if !Admitted(cfg, i) then w
    else if i.crash.BeforeAllocate? then Restarted(w)
    else if !Allocates(w, i) then w
    else
      var (w1, n) := Allocated(w, i);
      if i.crash.AfterAllocate? then Restarted(w1) else BuildSignSubmit(cfg, w1, i, n)
  }

  /** The body a send signs. */
  function SendBody(cfg: Config, i: SendInput, n: nat): TxBody
    requires Admitted(cfg, i)
  {
    BuildTx(i.intent, n, BufferedGas(cfg, i.gas.value), i.fees.value)
  }

  function BuildSignSubmit(cfg: Config, w: World, i: SendInput, n: nat): World
    requires Admitted(cfg, i)
  {
    var approval := i.decision.value.approval;
    match SignEncode(SendBody(cfg, i, n), OfIntent(i.intent), approval, i.now, i.key)
    case Refused(_) => Recycle(w, n, i.released)
    case Signed(tx) =>
      var w1 := Noted(w, Signs(SendBody(cfg, i, n), i.intent, approval, i.now));
      if !i.wrote then Recycle(w1, n, i.released)
      else Broadcast(w1, i, NewHandle(i, n, approval, tx))
  }

  /** From the first successful write of the handle on. */
  function Broadcast(w: World, i: SendInput, h: TxHandle): World {
    var w1 := Track(w, h, FromSend);
    if i.crash.AfterPersist? then Restarted(w1)
    else
      var w2 := Submit(w1, BySend, h.id, h.signed, i.route, i.submit);
      if i.crash.AfterSubmit? then Restarted(w2) else Conclude(w2, i, h)
  }

  /** What may be live keeps its nonce; a certain rejection settles the handle and hands the nonce back. */
  function Conclude(w: World, i: SendInput, h: TxHandle): World {
    if i.submit.MayBeLive() then (if i.settled then Settle(w, h, Sent) else w)
    else
      var w1 := if i.settled then Settle(w, h, Failed("rejected")) else w;
      if i.crash.AfterOutcome? then Restarted(w1) else Recycle(w1, h.nonce, i.released)
  }

  /** The send's second write. */
  function Settle(w: World, h: TxHandle, status: TxStatus): World {
    if h.id in w.hist then Update(w, h.(status := status), w.hist[h.id].(start := status)) else w
  }

  // ----- managed relay -----

  datatype Task = Task(forwarder: Address, signer: Address, nonce: nat, id: string)

  function TaskHandle(intent: TxIntent, task: Task, now: nat): TxHandle {
    var n := GasOracle.Min(task.nonce, U64_MAX);
    TxHandle(
      HandleId(OfIntent(intent), n), intent.account, intent, OfIntent(intent), n, Sent, DEFAULT_ENVELOPE,
      Nothing, [], now, false, Public, Some(MetaContext(task.forwarder, task.signer, task.nonce, Some(task.id))))
  }

  function PersistTask(w: World, intent: TxIntent, task: Task, now: nat, wrote: bool): World {
    if wrote then Track(w, TaskHandle(intent, task, now), FromTask) else w
  }

  // ----- recover -----

  /** The handle a pass over the pending handles may act on. */
  predicate Tracked(cfg: Config, w: World, id: HandleId) {
    id in w.handles && w.handles[id].account == cfg.account && !w.handles[id].status.IsTerminal()
  }

  function Recover(cfg: Config, w: World, id: HandleId, outcome: SubmitOutcome): World {
    if Tracked(cfg, w, id) && (w.handles[id].status.Pending? || w.handles[id].status.Sent?) && w.handles[id].signed != Nothing
    then Submit(w, ByRecover, id, w.handles[id].signed, w.handles[id].route, outcome)
    else w
  }

  // ----- confirm -----

  /** Read the cycle's snapshot and move the allocator forward to the chain. */
  function BeginCycle(
    cfg: Config, w: World, block: Answer<nat>, count: Answer<nat>, finalized: Answer<Option<nat>>, reset: bool): World
  {
    match ReadCycle(w.lastLatest, cfg.required, block, count, finalized)
    case Fresh(cycle) =>
      var w1 := w.(lastLatest := cycle.view.latest);
      if reset
      then w1.(cycle := Some(cycle), nonce := Versioned(Reset(w.nonce.value, cycle.minedNonce), w.nonce.version + 1))
      else w1.(cycle := None)
    case _ => w.(cycle := None)
  }

  datatype AdvanceInput = AdvanceInput(chain: ChainReads, poll: Answer<RelayStatus>, wrote: bool, refill: SendInput)

  function Advance(cfg: Config, w: World, id: HandleId, a: AdvanceInput): World {
    if !Tracked(cfg, w, id) || w.cycle.None? || id !in w.hist then w
    else if IsAwaitingRelay(w.handles[id]) then PollTask(cfg, w, id, a)
    else AdvanceOnChain(cfg, w, id, a)
  }

  function Seen(w: World, id: HandleId, chain: ChainReads): Obs
    requires id in w.handles && w.cycle.Some?
  {
    var c := w.cycle.value;
    Obs(EventFor(w.handles[id], c.minedNonce, chain), c.view, c.finality)
  }

  /** A consumed nonce settles a cancelled transaction as dropped, not replaced. */
  function Resolved(h: TxHandle, next: TxStatus): TxStatus {
    if next.Replaced? && h.cancelled then Dropped else next
  }

  function AdvanceOnChain(cfg: Config, w: World, id: HandleId, a: AdvanceInput): World
    requires id in w.handles && id in w.hist && w.cycle.Some?
  {
    var h, o := w.handles[id], Seen(w, id, a.chain);
    var hi := w.hist[id].(obs := w.hist[id].obs + [o]);
    match Transition(h.status, o.event, o.view, o.cfg)
    case None => Update(w, h, hi)
    case Some(next) =>
      if !a.wrote then w
      else
        var h1 := h.(status := Resolved(h, next));
        var w1 := Update(w, h1, hi);
        if h1.status.IsTerminal() then OnSettled(cfg, w1, h1, a.refill) else w1
  }

  function PollTask(cfg: Config, w: World, id: HandleId, a: AdvanceInput): World
    requires id in w.handles && id in w.hist
  {
    var h, hi := w.handles[id], w.hist[id];
    if !cfg.relay || a.poll.Err? || a.poll.value.RelayPending? || !a.wrote then w
    else match a.poll.value
      case RelayPending => w
      case Included(hash) =>
        Update(w, h.(broadcasts := h.broadcasts + [hash], status := Sent), hi.(via := hi.via + [h.route], start := Sent))
      case RelayFailed(reason) =>
        var h1 := h.(status := Failed(reason));
        OnSettled(cfg, Update(w, h1, hi.(start := h1.status)), h1, a.refill)
  }

  /** A refill is a plain public send of the displaced intent. */
  function RefillInput(h: TxHandle, i: SendInput): SendInput {
    i.(intent := h.intent, route := Public, selfRelay := None)
  }

  function Refilling(cfg: Config, h: TxHandle): bool {
    cfg.refill && h.status.Replaced?
  }

  function OnSettled(cfg: Config, w: World, h: TxHandle, i: SendInput): World {
    var w1 := w.(approvals := w.approvals - {h.id});
    if Refilling(cfg, h) && h.id in w.hist
    then Send(cfg, w1.(hist := w.hist[h.id := w.hist[h.id].(refilled := w.hist[h.id].refilled + 1)]), RefillInput(h, i))
    else w1
  }

  // ----- escalate -----

  datatype BumpInput = BumpInput(
    now: nat, count: Answer<nat>, baseFee: Answer<u128>, decision: Answer<Decision>, key: Answer<nat>,
    submit: SubmitOutcome, wrote: bool)

  predicate Stuck(cfg: Config, h: TxHandle, now: nat) {
    h.status.Sent? && SaturatingSub(now, h.lastBroadcastAt) >= cfg.bumpTimeout
  }

  /** The replacement fees: the oracle's raise of the stored ones, if the approved envelope admits it. */
  function BumpFees(cfg: Config, h: TxHandle, baseFee: Answer<u128>): Option<Fees> {
    var current := DecodeFees(h.signed);
    if current.None? || baseFee.Err? then None
    else match GasOracle.Bump(current.value.fees, baseFee.value, cfg.ceiling)
      case Err => None
      case Ok(fees) => if h.envelope.Admits(fees) then Some(fees) else None
  }

  /** The cached approval while it is good for these fees, else a fresh decision. */
  function BumpApproval(w: World, h: TxHandle, fees: Fees, a: BumpInput): Option<PolicyApproval> {
    if h.id in w.approvals && w.approvals[h.id].validUntil >= a.now && w.approvals[h.id].envelope.Admits(fees)
    then Some(w.approvals[h.id])
    else if a.decision.Ok? && a.decision.value.Allow? && a.decision.value.approval.envelope.Admits(fees)
    then Some(a.decision.value.approval)
    else None
  }

  /** A private route gives up once it has had its cycles of broadcasts. */
  function EscalatedRoute(h: TxHandle): Route {
    if h.route.Private? && h.route.via.escalation.PublicAfter? && |h.broadcasts| >= h.route.via.escalation.cycles
    then Public else h.route
  }

  function Bump(cfg: Config, w: World, id: HandleId, a: BumpInput): World {
    if !Tracked(cfg, w, id) || w.handles[id].id !in w.hist || !Stuck(cfg, w.handles[id], a.now) then w
    else if a.count.Err? || w.handles[id].nonce < a.count.value then w
    else match BumpFees(cfg, w.handles[id], a.baseFee)
      case None => w
      case Some(fees) =>
        match BumpApproval(w, w.handles[id], fees, a)
        case None => w
        case Some(approval) => Replace(w, w.handles[id], fees, approval, a)
  }

  function BumpBody(h: TxHandle, fees: Fees): TxBody
    requires DecodeFees(h.signed).Some?
  {
    BuildTx(h.intent, h.nonce, DecodeFees(h.signed).value.gasLimit, fees)
  }

  function Replace(w: World, h: TxHandle, fees: Fees, approval: PolicyApproval, a: BumpInput): World
    requires DecodeFees(h.signed).Some? && h.id in w.hist
  {
    match SignEncode(BumpBody(h, fees), h.intentHash, approval, a.now, a.key)
    case Refused(_) => w
    case Signed(tx) =>
      var w1 := Noted(w, Signs(BumpBody(h, fees), h.intent, approval, a.now));
      var w2 := Submit(w1, ByBump, h.id, tx.encoded, EscalatedRoute(h), a.submit);
      if !a.submit.Known() || !a.wrote then w2
      else Record(w2, h, tx, approval, a.now)
  }

  function Bumped(h: TxHandle, tx: SignedTx, now: nat): TxHandle {
    h.(signed := tx.encoded, broadcasts := h.broadcasts + [tx.hash], lastBroadcastAt := now, route := EscalatedRoute(h))
  }

  function Record(w: World, h: TxHandle, tx: SignedTx, approval: PolicyApproval, now: nat): World
    requires h.id in w.hist
  {
    var hi := w.hist[h.id];
    Update(w, Bumped(h, tx, now), hi.(via := hi.via + [EscalatedRoute(h)])).(approvals := w.approvals[h.id := approval])
  }

  // ----- cancel -----

  const CANCEL_GAS_LIMIT: nat := 21_000

  datatype Attempt = Attempt(baseFee: Answer<u128>, key: Answer<nat>, submit: SubmitOutcome)

  /** One cancellation with the answers it meets: `flagged` and `unflagged` are the writes of the target's
      flag, `refetched` the re-read before a second attempt, `recorded` the write of the cancel's handle. */
  datatype CancelInput = CancelInput(
    decision: Answer<Decision>, flagged: bool, now: nat, first: Attempt, refetched: bool, second: Attempt,
    unflagged: bool, recorded: bool)

  function CancelIntent(target: TxHandle): TxIntent {
    TxIntent(target.intent.chainId, target.account, TxKind.Call(target.account), 0, [], None)
  }

  datatype Try = Out(tx: SignedTx) | Underpriced | GaveUp

  function CancelBody(target: TxHandle, fees: Fees): TxBody {
    BuildTx(CancelIntent(target), target.nonce, CANCEL_GAS_LIMIT, fees)
  }

  /** Price over `basis`, sign and submit the cancel once. */
  function TryCancel(cfg: Config, w: World, target: TxHandle, basis: Fees, approval: PolicyApproval, now: nat, a: Attempt)
    : (World, Try)
  {
    if a.baseFee.Err? then (w, GaveUp)
    else match GasOracle.Bump(basis, a.baseFee.value, cfg.ceiling)
      case Err => (w, GaveUp)
      case Ok(fees) =>
        match SignEncode(CancelBody(target, fees), OfIntent(CancelIntent(target)), approval, now, a.key)
        case Refused(_) => (w, GaveUp)
        case Signed(tx) =>
          var w1 := Noted(w, Signs(CancelBody(target, fees), CancelIntent(target), approval, now));
          (Submit(w1, ByCancel, target.id, tx.encoded, target.route, a.submit),
           if a.submit.Known() then Out(tx) else if a.submit.error.IsUnderpriced() then Underpriced else GaveUp)
  }

  /** An underpriced first attempt is priced again over the target's stored fees, once. */
  function TryCancelTwice(cfg: Config, w: World, target: TxHandle, basis: Fees, approval: PolicyApproval, a: CancelInput)
    : (World, Try)
  {
    var (w1, r) := TryCancel(cfg, w, target, basis, approval, a.now, a.first);
    if r.Underpriced? && a.refetched then TryCancel(cfg, w1, target, basis, approval, a.now, a.second) else (w1, r)
  }

  function CancelHandle(target: TxHandle, approval: PolicyApproval, tx: SignedTx, now: nat): TxHandle {
    var intent := CancelIntent(target);
    TxHandle(
      HandleId(OfIntent(intent), target.nonce), target.account, intent, OfIntent(intent), target.nonce, Sent,
      approval.envelope, tx.encoded, [tx.hash], now, false, target.route, None)
  }

  function Flag(w: World, id: HandleId, cancelled: bool): World {
    if id in w.handles && id in w.hist then Update(w, w.handles[id].(cancelled := cancelled), w.hist[id]) else w
  }

  function CancelTx(cfg: Config, w: World, id: HandleId, a: CancelInput): World {
    if id !in w.handles || w.handles[id].status.IsTerminal() || a.decision.Err? || a.decision.value.Deny? || !a.flagged then w
    else
      var w1 := Flag(w, id, true);
      match DecodeFees(w.handles[id].signed)
      case None => w1
      case Some(current) => CancelPriced(cfg, w1, w1.handles[id], current.fees, a.decision.value.approval, a)
  }

  function CancelPriced(cfg: Config, w: World, target: TxHandle, basis: Fees, approval: PolicyApproval, a: CancelInput): World {
    var (w1, r) := TryCancelTwice(cfg, w, target, basis, approval, a);
    if r.Out? then (if a.recorded then Track(w1, CancelHandle(target, approval, r.tx, a.now), FromCancel) else w1)
    else if a.unflagged then Flag(w1, target.id, false)
    else w1
  }

  // ----- runs -----

  datatype Step =
    | DoSend(send: SendInput)
    | DoTask(intent: TxIntent, task: Task, at: nat, wrote: bool)
    | DoCancel(id: HandleId, cancel: CancelInput)
    | DoTrack(id: HandleId, approval: PolicyApproval)
    | DoRestart
    | DoRecover(id: HandleId, outcome: SubmitOutcome)
    | DoBeginCycle(block: Answer<nat>, count: Answer<nat>, finalized: Answer<Option<nat>>, reset: bool)
    | DoAdvance(id: HandleId, advance: AdvanceInput)
    | DoBump(id: HandleId, bump: BumpInput)

  function Apply(cfg: Config, w: World, s: Step): World {
    match s
    case DoSend(i) => Send(cfg, w, i)
    case DoTask(intent, task, at, wrote) => PersistTask(w, intent, task, at, wrote)
    case DoCancel(id, a) => CancelTx(cfg, w, id, a)
    case DoTrack(id, approval) => w.(approvals := w.approvals[id := approval])
    case DoRestart => Restarted(w)
    case DoRecover(id, outcome) => Recover(cfg, w, id, outcome)
    case DoBeginCycle(block, count, finalized, reset) => BeginCycle(cfg, w, block, count, finalized, reset)
    case DoAdvance(id, a) => Advance(cfg, w, id, a)
    case DoBump(id, a) => Bump(cfg, w, id, a)
  }

  /** The world after a serialised run. */
  function RunFrom(cfg: Config, w: World, steps: seq<Step>): World
    decreases |steps|
  {
    if steps == [] then w else Apply(cfg, RunFrom(cfg, w, steps[..|steps| - 1]), steps[|steps| - 1])
  }
}
