/** The allocator under concurrency (src/adapters/nonce.rs over any store).

    Any number of clients run allocate, release and reset at once. Each operation is a loop of two
    separate steps, a load and a compare-and-swap, and steps of different clients interleave freely;
    a client may also give up (an error or a crash) between any two of its steps. The system state
    carries history that no client can see: which nonces each client holds, the log of commits, the
    first nonce ever managed, the nonces a reset retired and the highest chain count committed.
*/
module NonceProtocol {
  import opened Types
  import opened Nonces

  type ClientId = nat

  datatype Op = Allocating | Releasing(nonce: nat) | Resetting(chainNext: nat)

  datatype Pc = Idle | Retrying(op: Op) | Loaded(op: Op, seen: Versioned, pending: nat)

  datatype Client = Client(fence: nat, held: set<nat>, pc: Pc, fails: nat)

  datatype Commit = Commit(client: ClientId, op: Op, pending: nat, before: NonceState, after: NonceState, fence: nat)

  datatype System = System(
    cell: NonceCell,
    clients: map<ClientId, Client>,
    log: seq<Commit>,
    base: nat,
    retired: set<nat>,
    chainHigh: nat)

  datatype Step = Load(c: ClientId, op: Op, pending: nat) | Cas(c: ClientId) | GiveUp(c: ClientId)

  /** What an attempt wants to write, or None when it returns without writing. */
  function Computed(op: Op, seen: Versioned, pending: nat): Option<NonceState> {
    match op
    case Allocating => Some(Allocate(Reconciled(seen, pending)).0)
    case Releasing(n) => if n >= seen.value.next then None else Some(Release(seen.value, n))
    case Resetting(chainNext) => Some(Reset(seen.value, chainNext))
  }

  /** A client starts an operation when idle and repeats the same one after a lost race; it only
      releases what it holds. */
  predicate MayLoad(client: Client, op: Op) {
    || client.pc == Retrying(op)
    || (client.pc.Idle? && (op.Releasing? ==> op.nonce in client.held))
  }

  function Apply(s: System, step: Step): System {
    if step.c !in s.clients then s
    else
      var client := s.clients[step.c];
      match step
      case Load(c, op, pending) =>
        if MayLoad(client, op) then WithClient(s, c, client.(pc := Loaded(op, s.cell.current, pending))) else s
      case GiveUp(c) => WithClient(s, c, client.(pc := Idle))
      case Cas(c) =>
        if !client.pc.Loaded? then s
        else
          match Computed(client.pc.op, client.pc.seen, client.pc.pending)
          case None => WithClient(s, c, client.(pc := Idle))
          case Some(value) =>
            match CompareAndSwap(s.cell, client.pc.seen.version, value, client.fence).1
            case Fenced => WithClient(s, c, client.(pc := Idle))
            case Conflict => WithClient(s, c, client.(pc := Retrying(client.pc.op), fails := client.fails + 1))
            case Committed => Committing(s, c, client, value)
  }

  function WithClient(s: System, c: ClientId, client: Client): System {
    s.(clients := s.clients[c := client])
  }

  /** The compare-and-swap of `client` succeeded with `value`. */
  function Committing(s: System, c: ClientId, client: Client, value: NonceState): System
    requires client.pc.Loaded?
  {
    var Loaded(op, seen, pending) := client.pc;
    var was := s.cell.current.value;
    System(
      CompareAndSwap(s.cell, seen.version, value, client.fence).0,
      s.clients[c := client.(pc := Idle, held := HeldAfter(op, seen, pending, client.held))],
      s.log + [Commit(c, op, pending, was, value, client.fence)],
      BaseAfter(op, pending, s.log == [], s.base),
      RetiredAfter(op, was, s.log == [], s.retired),
      HighAfter(op, s.chainHigh))
  }

  function HeldAfter(op: Op, seen: Versioned, pending: nat, held: set<nat>): set<nat> {
    match op
    case Allocating => held + {Allocate(Reconciled(seen, pending)).1}
    case Releasing(n) => held - {n}
    case Resetting(_) => held
  }

  function BaseAfter(op: Op, pending: nat, first: bool, base: nat): nat {
    if !first then base
    else match op
      case Allocating => pending
      case Releasing(_) => base
      case Resetting(chainNext) => chainNext
  }

  function RetiredAfter(op: Op, was: NonceState, first: bool, retired: set<nat>): set<nat> {
    if op.Resetting? && !first
    then retired + Between(was.next, op.chainNext) + (set n | n in was.free && n < op.chainNext)
    else retired
  }

  function HighAfter(op: Op, chainHigh: nat): nat {
    if op.Resetting? && op.chainNext > chainHigh then op.chainNext else chainHigh
  }

  /** The nonces from `lo` up to but excluding `hi`. */
  function Between(lo: nat, hi: nat): (r: set<nat>)
    ensures forall n: nat :: n in r <==> lo <= n < hi
    decreases hi - lo
  {
    if lo >= hi then {} else {lo} + Between(lo + 1, hi)
  }

  function Run(s: System, steps: seq<Step>): System {
    if steps == [] then s else Apply(Run(s, steps[..|steps| - 1]), steps[|steps| - 1])
  }

  lemma RunSnoc(s: System, steps: seq<Step>, step: Step)
    ensures Run(s, steps + [step]) == Apply(Run(s, steps), step)
  {
    assert (steps + [step])[..|steps|] == steps;
  }

  /** Idle clients holding nothing over an absent record. */
  predicate Initial(s: System) {
    && s.cell == ABSENT && s.log == [] && s.retired == {} && s.base == 0 && s.chainHigh == 0
    && forall c | c in s.clients :: s.clients[c].pc == Idle && s.clients[c].held == {} && s.clients[c].fails == 0
  }

  // ----- the shapes of a step -----

  /** A step that commits nothing changes one client's program counter: a load takes a snapshot of
      the current record, a lost race is counted, and nothing held changes. */
  ghost predicate Quiet(s: System, c: ClientId, client': Client) {
    && c in s.clients
    && var client := s.clients[c];
    && client'.fence == client.fence && client'.held == client.held
    && (client'.pc.Loaded? ==> client'.fails == client.fails && client'.pc.seen == s.cell.current)
    && (client'.fails != client.fails ==>
          client'.fails == client.fails + 1 && client.pc.Loaded? && client.pc.seen.version != s.cell.current.version)
    && (PendingReleaseIsHeld(client) ==> PendingReleaseIsHeld(client'))
  }

  /** A commit happens at the version the client saw, under a fence that is not below the stored one. */
  ghost predicate Commits(s: System, c: ClientId, value: NonceState) {
    && c in s.clients && s.clients[c].pc.Loaded?
    && var client := s.clients[c];
    && client.pc.seen.version == s.cell.current.version
    && client.fence >= s.cell.fence
    && Computed(client.pc.op, client.pc.seen, client.pc.pending) == Some(value)
  }

  /** A step does nothing, is quiet, or commits. */
  lemma StepCases(s: System, step: Step)
    ensures var s' := Apply(s, step);
            || s' == s
            || (s'.log == s.log && exists client' :: Quiet(s, step.c, client') && s' == WithClient(s, step.c, client'))
            || (exists value :: Commits(s, step.c, value) && s' == Committing(s, step.c, s.clients[step.c], value))
  {
    var s' := Apply(s, step);
    var c := step.c;
    if c in s.clients && s' != s {
      var client := s.clients[c];
      if step.Cas? && |s'.log| > |s.log| {
        var value := Computed(client.pc.op, client.pc.seen, client.pc.pending).value;
        assert Commits(s, c, value) && s' == Committing(s, c, client, value);
      } else {
        assert Quiet(s, c, s'.clients[c]) && s' == WithClient(s, c, s'.clients[c]);
      }
    }
  }

  predicate PendingReleaseIsHeld(client: Client) {
    !client.pc.Idle? && client.pc.op.Releasing? ==> client.pc.op.nonce in client.held
  }

  // ----- linear commits -----

  /** The value after the first `v` commits. */
  function ValueAt(log: seq<Commit>, v: nat): NonceState
    requires v <= |log|
  {
    if v == 0 then EMPTY.value else log[v - 1].after
  }

  function FenceAt(log: seq<Commit>): nat {
    if log == [] then 0 else log[|log| - 1].fence
  }

  /** Each commit was computed from the state just before it, under a fence no lower than any before. */
  ghost predicate LinearLog(log: seq<Commit>) {
    && (forall i | 0 <= i < |log| :: LinkedAt(log, i))
    && (forall i, j | 0 <= i < j < |log| :: log[i].fence <= log[j].fence)
  }

  ghost predicate LinkedAt(log: seq<Commit>, i: nat)
    requires i < |log|
  {
    && log[i].before == ValueAt(log, i)
    && Computed(log[i].op, Versioned(log[i].before, i), log[i].pending) == Some(log[i].after)
  }

  /** A snapshot is the value at its version, and its client has committed nothing since. */
  ghost predicate Fresh(log: seq<Commit>, c: ClientId, seen: Versioned) {
    && seen.version <= |log|
    && seen.value == ValueAt(log, seen.version)
    && forall i | seen.version <= i < |log| :: log[i].client != c
  }

  /** The version counts the commits, and the record is the last one. */
  ghost predicate Linear(s: System) {
    && LinearLog(s.log)
    && s.cell == NonceCell(Versioned(ValueAt(s.log, |s.log|), |s.log|), FenceAt(s.log))
    && forall c | c in s.clients && s.clients[c].pc.Loaded? :: Fresh(s.log, c, s.clients[c].pc.seen)
  }

  lemma LinearLogExtends(log: seq<Commit>, e: Commit)
    requires LinearLog(log)
    requires e.before == ValueAt(log, |log|) && e.fence >= FenceAt(log)
    requires Computed(e.op, Versioned(e.before, |log|), e.pending) == Some(e.after)
    ensures LinearLog(log + [e])
  {
    var log' := log + [e];
    forall i | 0 <= i < |log'| ensures LinkedAt(log', i) {
      if i < |log| {
        assert LinkedAt(log, i);
      }
    }
  }

  lemma LinearStep(s: System, step: Step)
    requires Linear(s)
    ensures Linear(Apply(s, step))
  {
    var s' := Apply(s, step);
    var c := step.c;
    StepCases(s, step);
    if value :| Commits(s, c, value) && s' == Committing(s, c, s.clients[c], value) {
      var client := s.clients[c];
      assert Fresh(s.log, c, client.pc.seen);
      LinearLogExtends(s.log, s'.log[|s.log|]);
      forall d | d in s'.clients && s'.clients[d].pc.Loaded? ensures Fresh(s'.log, d, s'.clients[d].pc.seen) {
        assert d != c && s'.clients[d] == s.clients[d];
        assert Fresh(s.log, d, s.clients[d].pc.seen);
      }
    }
  }

  /** Committed writes are linear in every run of any number of clients. */
  lemma {:induction false} LinearRun(s: System, steps: seq<Step>)
    requires Initial(s)
    ensures Linear(Run(s, steps))
  {
    if steps != [] {
      LinearRun(s, steps[..|steps| - 1]);
      LinearStep(Run(s, steps[..|steps| - 1]), steps[|steps| - 1]);
    }
  }

  /** A swap by a writer below a fence that has been committed changes nothing. */
  lemma SupersededWriterIsStopped(s: System, c: ClientId, i: nat)
    requires Linear(s) && c in s.clients && i < |s.log| && s.clients[c].fence < s.log[i].fence
    ensures Apply(s, Cas(c)).log == s.log && Apply(s, Cas(c)).cell == s.cell
  {
    assert s.log[i].fence <= FenceAt(s.log);
  }

  /** Such a writer never commits again, however the run goes on. */
  lemma {:induction false} SupersededForever(s: System, steps: seq<Step>, c: ClientId, i: nat)
    requires Linear(s) && c in s.clients && i < |s.log| && s.clients[c].fence < s.log[i].fence
    ensures var e := Run(s, steps);
            && Linear(e) && s.log <= e.log && c in e.clients && e.clients[c].fence == s.clients[c].fence
            && forall j | |s.log| <= j < |e.log| :: e.log[j].client != c
  {
    if steps != [] {
      var before, step := steps[..|steps| - 1], steps[|steps| - 1];
      SupersededForever(s, before, c, i);
      var e := Run(s, before);
      LinearStep(e, step);
      StepCases(e, step);
      if step == Cas(c) {
        SupersededWriterIsStopped(e, c, i);
      }
      assert e.log <= Apply(e, step).log;
    }
  }

  // ----- progress -----

  /** Commits by clients other than `c` among the first `v`. */
  function OthersCommits(log: seq<Commit>, c: ClientId, v: nat): (k: nat)
    requires v <= |log|
  {
    if v == 0 then 0 else OthersCommits(log, c, v - 1) + (if log[v - 1].client != c then 1 else 0)
  }

  lemma {:induction false} OthersCommitsExtend(log: seq<Commit>, e: Commit, c: ClientId, v: nat)
    requires v <= |log|
    ensures OthersCommits(log + [e], c, v) == OthersCommits(log, c, v)
  {
    if v > 0 {
      OthersCommitsExtend(log, e, c, v - 1);
    }
  }

  lemma {:induction false} OthersCommitsGrow(log: seq<Commit>, c: ClientId, v: nat, w: nat)
    requires v <= w <= |log|
    ensures OthersCommits(log, c, v) <= OthersCommits(log, c, w)
    ensures (forall i | v <= i < w :: log[i].client != c) ==> OthersCommits(log, c, w) == OthersCommits(log, c, v) + w - v
    decreases w
  {
    if v < w {
      OthersCommitsGrow(log, c, v, w - 1);
    }
  }

  /** How far along the log `client` is known to have looked. */
  function SeenTo(log: seq<Commit>, client: Client): nat {
    if client.pc.Loaded? then client.pc.seen.version else |log|
  }

  ghost predicate ChargedTo(log: seq<Commit>, c: ClientId, client: Client) {
    SeenTo(log, client) <= |log| && client.fails <= OthersCommits(log, c, SeenTo(log, client))
  }

  /** Every lost race of a client is paid for by a different commit of another client. */
  ghost predicate Charged(s: System) {
    forall c | c in s.clients :: ChargedTo(s.log, c, s.clients[c])
  }

  lemma ChargedQuiet(s: System, c: ClientId, client': Client)
    requires Linear(s) && Charged(s) && Quiet(s, c, client')
    ensures ChargedTo(s.log, c, client')
  {
    var client := s.clients[c];
    assert ChargedTo(s.log, c, client);
    if client.pc.Loaded? {
      assert Fresh(s.log, c, client.pc.seen);
    }
    OthersCommitsGrow(s.log, c, SeenTo(s.log, client), |s.log|);
  }

  lemma ChargedExtend(log: seq<Commit>, e: Commit, c: ClientId, client: Client)
    requires ChargedTo(log, c, client)
    ensures ChargedTo(log + [e], c, client)
    ensures ChargedTo(log + [e], c, client.(pc := Idle))
  {
    var v := SeenTo(log, client);
    OthersCommitsExtend(log, e, c, v);
    OthersCommitsGrow(log + [e], c, v, |log| + 1);
  }

  lemma ChargedStep(s: System, step: Step)
    requires Linear(s) && Charged(s)
    ensures Charged(Apply(s, step))
  {
    var s' := Apply(s, step);
    var c := step.c;
    StepCases(s, step);
    if client' :| Quiet(s, c, client') && s' == WithClient(s, c, client') {
      ChargedQuiet(s, c, client');
    } else if value :| Commits(s, c, value) && s' == Committing(s, c, s.clients[c], value) {
      forall d | d in s'.clients ensures ChargedTo(s'.log, d, s'.clients[d]) {
        assert ChargedTo(s.log, d, s.clients[d]);
        ChargedExtend(s.log, s'.log[|s.log|], d, s.clients[d]);
      }
    }
  }

  lemma {:induction false} ChargedRun(s: System, steps: seq<Step>)
    requires Initial(s)
    ensures Charged(Run(s, steps))
  {
    if steps != [] {
      var init := steps[..|steps| - 1];
      ChargedRun(s, init);
      LinearRun(s, init);
      ChargedStep(Run(s, init), steps[|steps| - 1]);
    }
  }

  /** Each lost race has its own cause: since the losing client loaded, another client committed, and only
      others did. */
  lemma LostRaceHasItsCommit(s: System, c: ClientId)
    requires Linear(s) && c in s.clients && Apply(s, Cas(c)).clients[c].fails != s.clients[c].fails
    ensures s.clients[c].pc.Loaded? && s.clients[c].pc.seen.version < |s.log|
    ensures forall i | s.clients[c].pc.seen.version <= i < |s.log| :: s.log[i].client != c
  {
    assert Fresh(s.log, c, s.clients[c].pc.seen);
  }

  /** System-wide progress: in every run, a client loses at most as many races as the other clients
      have won. */
  lemma LostRacesAreOthersCommits(s: System, steps: seq<Step>, c: ClientId)
    requires Initial(s) && c in Run(s, steps).clients
    ensures var e := Run(s, steps); e.clients[c].fails <= OthersCommits(e.log, c, |e.log|)
  {
    var e := Run(s, steps);
    ChargedRun(s, steps);
    assert ChargedTo(e.log, c, e.clients[c]);
    OthersCommitsGrow(e.log, c, SeenTo(e.log, e.clients[c]), |e.log|);
  }

  // ----- exclusion and exact accounting -----

  /** Every nonce held by some client. */
  ghost function AllHeld(clients: map<ClientId, Client>): set<nat> {
    set c, n | c in clients && n in clients[c].held :: n
  }

  /** No nonce is held by two clients. */
  ghost predicate Exclusive(clients: map<ClientId, Client>) {
    forall c, d, n | c in clients && d in clients && n in clients[c].held && n in clients[d].held :: c == d
  }

  /** The managed range splits exactly into held, freed and retired nonces, pairwise disjoint, the
      retired ones all below a chain count that was committed. */
  ghost predicate Split(value: NonceState, held: set<nat>, retired: set<nat>, base: nat, chainHigh: nat) {
    && WellFormed(value)
    && base <= value.next
    && held !! retired
    && (forall n | n in held :: !InPool(value, n))
    && (forall n | n in retired :: !InPool(value, n) && n < chainHigh)
    && (forall n: nat :: base <= n < value.next <==> n in held || n in value.free || n in retired)
  }

  ghost predicate Accounted(s: System) {
    && Exclusive(s.clients)
    && Split(s.cell.current.value, AllHeld(s.clients), s.retired, s.base, s.chainHigh)
    && (forall c | c in s.clients :: PendingReleaseIsHeld(s.clients[c]))
    && (s.log == [] ==> s.cell.current.value == EMPTY.value && AllHeld(s.clients) == {} && s.retired == {} && s.chainHigh == 0)
  }

  /** Writing back one client changes the held nonces by that client's part alone. */
  lemma HeldUpdate(clients: map<ClientId, Client>, c: ClientId, client': Client)
    requires c in clients && Exclusive(clients)
    ensures AllHeld(clients[c := client']) == AllHeld(clients) - clients[c].held + client'.held
    ensures client'.held !! (AllHeld(clients) - clients[c].held) ==> Exclusive(clients[c := client'])
  {
    var clients' := clients[c := client'];
    var lhs, rhs := AllHeld(clients'), AllHeld(clients) - clients[c].held + client'.held;
    forall n ensures n in lhs <==> n in rhs {
      if n in lhs {
        var d :| d in clients' && n in clients'[d].held;
        if d != c {
          assert d in clients && n in clients[d].held;
        }
      }
      if n in rhs {
        if n in client'.held {
          assert c in clients' && n in clients'[c].held;
        } else {
          var d :| d in clients && n in clients[d].held;
          assert d in clients' && n in clients'[d].held;
        }
      }
    }
  }

  lemma SplitAllocate(value: NonceState, held: set<nat>, retired: set<nat>, base: nat, chainHigh: nat)
    requires Split(value, held, retired, base, chainHigh)
    ensures var (value', n) := Allocate(value); n !in held && Split(value', held + {n}, retired, base, chainHigh)
  {
    AllocateTakesLeast(value);
  }

  lemma SplitRelease(value: NonceState, held: set<nat>, retired: set<nat>, base: nat, chainHigh: nat, n: nat)
    requires Split(value, held, retired, base, chainHigh) && n in held
    ensures Split(Release(value, n), held - {n}, retired, base, chainHigh)
  {
    var value' := Release(value, n);
    ReleaseReturns(value, n);
    assert InPool(value', value'.next);
    forall m: nat
      ensures base <= m < value'.next <==> m in held - {n} || m in value'.free || m in retired
    {
      assert InPool(value', m) <==> InPool(value, m) || m == n;
      assert base <= m < value.next <==> m in held || m in value.free || m in retired;
      assert m in value'.free ==> InPool(value', m);
    }
  }

  lemma SplitReset(value: NonceState, held: set<nat>, retired: set<nat>, base: nat, chainHigh: nat, chainNext: nat)
    requires Split(value, held, retired, base, chainHigh)
    ensures Split(Reset(value, chainNext), held, RetiredAfter(Resetting(chainNext), value, false, retired), base,
                  HighAfter(Resetting(chainNext), chainHigh))
  {
    ResetRetires(value, chainNext);
  }

  /** What the first commit of all establishes, whichever operation makes it. */
  lemma SplitFirst(pending: nat)
    ensures Split(Allocate(NonceState(pending, {})).0, {pending}, {}, pending, 0)
    ensures Split(Reset(EMPTY.value, pending), {}, {}, pending, pending)
  {
    ResetRetires(EMPTY.value, pending);
  }

  lemma AccountedCommit(s: System, c: ClientId, value: NonceState)
    requires Linear(s) && Accounted(s) && Commits(s, c, value)
    ensures Accounted(Committing(s, c, s.clients[c], value))
  {
    var client := s.clients[c];
    var Loaded(op, seen, pending) := client.pc;
    var was := s.cell.current.value;
    assert Fresh(s.log, c, seen);
    assert seen == s.cell.current;
    var held := AllHeld(s.clients);
    HeldUpdate(s.clients, c, client.(pc := Idle, held := HeldAfter(op, seen, pending, client.held)));
    assert client.held <= held;
    match op
    case Allocating =>
      if s.log == [] { SplitFirst(pending); } else { SplitAllocate(was, held, s.retired, s.base, s.chainHigh); }
      assert held - client.held + HeldAfter(op, seen, pending, client.held) == held + {Allocate(Reconciled(seen, pending)).1};
    case Releasing(n) =>
      assert PendingReleaseIsHeld(client);
      SplitRelease(was, held, s.retired, s.base, s.chainHigh, n);
      assert held - client.held + (client.held - {n}) == held - {n} by {
        assert n in client.held;
      }
    case Resetting(chainNext) =>
      if s.log == [] { SplitFirst(chainNext); } else { SplitReset(was, held, s.retired, s.base, s.chainHigh, chainNext); }
      assert held - client.held + client.held == held;
  }

  lemma AccountedStep(s: System, step: Step)
    requires Linear(s) && Accounted(s)
    ensures Accounted(Apply(s, step))
  {
    var c := step.c;
    var s' := Apply(s, step);
    StepCases(s, step);
    if client' :| Quiet(s, c, client') && s' == WithClient(s, c, client') {
      HeldUpdate(s.clients, c, client');
      assert AllHeld(s.clients) - client'.held + client'.held == AllHeld(s.clients);
    } else if value :| Commits(s, c, value) && s' == Committing(s, c, s.clients[c], value) {
      AccountedCommit(s, c, value);
    }
  }

  /** Safety and exact accounting in every reachable state, for any number of clients and any
      interleaving. */
  lemma {:induction false} AccountedRun(s: System, steps: seq<Step>)
    requires Initial(s)
    ensures Accounted(Run(s, steps))
  {
    if steps != [] {
      var init := steps[..|steps| - 1];
      AccountedRun(s, init);
      LinearRun(s, init);
      AccountedStep(Run(s, init), steps[|steps| - 1]);
    }
  }

  /** A commit that gives client `c` a nonce hands out the least nonce from the base up that is neither
      held by anyone nor retired; the first commit of all sets the base. */
  lemma AllocationIsLeastUnused(s: System, c: ClientId, nonce: nat)
    requires Linear(s) && Accounted(s) && c in s.clients
    requires nonce in Apply(s, Cas(c)).clients[c].held && nonce !in s.clients[c].held
    ensures Apply(s, Cas(c)).base <= nonce && nonce !in AllHeld(s.clients) && nonce !in s.retired
    ensures forall m: nat | Apply(s, Cas(c)).base <= m && m !in AllHeld(s.clients) && m !in s.retired :: nonce <= m
  {
    var seen, pending := s.clients[c].pc.seen, s.clients[c].pc.pending;
    var value := Reconciled(s.cell.current, pending);
    assert Fresh(s.log, c, seen);
    AllocateTakesLeast(value);
    assert nonce == Allocate(value).1;
    if s.log != [] {
      forall m: nat | s.base <= m && m !in AllHeld(s.clients) && m !in s.retired ensures nonce <= m {
        assert InPool(value, m);
      }
    }
  }

  // ----- the chain's count as a floor -----

  /** No nonce below the highest committed chain count can be handed out. */
  predicate AboveChain(s: System) {
    var value := s.cell.current.value;
    value.next >= s.chainHigh && forall n | n in value.free :: n >= s.chainHigh
  }

  /** The step commits a release of a nonce below a chain count already committed. */
  predicate ReleasesConsumed(s: System, step: Step) {
    && step.Cas? && step.c in s.clients
    && Apply(s, step).log != s.log
    && s.clients[step.c].pc.op.Releasing?
    && s.clients[step.c].pc.op.nonce < s.chainHigh
  }

  /** A step keeps the floor exactly when it is not such a release. */
  lemma FloorStep(s: System, step: Step)
    requires Linear(s) && Accounted(s) && AboveChain(s)
    ensures AboveChain(Apply(s, step)) <==> !ReleasesConsumed(s, step)
  {
    var c := step.c;
    var s' := Apply(s, step);
    if c in s.clients && s'.log != s.log {
      var pc := s.clients[c].pc;
      var value := s.cell.current.value;
      assert Fresh(s.log, c, pc.seen);
      if pc.op.Releasing? {
        var n := pc.op.nonce;
        var value' := s'.cell.current.value;
        ReleaseReturns(value, n);
        assert InPool(value', n);
        if n >= s.chainHigh {
          assert InPool(value', value'.next);
          assert forall m | m in value'.free :: InPool(value', m);
        }
      }
    }
  }

  /** The floor holds in every state of the run. */
  ghost predicate StaysAboveChain(s: System, steps: seq<Step>) {
    AboveChain(Run(s, steps)) && (steps != [] ==> StaysAboveChain(s, steps[..|steps| - 1]))
  }

  /** No step of the run gives back a nonce the chain had already been seen to consume. */
  ghost predicate NeverReleasesConsumed(s: System, steps: seq<Step>) {
    steps != [] ==>
      var init := steps[..|steps| - 1];
      NeverReleasesConsumed(s, init) && !ReleasesConsumed(Run(s, init), steps[|steps| - 1])
  }

  /** In every run, the allocator stays at or above the chain's count throughout exactly when no step
      releases a consumed nonce. */
  lemma {:induction false} FloorRun(s: System, steps: seq<Step>)
    requires Initial(s)
    ensures StaysAboveChain(s, steps) <==> NeverReleasesConsumed(s, steps)
  {
    if steps != [] {
      var init := steps[..|steps| - 1];
      FloorRun(s, init);
      LinearRun(s, init);
      AccountedRun(s, init);
      if StaysAboveChain(s, init) {
        FloorStep(Run(s, init), steps[|steps| - 1]);
      }
    }
  }

  /** Above the floor, an allocation never hands out a nonce the chain has reported consumed. */
  lemma AllocationsAreAboveChain(s: System, c: ClientId, nonce: nat)
    requires Linear(s) && Accounted(s) && AboveChain(s) && c in s.clients
    requires nonce in Apply(s, Cas(c)).clients[c].held && nonce !in s.clients[c].held
    ensures nonce >= s.chainHigh
  {
    assert Fresh(s.log, c, s.clients[c].pc.seen);
    AllocateTakesLeast(Reconciled(s.cell.current, s.clients[c].pc.pending));
  }

  /** The floor does fail: nonce 0 is taken, a reset reports it mined, then it is released. */
  lemma FloorCanFail()
    ensures exists s, steps :: Initial(s) && !AboveChain(Run(s, steps))
  {
    var s := System(ABSENT, map[0 := Client(0, {}, Idle, 0)], [], 0, {}, 0);
    var l1, l2, l3 := Load(0, Allocating, 0), Load(0, Resetting(1), 0), Load(0, Releasing(0), 0);
    RunSnoc(s, [], l1);
    RunSnoc(s, [l1], Cas(0));
    var s2 := Run(s, [l1] + [Cas(0)]);
    assert s2.cell.current == Versioned(NonceState(1, {}), 1) && s2.clients[0] == Client(0, {0}, Idle, 0);
    RunSnoc(s, [l1] + [Cas(0)], l2);
    RunSnoc(s, [l1] + [Cas(0)] + [l2], Cas(0));
    var s4 := Run(s, [l1] + [Cas(0)] + [l2] + [Cas(0)]);
    assert Reset(NonceState(1, {}), 1) == NonceState(1, {});
    assert s4.cell.current == Versioned(NonceState(1, {}), 2) && s4.clients[0] == Client(0, {0}, Idle, 0) && s4.chainHigh == 1;
    RunSnoc(s, [l1] + [Cas(0)] + [l2] + [Cas(0)], l3);
    RunSnoc(s, [l1] + [Cas(0)] + [l2] + [Cas(0)] + [l3], Cas(0));
    assert Release(NonceState(1, {}), 0) == NonceState(0, {});
    assert !AboveChain(Run(s, [l1] + [Cas(0)] + [l2] + [Cas(0)] + [l3] + [Cas(0)]));
  }
}
