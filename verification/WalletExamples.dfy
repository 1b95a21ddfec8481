/** Runs that show where the wallet's promises end. */
module WalletExamples {
  import opened Types
  import opened Nonces
  import opened Lifecycle
  import opened Signing
  import opened Executor
  import opened Wallet
  import opened WalletHandles
  import opened WalletNonces
  import opened WalletRuns
  import opened WalletPromises
  import opened Cancellation

  // ----- a leak -----

  /** One transfer of `value`, answered favourably up to its submission. */
  function Transfer(value: nat, submit: SubmitOutcome, settled: bool): SendInput {
    var intent := TxIntent(1, 0, TxKind.Call(1), value, [], None);
    SendInput(
      intent, Public, None, true, Ok(21_000), Ok(Fees(2, 1)),
      Ok(Allow(PolicyApproval(OfIntent(intent), DEFAULT_ENVELOPE, 100))), Ok(7), true, 0, Ok(0), true, submit, settled, true, NoCrash)
  }

  const PLAIN := Config(0, 0, 1_000, 1, 30, false, false)

  function TransferId(value: nat, nonce: nat): HandleId {
    HandleId(OfIntent(Transfer(value, Accepted, true).intent), nonce)
  }

  predicate HeldTransfer(w: World, value: nat) {
    SendHolds(w, TransferId(value, 7)) && w.handles[TransferId(value, 7)].nonce == 7
  }

  lemma FirstTransferLeaks()
    ensures var w := Send(PLAIN, INIT, Transfer(1, Rejected(RelayRejected), false));
            w.nonce == Versioned(NonceState(7, {}), 2) && HeldTransfer(w, 1)
  {
  }

  lemma SecondTransferShares(w: World)
    requires w.nonce == Versioned(NonceState(7, {}), 2) && HeldTransfer(w, 1)
    ensures var w' := Send(PLAIN, w, Transfer(2, Accepted, true)); HeldTransfer(w', 1) && HeldTransfer(w', 2)
  {
    assert TransferId(1, 7) != TransferId(2, 7);
  }

  /** Without the terminal write the promise fails: a rejected send whose second write fails shares its
      nonce with the next one. */
  lemma LeakedNonceIsShared()
    ensures var w := Reached(PLAIN, [DoSend(Transfer(1, Rejected(RelayRejected), false)), DoSend(Transfer(2, Accepted, true))]);
            var i, j := TransferId(1, 7), TransferId(2, 7);
            i != j && SendHolds(w, i) && SendHolds(w, j) && w.handles[i].nonce == w.handles[j].nonce
  {
    hide Send, SendHolds;
    var a, b := Transfer(1, Rejected(RelayRejected), false), Transfer(2, Accepted, true);
    assert [DoSend(a)][..0] == [] && [DoSend(a), DoSend(b)][..1] == [DoSend(a)];
    assert RunFrom(PLAIN, INIT, []) == INIT;
    assert RunFrom(PLAIN, INIT, [DoSend(a)]) == Send(PLAIN, INIT, a);
    FirstTransferLeaks();
    SecondTransferShares(Send(PLAIN, INIT, a));
  }

  /** And a failed send can leave a gap: one that is rejected, settles, and cannot hand its nonce back. */
  lemma FailedSendLeavesAGap()
    ensures Gap(Reached(PLAIN, [DoSend(Transfer(1, Rejected(RelayRejected), true).(released := false))]), 7)
  {
    var i := Transfer(1, Rejected(RelayRejected), true).(released := false);
    assert [DoSend(i)][..0] == [];
    assert RunFrom(PLAIN, INIT, []) == INIT;
    assert Allocated(INIT, i).1 == 7;
    SendLeavesGapIff(PLAIN, INIT, i);
  }

  // ----- a cancelled transfer that is sent again -----

  const REFILLING := Config(0, 0, 1_000, 1, 30, true, false)

  const TRANSFER := Transfer(1, Accepted, true)

  const ID := TransferId(1, 7)

  /** The transfer's handle once it is out at nonce 7. */
  function TransferHandle(): TxHandle {
    var body := BuildTx(TRANSFER.intent, 7, 21_000, Fees(2, 1));
    NewHandle(TRANSFER, 7, PolicyApproval(OfIntent(TRANSFER.intent), DEFAULT_ENVELOPE, 100), SignedTx(Signed1559(body, 0), HashOf(body, 0)))
  }

  /** The transfer is tracked with this status and mark, and 8 is the next nonce. */
  predicate Stage(w: World, status: TxStatus, cancelled: bool) {
    && Stored(w, ID) == Some(TransferHandle().(status := status, cancelled := cancelled)) && ID in w.hist
    && w.nonce.value == NonceState(8, {}) && w.nonce.version > 0 && w.lastLatest <= 10
  }

  /** A cancel of the transfer whose submission ends in `submit`, or that cannot be priced. */
  function CancelOf(baseFee: Answer<u128>, submit: SubmitOutcome): CancelInput {
    var attempt := Attempt(baseFee, Ok(0), submit);
    CancelInput(Ok(Allow(PolicyApproval(OfIntent(CancelIntent(TransferHandle())), DEFAULT_ENVELOPE, 100))),
                true, 0, attempt, false, attempt, true, true)
  }

  /** A connection lost while submitting. */
  const LOST := Rejected(RpcCall(true, false, false))

  const BEGIN := DoBeginCycle(Ok(10), Ok(8), Ok(None), true)

  /** No receipt for anything. */
  const ADVANCE := DoAdvance(ID, AdvanceInput(ChainReads(_ => Ok(None), _ => Err), Err, true, TRANSFER))

  lemma ReachedSnoc(cfg: Config, before: seq<Step>, s: Step)
    ensures Reached(cfg, before + [s]) == Apply(cfg, Reached(cfg, before), s)
  {
    assert (before + [s])[..|before|] == before;
    hide Apply;
  }

  lemma TransferGoesOut(cfg: Config)
    requires cfg == REFILLING
    ensures Stage(Reached(cfg, [DoSend(TRANSFER)]), Sent, false)
  {
    ReachedSnoc(cfg, [], DoSend(TRANSFER));
    assert [] + [DoSend(TRANSFER)] == [DoSend(TRANSFER)];
    assert Reached(cfg, []) == INIT;
    assert BufferedGas(cfg, 21_000) == 21_000;
  }

  lemma TransferCancelOutcomes(cfg: Config, w: World, status: TxStatus, cancelled: bool, submit: SubmitOutcome)
    requires cfg == REFILLING && Stage(w, status, cancelled) && !status.IsTerminal()
    requires submit == LOST || submit == Accepted
    ensures Submitted(cfg, w, ID, CancelOf(Ok(1), submit)) == [submit]
  {
    assert GasOracle.Bump(Fees(2, 1), 1, 1_000) == Ok(Fees(4, 2));
    var h := w.handles[ID];
    assert CancelIntent(h) == CancelIntent(TransferHandle());
  }

  lemma CancelOfTransfer(cfg: Config, before: seq<Step>, status: TxStatus, cancelled: bool, a: CancelInput)
    requires cfg == REFILLING && Stage(Reached(cfg, before), status, cancelled) && !status.IsTerminal()
    requires a == CancelOf(Ok(1), LOST) || a == CancelOf(Ok(1), Accepted) || a == CancelOf(Err, LOST)
    ensures Stage(Reached(cfg, before + [DoCancel(ID, a)]), status, a == CancelOf(Ok(1), Accepted))
    ensures CancelLive(cfg, before + [DoCancel(ID, a)], ID) <==> CancelLive(cfg, before, ID) || a.first.baseFee.Ok?
  {
    hide Inv, RunFrom, CancelLive, CancelTx, LogsCancels;
    var w := Reached(cfg, before);
    RunKeeps(cfg, before);
    RunKeeps(cfg, before + [DoCancel(ID, a)]);
    CancelMarkExactly(cfg, w, ID, a);
    CancelKeepsPool(cfg, w, ID, a);
    CancelLiveSnoc(cfg, before, DoCancel(ID, a), ID);
    GoodAt(cfg, Reached(cfg, before + [DoCancel(ID, a)]), ID);
    assert !IsOwnCancel(w.handles[ID]);
    if a.first.baseFee.Ok? {
      TransferCancelOutcomes(cfg, w, status, cancelled, a.first.submit);
      assert a.first.submit in Submitted(cfg, w, ID, a);
    }
  }

  predicate InPass(w: World) {
    w.cycle == Some(Cycle(ChainView(10, 0), FinalityConfig(Depth, 1), 8))
  }

  lemma PassBegins(cfg: Config, before: seq<Step>, status: TxStatus)
    requires cfg == REFILLING && Stage(Reached(cfg, before), status, false)
    ensures var w' := Reached(cfg, before + [BEGIN]); Stage(w', status, false) && InPass(w')
    ensures CancelLive(cfg, before + [BEGIN], ID) == CancelLive(cfg, before, ID)
  {
    hide RunFrom, CancelLive;
    CancelLiveSnoc(cfg, before, BEGIN, ID);
    assert Reset(NonceState(8, {}), 8) == NonceState(8, {});
  }

  lemma TransferLooksForeign(cfg: Config, before: seq<Step>)
    requires cfg == REFILLING && Stage(Reached(cfg, before), Sent, false) && InPass(Reached(cfg, before))
    ensures Stage(Reached(cfg, before + [ADVANCE]), Replacing(10), false)
    ensures CancelLive(cfg, before + [ADVANCE], ID) == CancelLive(cfg, before, ID)
  {
    hide RunFrom, CancelLive;
    CancelLiveSnoc(cfg, before, ADVANCE, ID);
    var w := Reached(cfg, before);
    EventMeaning(w.handles[ID], 8, ADVANCE.advance.chain);
    assert Seen(w, ID, ADVANCE.advance.chain).event == ForeignMined;
  }

  lemma TransferIsSentAgain(cfg: Config, w: World)
    requires cfg == REFILLING && Stage(w, Replacing(10), false) && InPass(w)
    ensures RefillsBy(cfg, w, ADVANCE, ID)
    ensures SendHolds(Apply(cfg, w, ADVANCE), TransferId(1, 8)) && 8 in Apply(cfg, w, ADVANCE).live
  {
    hide Send, SendHolds;
    var h := w.handles[ID];
    EventMeaning(h, 8, ADVANCE.advance.chain);
    var o := Seen(w, ID, ADVANCE.advance.chain);
    assert o.event == ForeignMined;
    assert Transition(h.status, o.event, o.view, o.cfg) == Some(Replaced);
    hide Seen, EventFor;
    var h1 := h.(status := Replaced);
    var w1 := Update(w, h1, w.hist[ID].(obs := w.hist[ID].obs + [o]));
    assert Apply(cfg, w, ADVANCE) == Send(cfg, Counted(w1, h1), RefillInput(h1, TRANSFER));
    ChildGoesOut(cfg, Counted(w1, h1));
    assert RefillInput(h1, TRANSFER) == TRANSFER;
  }

  lemma ChildGoesOut(cfg: Config, w: World)
    requires cfg == REFILLING && w.nonce.value == NonceState(8, {}) && w.nonce.version > 0
    ensures var w' := Send(cfg, w, TRANSFER); SendHolds(w', TransferId(1, 8)) && 8 in w'.live
  {
  }

  /** A cancelled transaction can be sent again: the connection is lost while the cancel is submitted, the
      mark is taken back, the cancel mines, and the transfer passes for displaced. */
  lemma LostCancelIsRefilled() returns (steps: seq<Step>)
    ensures CancelLive(REFILLING, steps, ID) && RefillsBy(REFILLING, Reached(REFILLING, steps), ADVANCE, ID)
    ensures var w' := Apply(REFILLING, Reached(REFILLING, steps), ADVANCE);
            SendHolds(w', TransferId(1, 8)) && {7, 8} <= w'.live
  {
    hide RunFrom, CancelLive, Stage, InPass;
    var cfg := REFILLING;
    var out := [DoSend(TRANSFER)];
    TransferGoesOut(cfg);
    TransferIsLive(cfg);
    var a := CancelOf(Ok(1), LOST);
    CancelOfTransfer(cfg, out, Sent, false, a);
    var cancelled := out + [DoCancel(ID, a)];
    PassBegins(cfg, cancelled, Sent);
    TransferLooksForeign(cfg, cancelled + [BEGIN]);
    var seen := cancelled + [BEGIN] + [ADVANCE];
    PassBegins(cfg, seen, Replacing(10));
    steps := seen + [BEGIN];
    TransferIsSentAgain(cfg, Reached(cfg, steps));
    assert (steps + [ADVANCE])[..1] == out;
    RunExtends(cfg, steps + [ADVANCE], 1);
    ReachedSnoc(cfg, steps, ADVANCE);
  }

  lemma TransferIsLive(cfg: Config)
    requires cfg == REFILLING
    ensures 7 in Reached(cfg, [DoSend(TRANSFER)]).live
  {
    ReachedSnoc(cfg, [], DoSend(TRANSFER));
    assert [] + [DoSend(TRANSFER)] == [DoSend(TRANSFER)];
    assert Reached(cfg, []) == INIT;
  }

  /** Cancelling twice can undo the first cancel's mark: the second cannot be priced and takes it back. */
  lemma SecondCancelUnmarksTheFirst() returns (steps: seq<Step>)
    ensures var w := Reached(REFILLING, steps);
            CancelLive(REFILLING, steps, ID) && Tracked(REFILLING, w, ID) && !w.handles[ID].cancelled
  {
    hide RunFrom, CancelLive;
    var cfg := REFILLING;
    TransferGoesOut(cfg);
    var out := [DoSend(TRANSFER)];
    CancelOfTransfer(cfg, out, Sent, false, CancelOf(Ok(1), Accepted));
    var first := out + [DoCancel(ID, CancelOf(Ok(1), Accepted))];
    CancelOfTransfer(cfg, first, Sent, true, CancelOf(Err, LOST));
    steps := first + [DoCancel(ID, CancelOf(Err, LOST))];
  }

  // ----- a relayed request that nothing displaced -----

  const RELAYING := Config(0, 0, 1_000, 1, 30, true, true)

  /** The request at the forwarder's nonce 0. */
  const TASK := Task(5, 6, 0, "task")

  const TASK_ID := HandleId(OfIntent(TRANSFER.intent), 0)

  /** The request is tracked with this status and these hashes. */
  predicate TaskStage(w: World, status: TxStatus, broadcasts: seq<TxHash>) {
    && Stored(w, TASK_ID) == Some(TaskHandle(TRANSFER.intent, TASK, 0).(status := status, broadcasts := broadcasts))
    && TASK_ID in w.hist && w.lastLatest <= 10
  }

  /** One look at the request: no receipt, and the relay says it is in. */
  const LOOK := DoAdvance(TASK_ID, AdvanceInput(ChainReads(_ => Ok(None), _ => Err), Ok(Included(ForeignHash(9))), true, TRANSFER))

  lemma TaskIsTracked(cfg: Config)
    requires cfg == RELAYING
    ensures TaskStage(Reached(cfg, [DoTask(TRANSFER.intent, TASK, 0, true)]), Sent, [])
  {
    var s := DoTask(TRANSFER.intent, TASK, 0, true);
    ReachedSnoc(cfg, [], s);
    assert [] + [s] == [s] && Reached(cfg, []) == INIT;
  }

  lemma TaskPassBegins(cfg: Config, before: seq<Step>, status: TxStatus, broadcasts: seq<TxHash>)
    requires cfg == RELAYING && TaskStage(Reached(cfg, before), status, broadcasts)
    ensures var w := Reached(cfg, before + [BEGIN]); TaskStage(w, status, broadcasts) && InPass(w)
  {
    hide RunFrom;
    ReachedSnoc(cfg, before, BEGIN);
  }

  lemma TaskIsIncluded(cfg: Config, before: seq<Step>)
    requires cfg == RELAYING && TaskStage(Reached(cfg, before), Sent, []) && InPass(Reached(cfg, before))
    ensures TaskStage(Reached(cfg, before + [LOOK]), Sent, [ForeignHash(9)])
  {
    hide RunFrom;
    ReachedSnoc(cfg, before, LOOK);
    var w := Reached(cfg, before);
    assert IsAwaitingRelay(w.handles[TASK_ID]) && Tracked(cfg, w, TASK_ID);
    assert Apply(cfg, w, LOOK) == PollTask(cfg, w, TASK_ID, LOOK.advance);
    assert [] + [ForeignHash(9)] == [ForeignHash(9)];
  }

  lemma TaskLooksForeign(w: World, status: TxStatus)
    requires TaskStage(w, status, [ForeignHash(9)]) && InPass(w)
    ensures Seen(w, TASK_ID, LOOK.advance.chain) == Obs(ForeignMined, ChainView(10, 0), FinalityConfig(Depth, 1))
  {
    EventMeaning(w.handles[TASK_ID], 8, LOOK.advance.chain);
  }

  lemma TaskStartsReplacing(cfg: Config, before: seq<Step>)
    requires cfg == RELAYING && TaskStage(Reached(cfg, before), Sent, [ForeignHash(9)]) && InPass(Reached(cfg, before))
    ensures TaskStage(Reached(cfg, before + [LOOK]), Replacing(10), [ForeignHash(9)])
  {
    hide RunFrom, Seen;
    TaskLooksForeign(Reached(cfg, before), Sent);
    ReachedSnoc(cfg, before, LOOK);
  }

  /** A relayed request is compared by its forwarder's nonce: included by the relay but with its receipt not
      yet served, it passes for displaced as soon as the account's own count is higher, and is sent again. */
  lemma RelayedRequestIsRefilled() returns (steps: seq<Step>)
    ensures var w := Reached(RELAYING, steps);
            && RefillsBy(RELAYING, w, LOOK, TASK_ID)
            && w.handles[TASK_ID].broadcasts == [ForeignHash(9)]
  {
    hide RunFrom, TaskStage, InPass;
    var cfg := RELAYING;
    TaskIsTracked(cfg);
    var s0 := [DoTask(TRANSFER.intent, TASK, 0, true)];
    TaskPassBegins(cfg, s0, Sent, []);
    var s1 := s0 + [BEGIN];
    TaskIsIncluded(cfg, s1);
    var s2 := s1 + [LOOK];
    TaskPassBegins(cfg, s2, Sent, [ForeignHash(9)]);
    var s3 := s2 + [BEGIN];
    TaskStartsReplacing(cfg, s3);
    var s4 := s3 + [LOOK];
    TaskPassBegins(cfg, s4, Replacing(10), [ForeignHash(9)]);
    steps := s4 + [BEGIN];
    TaskIsRefilled(cfg, Reached(cfg, steps));
  }

  lemma TaskIsRefilled(cfg: Config, w: World)
    requires cfg == RELAYING && TaskStage(w, Replacing(10), [ForeignHash(9)]) && InPass(w)
    ensures RefillsBy(cfg, w, LOOK, TASK_ID) && w.handles[TASK_ID].broadcasts == [ForeignHash(9)]
  {
    TaskLooksForeign(w, Replacing(10));
    hide Seen;
  }
}
