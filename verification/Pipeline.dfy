/** The send pipeline as it runs: fields of the durable store changed one effect at a time, proved to
    refine the wallet's steps (src/core/wallet/transaction_manager.rs). */
module Pipeline {
  import opened Types
  import opened Nonces
  import opened Signing
  import opened Executor
  import opened StateStore
  import opened Wallet

  /** The executor's volatile part of a world. */
  datatype Memory = Memory(approvals: map<HandleId, PolicyApproval>, lastLatest: nat, cycle: Option<Cycle>)

  /** The durable state of one account, with the history the steps keep. */
  class Ledger {
    var nonce: Versioned
    var handles: HandleTable
    ghost var hist: map<HandleId, History>
    ghost var live: set<nat>
    ghost var log: seq<Effect>

    constructor ()
      ensures nonce == EMPTY && handles == map[] && hist == map[] && live == {} && log == []
    {
      nonce, handles, hist, live, log := EMPTY, map[], map[], {}, [];
    }

    ghost function View(mem: Memory): World
      reads this
    {
      World(nonce, handles, mem.approvals, mem.lastLatest, mem.cycle, hist, live, log)
    }

    /** Write a handle; the history goes along. */
    method Put(h: TxHandle, ghost hi: History)
      modifies this`handles, this`hist
      ensures handles == old(handles)[h.id := h] && hist == old(hist)[h.id := hi]
    {
      handles := handles[h.id := h];
      hist := hist[h.id := hi];
    }

    method Recycle(n: nat, ok: bool)
      modifies this`nonce
      ensures nonce == if ok && n < old(nonce).value.next
                       then Versioned(Nonces.Release(old(nonce).value, n), old(nonce).version + 1) else old(nonce)
    {
      if ok && n < nonce.value.next {
        nonce := Versioned(Nonces.Release(nonce.value, n), nonce.version + 1);
      }
    }
  }

  /** The log grew, and ends in a submission that may be live. */
  predicate SubmittedLive(before: seq<Effect>, after: seq<Effect>) {
    |after| > |before| && after[|after| - 1].Submits? && after[|after| - 1].outcome.MayBeLive()
  }

  class TransactionManager {
    const cfg: Config
    const ledger: Ledger

    constructor (cfg: Config, ledger: Ledger)
      ensures this.cfg == cfg && this.ledger == ledger
    {
      this.cfg, this.ledger := cfg, ledger;
    }

    /** A send that runs to its end. It answers with a handle exactly when it made a submission that may be
        live. */
    method Send(i: SendInput, ghost mem: Memory) returns (r: Option<TxHandle>)
      requires i.crash.NoCrash?
      modifies ledger
      ensures ledger.View(mem) == Wallet.Send(cfg, old(ledger.View(mem)), i)
      ensures r.Some? ==> r.value.id in ledger.handles && r.value.nonce in ledger.live
      ensures r.Some? <==> SubmittedLive(old(ledger.log), ledger.log)
    {
      if !i.supported || i.intent.account != cfg.account || i.gas.Err? || i.fees.Err? {
        return None;
      }
      if i.decision.Err? || i.decision.value.Deny? {
        return None;
      }
      if !i.reserved || (ledger.nonce.version == 0 && i.pending.Err?) {
        return None;
      }
      var (value, n) := Allocate(Reconciled(ledger.nonce, PendingNonce(i)));
      ledger.nonce := Versioned(value, ledger.nonce.version + 1);
      r := BuildSignSubmit(i, n, mem);
    }

    method BuildSignSubmit(i: SendInput, n: nat, ghost mem: Memory) returns (r: Option<TxHandle>)
      requires Admitted(cfg, i) && i.crash.NoCrash?
      modifies ledger
      ensures ledger.View(mem) == Wallet.BuildSignSubmit(cfg, old(ledger.View(mem)), i, n)
      ensures r.Some? ==> r.value.id in ledger.handles && r.value.nonce in ledger.live
      ensures r.Some? <==> SubmittedLive(old(ledger.log), ledger.log)
    {
      var approval := i.decision.value.approval;
      var body := BuildTx(i.intent, n, BufferedGas(cfg, i.gas.value), i.fees.value);
      var signed := SignEncode(body, OfIntent(i.intent), approval, i.now, i.key);
      if signed.Refused? {
        ledger.Recycle(n, i.released);
        return None;
      }
      ledger.log := ledger.log + [Signs(body, i.intent, approval, i.now)];
      if !i.wrote {
        ledger.Recycle(n, i.released);
        return None;
      }
      r := Broadcast(i, NewHandle(i, n, approval, signed.value), mem);
    }

    /** Persist, submit, and write again what the submission says. */
    method Broadcast(i: SendInput, h: TxHandle, ghost mem: Memory) returns (r: Option<TxHandle>)
      requires i.crash.NoCrash? && h.signed.Signed1559? && h.signed.body.nonce == h.nonce
      modifies ledger
      ensures ledger.View(mem) == Wallet.Broadcast(old(ledger.View(mem)), i, h)
      ensures r.Some? ==> r.value.id in ledger.handles && r.value.nonce in ledger.live
      ensures r.Some? <==> SubmittedLive(old(ledger.log), ledger.log)
    {
      ghost var w1 := Track(ledger.View(mem), h, FromSend);
      ledger.Put(h, w1.hist[h.id]);
      ghost var w2 := Wallet.Submit(w1, BySend, h.id, h.signed, i.route, i.submit);
      ledger.live, ledger.log := w2.live, w2.log;
      var live := i.submit.Accepted? || i.submit.error.IsTransient() || i.submit.error.IsAlreadyAccepted();
      var concluded := h.(status := if live then Sent else Failed("rejected"));
      if i.settled {
        ledger.Put(concluded, ledger.hist[h.id].(start := concluded.status));
      }
      if live {
        return Some(concluded);
      }
      ledger.Recycle(h.nonce, i.released);
      r := None;
    }

    method PersistTask(intent: TxIntent, task: Task, now: nat, wrote: bool, ghost mem: Memory)
      modifies ledger
      ensures ledger.View(mem) == Wallet.PersistTask(old(ledger.View(mem)), intent, task, now, wrote)
    {
      if wrote {
        var h := TaskHandle(intent, task, now);
        ledger.Put(h, Track(ledger.View(mem), h, FromTask).hist[h.id]);
      }
    }

    /** Sign and submit the cancel; price an underpriced one again, once, over what is stored by then. */
    method BroadcastCancel(target: TxHandle, approval: PolicyApproval, a: CancelInput, ghost mem: Memory)
      returns (r: Option<SignedTx>)
      requires target.id in ledger.handles && ledger.handles[target.id] == target && target.signed.Signed1559?
      modifies ledger`live, ledger`log
      ensures var (w, t) := TryCancelTwice(cfg, old(ledger.View(mem)), target, target.signed.body.fees, approval, a);
              ledger.View(mem) == w && r == if t.Out? then Some(t.tx) else None
    {
      var basis := target.signed.body.fees;
      var attempts := 0;
      ghost var w0 := ledger.View(mem);
      while true
        invariant attempts <= 1 && basis == target.signed.body.fees
        invariant attempts == 0 ==> ledger.View(mem) == w0
        invariant attempts == 1 ==>
            var (w1, t) := TryCancel(cfg, w0, target, basis, approval, a.now, a.first);
            ledger.View(mem) == w1 && t.Underpriced? && a.refetched
        decreases 1 - attempts
      {
        var attempt := if attempts == 0 then a.first else a.second;
        if attempt.baseFee.Err? {
          return None;
        }
        var fees := GasOracle.Bump(basis, attempt.baseFee.value, cfg.ceiling);
        if fees.Err? {
          return None;
        }
        var body := BuildTx(CancelIntent(target), target.nonce, CANCEL_GAS_LIMIT, fees.value);
        var signed := SignEncode(body, OfIntent(CancelIntent(target)), approval, a.now, attempt.key);
        if signed.Refused? {
          return None;
        }
        ghost var w1 := Noted(ledger.View(mem), Signs(body, CancelIntent(target), approval, a.now));
        ghost var w2 := Wallet.Submit(w1, ByCancel, target.id, signed.value.encoded, target.route, attempt.submit);
        ledger.live, ledger.log := w2.live, w2.log;
        if attempt.submit.Known() {
          return Some(signed.value);
        }
        if !attempt.submit.error.IsUnderpriced() || attempts > 0 || !a.refetched {
          return None;
        }
        attempts := attempts + 1;
        basis := ledger.handles[target.id].signed.body.fees;
      }
    }

    method Cancel(id: HandleId, a: CancelInput, ghost mem: Memory) returns (r: Option<TxHandle>)
      requires id in ledger.handles ==> id in ledger.hist && ledger.handles[id].id == id
      modifies ledger
      ensures ledger.View(mem) == CancelTx(cfg, old(ledger.View(mem)), id, a)
    {
      if id !in ledger.handles || ledger.handles[id].status.IsTerminal() || a.decision.Err? || a.decision.value.Deny? {
        return None;
      }
      var approval := a.decision.value.approval;
      var target := ledger.handles[id].(cancelled := true);
      if !a.flagged {
        return None;
      }
      ledger.Put(target, ledger.hist[id]);
      if !target.signed.Signed1559? {
        return None;
      }
      var sent := BroadcastCancel(target, approval, a, mem);
      if sent.None? {
        if a.unflagged {
          ledger.Put(target.(cancelled := false), ledger.hist[id]);
        }
        return None;
      }
      var h := CancelHandle(target, approval, sent.value, a.now);
      if !a.recorded {
        return None;
      }
      ledger.Put(h, Track(ledger.View(mem), h, FromCancel).hist[h.id]);
      r := Some(h);
    }
  }
}
