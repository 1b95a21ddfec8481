/** The nonce manager's three operations as the source runs them (src/adapters/nonce.rs): a loop that
    loads, computes and compares-and-swaps until a commit goes through.

    Other writers are given explicitly: `rivals[i]` is what they commit to the same record between the
    load and the compare-and-swap of attempt `i`, for any finite schedule. Each operation is proved to
    put exactly one commit, computed by the functions of module Nonces, on top of the rivals' commits.
*/
module NonceManager {
  import opened Types
  import opened Nonces
  import opened StateStore

  datatype Write = Write(value: NonceState, fence: nat)

  /** A rival's commit at the record's current version; a fenced one has no effect. */
  function RivalCommit(cell: NonceCell, w: Write): NonceCell {
    CompareAndSwap(cell, cell.current.version, w.value, w.fence).0
  }

  function RivalCommits(cell: NonceCell, ws: seq<Write>): NonceCell {
    if ws == [] then cell else RivalCommit(RivalCommits(cell, ws[..|ws| - 1]), ws[|ws| - 1])
  }

  /** The record after the rivals of the first `k` attempts. */
  function AfterRivals(cell: NonceCell, rivals: seq<seq<Write>>, k: nat): NonceCell
    requires k <= |rivals|
  {
    if k == 0 then cell else RivalCommits(AfterRivals(cell, rivals, k - 1), rivals[k - 1])
  }

  /** `cell` results from one commit of `value` under `fence` on top of `before`. */
  predicate CommittedOn(before: NonceCell, cell: NonceCell, value: NonceState, fence: nat) {
    (cell, Committed) == CompareAndSwap(before, before.current.version, value, fence)
  }

  /** Every other account's record is as it was. */
  ghost predicate OthersUnchanged(cells: map<Address, NonceCell>, cells': map<Address, NonceCell>, account: Address) {
    forall a | a != account :: CellOf(cells', a) == CellOf(cells, a)
  }

  /** What the chain answered the attempt, where it was asked. */
  function PendingAt(pending: nat -> Answer<nat>, attempt: nat): nat {
    if pending(attempt).Ok? then pending(attempt).value else 0
  }

  class LocalNonceManager {
    const store: NonceStore
    const fence: nat

    constructor (store: NonceStore, fence: nat)
      ensures this.store == store && this.fence == fence
    {
      this.store, this.fence := store, fence;
    }

    /** The rivals' turn. */
    method Interfere(account: Address, ws: seq<Write>)
      modifies store.Objects()
      ensures OthersUnchanged(old(store.Cells()), store.Cells(), account) && store.Tables() == old(store.Tables())
      ensures CellOf(store.Cells(), account) == RivalCommits(old(CellOf(store.Cells(), account)), ws)
    {
      var i := 0;
      while i < |ws|
        invariant i <= |ws|
        invariant OthersUnchanged(old(store.Cells()), store.Cells(), account) && store.Tables() == old(store.Tables())
        invariant CellOf(store.Cells(), account) == RivalCommits(old(CellOf(store.Cells(), account)), ws[..i])
      {
        var v := store.LoadNonceState(account);
        var _ := store.CasNonceState(account, v.version, ws[i].value, ws[i].fence);
        assert ws[..i + 1][..i] == ws[..i];
        i := i + 1;
      }
      assert ws[..|ws|] == ws;
    }

    /** The rivals' turn, then one compare-and-swap. */
    method Swap(account: Address, ws: seq<Write>, version: nat, value: NonceState) returns (r: CasResult)
      modifies store.Objects()
      ensures OthersUnchanged(old(store.Cells()), store.Cells(), account) && store.Tables() == old(store.Tables())
      ensures (CellOf(store.Cells(), account), r) ==
              CompareAndSwap(RivalCommits(old(CellOf(store.Cells(), account)), ws), version, value, fence)
    {
      Interfere(account, ws);
      r := store.CasNonceState(account, version, value, fence);
    }

    /** The lowest freed nonce, or else the high-water mark. */
    method Take(value: NonceState) returns (rest: NonceState, nonce: nat)
      ensures (rest, nonce) == Nonces.Allocate(value)
    {
      if value.free != {} {
        nonce := Least(value.free);
        rest := value.(free := value.free - {nonce});
      } else {
        nonce := value.next;
        rest := value.(next := value.next + 1);
      }
    }

    /** Take the least available nonce. Fails only when the first-use chain read fails or the manager
        has been fenced out, and then commits nothing. */
    method Allocate(account: Address, pending: nat -> Answer<nat>, rivals: seq<seq<Write>>)
      returns (r: Answer<nat>, ghost k: nat, ghost attempt: nat)
      modifies store.Objects()
      ensures OthersUnchanged(old(store.Cells()), store.Cells(), account) && store.Tables() == old(store.Tables())
      ensures attempt <= k <= attempt + 1 && k <= |rivals|
      ensures var before := AfterRivals(old(CellOf(store.Cells(), account)), rivals, k);
              match r
              case Err =>
                && CellOf(store.Cells(), account) == before
                && (fence < before.fence || (before.current.version == 0 && pending(attempt) == Err))
              case Ok(nonce) =>
                && (before.current.version == 0 ==> pending(attempt).Ok?)
                && var (value, n) := Nonces.Allocate(Reconciled(before.current, PendingAt(pending, attempt)));
                && nonce == n && CommittedOn(before, CellOf(store.Cells(), account), value, fence)
    {
      hide Nonces.Allocate;
      k, attempt := 0, 0;
      ghost var start := CellOf(store.Cells(), account);
      var i := 0;
      while true
        invariant k == attempt == i <= |rivals|
        invariant OthersUnchanged(old(store.Cells()), store.Cells(), account) && store.Tables() == old(store.Tables())
        invariant CellOf(store.Cells(), account) == AfterRivals(start, rivals, i)
        decreases |rivals| - i
      {
        var seen := store.LoadNonceState(account);
        var value := seen.value;
        if seen.version == 0 {
          match pending(i)
          case Err => return Err, k, attempt;
          case Ok(n) => value := value.(next := n);
        }
        var nonce;
        value, nonce := Take(value);
        var turn := if i < |rivals| then rivals[i] else [];
        k := if i < |rivals| then i + 1 else i;
        var done := Swap(account, turn, seen.version, value);
        match done
        case Fenced => return Err, k, attempt;
        case Committed =>
          SameVersionSameValue(AfterRivals(start, rivals, i), turn);
          return Ok(nonce), k, attempt;
        case Conflict =>
          i := i + 1;
          attempt := i;
      }
    }

    /** Return a reserved nonce; one the record no longer covers is left alone. */
    method Release(account: Address, nonce: nat, rivals: seq<seq<Write>>)
      returns (r: Answer<()>, ghost k: nat)
      modifies store.Objects()
      ensures OthersUnchanged(old(store.Cells()), store.Cells(), account) && store.Tables() == old(store.Tables())
      ensures k <= |rivals|
      ensures var before := AfterRivals(old(CellOf(store.Cells(), account)), rivals, k);
              match r
              case Err => CellOf(store.Cells(), account) == before && fence < before.fence
              case Ok(_) =>
                if nonce >= before.current.value.next then CellOf(store.Cells(), account) == before
                else CommittedOn(before, CellOf(store.Cells(), account), Nonces.Release(before.current.value, nonce), fence)
    {
      k := 0;
      ghost var start := CellOf(store.Cells(), account);
      var i := 0;
      while true
        invariant k == i <= |rivals|
        invariant OthersUnchanged(old(store.Cells()), store.Cells(), account) && store.Tables() == old(store.Tables())
        invariant CellOf(store.Cells(), account) == AfterRivals(start, rivals, i)
        decreases |rivals| - i
      {
        var seen := store.LoadNonceState(account);
        var value := seen.value;
        if nonce >= value.next {
          return Ok(()), k;
        }
        if nonce + 1 == value.next {
          value := value.(next := value.next - 1);
          while value.next > 0 && value.next - 1 in value.free
            invariant Absorb(value) == Absorb(seen.value.(next := seen.value.next - 1))
            decreases value.next
          {
            value := NonceState(value.next - 1, value.free - {value.next - 1});
          }
        } else {
          value := value.(free := value.free + {nonce});
        }
        var turn := if i < |rivals| then rivals[i] else [];
        k := if i < |rivals| then i + 1 else i;
        var done := Swap(account, turn, seen.version, value);
        match done
        case Fenced => return Err, k;
        case Committed =>
          SameVersionSameValue(AfterRivals(start, rivals, i), turn);
          return Ok(()), k;
        case Conflict =>
          i := i + 1;
      }
    }

    /** Move forward to the chain's count. */
    method Reset(account: Address, chainNext: nat, rivals: seq<seq<Write>>)
      returns (r: Answer<()>, ghost k: nat)
      modifies store.Objects()
      ensures OthersUnchanged(old(store.Cells()), store.Cells(), account) && store.Tables() == old(store.Tables())
      ensures k <= |rivals|
      ensures var before := AfterRivals(old(CellOf(store.Cells(), account)), rivals, k);
              match r
              case Err => CellOf(store.Cells(), account) == before && fence < before.fence
              case Ok(_) => CommittedOn(before, CellOf(store.Cells(), account), Nonces.Reset(before.current.value, chainNext), fence)
    {
      k := 0;
      ghost var start := CellOf(store.Cells(), account);
      var i := 0;
      while true
        invariant k == i <= |rivals|
        invariant OthersUnchanged(old(store.Cells()), store.Cells(), account) && store.Tables() == old(store.Tables())
        invariant CellOf(store.Cells(), account) == AfterRivals(start, rivals, i)
        decreases |rivals| - i
      {
        var seen := store.LoadNonceState(account);
        var value := NonceState(
          if seen.value.next >= chainNext then seen.value.next else chainNext,
          set n | n in seen.value.free && n >= chainNext);
        var turn := if i < |rivals| then rivals[i] else [];
        k := if i < |rivals| then i + 1 else i;
        var done := Swap(account, turn, seen.version, value);
        match done
        case Fenced => return Err, k;
        case Committed =>
          SameVersionSameValue(AfterRivals(start, rivals, i), turn);
          return Ok(()), k;
        case Conflict =>
          i := i + 1;
      }
    }
  }

  /** Versions only rise, so an unchanged version means that no rival committed. */
  lemma {:induction false} SameVersionSameValue(cell: NonceCell, ws: seq<Write>)
    ensures RivalCommits(cell, ws).current.version >= cell.current.version
    ensures RivalCommits(cell, ws).current.version == cell.current.version ==> RivalCommits(cell, ws) == cell
  {
    if ws != [] {
      SameVersionSameValue(cell, ws[..|ws| - 1]);
    }
  }
}
