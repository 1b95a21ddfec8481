/** The durable state behind the executor (src/core/deps/state_store.rs and its two backends): the
    versioned, fenced nonce records and the transaction handles.

    `HandleTable` is what a store means: the last handle written under each id. The in-memory store
    keeps exactly that and filters it on every pending read. The redb store also keeps a second table
    of the ids that are not settled, so a pending read is a range scan and a lookup; the lemmas below
    say when that index is right.
*/
module StateStore {
  import opened Types
  import opened Nonces

  type HandleTable = map<HandleId, TxHandle>

  /** The handles an executor of `account` must recover and track. */
  predicate IsPending(table: HandleTable, account: Address, h: TxHandle) {
    h.id in table && table[h.id] == h && h.account == account && !h.status.IsTerminal()
  }

  function CellOf(cells: map<Address, NonceCell>, account: Address): NonceCell {
    if account in cells then cells[account] else ABSENT
  }

  /** A list of handles is a pending read: exactly the pending ones, each once. */
  ghost predicate PendingRead(table: HandleTable, account: Address, out: seq<TxHandle>) {
    && (forall h :: h in out <==> IsPending(table, account, h))
    && (forall i, j | 0 <= i < j < |out| :: out[i].id != out[j].id)
  }

  // ----- the pending index -----

  /** redb's TX and TX_PENDING tables. */
  datatype Indexed = Indexed(table: HandleTable, pending: set<(Address, HandleId)>)

  /** One write transaction: upsert the handle, then move its index entry. */
  function Put(ix: Indexed, h: TxHandle): Indexed {
    Indexed(
      ix.table[h.id := h],
      if h.status.IsTerminal() then ix.pending - {(h.account, h.id)} else ix.pending + {(h.account, h.id)})
  }

  function PutAll(ix: Indexed, hs: seq<TxHandle>): Indexed {
    if hs == [] then ix else Put(PutAll(ix, hs[..|hs| - 1]), hs[|hs| - 1])
  }

  /** The handles under their own ids. */
  predicate Keyed(table: HandleTable) {
    forall id | id in table :: table[id].id == id
  }

  /** The index names exactly the unsettled handles, under their own accounts. */
  ghost predicate IndexAgrees(ix: Indexed) {
    && Keyed(ix.table)
    && (forall a, id | (a, id) in ix.pending :: id in ix.table && ix.table[id].account == a && !ix.table[id].status.IsTerminal())
    && (forall id | id in ix.table && !ix.table[id].status.IsTerminal() :: (ix.table[id].account, id) in ix.pending)
  }

  /** The write moves an unsettled id to another account. */
  predicate MovesAccount(table: HandleTable, h: TxHandle) {
    h.id in table && !table[h.id].status.IsTerminal() && table[h.id].account != h.account
  }

  /** A write keeps the index right exactly when it does not move an unsettled id between accounts. */
  lemma PutKeepsIndex(ix: Indexed, h: TxHandle)
    requires IndexAgrees(ix)
    ensures IndexAgrees(Put(ix, h)) <==> !MovesAccount(ix.table, h)
  {
    var ix' := Put(ix, h);
    if MovesAccount(ix.table, h) {
      assert (ix.table[h.id].account, h.id) in ix'.pending;
    }
  }

  /** An id is derived from an intent, which names its account, so the account of an id never moves. */
  predicate IdFixesAccount(hs: seq<TxHandle>) {
    forall i, j | 0 <= i < |hs| && 0 <= j < |hs| && hs[i].id == hs[j].id :: hs[i].account == hs[j].account
  }

  const NO_TABLES := Indexed(map[], {})

  /** What the table holds under an id is one of the handles written. */
  lemma {:induction false} TableHoldsAWrite(hs: seq<TxHandle>, id: HandleId) returns (i: nat)
    requires id in PutAll(NO_TABLES, hs).table
    ensures i < |hs| && hs[i].id == id && PutAll(NO_TABLES, hs).table[id] == hs[i]
  {
    i := |hs| - 1;
    if id != hs[i].id {
      i := TableHoldsAWrite(hs[..i], id);
    }
  }

  /** After any sequence of writes in which an id fixes its account, the index is right. */
  lemma {:induction false} IndexAfterWrites(hs: seq<TxHandle>)
    requires IdFixesAccount(hs)
    ensures IndexAgrees(PutAll(NO_TABLES, hs))
  {
    if hs != [] {
      var init, last := hs[..|hs| - 1], hs[|hs| - 1];
      assert forall i | 0 <= i < |init| :: init[i] == hs[i];
      IndexAfterWrites(init);
      var ix := PutAll(NO_TABLES, init);
      if last.id in ix.table {
        var i := TableHoldsAWrite(init, last.id);
        assert hs[i].account == hs[|hs| - 1].account;
      }
      PutKeepsIndex(ix, last);
    }
  }

  /** A stale entry is real: the same id written unsettled under two accounts stays listed for the first. */
  lemma MovedAccountLeavesStaleEntry(h: TxHandle, other: Address)
    requires !h.status.IsTerminal() && other != h.account
    ensures !IndexAgrees(PutAll(NO_TABLES, [h, h.(account := other)]))
  {
    var h' := h.(account := other);
    assert [h, h'][..1] == [h] && [h][..0] == [];
    var ix := PutAll(NO_TABLES, [h]);
    assert ix == Put(PutAll(NO_TABLES, []), h);
    assert PutAll(NO_TABLES, [h, h']) == Put(ix, h');
    assert IndexAgrees(ix);
    PutKeepsIndex(ix, h');
  }

  // ----- the in-memory store -----

  class InMemoryStore {
    var nonces: map<Address, NonceCell>
    var handles: HandleTable

    constructor ()
      ensures nonces == map[] && handles == map[]
    {
      nonces, handles := map[], map[];
    }

    method LoadNonceState(account: Address) returns (v: Versioned)
      ensures v == CellOf(nonces, account).current
    {
      if account in nonces {
        v := nonces[account].current;
      } else {
        v := EMPTY;
      }
    }

    method CasNonceState(account: Address, expected: nat, state: NonceState, fence: nat) returns (r: CasResult)
      modifies this`nonces
      ensures (CellOf(nonces, account), r) == CompareAndSwap(old(CellOf(nonces, account)), expected, state, fence)
      ensures forall a | a != account :: CellOf(nonces, a) == old(CellOf(nonces, a))
    {
      var version, stored := 0, 0;
      if account in nonces {
        version, stored := nonces[account].current.version, nonces[account].fence;
      }
      if fence < stored {
        return Fenced;
      }
      if version != expected {
        return Conflict;
      }
      nonces := nonces[account := NonceCell(Versioned(state, expected + 1), fence)];
      r := Committed;
    }

    method PutHandle(h: TxHandle)
      modifies this`handles
      ensures handles == old(handles)[h.id := h]
    {
      handles := handles[h.id := h];
    }

    method PendingHandles(account: Address) returns (out: seq<TxHandle>)
      requires Keyed(handles)
      ensures PendingRead(handles, account, out)
    {
      out := [];
      var rest := handles.Keys;
      while rest != {}
        invariant rest <= handles.Keys
        invariant forall h :: h in out <==> IsPending(handles, account, h) && h.id !in rest
        invariant forall i, j | 0 <= i < j < |out| :: out[i].id != out[j].id
        decreases rest
      {
        var id :| id in rest;
        var h := handles[id];
        ghost var was := out;
        if h.account == account && !h.status.IsTerminal() {
          assert forall i | 0 <= i < |out| :: out[i].id != id by {
            assert forall i | 0 <= i < |out| :: out[i] in out;
          }
          out := out + [h];
        }
        rest := rest - {id};
        forall g ensures g in out <==> IsPending(handles, account, g) && g.id !in rest {
          assert g in out <==> g in was || (g == h && h in out);
          assert g in was <==> IsPending(handles, account, g) && g.id !in rest + {id};
        }
      }
    }
  }

  // ----- the redb store -----

  class RedbStore {
    var nonceTable: map<Address, NonceCell>
    var tx: HandleTable
    var txPending: set<(Address, HandleId)>

    constructor ()
      ensures nonceTable == map[] && Ix() == NO_TABLES
    {
      nonceTable, tx, txPending := map[], map[], {};
    }

    function Ix(): Indexed
      reads this
    {
      Indexed(tx, txPending)
    }

    method LoadNonceState(account: Address) returns (v: Versioned)
      ensures v == CellOf(nonceTable, account).current
    {
      if account in nonceTable {
        v := nonceTable[account].current;
      } else {
        v := EMPTY;
      }
    }

    method CasNonceState(account: Address, expected: nat, state: NonceState, fence: nat) returns (r: CasResult)
      modifies this`nonceTable
      ensures (CellOf(nonceTable, account), r) == CompareAndSwap(old(CellOf(nonceTable, account)), expected, state, fence)
      ensures forall a | a != account :: CellOf(nonceTable, a) == old(CellOf(nonceTable, a))
    {
      var version, stored := 0, 0;
      if account in nonceTable {
        version, stored := nonceTable[account].current.version, nonceTable[account].fence;
      }
      if fence < stored {
        return Fenced;
      }
      if version != expected {
        return Conflict;
      }
      nonceTable := nonceTable[account := NonceCell(Versioned(state, expected + 1), fence)];
      r := Committed;
    }

    method PutHandle(h: TxHandle)
      modifies this`tx, this`txPending
      ensures Ix() == Put(old(Ix()), h)
      ensures old(IndexAgrees(Ix())) ==> (IndexAgrees(Ix()) <==> !MovesAccount(old(tx), h))
    {
      PutKeepsIndexIfRight(Ix(), h);
      tx := tx[h.id := h];
      if h.status.IsTerminal() {
        txPending := txPending - {(h.account, h.id)};
      } else {
        txPending := txPending + {(h.account, h.id)};
      }
    }

    /** The range scan over one account's keys, then one lookup per id. With a right index that is the
        simple filter of the in-memory store. */
    method PendingHandles(account: Address) returns (out: seq<TxHandle>)
      requires Keyed(tx)
      ensures forall h :: h in out <==> (account, h.id) in txPending && h.id in tx && tx[h.id] == h
      ensures forall i, j | 0 <= i < j < |out| :: out[i].id != out[j].id
      ensures IndexAgrees(Ix()) ==> PendingRead(tx, account, out)
    {
      var ids := set k | k in txPending && k.0 == account :: k.1;
      out := [];
      ghost var all := ids;
      while ids != {}
        invariant ids <= all
        invariant forall h :: h in out <==> h.id in all - ids && h.id in tx && tx[h.id] == h
        invariant forall i, j | 0 <= i < j < |out| :: out[i].id != out[j].id
        decreases ids
      {
        var id :| id in ids;
        ghost var was := out;
        if id in tx {
          assert forall i | 0 <= i < |out| :: out[i].id != id by {
            assert forall i | 0 <= i < |out| :: out[i] in out;
          }
          out := out + [tx[id]];
        }
        ids := ids - {id};
        forall g ensures g in out <==> g.id in all - ids && g.id in tx && tx[g.id] == g {
          assert g in out <==> g in was || (id in tx && g == tx[id]);
          assert g in was <==> g.id in all - (ids + {id}) && g.id in tx && tx[g.id] == g;
        }
      }
      forall h | IndexAgrees(Ix()) ensures h in out <==> IsPending(tx, account, h) {
        if IsPending(tx, account, h) {
          assert (account, h.id) in txPending;
        }
      }
    }
  }

  // ----- either store, as the nonce manager sees it -----

  datatype NonceStore = InMemory(memory: InMemoryStore) | Redb(redb: RedbStore) {
    ghost function Objects(): set<object> {
      if InMemory? then {memory} else {redb}
    }

    ghost function Cells(): map<Address, NonceCell>
      reads Objects()
    {
      if InMemory? then memory.nonces else redb.nonceTable
    }

    /** The handles, with redb's index. */
    ghost function Tables(): Indexed
      reads Objects()
    {
      if InMemory? then Indexed(memory.handles, {}) else redb.Ix()
    }

    method LoadNonceState(account: Address) returns (v: Versioned)
      ensures v == CellOf(Cells(), account).current
    {
      match this {
        case InMemory(store) => v := store.LoadNonceState(account);
        case Redb(store) => v := store.LoadNonceState(account);
      }
    }

    method CasNonceState(account: Address, expected: nat, state: NonceState, fence: nat) returns (r: CasResult)
      modifies Objects()
      ensures (CellOf(Cells(), account), r) == CompareAndSwap(old(CellOf(Cells(), account)), expected, state, fence)
      ensures forall a | a != account :: CellOf(Cells(), a) == old(CellOf(Cells(), a))
      ensures Tables() == old(Tables())
    {
      match this {
        case InMemory(store) => r := store.CasNonceState(account, expected, state, fence);
        case Redb(store) => r := store.CasNonceState(account, expected, state, fence);
      }
    }
  }

  lemma PutKeepsIndexIfRight(ix: Indexed, h: TxHandle)
    ensures IndexAgrees(ix) ==> (IndexAgrees(Put(ix, h)) <==> !MovesAccount(ix.table, h))
  {
    if IndexAgrees(ix) {
      PutKeepsIndex(ix, h);
    }
  }
}
