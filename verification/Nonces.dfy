/** The nonce allocator's state and its three updates (src/adapters/nonce.rs).

    A state {next, free} stands for the set of nonces that may still be handed out, its pool:
    everything from `next` up, plus the freed gaps below it. Every update is proved against that
    set: allocation removes its least element, release inserts one, reset cuts off a lower part.
*/
module Nonces {

  datatype NonceState = NonceState(next: nat, free: set<nat>)

  /** What a store holds for one account: the state and how many commits produced it. */
  datatype Versioned = Versioned(value: NonceState, version: nat)

  const EMPTY := Versioned(NonceState(0, {}), 0)

  /** One scope's stored record: the versioned state and the highest fence committed with it. */
  datatype NonceCell = NonceCell(current: Versioned, fence: nat)

  const ABSENT := NonceCell(EMPTY, 0)

  datatype CasResult = Committed | Conflict | Fenced

  /** The compare-and-swap every store implements: the fence is checked before the version, a lost
      race and a superseded writer both leave the record alone, and a commit raises both. */
  function CompareAndSwap(cell: NonceCell, expected: nat, value: NonceState, fence: nat): (r: (NonceCell, CasResult)) {
    if fence < cell.fence then (cell, Fenced)
    else if cell.current.version != expected then (cell, Conflict)
    else (NonceCell(Versioned(value, expected + 1), fence), Committed)
  }

  /** `n` may still be handed out. */
  predicate InPool(s: NonceState, n: nat) {
    n >= s.next || n in s.free
  }

  /** What every reachable allocator state satisfies: gaps lie below the high-water mark, and the
      mark has absorbed every gap that touches it. */
  predicate WellFormed(s: NonceState) {
    && (forall n | n in s.free :: n < s.next)
    && (s.next > 0 ==> s.next - 1 !in s.free)
  }

  lemma {:induction false} LeastExists(s: set<nat>, y: nat)
    requires y in s
    ensures exists m :: m in s && forall x | x in s :: m <= x
    decreases y
  {
    if x :| x in s && x < y {
      LeastExists(s, x);
    }
  }

  /** The first element in the order of a `BTreeSet`. */
  function Least(s: set<nat>): (m: nat)
    requires s != {}
    ensures m in s && forall x | x in s :: m <= x
  {
    ghost var y :| y in s;
    LeastExists(s, y);
    var m :| m in s && forall x | x in s :: m <= x;
    m
  }

  // ----- the three computations between load and compare-and-swap -----

  /** The value an allocation works from: a first use starts at the chain's pending nonce. */
  function Reconciled(v: Versioned, pending: nat): NonceState {
    if v.version == 0 then v.value.(next := pending) else v.value
  }

  function Allocate(s: NonceState): (r: (NonceState, nat)) {
    if s.free != {} then
      var n := Least(s.free);
      (s.(free := s.free - {n}), n)
    else
      (s.(next := s.next + 1), s.next)
  }

  /** Lower the high-water mark past the freed nonces that touch it. */
  function Absorb(s: NonceState): NonceState
    decreases s.next
  {
    if s.next > 0 && s.next - 1 in s.free
    then Absorb(NonceState(s.next - 1, s.free - {s.next - 1}))
    else s
  }

  function Release(s: NonceState, n: nat): NonceState {
    if n >= s.next then s
    else if n + 1 == s.next then Absorb(s.(next := s.next - 1))
    else s.(free := s.free + {n})
  }

  function Reset(s: NonceState, chainNext: nat): NonceState {
    NonceState(if s.next >= chainNext then s.next else chainNext,
               set n | n in s.free && n >= chainNext)
  }

  // ----- refinement of the pool -----

  /** Allocation takes the least available nonce and nothing else. */
  lemma AllocateTakesLeast(s: NonceState)
    requires WellFormed(s)
    ensures var (s', n) := Allocate(s);
            && WellFormed(s')
            && InPool(s, n)
            && (forall m: nat | InPool(s, m) :: n <= m)
            && (forall m: nat :: InPool(s', m) <==> InPool(s, m) && m != n)
  {
  }

  lemma {:induction false} AbsorbKeepsPool(s: NonceState)
    requires forall n | n in s.free :: n < s.next
    ensures WellFormed(Absorb(s))
    ensures forall m: nat :: InPool(Absorb(s), m) <==> InPool(s, m)
    decreases s.next
  {
    if s.next > 0 && s.next - 1 in s.free {
      var t := NonceState(s.next - 1, s.free - {s.next - 1});
      AbsorbKeepsPool(t);
      assert forall m: nat :: InPool(t, m) <==> InPool(s, m);
    }
  }

  /** Release returns exactly the named nonce to the pool. */
  lemma ReleaseReturns(s: NonceState, n: nat)
    requires WellFormed(s)
    ensures WellFormed(Release(s, n))
    ensures forall m: nat :: InPool(Release(s, n), m) <==> InPool(s, m) || m == n
  {
    if n + 1 == s.next {
      AbsorbKeepsPool(s.(next := s.next - 1));
    }
  }

  /** Reset removes exactly the nonces below the chain's count. */
  lemma ResetRetires(s: NonceState, chainNext: nat)
    requires WellFormed(s)
    ensures WellFormed(Reset(s, chainNext))
    ensures forall m: nat :: InPool(Reset(s, chainNext), m) <==> InPool(s, m) && m >= chainNext
  {
  }

  /** The representation is canonical: a well-formed state is determined by its pool. */
  lemma PoolDeterminesState(s: NonceState, t: NonceState)
    requires WellFormed(s) && WellFormed(t)
    requires forall m: nat :: InPool(s, m) <==> InPool(t, m)
    ensures s == t
  {
    if s.next < t.next {
      assert InPool(s, t.next - 1) && !InPool(t, t.next - 1);
    } else if t.next < s.next {
      assert InPool(t, s.next - 1) && !InPool(s, s.next - 1);
    }
    forall n ensures n in s.free <==> n in t.free {
      if n in s.free || n in t.free {
        assert InPool(s, n) <==> InPool(t, n);
      }
    }
  }

  /** Giving back what was just allocated restores the state exactly. */
  lemma ReleaseUndoesAllocate(s: NonceState)
    requires WellFormed(s)
    ensures var (s', n) := Allocate(s); Release(s', n) == s
  {
    var (s', n) := Allocate(s);
    AllocateTakesLeast(s);
    ReleaseReturns(s', n);
    PoolDeterminesState(Release(s', n), s);
  }

  /** The order in which failed sends give their nonces back does not matter. */
  lemma ReleasesCommute(s: NonceState, a: nat, b: nat)
    requires WellFormed(s)
    ensures Release(Release(s, a), b) == Release(Release(s, b), a)
  {
    ReleaseReturns(s, a);
    ReleaseReturns(s, b);
    ReleaseReturns(Release(s, a), b);
    ReleaseReturns(Release(s, b), a);
    PoolDeterminesState(Release(Release(s, a), b), Release(Release(s, b), a));
  }

  // ----- successive allocations -----

  /** The nonces of `k` allocations with nothing in between. */
  function AllocateMany(s: NonceState, k: nat): (ns: seq<nat>)
    ensures |ns| == k
    decreases k
  {
    if k == 0 then [] else var (s', n) := Allocate(s); [n] + AllocateMany(s', k - 1)
  }

  /** These are the least available nonces, in order. */
  ghost predicate AreLeast(s: NonceState, ns: seq<nat>) {
    && (forall i, j | 0 <= i < j < |ns| :: ns[i] < ns[j])
    && (forall n | n in ns :: InPool(s, n))
    && (forall m: nat, n | InPool(s, m) && m !in ns && n in ns :: n < m)
  }

  /** `k` allocations hand out the `k` least available nonces, in order. */
  lemma {:induction false} AllocateManyTakesTheLeast(s: NonceState, k: nat)
    requires WellFormed(s)
    ensures AreLeast(s, AllocateMany(s, k))
    decreases k
  {
    if k > 0 {
      var (s', n) := Allocate(s);
      AllocateTakesLeast(s);
      AllocateManyTakesTheLeast(s', k - 1);
      var rest := AllocateMany(s', k - 1);
      var ns := [n] + rest;
      assert AllocateMany(s, k) == ns;
      forall i, j | 0 <= i < j < k ensures ns[i] < ns[j] {
        assert ns[j] == rest[j - 1];
        if i == 0 {
          assert rest[j - 1] in rest;
        }
      }
    }
  }

  lemma {:induction false} FreshAllocationsAreConsecutive(s: NonceState, k: nat)
    requires s.free == {}
    ensures forall i | 0 <= i < k :: AllocateMany(s, k)[i] == s.next + i
    decreases k
  {
    if k > 0 {
      FreshAllocationsAreConsecutive(Allocate(s).0, k - 1);
    }
  }

  predicate Consecutive(ns: seq<nat>) {
    forall i | 0 < i < |ns| :: ns[i] == ns[i - 1] + 1
  }

  /** Every nonce from `n` up to before `n + k` is available. */
  ghost predicate StretchInPool(s: NonceState, n: nat, k: nat) {
    forall m: nat | n <= m < n + k :: InPool(s, m)
  }

  lemma {:induction false} ConsecutiveAt(ns: seq<nat>, i: nat)
    requires Consecutive(ns) && i < |ns|
    ensures ns[i] == ns[0] + i
  {
    if i > 0 {
      ConsecutiveAt(ns, i - 1);
    }
  }

  /** A consecutive run is the whole stretch from its first nonce. */
  lemma ConsecutiveCovers(ns: seq<nat>, m: nat)
    requires Consecutive(ns) && ns != [] && ns[0] <= m < ns[0] + |ns|
    ensures m in ns
  {
    ConsecutiveAt(ns, m - ns[0]);
  }

  /** Rising nonces that skip one of a stretch they could have used are not the least ones. */
  lemma {:induction false} StretchIsTaken(s: NonceState, ns: seq<nat>, i: nat)
    requires AreLeast(s, ns) && i < |ns| && StretchInPool(s, ns[0], |ns|)
    ensures ns[i] == ns[0] + i
  {
    if i > 0 {
      StretchIsTaken(s, ns, i - 1);
      var m := ns[0] + i;
      assert ns[i - 1] in ns && ns[i] in ns && InPool(s, m);
      if m in ns {
        var j :| 0 <= j < |ns| && ns[j] == m;
        assert ns[i] <= ns[j];
      }
    }
  }

  /** Successive allocations are consecutive exactly when the whole stretch from the first one on is
      available. */
  lemma ConsecutiveIffStretch(s: NonceState, k: nat)
    requires WellFormed(s) && k >= 1
    ensures Consecutive(AllocateMany(s, k)) <==> StretchInPool(s, AllocateMany(s, k)[0], k)
  {
    var ns := AllocateMany(s, k);
    AllocateManyTakesTheLeast(s, k);
    if Consecutive(ns) {
      forall m: nat | ns[0] <= m < ns[0] + k ensures InPool(s, m) {
        ConsecutiveCovers(ns, m);
      }
    }
    if StretchInPool(s, ns[0], k) {
      forall i | 0 < i < k ensures ns[i] == ns[i - 1] + 1 {
        StretchIsTaken(s, ns, i);
        StretchIsTaken(s, ns, i - 1);
      }
    }
  }

  /** Once the allocations outlast the freed gaps, that is exactly when there were none. */
  lemma ConsecutiveIffNoGaps(s: NonceState, k: nat)
    requires WellFormed(s) && k > |s.free|
    ensures Consecutive(AllocateMany(s, k)) <==> s.free == {}
  {
    var ns := AllocateMany(s, k);
    if s.free == {} {
      FreshAllocationsAreConsecutive(s, k);
    } else {
      GapsComeFirst(s, k);
      var g := |s.free|;
      assert ns[g] == s.next && ns[g - 1] < s.next - 1;
    }
  }

  /** Allocations do skip: with 3 free below 7, the second one jumps. And freed gaps need not make them:
      with 3 and 4 free, two allocations are consecutive. */
  lemma AllocationsCanSkip()
    ensures AllocateMany(NonceState(7, {3}), 2) == [3, 7]
    ensures AllocateMany(NonceState(7, {3, 4}), 2) == [3, 4]
  {
    assert Least({3}) == 3 && {3} - {3} == {};
    assert Least({3, 4}) == 3 && {3, 4} - {3} == {4} && Least({4}) == 4;
    assert Allocate(NonceState(7, {3})) == (NonceState(7, {}), 3);
    assert AllocateMany(NonceState(7, {}), 1) == [7];
    assert Allocate(NonceState(7, {3, 4})) == (NonceState(7, {4}), 3);
    assert AllocateMany(NonceState(7, {4}), 1) == [4];
  }

  /** The freed gaps are used up first; the next allocation then jumps to the high-water mark. */
  lemma {:induction false} GapsComeFirst(s: NonceState, k: nat)
    requires WellFormed(s) && k > |s.free|
    ensures AllocateMany(s, k)[|s.free|] == s.next
    ensures s.free != {} ==> AllocateMany(s, k)[|s.free| - 1] in s.free
    decreases k
  {
    if s.free != {} {
      var (s', n) := Allocate(s);
      AllocateTakesLeast(s);
      GapsComeFirst(s', k - 1);
      if s'.free == {} {
        assert s.free == {n};
      }
    }
  }
}
