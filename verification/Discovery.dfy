/** Gap-limit account discovery (src/adapters/accounts.rs): the source scans in windows, one batched
    query per chain and window. It is proved to return what a scan of one index at a time returns, and
    that scan is characterised by the gap rule of BIP-44's account discovery.
*/
module Discovery {
  import opened Types

  datatype UsedPredicate = NonceOnly | NonceOrBalance

  datatype Activity = Activity(nonce: nat, balance: nat)

  datatype Derived = Derived(path: string, address: Address)

  datatype Account = Account(index: nat, path: string, address: Address, name: Option<string>)

  /** One scan: its options, the seed's derivation, and what each chain answers to each batch. A batch is
      named by scheme, chain and first index, and its answer covers every position of the window. */
  datatype Env = Env(
    schemes: nat, gapLimit: nat, maxIndex: nat, start: nat, used: UsedPredicate, chains: nat,
    derive: (nat, nat) -> Answer<Derived>,
    activity: (nat, nat, nat) -> Answer<nat -> Activity>,
    labels: map<nat, string>)
  {
    function Window(): (w: nat)
      ensures w >= 1
    {
      if gapLimit >= 1 then gapLimit else 1
    }
  }

  datatype Scan = Scan(found: map<Address, Account>, scannedTo: nat, hitMax: bool, partial: bool)

  predicate IsUsed(act: Activity, pred: UsedPredicate) {
    act.nonce > 0 || (pred == NonceOrBalance && act.balance != 0)
  }

  /** The path index of scan position `x`, cast to 32 bits. */
  function Index32(x: nat): nat { x % 0x1_0000_0000 }

  function LabelOf(env: Env, index: nat): Option<string> {
    if index in env.labels then Some(env.labels[index]) else None
  }

  // ----- what a window says about one index -----

  /** The first index of the window that `x` falls in, where `i` starts one. */
  function WindowFrom(env: Env, i: nat, x: nat): (first: nat)
    requires i <= x
    ensures i <= first <= x < first + env.Window()
    decreases x - i
  {
    if x < i + env.Window() then i else WindowFrom(env, i + env.Window(), x)
  }

  function WindowOf(env: Env, x: nat): nat
    requires x >= env.start
  {
    WindowFrom(env, env.start, x)
  }

  /** The first index of window number `m`. */
  function WindowAt(env: Env, m: nat): (i: nat)
    ensures i >= env.start
  {
    if m == 0 then env.start else WindowAt(env, m - 1) + env.Window()
  }

  /** Windows are aligned: looking for one may start at any window before it. */
  lemma {:induction false} WindowFromAny(env: Env, m: nat, x: nat)
    requires x >= WindowAt(env, m)
    ensures WindowOf(env, x) == WindowFrom(env, WindowAt(env, m), x)
  {
    if m > 0 {
      WindowFromAny(env, m - 1, x);
    }
  }

  /** Chain `c` reports position `k` of the window at `i` as used. */
  predicate Reports(env: Env, s: nat, c: nat, i: nat, k: nat) {
    env.activity(s, c, i).Ok? && IsUsed(env.activity(s, c, i).value(k), env.used)
  }

  ghost predicate UsedIn(env: Env, s: nat, i: nat, k: nat) {
    exists c :: 0 <= c < env.chains && Reports(env, s, c, i, k)
  }

  ghost predicate OutageIn(env: Env, s: nat, i: nat) {
    exists c :: 0 <= c < env.chains && env.activity(s, c, i).Err?
  }

  /** Some chain saw index `x` used. */
  ghost predicate UsedAt(env: Env, s: nat, x: nat) {
    x >= env.start && UsedIn(env, s, WindowOf(env, x), x - WindowOf(env, x))
  }

  /** Some chain did not answer for index `x`. */
  ghost predicate OutageAt(env: Env, s: nat, x: nat) {
    x >= env.start && OutageIn(env, s, WindowOf(env, x))
  }

  // ----- the reference: one index at a time -----

  function Note(found: map<Address, Account>, a: Account): map<Address, Account> {
    if a.address in found then found else found[a.address := a]
  }

  function AccountAt(env: Env, x: nat, d: Derived): Account {
    Account(Index32(x), d.path, d.address, LabelOf(env, Index32(x)))
  }

  function MaxOf(a: nat, b: nat): nat { if a >= b then a else b }

  /** Look at index `x`, having seen `unused` unused ones in a row. */
  ghost function ScanFrom(env: Env, s: nat, x: nat, unused: nat, sc: Scan): Answer<Scan>
    requires x <= env.maxIndex
    decreases env.maxIndex - x
  {
    if x == env.maxIndex then Ok(sc.(hitMax := true))
    else
      match env.derive(s, Index32(x))
      case Err => Err
      case Ok(d) =>
        var sc' := sc.(scannedTo := MaxOf(sc.scannedTo, Index32(x)), partial := sc.partial || OutageAt(env, s, x));
        if UsedAt(env, s, x) then ScanFrom(env, s, x + 1, 0, sc'.(found := Note(sc.found, AccountAt(env, x, d))))
        else if unused + 1 >= env.gapLimit then Ok(sc')
        else ScanFrom(env, s, x + 1, unused + 1, sc')
  }

  ghost function ScanScheme(env: Env, s: nat, sc: Scan): Answer<Scan> {
    if env.start >= env.maxIndex then Ok(sc) else ScanFrom(env, s, env.start, 0, sc)
  }

  ghost function ScanSchemes(env: Env, s: nat, sc: Scan): Answer<Scan>
    decreases env.schemes - s
  {
    if s >= env.schemes then Ok(sc)
    else match ScanScheme(env, s, sc)
      case Err => Err
      case Ok(sc') => ScanSchemes(env, s + 1, sc')
  }

  const NOTHING := Scan(map[], 0, false, false)

  // ----- where a scan stops -----

  /** The last index looked at, when nothing fails to derive. */
  ghost function Stop(env: Env, s: nat, x: nat, unused: nat): (e: nat)
    requires x < env.maxIndex
    ensures x <= e < env.maxIndex
    decreases env.maxIndex - x
  {
    if x + 1 == env.maxIndex then x
    else if UsedAt(env, s, x) then Stop(env, s, x + 1, 0)
    else if unused + 1 >= env.gapLimit then x
    else Stop(env, s, x + 1, unused + 1)
  }

  ghost predicate Derives(env: Env, s: nat, lo: nat, hi: nat) {
    forall y | lo <= y < hi :: env.derive(s, Index32(y)).Ok?
  }

  /** The end of the window that holds the last index looked at. */
  ghost function LookaheadEnd(env: Env, s: nat): nat
    requires env.start < env.maxIndex
  {
    var e := WindowOf(env, Stop(env, s, env.start, 0)) + env.Window();
    if e <= env.maxIndex then e else env.maxIndex
  }

  /** The one-index scan of a scheme fails exactly when an index up to its stop does not derive. */
  lemma {:induction false} ScanFailsExactly(env: Env, s: nat, x: nat, unused: nat, sc: Scan)
    requires x < env.maxIndex
    ensures ScanFrom(env, s, x, unused, sc).Ok? <==> Derives(env, s, x, Stop(env, s, x, unused) + 1)
    decreases env.maxIndex - x
  {
    if env.derive(s, Index32(x)).Ok? {
      var d := env.derive(s, Index32(x)).value;
      var sc' := sc.(scannedTo := MaxOf(sc.scannedTo, Index32(x)), partial := sc.partial || OutageAt(env, s, x));
      var stop := Stop(env, s, x, unused);
      if x + 1 < env.maxIndex {
        if UsedAt(env, s, x) {
          ScanFailsExactly(env, s, x + 1, 0, sc'.(found := Note(sc.found, AccountAt(env, x, d))));
          assert Derives(env, s, x, stop + 1) <==> Derives(env, s, x + 1, stop + 1);
        } else if unused + 1 < env.gapLimit {
          ScanFailsExactly(env, s, x + 1, unused + 1, sc');
          assert Derives(env, s, x, stop + 1) <==> Derives(env, s, x + 1, stop + 1);
        }
      }
    }
  }

  // ----- the gap rule -----

  /** Every run of a whole gap before `x` holds a used index. */
  ghost predicate GapFree(env: Env, s: nat, x: nat) {
    forall y: nat | env.start <= y && y + env.Window() <= x :: UsedInGap(env, s, y)
  }

  /** Some index of the whole gap that starts at `y` is used. */
  ghost predicate UsedInGap(env: Env, s: nat, y: nat) {
    exists z: nat :: y <= z < y + env.Window() && UsedAt(env, s, z)
  }

  /** The last `unused` indices before `x` are unused, and the one before them, if any, is used. */
  ghost predicate UnusedRun(env: Env, s: nat, x: nat, unused: nat) {
    && env.start + unused <= x
    && (forall z | x - unused <= z < x :: !UsedAt(env, s, z))
    && (x - unused == env.start || UsedAt(env, s, x - unused - 1))
  }

  lemma GapFreeStep(env: Env, s: nat, x: nat, unused: nat)
    requires env.start <= x && GapFree(env, s, x) && UnusedRun(env, s, x, unused)
    requires UsedAt(env, s, x) || unused + 1 < env.gapLimit
    ensures GapFree(env, s, x + 1)
  {
    var w := env.Window();
    forall y: nat | env.start <= y && y + w <= x + 1 ensures UsedInGap(env, s, y) {
      if y + w == x + 1 {
        var z := if UsedAt(env, s, x) then x else x - unused - 1;
        assert y <= z < y + w && UsedAt(env, s, z);
      }
    }
  }

  /** The scan looks at exactly the indices no whole gap lies before. */
  lemma {:induction false} LooksWhileGapFree(env: Env, s: nat, x: nat, unused: nat, goal: nat)
    requires env.start <= x <= goal < env.maxIndex
    requires GapFree(env, s, x) && UnusedRun(env, s, x, unused)
    ensures goal <= Stop(env, s, x, unused) <==> GapFree(env, s, goal)
    decreases env.maxIndex - x
  {
    if x < goal {
      if UsedAt(env, s, x) {
        GapFreeStep(env, s, x, unused);
        LooksWhileGapFree(env, s, x + 1, 0, goal);
      } else if unused + 1 < env.gapLimit {
        GapFreeStep(env, s, x, unused);
        LooksWhileGapFree(env, s, x + 1, unused + 1, goal);
      } else {
        var y := x + 1 - env.Window();
        assert env.start <= y && y + env.Window() <= goal;
        assert !UsedInGap(env, s, y);
      }
    }
  }

  /** Index `x` of scheme `s` is found: used, within bounds, and no whole gap before it. */
  ghost predicate Finds(env: Env, s: nat, x: nat) {
    env.start <= x < env.maxIndex && UsedAt(env, s, x) && GapFree(env, s, x)
  }

  lemma FindsIffLookedAt(env: Env, s: nat, x: nat)
    requires env.start <= x < env.maxIndex
    ensures Finds(env, s, x) <==> UsedAt(env, s, x) && x <= Stop(env, s, env.start, 0)
  {
    LooksWhileGapFree(env, s, env.start, 0, x);
  }

  ghost predicate HasAddress(env: Env, s: nat, x: nat, a: Address) {
    env.derive(s, Index32(x)).Ok? && env.derive(s, Index32(x)).value.address == a
  }

  /** Used indices looked at from `x` on. */
  ghost predicate Sighted(env: Env, s: nat, x: nat, unused: nat, y: nat, a: Address)
    requires x < env.maxIndex
  {
    x <= y <= Stop(env, s, x, unused) && UsedAt(env, s, y) && HasAddress(env, s, y, a)
  }

  lemma {:induction false} ScanFinds(env: Env, s: nat, x: nat, unused: nat, sc: Scan, a: Address)
    requires x < env.maxIndex && ScanFrom(env, s, x, unused, sc).Ok?
    ensures a in ScanFrom(env, s, x, unused, sc).value.found <==>
            a in sc.found || exists y: nat :: Sighted(env, s, x, unused, y, a)
    decreases env.maxIndex - x
  {
    var d := env.derive(s, Index32(x)).value;
    var sc' := sc.(scannedTo := MaxOf(sc.scannedTo, Index32(x)), partial := sc.partial || OutageAt(env, s, x));
    if UsedAt(env, s, x) {
      assert d.address == a <==> Sighted(env, s, x, unused, x, a);
      if x + 1 < env.maxIndex {
        ScanFinds(env, s, x + 1, 0, sc'.(found := Note(sc.found, AccountAt(env, x, d))), a);
        SightedSplits(env, s, x, unused, x + 1, 0, a);
      } else {
        assert forall y: nat | Sighted(env, s, x, unused, y, a) :: y == x;
      }
    } else if x + 1 < env.maxIndex && unused + 1 < env.gapLimit {
      ScanFinds(env, s, x + 1, unused + 1, sc', a);
      SightedSplits(env, s, x, unused, x + 1, unused + 1, a);
    } else {
      assert forall y: nat | Sighted(env, s, x, unused, y, a) :: y == x;
    }
  }

  lemma SightedSplits(env: Env, s: nat, x: nat, unused: nat, x': nat, unused': nat, a: Address)
    requires x' == x + 1 < env.maxIndex && Stop(env, s, x, unused) == Stop(env, s, x', unused')
    ensures (exists y: nat :: Sighted(env, s, x, unused, y, a)) <==>
            Sighted(env, s, x, unused, x, a) || exists y: nat :: Sighted(env, s, x', unused', y, a)
  {
    if y: nat :| Sighted(env, s, x, unused, y, a) {
      assert y == x || Sighted(env, s, x', unused', y, a);
    }
    if y: nat :| Sighted(env, s, x', unused', y, a) {
      assert Sighted(env, s, x, unused, y, a);
    }
  }

  lemma SchemeFinds(env: Env, s: nat, sc: Scan, a: Address)
    requires ScanScheme(env, s, sc).Ok?
    ensures a in ScanScheme(env, s, sc).value.found <==>
            a in sc.found || exists x: nat :: Finds(env, s, x) && HasAddress(env, s, x, a)
  {
    if env.start < env.maxIndex {
      ScanFinds(env, s, env.start, 0, sc, a);
      if y: nat :| Sighted(env, s, env.start, 0, y, a) {
        FindsIffLookedAt(env, s, y);
      }
      if x: nat :| Finds(env, s, x) && HasAddress(env, s, x, a) {
        FindsIffLookedAt(env, s, x);
        assert Sighted(env, s, env.start, 0, x, a);
      }
    }
  }

  /** An address is found exactly when the gap rule finds it under some scheme. */
  ghost predicate Discoverable(env: Env, s: nat, a: Address) {
    exists t: nat, x: nat :: s <= t < env.schemes && Finds(env, t, x) && HasAddress(env, t, x, a)
  }

  lemma {:induction false} SchemesFind(env: Env, s: nat, sc: Scan, a: Address)
    requires ScanSchemes(env, s, sc).Ok?
    ensures a in ScanSchemes(env, s, sc).value.found <==> a in sc.found || Discoverable(env, s, a)
    decreases env.schemes - s
  {
    if s < env.schemes {
      var sc' := ScanScheme(env, s, sc).value;
      SchemeFinds(env, s, sc, a);
      SchemesFind(env, s + 1, sc', a);
      if Discoverable(env, s, a) {
        var t: nat, x: nat :| s <= t < env.schemes && Finds(env, t, x) && HasAddress(env, t, x, a);
        assert t == s || Discoverable(env, s + 1, a);
      }
      if x: nat :| Finds(env, s, x) && HasAddress(env, s, x, a) {
        assert Discoverable(env, s, a);
      }
      if Discoverable(env, s + 1, a) {
        var t: nat, x: nat :| s + 1 <= t < env.schemes && Finds(env, t, x) && HasAddress(env, t, x, a);
        assert Discoverable(env, s, a);
      }
    }
  }

  lemma FoundIffDiscoverable(env: Env, a: Address)
    requires ScanSchemes(env, 0, NOTHING).Ok?
    ensures a in ScanSchemes(env, 0, NOTHING).value.found <==> Discoverable(env, 0, a)
  {
    SchemesFind(env, 0, NOTHING, a);
  }

  // ----- the flags -----

  /** Scheme `t` looks at index `y`. */
  ghost predicate Looks(env: Env, t: nat, y: nat) {
    env.start < env.maxIndex && env.start <= y <= Stop(env, t, env.start, 0)
  }

  /** `m` is the largest of `least` and the indices from `x` to `last`. */
  ghost predicate Largest(m: nat, least: nat, x: nat, last: nat) {
    && least <= m
    && (forall y | x <= y <= last :: Index32(y) <= m)
    && (m == least || exists y :: x <= y <= last && Index32(y) == m)
  }

  lemma {:induction false} ScanReaches(env: Env, s: nat, x: nat, unused: nat, sc: Scan)
    requires x < env.maxIndex && ScanFrom(env, s, x, unused, sc).Ok?
    ensures Largest(ScanFrom(env, s, x, unused, sc).value.scannedTo, sc.scannedTo, x, Stop(env, s, x, unused))
    decreases env.maxIndex - x
  {
    var d := env.derive(s, Index32(x)).value;
    var sc' := sc.(scannedTo := MaxOf(sc.scannedTo, Index32(x)), partial := sc.partial || OutageAt(env, s, x));
    if x + 1 < env.maxIndex {
      if UsedAt(env, s, x) {
        ScanReaches(env, s, x + 1, 0, sc'.(found := Note(sc.found, AccountAt(env, x, d))));
      } else if unused + 1 < env.gapLimit {
        ScanReaches(env, s, x + 1, unused + 1, sc');
      } else {
        assert Stop(env, s, x, unused) == x;
      }
    }
  }

  lemma {:induction false} ScanSeesOutages(env: Env, s: nat, x: nat, unused: nat, sc: Scan)
    requires x < env.maxIndex && ScanFrom(env, s, x, unused, sc).Ok?
    ensures ScanFrom(env, s, x, unused, sc).value.partial <==>
            sc.partial || exists y: nat :: x <= y <= Stop(env, s, x, unused) && OutageAt(env, s, y)
    decreases env.maxIndex - x
  {
    var d := env.derive(s, Index32(x)).value;
    var sc' := sc.(scannedTo := MaxOf(sc.scannedTo, Index32(x)), partial := sc.partial || OutageAt(env, s, x));
    if x + 1 < env.maxIndex {
      if UsedAt(env, s, x) {
        ScanSeesOutages(env, s, x + 1, 0, sc'.(found := Note(sc.found, AccountAt(env, x, d))));
      } else if unused + 1 < env.gapLimit {
        ScanSeesOutages(env, s, x + 1, unused + 1, sc');
      }
    }
  }

  lemma {:induction false} ScanHitsMax(env: Env, s: nat, x: nat, unused: nat, sc: Scan)
    requires env.start <= x <= env.maxIndex && ScanFrom(env, s, x, unused, sc).Ok?
    requires GapFree(env, s, x) && UnusedRun(env, s, x, unused)
    ensures ScanFrom(env, s, x, unused, sc).value.hitMax <==> sc.hitMax || GapFree(env, s, env.maxIndex)
    decreases env.maxIndex - x
  {
    if x < env.maxIndex {
      var d := env.derive(s, Index32(x)).value;
      var sc' := sc.(scannedTo := MaxOf(sc.scannedTo, Index32(x)), partial := sc.partial || OutageAt(env, s, x));
      if UsedAt(env, s, x) {
        GapFreeStep(env, s, x, unused);
        ScanHitsMax(env, s, x + 1, 0, sc'.(found := Note(sc.found, AccountAt(env, x, d))));
      } else if unused + 1 < env.gapLimit {
        GapFreeStep(env, s, x, unused);
        ScanHitsMax(env, s, x + 1, unused + 1, sc');
      } else {
        var y := x + 1 - env.Window();
        assert env.start <= y && y + env.Window() <= env.maxIndex && !UsedInGap(env, s, y);
      }
    }
  }

  /** What the flags of one scheme's scan mean: the largest index looked at, whether no whole gap lay
      before the bound, and whether some index looked at had an outage. */
  lemma SchemeFlags(env: Env, s: nat, sc: Scan)
    requires env.start < env.maxIndex && ScanScheme(env, s, sc).Ok?
    ensures var r := ScanScheme(env, s, sc).value;
            && Largest(r.scannedTo, sc.scannedTo, env.start, Stop(env, s, env.start, 0))
            && (r.hitMax <==> sc.hitMax || GapFree(env, s, env.maxIndex))
            && (r.partial <==> sc.partial || exists y: nat :: Looks(env, s, y) && OutageAt(env, s, y))
  {
    ScanReaches(env, s, env.start, 0, sc);
    ScanHitsMax(env, s, env.start, 0, sc);
    ScanSeesOutages(env, s, env.start, 0, sc);
    if y: nat :| env.start <= y <= Stop(env, s, env.start, 0) && OutageAt(env, s, y) {
      assert Looks(env, s, y);
    }
  }

  lemma {:induction false} SchemesHitMax(env: Env, s: nat, sc: Scan)
    requires env.start < env.maxIndex && ScanSchemes(env, s, sc).Ok?
    ensures ScanSchemes(env, s, sc).value.hitMax <==>
            sc.hitMax || exists t: nat :: s <= t < env.schemes && GapFree(env, t, env.maxIndex)
    decreases env.schemes - s
  {
    if s < env.schemes {
      SchemeFlags(env, s, sc);
      hide ScanScheme, GapFree, Largest, Looks;
      SchemesHitMax(env, s + 1, ScanScheme(env, s, sc).value);
    }
  }

  lemma {:induction false} SchemesPartial(env: Env, s: nat, sc: Scan)
    requires env.start < env.maxIndex && ScanSchemes(env, s, sc).Ok?
    ensures ScanSchemes(env, s, sc).value.partial <==>
            sc.partial || exists t: nat, y: nat :: s <= t < env.schemes && Looks(env, t, y) && OutageAt(env, t, y)
    decreases env.schemes - s
  {
    if s < env.schemes {
      SchemeFlags(env, s, sc);
      hide ScanScheme, GapFree, Largest, Looks, OutageAt;
      SchemesPartial(env, s + 1, ScanScheme(env, s, sc).value);
    }
  }

  lemma {:induction false} SchemesReach(env: Env, s: nat, sc: Scan)
    requires env.start < env.maxIndex && ScanSchemes(env, s, sc).Ok?
    ensures var r := ScanSchemes(env, s, sc).value;
            && sc.scannedTo <= r.scannedTo
            && (forall t: nat, y: nat | s <= t < env.schemes && Looks(env, t, y) :: Index32(y) <= r.scannedTo)
            && (r.scannedTo == sc.scannedTo || exists t: nat, y: nat :: s <= t < env.schemes && Looks(env, t, y) && Index32(y) == r.scannedTo)
    decreases env.schemes - s
  {
    if s < env.schemes {
      var one, r := ScanScheme(env, s, sc).value, ScanSchemes(env, s, sc).value;
      SchemeFlags(env, s, sc);
      hide ScanScheme, GapFree, OutageAt, Stop, Looks;
      SchemesReach(env, s + 1, one);
      SchemesScannedTo(env, s, sc, one, r);
    }
  }

  lemma SchemesScannedTo(env: Env, s: nat, sc: Scan, one: Scan, r: Scan)
    requires s < env.schemes && env.start < env.maxIndex
    requires Largest(one.scannedTo, sc.scannedTo, env.start, Stop(env, s, env.start, 0))
    requires one.scannedTo <= r.scannedTo
    requires forall t: nat, y: nat | s + 1 <= t < env.schemes && Looks(env, t, y) :: Index32(y) <= r.scannedTo
    requires r.scannedTo == one.scannedTo || exists t: nat, y: nat :: s + 1 <= t < env.schemes && Looks(env, t, y) && Index32(y) == r.scannedTo
    ensures forall t: nat, y: nat | s <= t < env.schemes && Looks(env, t, y) :: Index32(y) <= r.scannedTo
    ensures r.scannedTo == sc.scannedTo || exists t: nat, y: nat :: s <= t < env.schemes && Looks(env, t, y) && Index32(y) == r.scannedTo
  {
    forall t: nat, y: nat | s <= t < env.schemes && Looks(env, t, y) ensures Index32(y) <= r.scannedTo {
      if t == s {
        assert Index32(y) <= one.scannedTo;
      }
    }
    if r.scannedTo == one.scannedTo && one.scannedTo != sc.scannedTo {
      var y :| env.start <= y <= Stop(env, s, env.start, 0) && Index32(y) == one.scannedTo;
      assert Looks(env, s, y);
    }
  }

  /** What the flags of a whole discovery mean. */
  lemma FlagsMeaning(env: Env)
    requires env.start < env.maxIndex && ScanSchemes(env, 0, NOTHING).Ok?
    ensures var r := ScanSchemes(env, 0, NOTHING).value;
            && (r.hitMax <==> exists t: nat :: t < env.schemes && GapFree(env, t, env.maxIndex))
            && (r.partial <==> exists t: nat, y: nat :: t < env.schemes && Looks(env, t, y) && OutageAt(env, t, y))
            && (forall t: nat, y: nat | t < env.schemes && Looks(env, t, y) :: Index32(y) <= r.scannedTo)
            && (r.scannedTo == 0 || exists t: nat, y: nat :: t < env.schemes && Looks(env, t, y) && Index32(y) == r.scannedTo)
  {
    hide ScanSchemes, Looks, GapFree, OutageAt, Index32;
    SchemesHitMax(env, 0, NOTHING);
    SchemesPartial(env, 0, NOTHING);
    SchemesReach(env, 0, NOTHING);
  }

  /** `u` is the last used index a scan comes to: found, with a whole unused gap behind it. */
  ghost predicate LastFound(env: Env, s: nat, u: nat) {
    Finds(env, s, u) && forall z | u < z <= u + env.Window() :: !UsedAt(env, s, z)
  }

  /** No index of the first window is used. */
  ghost predicate NothingFirst(env: Env, s: nat) {
    forall z | env.start <= z < env.start + env.Window() :: !UsedAt(env, s, z)
  }

  predicate EndsItsWindow(env: Env, u: nat) {
    u >= env.start && WindowOf(env, u) + env.Window() == u + 1
  }

  /** What the chains report puts the stop at a window's end: the bound comes before a whole gap, or the
      first window is unused, or the last used index is the last of its window. */
  ghost predicate StopsAtAWindowsEnd(env: Env, s: nat)
    requires env.start < env.maxIndex
  {
    || GapFree(env, s, env.maxIndex - 1)
    || NothingFirst(env, s)
    || exists u: nat :: LastFound(env, s, u) && EndsItsWindow(env, u)
  }

  lemma {:induction false} WindowShift(env: Env, i: nat, x: nat)
    requires i <= x
    ensures WindowFrom(env, i, x + env.Window()) == WindowFrom(env, i, x) + env.Window()
    decreases x - i
  {
    if x >= i + env.Window() {
      WindowShift(env, i + env.Window(), x);
    }
  }

  /** The stop is the last index no whole gap lies before. */
  lemma StopIsLastGapFree(env: Env, s: nat, e: nat)
    requires env.start <= e < env.maxIndex && GapFree(env, s, e) && (e + 1 < env.maxIndex ==> !GapFree(env, s, e + 1))
    ensures Stop(env, s, env.start, 0) == e
  {
    LooksWhileGapFree(env, s, env.start, 0, e);
    if e + 1 < env.maxIndex {
      LooksWhileGapFree(env, s, env.start, 0, e + 1);
    }
  }

  lemma StopBehindLastFound(env: Env, s: nat, u: nat)
    requires LastFound(env, s, u) && u + env.Window() < env.maxIndex
    ensures Stop(env, s, env.start, 0) == u + env.Window()
  {
    var w := env.Window();
    forall y: nat | env.start <= y && y + w <= u + w ensures UsedInGap(env, s, y) {
      if y + w > u {
        assert y <= u < y + w && UsedAt(env, s, u);
      }
    }
    assert !UsedInGap(env, s, u + 1);
    StopIsLastGapFree(env, s, u + w);
  }

  lemma StopAfterNothing(env: Env, s: nat)
    requires NothingFirst(env, s) && env.start + env.Window() < env.maxIndex
    ensures Stop(env, s, env.start, 0) == env.start + env.Window() - 1
  {
    assert !UsedInGap(env, s, env.start);
    StopIsLastGapFree(env, s, env.start + env.Window() - 1);
  }

  /** Where a scan that ends before the bound stopped: a whole gap into the scan, or behind a last used
      index. */
  lemma StopHasAGapBehind(env: Env, s: nat)
    requires env.start < env.maxIndex && Stop(env, s, env.start, 0) + 1 < env.maxIndex
    ensures var stop, w := Stop(env, s, env.start, 0), env.Window();
            || (stop + 1 == env.start + w && NothingFirst(env, s))
            || (stop >= env.start + w && LastFound(env, s, stop - w))
  {
    var stop, w := Stop(env, s, env.start, 0), env.Window();
    LooksWhileGapFree(env, s, env.start, 0, stop);
    LooksWhileGapFree(env, s, env.start, 0, stop + 1);
    var y: nat :| env.start <= y && y + w <= stop + 1 && !UsedInGap(env, s, y);
    assert y + w == stop + 1;
    assert forall z: nat | y <= z < y + w :: !UsedAt(env, s, z);
    if y > env.start {
      assert UsedInGap(env, s, y - 1);
      assert UsedAt(env, s, y - 1);
    }
  }

  lemma StartsGapFree(env: Env, s: nat)
    ensures GapFree(env, s, env.start) && UnusedRun(env, s, env.start, 0)
  {
  }

  lemma ProbedIffWindowsEnd(env: Env, s: nat)
    requires env.start < env.maxIndex
    ensures Stop(env, s, env.start, 0) + 1 == LookaheadEnd(env, s) <==> StopsAtAWindowsEnd(env, s)
  {
    hide Stop, GapFree, NothingFirst, LastFound;
    var stop, w, last := Stop(env, s, env.start, 0), env.Window(), env.maxIndex - 1;
    assert stop == last <==> GapFree(env, s, last) by {
      StartsGapFree(env, s);
      LooksWhileGapFree(env, s, env.start, 0, last);
    }
    if stop < last {
      StopHasAGapBehind(env, s);
      if stop + 1 != env.start + w {
        var u := stop - w;
        WindowShift(env, env.start, u);
        assert LookaheadEnd(env, s) == stop + 1 <==> EndsItsWindow(env, u);
        assert !NothingFirst(env, s) by {
          if NothingFirst(env, s) {
            StopAfterNothing(env, s);
          }
        }
        if v: nat :| LastFound(env, s, v) && EndsItsWindow(env, v) {
          LastFoundBeforeBound(env, s, v);
          StopBehindLastFound(env, s, v);
        }
      }
    }
  }

  lemma LastFoundBeforeBound(env: Env, s: nat, u: nat)
    requires LastFound(env, s, u) && !GapFree(env, s, env.maxIndex - 1)
    ensures u + env.Window() < env.maxIndex
  {
    var w := env.Window();
    var y: nat :| env.start <= y && y + w <= env.maxIndex - 1 && !UsedInGap(env, s, y);
    assert y + w <= u ==> UsedInGap(env, s, y);
    assert y <= u < y + w ==> UsedInGap(env, s, y);
  }

  /** Below 2^32 a scheme's scan reports the last index it looked at, which is the last index probed
      exactly when what the chains report puts the stop at a window's end. */
  lemma ScannedToIsProbedIff(env: Env, s: nat)
    requires env.start < env.maxIndex <= 0x1_0000_0000 && ScanScheme(env, s, NOTHING).Ok?
    ensures ScanScheme(env, s, NOTHING).value.scannedTo == Stop(env, s, env.start, 0)
    ensures ScanScheme(env, s, NOTHING).value.scannedTo == LookaheadEnd(env, s) - 1 <==> StopsAtAWindowsEnd(env, s)
  {
    SchemeFlags(env, s, NOTHING);
    var r, stop := ScanScheme(env, s, NOTHING).value, Stop(env, s, env.start, 0);
    assert Index32(stop) == stop <= r.scannedTo;
    ProbedIffWindowsEnd(env, s);
  }

  // ----- outages only hide -----

  /** The same scan over chains that show less: whatever is seen used here is used there. */
  ghost predicate Hides(less: Env, more: Env) {
    && less.(activity := more.activity, chains := more.chains) == more
    && forall s: nat, x: nat | UsedAt(less, s, x) :: UsedAt(more, s, x)
  }

  lemma HidingShrinksGaps(less: Env, more: Env, s: nat, x: nat)
    requires Hides(less, more) && GapFree(less, s, x)
    ensures GapFree(more, s, x)
  {
    forall y: nat | more.start <= y && y + more.Window() <= x ensures UsedInGap(more, s, y) {
      assert UsedInGap(less, s, y);
      var z: nat :| y <= z < y + less.Window() && UsedAt(less, s, z);
      assert UsedAt(more, s, z);
    }
  }

  lemma HidingShrinksFinds(less: Env, more: Env, s: nat, x: nat)
    requires Hides(less, more) && Finds(less, s, x)
    ensures Finds(more, s, x)
  {
    HidingShrinksGaps(less, more, s, x);
  }

  lemma HidingStopsEarlier(less: Env, more: Env, s: nat)
    requires Hides(less, more) && less.start < less.maxIndex
    ensures Stop(less, s, less.start, 0) <= Stop(more, s, more.start, 0)
  {
    var e := Stop(less, s, less.start, 0);
    LooksWhileGapFree(less, s, less.start, 0, e);
    HidingShrinksGaps(less, more, s, e);
    LooksWhileGapFree(more, s, more.start, 0, e);
  }

  /** A scan of every scheme succeeds exactly when everything each looks at derives. */
  lemma {:induction false} SchemesOkIff(env: Env, s: nat, sc: Scan)
    requires env.start < env.maxIndex
    ensures ScanSchemes(env, s, sc).Ok? <==> forall t | s <= t < env.schemes :: Derives(env, t, env.start, Stop(env, t, env.start, 0) + 1)
    decreases env.schemes - s
  {
    if s < env.schemes {
      ScanFailsExactly(env, s, env.start, 0, sc);
      if ScanScheme(env, s, sc).Ok? {
        SchemesOkIff(env, s + 1, ScanScheme(env, s, sc).value);
      }
    }
  }

  lemma HidingStillSucceeds(less: Env, more: Env)
    requires Hides(less, more) && ScanSchemes(more, 0, NOTHING).Ok?
    ensures ScanSchemes(less, 0, NOTHING).Ok?
  {
    if less.start < less.maxIndex {
      SchemesOkIff(more, 0, NOTHING);
      SchemesOkIff(less, 0, NOTHING);
      forall t | 0 <= t < less.schemes ensures Derives(less, t, less.start, Stop(less, t, less.start, 0) + 1) {
        HidingStopsEarlier(less, more, t);
        assert Derives(more, t, more.start, Stop(more, t, more.start, 0) + 1);
      }
    } else {
      NothingToScan(less, 0);
    }
  }

  lemma {:induction false} NothingToScan(env: Env, s: nat)
    requires env.start >= env.maxIndex
    ensures ScanSchemes(env, s, NOTHING) == Ok(NOTHING)
    decreases env.schemes - s
  {
    if s < env.schemes {
      NothingToScan(env, s + 1);
    }
  }

  /** Discovery is a lower bound: hiding usage can only lose accounts, never add one, and can only end a
      scan earlier; it never makes a scan fail. */
  lemma HidingOnlyLoses(less: Env, more: Env, a: Address)
    requires Hides(less, more) && ScanSchemes(more, 0, NOTHING).Ok?
    ensures ScanSchemes(less, 0, NOTHING).Ok?
    ensures a in ScanSchemes(less, 0, NOTHING).value.found ==> a in ScanSchemes(more, 0, NOTHING).value.found
    ensures less.start < less.maxIndex ==> forall s: nat :: Stop(less, s, less.start, 0) <= Stop(more, s, more.start, 0)
  {
    HidingStillSucceeds(less, more);
    FoundIffDiscoverable(less, a);
    FoundIffDiscoverable(more, a);
    if Discoverable(less, 0, a) {
      var t: nat, x: nat :| t < less.schemes && Finds(less, t, x) && HasAddress(less, t, x, a);
      HidingShrinksFinds(less, more, t, x);
      assert HasAddress(more, t, x, a);
    }
    if less.start < less.maxIndex {
      forall s: nat ensures Stop(less, s, less.start, 0) <= Stop(more, s, more.start, 0) {
        HidingStopsEarlier(less, more, s);
      }
    }
  }

  /** The same scan, but some batches of some chains fail. */
  ghost predicate LosesBatches(less: Env, more: Env) {
    && less.(activity := more.activity) == more
    && forall s: nat, c: nat, i: nat :: less.activity(s, c, i).Err? || less.activity(s, c, i) == more.activity(s, c, i)
  }

  lemma LostBatchesHide(less: Env, more: Env)
    requires LosesBatches(less, more)
    ensures Hides(less, more)
  {
    forall s: nat, x: nat | UsedAt(less, s, x) ensures UsedAt(more, s, x) {
      SameWindow(less, more, less.start, x);
      var i := WindowOf(less, x);
      var c :| 0 <= c < less.chains && Reports(less, s, c, i, x - i);
      assert less.activity(s, c, i) == more.activity(s, c, i);
      assert Reports(more, s, c, i, x - i);
    }
  }

  lemma {:induction false} SameWindow(less: Env, more: Env, i: nat, x: nat)
    requires less.Window() == more.Window() && i <= x
    ensures WindowFrom(less, i, x) == WindowFrom(more, i, x)
    decreases x - i
  {
    if x >= i + less.Window() {
      SameWindow(less, more, i + less.Window(), x);
    }
  }

  /** Outages, of any batches of any chains, only hide. */
  lemma OutagesOnlyHide(less: Env, more: Env, a: Address)
    requires LosesBatches(less, more) && ScanSchemes(more, 0, NOTHING).Ok?
    ensures ScanSchemes(less, 0, NOTHING).Ok?
    ensures a in ScanSchemes(less, 0, NOTHING).value.found ==> a in ScanSchemes(more, 0, NOTHING).value.found
    ensures less.start < less.maxIndex ==> forall s: nat :: Stop(less, s, less.start, 0) <= Stop(more, s, more.start, 0)
  {
    LostBatchesHide(less, more);
    HidingOnlyLoses(less, more, a);
  }

  // ----- the windowed scan -----

  ghost predicate LookaheadDerives(env: Env, s: nat) {
    env.start < env.maxIndex ==> Derives(env, s, env.start, LookaheadEnd(env, s))
  }

  /** Derive every address of a window. */
  method DeriveWindow(env: Env, s: nat, i: nat, end: nat) returns (r: Answer<seq<Derived>>)
    requires i <= end
    ensures r.Ok? <==> Derives(env, s, i, end)
    ensures r.Ok? ==> |r.value| == end - i && forall k | 0 <= k < end - i :: env.derive(s, Index32(i + k)) == Ok(r.value[k])
  {
    var entries: seq<Derived> := [];
    var x := i;
    while x < end
      invariant i <= x <= end && |entries| == x - i
      invariant Derives(env, s, i, x)
      invariant forall k | 0 <= k < x - i :: env.derive(s, Index32(i + k)) == Ok(entries[k])
    {
      match env.derive(s, Index32(x)) {
        case Err => return Err;
        case Ok(d) => entries := entries + [d];
      }
      x := x + 1;
    }
    r := Ok(entries);
  }

  /** Ask every chain about a window of `n` addresses; an outage leaves its entries unused. */
  method QueryWindow(env: Env, s: nat, i: nat, n: nat) returns (used: seq<bool>, outage: bool)
    ensures |used| == n && forall k | 0 <= k < n :: used[k] <==> UsedIn(env, s, i, k)
    ensures outage <==> OutageIn(env, s, i)
  {
    used, outage := seq(n, _ => false), false;
    var c := 0;
    while c < env.chains
      invariant c <= env.chains && |used| == n
      invariant forall k | 0 <= k < n :: used[k] <==> exists b :: 0 <= b < c && Reports(env, s, b, i, k)
      invariant outage <==> exists b :: 0 <= b < c && env.activity(s, b, i).Err?
    {
      match env.activity(s, c, i) {
        case Err => outage := true;
        case Ok(acts) =>
          var k := 0;
          ghost var was := used;
          while k < n
            invariant k <= n && |used| == n
            invariant forall j | 0 <= j < k :: used[j] <==> was[j] || Reports(env, s, c, i, j)
            invariant forall j | k <= j < n :: used[j] == was[j]
          {
            if IsUsed(acts(k), env.used) {
              used := used[k := true];
            }
            k := k + 1;
          }
      }
      c := c + 1;
    }
  }

  /** The window's answers are those of its indices. */
  ghost predicate Answers(env: Env, s: nat, i: nat, entries: seq<Derived>, used: seq<bool>, outage: bool) {
    && env.start <= i && |entries| == |used| && i + |used| <= env.maxIndex
    && forall k | 0 <= k < |used| :: AnswersAt(env, s, i + k, entries[k], used[k], outage)
  }

  ghost predicate AnswersAt(env: Env, s: nat, x: nat, d: Derived, used: bool, outage: bool) {
    && env.derive(s, Index32(x)) == Ok(d)
    && (UsedAt(env, s, x) <==> used)
    && (OutageAt(env, s, x) <==> outage)
  }

  /** The scan from (x, unused, sc) and the scan from (x', unused', sc') are the same one, further on. */
  ghost predicate Continues(env: Env, s: nat, x: nat, unused: nat, sc: Scan, x': nat, unused': nat, sc': Scan) {
    && x <= x' <= env.maxIndex && x < env.maxIndex
    && ScanFrom(env, s, x, unused, sc) == ScanFrom(env, s, x', unused', sc')
    && Stop(env, s, x, unused) == if x' < env.maxIndex then Stop(env, s, x', unused') else env.maxIndex - 1
  }

  /** One more index. */
  lemma ContinuesStep(
    env: Env, s: nat, i: nat, unused0: nat, sc0: Scan, x: nat, unused: nat, sc: Scan, d: Derived, used: bool, outage: bool)
    requires Continues(env, s, i, unused0, sc0, x, unused, sc) && x < env.maxIndex && AnswersAt(env, s, x, d, used, outage)
    requires outage ==> sc.partial
    ensures var sc' := sc.(scannedTo := MaxOf(sc.scannedTo, Index32(x)));
            if used then Continues(env, s, i, unused0, sc0, x + 1, 0, sc'.(found := Note(sc.found, AccountAt(env, x, d))))
            else if unused + 1 >= env.gapLimit then ScanFrom(env, s, i, unused0, sc0) == Ok(sc') && Stop(env, s, i, unused0) == x
            else Continues(env, s, i, unused0, sc0, x + 1, unused + 1, sc')
  {
    var sc' := sc.(scannedTo := MaxOf(sc.scannedTo, Index32(x)), partial := sc.partial || OutageAt(env, s, x));
    assert sc' == sc.(scannedTo := MaxOf(sc.scannedTo, Index32(x)));
  }

  /** Noting the window's outage before its first index instead of at it changes nothing. */
  lemma OutageNotedEarly(env: Env, s: nat, i: nat, unused: nat, sc: Scan, d: Derived, used: bool, outage: bool)
    requires i < env.maxIndex && AnswersAt(env, s, i, d, used, outage)
    ensures Continues(env, s, i, unused, sc, i, unused, sc.(partial := sc.partial || outage))
  {
  }

  /** Go through a window's entries until the gap limit is met. */
  method VisitWindow(env: Env, s: nat, i: nat, entries: seq<Derived>, used: seq<bool>, outage: bool, unused0: nat, sc0: Scan)
    returns (stopped: bool, unused: nat, sc: Scan)
    requires used != [] && Answers(env, s, i, entries, used, outage)
    ensures stopped ==> ScanFrom(env, s, i, unused0, sc0) == Ok(sc) && i <= Stop(env, s, i, unused0) < i + |used|
    ensures !stopped ==> Continues(env, s, i, unused0, sc0, i + |used|, unused, sc)
  {
    hide ScanFrom, Stop;
    unused, sc := unused0, sc0.(partial := sc0.partial || outage);
    assert AnswersAt(env, s, i + 0, entries[0], used[0], outage);
    OutageNotedEarly(env, s, i, unused0, sc0, entries[0], used[0], outage);
    var k := 0;
    while k < |used|
      invariant k <= |used|
      invariant outage ==> sc.partial
      invariant Continues(env, s, i, unused0, sc0, i + k, unused, sc)
    {
      assert AnswersAt(env, s, i + k, entries[k], used[k], outage);
      ContinuesStep(env, s, i, unused0, sc0, i + k, unused, sc, entries[k], used[k], outage);
      sc := sc.(scannedTo := MaxOf(sc.scannedTo, Index32(i + k)));
      if used[k] {
        unused := 0;
        sc := sc.(found := Note(sc.found, AccountAt(env, i + k, entries[k])));
      } else {
        unused := unused + 1;
        if unused >= env.gapLimit {
          return true, unused, sc;
        }
      }
      k := k + 1;
    }
    stopped := false;
  }

  /** A stop in the window at `i` makes that window the last one needed. */
  lemma LastWindow(env: Env, s: nat, m: nat, i: nat, end: nat)
    requires i == WindowAt(env, m) && i < end <= env.maxIndex
    requires end == if i + env.Window() <= env.maxIndex then i + env.Window() else env.maxIndex
    requires i <= Stop(env, s, env.start, 0) < end
    ensures LookaheadEnd(env, s) == end
  {
    WindowFromAny(env, m, Stop(env, s, env.start, 0));
  }

  lemma ContinuesTrans(
    env: Env, s: nat, x: nat, u: nat, sc: Scan, x': nat, u': nat, sc': Scan, x'': nat, u'': nat, sc'': Scan)
    requires Continues(env, s, x, u, sc, x', u', sc') && Continues(env, s, x', u', sc', x'', u'', sc'')
    ensures Continues(env, s, x, u, sc, x'', u'', sc'')
  {
  }

  datatype WindowResult = Underivable | Done(scan: Scan) | More(unused: nat, scan: Scan)

  function WindowEnd(env: Env, i: nat): nat {
    if i + env.Window() <= env.maxIndex then i + env.Window() else env.maxIndex
  }

  lemma WindowAnswers(env: Env, s: nat, m: nat, i: nat, k: nat, d: Derived, used: bool, outage: bool)
    requires i == WindowAt(env, m) && k < env.Window() && env.derive(s, Index32(i + k)) == Ok(d)
    requires (used <==> UsedIn(env, s, i, k)) && (outage <==> OutageIn(env, s, i))
    ensures AnswersAt(env, s, i + k, d, used, outage)
  {
    WindowFromAny(env, m, i + k);
  }

  /** Derive, query and visit the window at `i`. */
  method ScanWindow(env: Env, s: nat, ghost m: nat, i: nat, unused: nat, sc: Scan) returns (r: WindowResult)
    requires i == WindowAt(env, m) < env.maxIndex
    ensures !r.Underivable? <==> Derives(env, s, i, WindowEnd(env, i))
    ensures r.Done? ==> ScanFrom(env, s, i, unused, sc) == Ok(r.scan) && i <= Stop(env, s, i, unused) < WindowEnd(env, i)
    ensures r.More? ==> WindowEnd(env, i) < env.maxIndex && Continues(env, s, i, unused, sc, WindowEnd(env, i), r.unused, r.scan)
  {
    var end := WindowEnd(env, i);
    var entries := DeriveWindow(env, s, i, end);
    if entries.Err? {
      return Underivable;
    }
    var used, outage := QueryWindow(env, s, i, end - i);
    hide AnswersAt, UsedIn, OutageIn;
    forall k | 0 <= k < |used| ensures AnswersAt(env, s, i + k, entries.value[k], used[k], outage) {
      WindowAnswers(env, s, m, i, k, entries.value[k], used[k], outage);
    }
    var stopped, unused', sc' := VisitWindow(env, s, i, entries.value, used, outage, unused, sc);
    if stopped {
      return Done(sc');
    }
    if end == env.maxIndex {
      return Done(sc'.(hitMax := true));
    }
    r := More(unused', sc');
  }

  /** The scan has worked through the windows before number `m`. */
  ghost predicate Reached(env: Env, s: nat, sc0: Scan, m: nat, i: nat, unused: nat, sc: Scan) {
    && env.start <= i == WindowAt(env, m) < env.maxIndex
    && Derives(env, s, env.start, i)
    && Continues(env, s, env.start, 0, sc0, i, unused, sc)
  }

  /** The first window that fails to derive is needed. */
  lemma FailingWindowIsNeeded(env: Env, s: nat, sc0: Scan, m: nat, i: nat, unused: nat, sc: Scan)
    requires Reached(env, s, sc0, m, i, unused, sc) && !Derives(env, s, i, WindowEnd(env, i))
    ensures !LookaheadDerives(env, s)
  {
    WindowFromAny(env, m, Stop(env, s, env.start, 0));
    assert WindowEnd(env, i) <= LookaheadEnd(env, s);
  }

  lemma StopInWindowEnds(env: Env, s: nat, sc0: Scan, m: nat, i: nat, unused: nat, sc: Scan, scan: Scan)
    requires Reached(env, s, sc0, m, i, unused, sc) && Derives(env, s, i, WindowEnd(env, i))
    requires ScanFrom(env, s, i, unused, sc) == Ok(scan) && i <= Stop(env, s, i, unused) < WindowEnd(env, i)
    ensures LookaheadDerives(env, s) && ScanScheme(env, s, sc0) == Ok(scan)
  {
    LastWindow(env, s, m, i, WindowEnd(env, i));
  }

  lemma NextWindow(env: Env, s: nat, sc0: Scan, m: nat, i: nat, unused: nat, sc: Scan, unused': nat, sc': Scan)
    requires Reached(env, s, sc0, m, i, unused, sc) && Derives(env, s, i, WindowEnd(env, i)) && WindowEnd(env, i) < env.maxIndex
    requires Continues(env, s, i, unused, sc, WindowEnd(env, i), unused', sc')
    ensures Reached(env, s, sc0, m + 1, i + env.Window(), unused', sc')
    ensures i + env.Window() == WindowAt(env, m + 1) < env.maxIndex
  {
    ContinuesTrans(env, s, env.start, 0, sc0, i, unused, sc, WindowEnd(env, i), unused', sc');
  }

  lemma ScanBegins(env: Env, s: nat, sc0: Scan)
    ensures env.start >= env.maxIndex ==> LookaheadDerives(env, s) && ScanScheme(env, s, sc0) == Ok(sc0)
    ensures env.start < env.maxIndex ==> Reached(env, s, sc0, 0, env.start, 0, sc0) && WindowAt(env, 0) == env.start
  {
  }

  /** The source's scan of one scheme. It succeeds exactly when everything derives up to the end of the
      last window it needs, and then it returns what the one-index scan returns. */
  method DiscoverScheme(env: Env, s: nat, sc0: Scan) returns (r: Answer<Scan>)
    ensures r.Ok? <==> LookaheadDerives(env, s)
    ensures r.Ok? ==> r == ScanScheme(env, s, sc0)
  {
    hide ScanFrom, Stop, Continues, LookaheadDerives, ScanScheme, Reached, Derives, WindowAt, WindowEnd;
    ScanBegins(env, s, sc0);
    if env.start >= env.maxIndex {
      return Ok(sc0);
    }
    var unused, i, sc := 0, env.start, sc0;
    ghost var m := 0;
    while true
      invariant Reached(env, s, sc0, m, i, unused, sc) && i == WindowAt(env, m) < env.maxIndex
      decreases env.maxIndex - i
    {
      var step := ScanWindow(env, s, m, i, unused, sc);
      match step {
        case Underivable =>
          FailingWindowIsNeeded(env, s, sc0, m, i, unused, sc);
          return Err;
        case Done(scan) =>
          StopInWindowEnds(env, s, sc0, m, i, unused, sc, scan);
          return Ok(scan);
        case More(unused', scan) =>
          NextWindow(env, s, sc0, m, i, unused, sc, unused', scan);
          unused, sc, i, m := unused', scan, i + env.Window(), m + 1;
      }
    }
  }

  // ----- the whole scan and its result -----

  datatype Discovered = Discovered(accounts: seq<Account>, scannedTo: nat, hitMax: bool, partial: bool)

  predicate Before(a: Account, b: Account) {
    a.index < b.index || (a.index == b.index && a.address <= b.address)
  }

  predicate Ranked(accounts: seq<Account>) {
    forall i, j | 0 <= i < j < |accounts| :: Before(accounts[i], accounts[j]) && accounts[i].address != accounts[j].address
  }

  /** The found accounts, by index; equal indices keep the address order of the map. */
  method RankByIndex(found: map<Address, Account>) returns (accounts: seq<Account>)
    requires FoundUnderOwnAddress(found)
    ensures Ranked(accounts)
    ensures forall x :: x in accounts <==> x.address in found && found[x.address] == x
  {
    accounts := [];
    var rest := found.Keys;
    while rest != {}
      invariant rest <= found.Keys
      invariant Ranked(accounts)
      invariant forall x :: x in accounts <==> x.address in found && x.address !in rest && found[x.address] == x
      decreases rest
    {
      var a :| a in rest;
      accounts := Insert(accounts, found[a]) by {
        assert forall x | x in accounts :: x.address != a;
      }
      rest := rest - {a};
    }
  }

  method Insert(accounts: seq<Account>, b: Account) returns (out: seq<Account>)
    requires Ranked(accounts) && forall x | x in accounts :: x.address != b.address
    ensures Ranked(out) && forall x :: x in out <==> x in accounts || x == b
  {
    var k := 0;
    while k < |accounts| && Before(accounts[k], b)
      invariant k <= |accounts|
      invariant forall i | 0 <= i < k :: Before(accounts[i], b)
    {
      k := k + 1;
    }
    out := accounts[..k] + [b] + accounts[k..];
    InsertedRanked(accounts, b, k);
    InsertedMembers(accounts, b, k);
  }

  lemma InsertedMembers(accounts: seq<Account>, b: Account, k: nat)
    requires k <= |accounts|
    ensures forall x :: x in accounts[..k] + [b] + accounts[k..] <==> x in accounts || x == b
  {
    assert accounts == accounts[..k] + accounts[k..];
  }

  lemma InsertedRanked(accounts: seq<Account>, b: Account, k: nat)
    requires Ranked(accounts) && (forall x | x in accounts :: x.address != b.address)
    requires k <= |accounts| && (forall i | 0 <= i < k :: Before(accounts[i], b)) && (k < |accounts| ==> !Before(accounts[k], b))
    ensures Ranked(accounts[..k] + [b] + accounts[k..])
  {
    var out := accounts[..k] + [b] + accounts[k..];
    assert forall i | 0 <= i < |accounts| :: accounts[i] in accounts;
    forall i, j | 0 <= i < j < |out|
      ensures Before(out[i], out[j]) && out[i].address != out[j].address
    {
      var i', j' := if i > k then i - 1 else i, if j > k then j - 1 else j;
      if i == k {
        assert out[j] == accounts[j'];
        if k < j' {
          assert Before(accounts[k], accounts[j']);
        }
      } else if j == k {
        assert out[i] == accounts[i];
      } else {
        assert out[i] == accounts[i'] && out[j] == accounts[j'];
      }
    }
  }

  predicate FoundUnderOwnAddress(found: map<Address, Account>) {
    forall a | a in found :: found[a].address == a
  }

  lemma {:induction false} ScanKeepsAddresses(env: Env, s: nat, x: nat, unused: nat, sc: Scan)
    requires x <= env.maxIndex && FoundUnderOwnAddress(sc.found) && ScanFrom(env, s, x, unused, sc).Ok?
    ensures FoundUnderOwnAddress(ScanFrom(env, s, x, unused, sc).value.found)
    decreases env.maxIndex - x
  {
    if x < env.maxIndex {
      var d := env.derive(s, Index32(x)).value;
      var sc' := sc.(scannedTo := MaxOf(sc.scannedTo, Index32(x)), partial := sc.partial || OutageAt(env, s, x));
      if UsedAt(env, s, x) {
        ScanKeepsAddresses(env, s, x + 1, 0, sc'.(found := Note(sc.found, AccountAt(env, x, d))));
      } else if unused + 1 < env.gapLimit {
        ScanKeepsAddresses(env, s, x + 1, unused + 1, sc');
      }
    }
  }

  /** The whole discovery: the accounts and flags of the one-index scan, sorted by index, one account per
      address. It fails exactly when a window some scheme needs does not derive. */
  method Discover(env: Env) returns (r: Answer<Discovered>)
    ensures r.Ok? <==> forall s | 0 <= s < env.schemes :: LookaheadDerives(env, s)
    ensures r.Ok? ==>
              && ScanSchemes(env, 0, NOTHING).Ok?
              && var sc := ScanSchemes(env, 0, NOTHING).value;
              && r.value.scannedTo == sc.scannedTo && r.value.hitMax == sc.hitMax && r.value.partial == sc.partial
              && Ranked(r.value.accounts)
              && forall x :: x in r.value.accounts <==> x.address in sc.found && sc.found[x.address] == x
  {
    var sc := NOTHING;
    var s := 0;
    while s < env.schemes
      invariant s <= env.schemes && FoundUnderOwnAddress(sc.found)
      invariant forall t | 0 <= t < s :: LookaheadDerives(env, t)
      invariant ScanSchemes(env, 0, NOTHING) == ScanSchemes(env, s, sc)
    {
      var one := DiscoverScheme(env, s, sc);
      if one.Err? {
        return Err;
      }
      if env.start < env.maxIndex {
        ScanKeepsAddresses(env, s, env.start, 0, sc);
      }
      sc := one.value;
      s := s + 1;
    }
    var accounts := RankByIndex(sc.found);
    r := Ok(Discovered(accounts, sc.scannedTo, sc.hitMax, sc.partial));
  }

  /** The one-index scan of a scheme needs less: only the indices it looks at. So the source fails where
      it would not exactly when something past the stop, in the same window, does not derive. */
  lemma LookaheadCanOnlyFailPastTheStop(env: Env, s: nat, sc: Scan)
    requires env.start < env.maxIndex
    ensures LookaheadDerives(env, s) ==> ScanScheme(env, s, sc).Ok?
    ensures ScanScheme(env, s, sc).Ok? && !LookaheadDerives(env, s) <==>
            && Derives(env, s, env.start, Stop(env, s, env.start, 0) + 1)
            && !Derives(env, s, Stop(env, s, env.start, 0) + 1, LookaheadEnd(env, s))
  {
    var stop := Stop(env, s, env.start, 0);
    ScanFailsExactly(env, s, env.start, 0, sc);
    StopBeforeLookaheadEnd(env, s);
    assert Derives(env, s, env.start, LookaheadEnd(env, s)) <==>
           Derives(env, s, env.start, stop + 1) && Derives(env, s, stop + 1, LookaheadEnd(env, s));
  }

  lemma StopBeforeLookaheadEnd(env: Env, s: nat)
    requires env.start < env.maxIndex
    ensures Stop(env, s, env.start, 0) < LookaheadEnd(env, s)
  {
  }

  /** One chain that saw only index 0 used; index 3 derives or not. Gap limit 2, up to 10. */
  function Example(derives3: bool): Env {
    Env(1, 2, 10, 0, NonceOnly, 1,
        (s: nat, x: nat) => if x == 3 && !derives3 then Err else Ok(Derived("", x)),
        (s: nat, c: nat, i: nat) => Ok((k: nat) => Activity(if i + k == 0 then 1 else 0, 0)),
        map[])
  }

  lemma ExampleStopsAt2(derives3: bool)
    ensures Stop(Example(derives3), 0, 0, 0) == 2 && LookaheadEnd(Example(derives3), 0) == 4
  {
    var env := Example(derives3);
    assert Reports(env, 0, 0, 0, 0);
    assert WindowOf(env, 0) == 0 && WindowOf(env, 1) == 0 && WindowOf(env, 2) == 2;
    assert UsedAt(env, 0, 0) && !UsedAt(env, 0, 1) && !UsedAt(env, 0, 2);
    assert Stop(env, 0, 2, 1) == 2 && Stop(env, 0, 1, 0) == 2;
  }

  /** The windowed scan does fail where the one-index scan does not. */
  lemma LookaheadCanFail()
    ensures ScanScheme(Example(false), 0, NOTHING).Ok? && !LookaheadDerives(Example(false), 0)
  {
    hide Stop, ScanFrom, LookaheadEnd;
    var env := Example(false);
    ExampleStopsAt2(false);
    ScanFailsExactly(env, 0, 0, 0, NOTHING);
    assert env.derive(0, Index32(3)).Err?;
  }

  /** And a successful one does report less than it probed. */
  lemma ScannedToCanMissTheProbed()
    ensures ScanScheme(Example(true), 0, NOTHING).Ok? && LookaheadDerives(Example(true), 0)
    ensures ScanScheme(Example(true), 0, NOTHING).value.scannedTo == 2 < LookaheadEnd(Example(true), 0) - 1
  {
    hide Stop, ScanFrom, LookaheadEnd;
    ExampleStopsAt2(true);
    ScanFailsExactly(Example(true), 0, 0, 0, NOTHING);
    ScannedToIsProbedIff(Example(true), 0);
  }
}
