/** Replacement pricing (src/adapters/gas_oracle.rs): geth's +10% rule and twofold base-fee coverage in
    saturating u128 arithmetic, and how it compounds over the bumps of one stuck transaction.
*/
module GasOracle {
  import opened Types

  const PRICE_BUMP_PCT: nat := 10
  const BASE_FEE_MULTIPLIER: nat := 2

  function Min(a: nat, b: nat): nat { if a <= b then a else b }

  function Max(a: nat, b: nat): nat { if a >= b then a else b }

  function SaturatingMul(a: nat, b: nat): u128 { Min(a * b, U128_MAX) }

  function SaturatingAdd(a: nat, b: nat): u128 { Min(a + b, U128_MAX) }

  function DivCeil(a: nat, b: nat): nat
    requires b > 0
  {
    (a + b - 1) / b
  }

  /** `fee + 1` on u128, as a release build computes it; a debug build stops at the maximum instead. */
  function WrappingSucc(fee: u128): u128 { if fee == U128_MAX then 0 else fee + 1 }

  /** The least fee that replaces `fee`. */
  function Rbf(fee: u128): u128 {
    Max(DivCeil(SaturatingMul(fee, 100 + PRICE_BUMP_PCT), 100), WrappingSucc(fee))
  }

  function Coverage(baseFee: u128, tip: u128): u128 {
    SaturatingAdd(SaturatingMul(baseFee, BASE_FEE_MULTIPLIER), tip)
  }

  /** Reprice `prev` over a base fee; Err is a fee above the ceiling. */
  function Bump(prev: Fees, baseFee: u128, ceiling: u128): Answer<Fees> {
    var tip := Rbf(prev.tip);
    var maxFee := Max(Rbf(prev.maxFee), Coverage(baseFee, tip));
    if maxFee > ceiling then Err else Ok(Fees(maxFee, tip))
  }

  // ----- one fee field -----

  /** The replacement is a real increase for every fee but the largest. */
  lemma RbfIsStrict(fee: u128)
    ensures Rbf(fee) > fee <==> fee < U128_MAX
  {
  }

  /** It clears the node's threshold, and by ten percent, exactly up to where the product saturates
      away the increase. */
  lemma RbfRaisesTenPercent(fee: u128)
    ensures 10 * Rbf(fee) >= 11 * fee <==> 11 * fee <= 10 * DivCeil(U128_MAX, 100)
    ensures fee <= U128_MAX / 110 ==> 10 * Rbf(fee) >= 11 * fee && Rbf(fee) >= 110 * fee / 100
  {
  }

  // ----- one bump -----

  /** Both fail at the top: the raise of the largest fee is no raise at all. */
  lemma RaiseCanFail()
    ensures Rbf(U128_MAX) <= U128_MAX && 10 * Rbf(U128_MAX) < 11 * U128_MAX
  {
    RbfIsStrict(U128_MAX);
    RbfRaisesTenPercent(U128_MAX);
  }

  /** A successful bump: a strict increase of both fields, a tip the max fee can pay, twofold base-fee
      coverage as far as u128 reaches, within the ceiling, and no more than one of these needs. */
  lemma BumpIsSound(prev: Fees, baseFee: u128, ceiling: u128)
    requires prev.maxFee < U128_MAX && prev.tip < U128_MAX
    requires Bump(prev, baseFee, ceiling).Ok?
    ensures var next := Bump(prev, baseFee, ceiling).value;
            && next.maxFee > prev.maxFee && next.tip > prev.tip
            && next.tip <= next.maxFee <= ceiling
            && next.maxFee >= Min(2 * baseFee + next.tip, U128_MAX)
            && (next.maxFee == Rbf(prev.maxFee) || next.maxFee == Min(2 * baseFee + next.tip, U128_MAX))
  {
  }

  /** `t` is the least fee a node takes over `fee`: at least a tenth more, and more. */
  ghost predicate LeastReplacement(fee: u128, t: nat) {
    && 100 * t >= 110 * fee && t > fee
    && forall m: nat | 100 * m >= 110 * fee && m > fee :: t <= m
  }

  /** Below saturation a bump asks for no more than it must: the least tip that replaces the old one, and
      the least max fee that replaces the old one and covers twice the base fee with that tip; and it is
      refused exactly when that exceeds the ceiling. */
  lemma BumpIsLeast(prev: Fees, baseFee: u128, ceiling: u128, tip: nat, raised: nat)
    requires prev.maxFee <= U128_MAX / 110 && prev.tip <= U128_MAX / 110 && baseFee <= U128_MAX / 4
    requires LeastReplacement(prev.tip, tip) && LeastReplacement(prev.maxFee, raised)
    ensures var needed := if raised >= 2 * baseFee + tip then raised else 2 * baseFee + tip;
            && needed <= U128_MAX && tip <= U128_MAX
            && Bump(prev, baseFee, ceiling) == if needed <= ceiling then Ok(Fees(needed, tip)) else Err
  {
    RbfIsLeast(prev.tip, tip);
    RbfIsLeast(prev.maxFee, raised);
  }

  lemma RbfIsLeast(fee: u128, t: nat)
    requires fee <= U128_MAX / 110 && LeastReplacement(fee, t)
    ensures Rbf(fee) == t
  {
    var r := Rbf(fee);
    assert 100 * r >= 110 * fee && r > fee;
    assert r == fee + 1 || 100 * (r - 1) < 110 * fee;
  }

  /** Coverage is a lower bound only: it also caps the max fee exactly when the old fee's own
      replacement is below it. */
  lemma CoverageCapsExactly(prev: Fees, baseFee: u128, ceiling: u128)
    requires Bump(prev, baseFee, ceiling).Ok?
    ensures var next := Bump(prev, baseFee, ceiling).value;
            next.maxFee <= Min(2 * baseFee + next.tip, U128_MAX)
            <==> Rbf(prev.maxFee) <= Min(2 * baseFee + Rbf(prev.tip), U128_MAX)
  {
  }

  lemma CoverageNeedNotCap()
    ensures Bump(Fees(1_000, 100), 1, U128_MAX) == Ok(Fees(1_100, 110))
    ensures 1_100 > Min(2 * 1 + 110, U128_MAX)
  {
  }

  // ----- compounding -----

  /** One recorded bump: both fields at least at their replacement level. */
  predicate RaisedFrom(prev: Fees, next: Fees) {
    next.tip >= Rbf(prev.tip) && next.maxFee >= Rbf(prev.maxFee)
  }

  lemma BumpRaises(prev: Fees, baseFee: u128, ceiling: u128)
    ensures Bump(prev, baseFee, ceiling).Ok? ==> RaisedFrom(prev, Bump(prev, baseFee, ceiling).value)
  {
  }

  /** The fees of one transaction's successive broadcasts. */
  ghost predicate Climbs(fs: seq<Fees>) {
    forall i | 0 < i < |fs| :: RaisedFrom(fs[i - 1], fs[i])
  }

  function Pow(b: nat, n: nat): nat {
    if n == 0 then 1 else b * Pow(b, n - 1)
  }

  /** Every field of every broadcast lies within the envelope, and the envelope below saturation. */
  ghost predicate Within(fs: seq<Fees>, e: GasEnvelope) {
    && e.maxFeeCap <= U128_MAX / 110 && e.maxTipCap <= U128_MAX / 110
    && forall i | 0 <= i < |fs| :: e.Admits(fs[i])
  }

  lemma ScaleStep(p: nat, q: nat, f: nat, g: nat, h: nat)
    requires p * f <= q * g && 11 * g <= 10 * h
    ensures (11 * p) * f <= (10 * q) * h
  {
    calc {
      (11 * p) * f;
      11 * (p * f);
    <=
      11 * (q * g);
      q * (11 * g);
    <= { MulMono(q, 11 * g, 10 * h); }
      q * (10 * h);
      (10 * q) * h;
    }
  }

  lemma MulMono(a: nat, b: nat, c: nat)
    requires b <= c
    ensures a * b <= a * c
  {
  }

  /** Bumps compound: after `n` of them the fee has grown by at least 1.1 to the `n`. */
  lemma {:induction false} BumpsCompound(fs: seq<Fees>, e: GasEnvelope, n: nat)
    requires Climbs(fs) && Within(fs, e) && n < |fs|
    ensures Pow(11, n) * fs[0].maxFee <= Pow(10, n) * fs[n].maxFee
    ensures Pow(11, n) * fs[0].tip <= Pow(10, n) * fs[n].tip
  {
    if n > 0 {
      BumpsCompound(fs, e, n - 1);
      assert RaisedFrom(fs[n - 1], fs[n]);
      RbfRaisesTenPercent(fs[n - 1].maxFee);
      RbfRaisesTenPercent(fs[n - 1].tip);
      ScaleStep(Pow(11, n - 1), Pow(10, n - 1), fs[0].maxFee, fs[n - 1].maxFee, fs[n].maxFee);
      ScaleStep(Pow(11, n - 1), Pow(10, n - 1), fs[0].tip, fs[n - 1].tip, fs[n].tip);
    }
  }

  /** So the envelope bounds the number of bumps of a stuck transaction. */
  lemma EnvelopeBoundsBumps(fs: seq<Fees>, e: GasEnvelope)
    requires Climbs(fs) && Within(fs, e) && fs != []
    ensures var n := |fs| - 1;
            && Pow(11, n) * fs[0].maxFee <= Pow(10, n) * e.maxFeeCap
            && Pow(11, n) * fs[0].tip <= Pow(10, n) * e.maxTipCap
  {
    var n := |fs| - 1;
    BumpsCompound(fs, e, n);
    MulMono(Pow(10, n), fs[n].maxFee, e.maxFeeCap);
    MulMono(Pow(10, n), fs[n].tip, e.maxTipCap);
  }

  lemma TenPercent(fs: seq<Fees>, e: GasEnvelope, i: nat)
    requires Climbs(fs) && Within(fs, e) && i + 1 < |fs|
    ensures 10 * fs[i + 1].maxFee >= 11 * fs[i].maxFee
  {
    assert RaisedFrom(fs[i + 1 - 1], fs[i + 1]);
    RbfRaisesTenPercent(fs[i].maxFee);
  }

  lemma EightBumpsDouble(fs: seq<Fees>, e: GasEnvelope, i: nat)
    requires Climbs(fs) && Within(fs, e) && i + 8 < |fs|
    ensures fs[i + 8].maxFee >= 2 * fs[i].maxFee
  {
    TenPercent(fs, e, i);     TenPercent(fs, e, i + 1); TenPercent(fs, e, i + 2); TenPercent(fs, e, i + 3);
    TenPercent(fs, e, i + 4); TenPercent(fs, e, i + 5); TenPercent(fs, e, i + 6); TenPercent(fs, e, i + 7);
  }

  /** Every eight bumps at least double the max fee. */
  lemma {:induction false} BumpsDouble(fs: seq<Fees>, e: GasEnvelope, k: nat)
    requires Climbs(fs) && Within(fs, e) && 8 * k < |fs|
    ensures Pow(2, k) * fs[0].maxFee <= fs[8 * k].maxFee
  {
    if k > 0 {
      BumpsDouble(fs, e, k - 1);
      EightBumpsDouble(fs, e, 8 * (k - 1));
    }
  }

  /** Under the default envelope a transaction is broadcast at most 320 times. */
  lemma DefaultEnvelopeBound(fs: seq<Fees>)
    requires Climbs(fs) && Within(fs, DEFAULT_ENVELOPE) && fs != [] && fs[0].maxFee >= 1
    ensures |fs| <= 320
  {
    if |fs| > 320 {
      assert DEFAULT_ENVELOPE.Admits(fs[320]);
      BumpsDouble(fs, DEFAULT_ENVELOPE, 40);
      assert Pow(2, 10) == 1024;
      PowSplit(10, 10);
      PowSplit(20, 20);
      assert Pow(2, 40) > 1_000_000_000_000;
      MulMono(Pow(2, 40), 1, fs[0].maxFee);
    }
  }

  lemma {:induction false} PowSplit(m: nat, n: nat)
    ensures Pow(2, m + n) == Pow(2, m) * Pow(2, n)
    decreases n
  {
    if n > 0 {
      PowSplit(m, n - 1);
      assert Pow(2, m + n) == 2 * Pow(2, m + n - 1);
    }
  }
}
