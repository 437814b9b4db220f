/**
 What splitting a deposit does to its bonus under the arithmetic of src/hooks/useDualStakingTiers.ts:
 each part gets the bonus of the tier it reaches by itself.
 */
module DualStakingSplits {
  import opened DualStaking
  import opened RealFacts

  datatype Part = Part(core: real, btc: real)

  ghost predicate NonNegative(parts: seq<Part>) {
    forall i :: 0 <= i < |parts| ==> parts[i].core >= 0.0 && parts[i].btc >= 0.0
  }

  /** What the parts add up to. */
  function Whole(parts: seq<Part>): Part {
    if parts == [] then Part(0.0, 0.0)
    else
      var rest := Whole(parts[1..]);
      Part(parts[0].core + rest.core, parts[0].btc + rest.btc)
  }

  function Value(part: Part, p: Prices): real {
    TotalUsd(part.core, part.btc, p)
  }

  function TierOf(part: Part, p: Prices): Tier {
    CalculateTier(part.core, part.btc, p)
  }

  function Rate(part: Part, p: Prices, log10: real -> real): real {
    Bonus(part.core, part.btc, p, log10)
  }

  function Total(parts: seq<Part>, g: Part -> real): real {
    if parts == [] then 0.0 else g(parts[0]) + Total(parts[1..], g)
  }

  function Values(p: Prices): Part -> real {
    part => Value(part, p)
  }

  function Rates(p: Prices, log10: real -> real): Part -> real {
    part => Rate(part, p, log10)
  }

  function Weighted(value: Part -> real, rate: Part -> real): Part -> real {
    part => value(part) * rate(part)
  }

  function Earnings(p: Prices, log10: real -> real): Part -> real {
    Weighted(Values(p), Rates(p, log10))
  }

  /** What the parts earn over their plain yield, each at the bonus of its own tier. */
  function PartsEarn(parts: seq<Part>, p: Prices, log10: real -> real): real {
    Total(parts, Earnings(p, log10))
  }

  lemma {:induction false} PartsWithinWhole(parts: seq<Part>)
    requires NonNegative(parts)
    ensures Whole(parts).core >= 0.0 && Whole(parts).btc >= 0.0
    ensures forall i :: 0 <= i < |parts| ==>
              parts[i].core <= Whole(parts).core && parts[i].btc <= Whole(parts).btc
  {
    if parts == [] {
    } else {
      PartsWithinWhole(parts[1..]);
      forall i | 0 <= i < |parts|
        ensures parts[i].core <= Whole(parts).core && parts[i].btc <= Whole(parts).btc
      {
        assert i > 0 ==> parts[i] == parts[1..][i - 1];
      }
    }
  }

  lemma Distribute(a: real, b: real, x: real)
    ensures (a + b) * x == a * x + b * x
  {
  }

  lemma Weigh(core: real, btc: real, core': real, btc': real, p: Prices)
    ensures TotalUsd(core + core', btc + btc', p) == TotalUsd(core, btc, p) + TotalUsd(core', btc', p)
  {
    Distribute(core, core', p.core);
    Distribute(btc, btc', p.btc);
  }

  lemma {:induction false} ValueOfWhole(parts: seq<Part>, p: Prices)
    ensures Total(parts, Values(p)) == Value(Whole(parts), p)
  {
    if parts == [] {
    } else {
      var first, rest := parts[0], Whole(parts[1..]);
      ValueOfWhole(parts[1..], p);
      Weigh(first.core, first.btc, rest.core, rest.btc, p);
    }
  }

  /** If no part is paid more than `bound`, neither are all of them together. */
  lemma {:induction false} TotalAtMost(parts: seq<Part>, value: Part -> real, rate: Part -> real, bound: real)
    requires forall i :: 0 <= i < |parts| ==> value(parts[i]) >= 0.0 && rate(parts[i]) <= bound
    ensures Total(parts, Weighted(value, rate)) <= Total(parts, value) * bound
  {
    if parts == [] {
    } else {
      TotalAtMost(parts[1..], value, rate, bound);
      TimesMonotone(rate(parts[0]), bound, value(parts[0]));
      Distribute(value(parts[0]), Total(parts[1..], value), bound);
    }
  }

  lemma {:induction false} TotalAtMostOf(parts: seq<Part>, value: Part -> real, rate: Part -> real,
                                         bound: real, total: real, most: real)
    requires forall i :: 0 <= i < |parts| ==> value(parts[i]) >= 0.0 && rate(parts[i]) <= bound
    requires total == Total(parts, value) && most == total * bound
    ensures Total(parts, Weighted(value, rate)) <= most
  {
    TotalAtMost(parts, value, rate, bound);
  }

  lemma {:induction false} TwoPartsTotal(a: Part, b: Part, g: Part -> real)
    ensures Total([a, b], g) == g(a) + g(b) && Total([a], g) == g(a)
    ensures Whole([a, b]) == Part(a.core + b.core, a.btc + b.btc) && Whole([a]) == a
  {
    assert [a, b][1..] == [b] && [b][1..] == [] && [a][1..] == [];
    assert Whole([]) == Part(0.0, 0.0);
    assert Whole([a]) == a && Whole([b]) == b;
    assert Total([b], g) == g(b);
  }

  /** If no part is paid more than the whole, neither are all of them together. */
  lemma {:induction false} TotalAtMostWhole(parts: seq<Part>, value: Part -> real, rate: Part -> real)
    requires Total(parts, value) == value(Whole(parts))
    requires forall i :: 0 <= i < |parts| ==> value(parts[i]) >= 0.0 && rate(parts[i]) <= rate(Whole(parts))
    ensures Total(parts, Weighted(value, rate)) <= Total([Whole(parts)], Weighted(value, rate))
  {
    var whole := Whole(parts);
    TotalAtMostOf(parts, value, rate, rate(whole), value(whole), value(whole) * rate(whole));
    TwoPartsTotal(whole, whole, Weighted(value, rate));
  }

  lemma ValuesNonNegative(parts: seq<Part>, p: Prices)
    requires Positive(p) && NonNegative(parts)
    ensures forall i :: 0 <= i < |parts| ==> Values(p)(parts[i]) >= 0.0
  {
    forall i | 0 <= i < |parts|
      ensures Values(p)(parts[i]) >= 0.0
    {
      TotalMonotone(0.0, 0.0, parts[i].core, parts[i].btc, p);
    }
  }

  lemma {:induction false} PartsEarnAtMost(parts: seq<Part>, p: Prices, log10: real -> real, bound: real,
                                           total: real, most: real)
    requires Positive(p) && NonNegative(parts)
    requires forall i :: 0 <= i < |parts| ==> Rate(parts[i], p, log10) <= bound
    requires total == Value(Whole(parts), p) && most == total * bound
    ensures PartsEarn(parts, p, log10) <= most
  {
    ValuesNonNegative(parts, p);
    ValueOfWhole(parts, p);
    TotalAtMostOf(parts, Values(p), Rates(p, log10), bound, total, most);
  }

  lemma {:induction false} WholeEarnsMost(parts: seq<Part>, p: Prices, log10: real -> real)
    requires Positive(p) && NonNegative(parts)
    requires forall i :: 0 <= i < |parts| ==> Rate(parts[i], p, log10) <= Rate(Whole(parts), p, log10)
    ensures PartsEarn(parts, p, log10) <= PartsEarn([Whole(parts)], p, log10)
  {
    ValuesNonNegative(parts, p);
    ValueOfWhole(parts, p);
    TotalAtMostWhole(parts, Values(p), Rates(p, log10));
  }

  lemma {:induction false} WholeEarns(whole: Part, p: Prices, log10: real -> real, earned: real)
    requires earned == Value(whole, p) * Rate(whole, p, log10)
    ensures PartsEarn([whole], p, log10) == earned
  {
    TwoPartsTotal(whole, whole, Earnings(p, log10));
  }

  // ---------------------------------------------------------------- splits in proportion

  predicate Aligned(a: Part, b: Part) {
    a.core * b.btc == a.btc * b.core
  }

  /** Every part has the ratio of the whole; no division, so that either amount may be zero. */
  ghost predicate Proportional(parts: seq<Part>) {
    forall i :: 0 <= i < |parts| ==> Aligned(parts[i], Whole(parts))
  }

  lemma ScaleBetween(part: Part, whole: Part, k: real)
    requires part.btc > 0.0 && part.btc <= whole.btc && k == whole.btc / part.btc && Aligned(part, whole)
    ensures k >= 1.0 && k * part.btc == whole.btc && k * part.core == whole.core
  {
    assert k * part.btc == whole.btc;
    assert part.btc * (k * part.core) == part.btc * whole.core;
  }

  lemma TooLittleBtcEarnsNothing(part: Part, whole: Part, p: Prices, log10: real -> real)
    requires LogLike(log10) && part.btc < MIN_BTC
    ensures Rate(part, p, log10) <= Rate(whole, p, log10)
  {
    BonusWithinCap(whole.core, whole.btc, TierOf(whole, p), p, log10);
  }

  lemma ScaledRate(part: Part, whole: Part, k: real, p: Prices, log10: real -> real)
    requires LogLike(log10) && Positive(p) && part.core >= 0.0 && part.btc >= 0.0
    requires k >= 1.0 && k * part.core == whole.core && k * part.btc == whole.btc
    ensures Rate(part, p, log10) <= Rate(whole, p, log10)
  {
    ScalingNeverLowersBonus(part.core, part.btc, k, p, log10);
  }

  lemma PartRateAtMostWhole(part: Part, whole: Part, p: Prices, log10: real -> real)
    requires LogLike(log10) && Positive(p) && Aligned(part, whole)
    requires 0.0 <= part.core && 0.0 <= part.btc <= whole.btc
    ensures Rate(part, p, log10) <= Rate(whole, p, log10)
  {
    if part.btc < MIN_BTC {
      TooLittleBtcEarnsNothing(part, whole, p, log10);
    } else {
      var k := whole.btc / part.btc;
      ScaleBetween(part, whole, k);
      ScaledRate(part, whole, k, p, log10);
    }
  }

  /** Splitting a deposit proportionally, in any number of parts, never pays. */
  lemma {:induction false} SplittingNeverPays(parts: seq<Part>, p: Prices, log10: real -> real)
    requires LogLike(log10) && Positive(p) && NonNegative(parts) && Proportional(parts)
    ensures PartsEarn(parts, p, log10) <= PartsEarn([Whole(parts)], p, log10)
  {
    PartsWithinWhole(parts);
    forall i | 0 <= i < |parts|
      ensures Rate(parts[i], p, log10) <= Rate(Whole(parts), p, log10)
    {
      assert Aligned(parts[i], Whole(parts));
      PartRateAtMostWhole(parts[i], Whole(parts), p, log10);
    }
    WholeEarnsMost(parts, p, log10);
  }

  // ---------------------------------------------------------------- any splits

  /** The most any part of the whole is paid: nothing below Bronze, the cap of the whole's tier otherwise. */
  function BestRate(whole: Part, p: Prices): real {
    if TierOf(whole, p).Base? then 0.0 else MaxBonus(TierOf(whole, p))
  }

  lemma {:induction false} PartRateAtMostBest(parts: seq<Part>, i: nat, p: Prices, log10: real -> real)
    requires LogLike(log10) && Positive(p) && NonNegative(parts) && i < |parts|
    ensures Rate(parts[i], p, log10) <= BestRate(Whole(parts), p)
  {
    var part, whole := parts[i], Whole(parts);
    PartsWithinWhole(parts);
    TierIsMonotone(part.core, part.btc, whole.core, whole.btc, p);
    BonusWithinCap(part.core, part.btc, TierOf(part, p), p, log10);
  }

  /** However a deposit is divided, the parts never earn more than its value at its own tier's cap. */
  lemma {:induction false} PartsEarnAtMostCap(parts: seq<Part>, p: Prices, log10: real -> real)
    requires LogLike(log10) && Positive(p) && NonNegative(parts)
    ensures PartsEarn(parts, p, log10) <= Value(Whole(parts), p) * BestRate(Whole(parts), p)
  {
    forall i | 0 <= i < |parts|
      ensures Rate(parts[i], p, log10) <= BestRate(Whole(parts), p)
    {
      PartRateAtMostBest(parts, i, p, log10);
    }
    var total, best := Value(Whole(parts), p), BestRate(Whole(parts), p);
    PartsEarnAtMost(parts, p, log10, best, total, total * best);
  }

  /** The deposit is in Base, or its size makes up for its distance from the optimal ratio. */
  predicate AtCap(whole: Part, p: Prices, log10: real -> real) {
    var tier := TierOf(whole, p);
    tier.Base?
    || RatioScore(whole.core, whole.btc, tier) * (1.0 + SizeMultiplier(Value(whole, p), log10)) >= 1.0
  }

  lemma ReachesItself(x: real, cap: real)
    requires cap > 0.0
    ensures x * cap >= cap <==> x >= 1.0
  {
    if x >= 1.0 {
      TimesMonotone(1.0, x, cap);
    } else {
      assert (1.0 - x) * cap > 0.0;
    }
  }

  lemma Reorder(a: real, b: real, c: real)
    ensures a * b * c == a * c * b
  {
  }

  lemma MinReached(score: real, cap: real, factor: real)
    requires cap > 0.0
    ensures Min(cap, score * cap * factor) == cap <==> score * factor >= 1.0
  {
    Reorder(score, cap, factor);
    ReachesItself(score * factor, cap);
  }

  lemma CapReached(score: real, cap: real, size: real)
    requires cap > 0.0
    ensures Capped(score, cap, size) == cap <==> score * (1.0 + size) >= 1.0
  {
    MinReached(score, cap, 1.0 + size);
  }

  /** A deposit is paid the best rate of all its parts exactly when it is at its cap in this sense. */
  lemma BestRateExactlyWhen(whole: Part, p: Prices, log10: real -> real)
    ensures Rate(whole, p, log10) == BestRate(whole, p) <==> AtCap(whole, p, log10)
  {
    var tier := TierOf(whole, p);
    if !tier.Base? {
      CapReached(RatioScore(whole.core, whole.btc, tier), MaxBonus(tier), SizeMultiplier(Value(whole, p), log10));
    }
  }

  /** For such a deposit no split pays, in whatever parts, proportional or not. */
  lemma {:induction false} NoSplitPays(parts: seq<Part>, p: Prices, log10: real -> real)
    requires LogLike(log10) && Positive(p) && NonNegative(parts)
    requires AtCap(Whole(parts), p, log10)
    ensures PartsEarn(parts, p, log10) <= PartsEarn([Whole(parts)], p, log10)
  {
    BestRateExactlyWhen(Whole(parts), p, log10);
    forall i | 0 <= i < |parts|
      ensures Rate(parts[i], p, log10) <= BestRate(Whole(parts), p)
    {
      PartRateAtMostBest(parts, i, p, log10);
    }
    WholeEarnsMost(parts, p, log10);
  }

  // ---------------------------------------------------------------- splitting off the surplus

  /** As much of the deposit as can be paired at the optimal ratio. */
  function Paired(whole: Part): Part {
    var btc := Min(whole.btc, whole.core / 50000.0);
    Part(50000.0 * btc, btc)
  }

  function Surplus(whole: Part): Part {
    Part(whole.core - Paired(whole).core, whole.btc - Paired(whole).btc)
  }

  lemma Cancel(x: real, y: real)
    requires y == x / 50000.0
    ensures 50000.0 * y == x
  {
  }

  lemma PairedRate(whole: Part, p: Prices, log10: real -> real)
    requires LogLike(log10)
    ensures Rate(Paired(whole), p, log10) == BestRate(Paired(whole), p)
    ensures Rate(Surplus(whole), p, log10) == 0.0
  {
    var part := Paired(whole);
    var tier := TierOf(part, p);
    Cancel(whole.core, whole.core / 50000.0);
    assert Surplus(whole).btc == 0.0 || Surplus(whole).core == 0.0;
    if !tier.Base? {
      OptimalRatioGetsCap(part.btc, tier, p, log10);
    }
  }

  lemma PairedEarnings(whole: Part, p: Prices, log10: real -> real)
    requires LogLike(log10)
    ensures Earnings(p, log10)(Paired(whole)) == Value(Paired(whole), p) * BestRate(Paired(whole), p)
    ensures Earnings(p, log10)(Surplus(whole)) == 0.0
  {
    PairedRate(whole, p, log10);
  }

  /** The two parts make up the deposit. */
  lemma {:induction false} SurplusIsTheRest(whole: Part)
    requires whole.core >= 0.0 && whole.btc >= 0.0
    ensures NonNegative([Paired(whole), Surplus(whole)])
    ensures Whole([Paired(whole), Surplus(whole)]) == whole
  {
    Cancel(whole.core, whole.core / 50000.0);
    TwoPartsTotal(Paired(whole), Surplus(whole), _ => 0.0);
  }

  lemma PairedAndSurplusEarn(whole: Part, p: Prices, log10: real -> real)
    requires LogLike(log10)
    ensures PartsEarn([Paired(whole), Surplus(whole)], p, log10)
         == Value(Paired(whole), p) * BestRate(Paired(whole), p)
  {
    PairedEarnings(whole, p, log10);
    TwoPartsTotal(Paired(whole), Surplus(whole), Earnings(p, log10));
  }

  lemma WholeEarnsItsRate(whole: Part, p: Prices, log10: real -> real)
    ensures PartsEarn([whole], p, log10) == Value(whole, p) * Rate(whole, p, log10)
  {
    WholeEarns(whole, p, log10, Value(whole, p) * Rate(whole, p, log10));
  }

  /**
   Splitting off what is out of ratio: the paired part earns the cap of its own tier, the surplus, of
   one asset only, nothing. It pays exactly when that is more than the whole earns at its bonus.
   */
  lemma SplittingOffSurplusPaysExactlyWhen(whole: Part, p: Prices, log10: real -> real)
    requires LogLike(log10)
    ensures PartsEarn([Paired(whole), Surplus(whole)], p, log10) > PartsEarn([whole], p, log10)
       <==> Value(Paired(whole), p) * BestRate(Paired(whole), p) > Value(whole, p) * Rate(whole, p, log10)
  {
    PairedAndSurplusEarn(whole, p, log10);
    WholeEarnsItsRate(whole, p, log10);
  }

  /**
   Such a deposit: 200,000 CORE and one BTC are so far from the optimal ratio that they earn nothing,
   while 50,000 of the CORE with that BTC earn Bronze's whole cap.
   */
  lemma {:induction false} OtherSplitsCanPay(log10: real -> real)
    requires LogLike(log10)
    ensures var p, whole := Prices(0.4, 65000.0), Part(200000.0, 1.0);
            && Rate(whole, p, log10) == 0.0
            && Rate(Paired(whole), p, log10) == MaxBonus(Bronze)
            && Whole([Paired(whole), Surplus(whole)]) == whole
            && PartsEarn([Paired(whole), Surplus(whole)], p, log10) > PartsEarn([whole], p, log10)
  {
    var p, whole := Prices(0.4, 65000.0), Part(200000.0, 1.0);
    assert RatioScore(200000.0, 1.0, CalculateTier(200000.0, 1.0, p)) == 0.0;
    assert Paired(whole) == Part(50000.0, 1.0) && TierOf(Paired(whole), p) == Bronze;
    OptimalRatioGetsCap(1.0, Bronze, p, log10);
    SurplusIsTheRest(whole);
    SplittingOffSurplusPaysExactlyWhen(whole, p, log10);
  }

  // ---------------------------------------------------------------- deposits that earn nothing

  ghost predicate Splits(parts: seq<Part>, whole: Part) {
    NonNegative(parts) && Whole(parts) == whole
  }

  ghost predicate Pays(parts: seq<Part>, whole: Part, p: Prices, log10: real -> real) {
    Splits(parts, whole) && PartsEarn(parts, p, log10) > PartsEarn([whole], p, log10)
  }

  ghost predicate SomeSplitPays(whole: Part, p: Prices, log10: real -> real) {
    exists parts :: Pays(parts, whole, p, log10)
  }

  lemma RatioBelow(core: real, btc: real)
    requires btc > 0.0
    ensures core / btc < 100000.0 <==> core < 100000.0 * btc
  {
    var q := core / btc;
    assert q * btc == core;
    if q >= 100000.0 {
      TimesMonotone(100000.0, q, btc);
    } else {
      assert (100000.0 - q) * btc > 0.0;
    }
  }

  /** What earns a bonus: at least Bronze, and less than twice the optimal ratio. */
  lemma EarnsExactlyWhen(part: Part, p: Prices, log10: real -> real)
    requires LogLike(log10)
    ensures Rate(part, p, log10) >= 0.0
    ensures Rate(part, p, log10) > 0.0
       <==> && part.core >= 10.0 && part.btc >= 0.001 && Value(part, p) >= 10000.0
            && part.core < 100000.0 * part.btc
  {
    var tier := TierOf(part, p);
    TierExactlyWhen(part.core, part.btc, p, Bronze);
    BonusWithinCap(part.core, part.btc, tier, p, log10);
    if !tier.Base? {
      NoBonusExactlyWhen(part.core, part.btc, tier, p, log10);
      RatioBelow(part.core, part.btc);
      assert part.core / part.btc > 0.0;
    }
  }

  /** What the BTC is worth together with less than twice the CORE that would suit it. */
  function Reach(btc: real, p: Prices): real {
    btc * (100000.0 * p.core + p.btc)
  }

  lemma ReachIs(btc: real, p: Prices)
    ensures Reach(btc, p) == TotalUsd(100000.0 * btc, btc, p)
  {
  }

  lemma MoreBtcReachesMore(core: real, btc: real, btc': real, p: Prices)
    requires Positive(p) && 0.0 <= btc <= btc' && core < 100000.0 * btc
    ensures TotalUsd(core, btc, p) < Reach(btc', p)
  {
    var core' := 100000.0 * btc';
    ReachIs(btc', p);
    assert (core' - core) * p.core > 0.0;
    TimesMonotone(btc, btc', p.btc);
  }

  lemma EarningPartNeeds(part: Part, whole: Part, p: Prices, log10: real -> real)
    requires LogLike(log10) && Positive(p) && part.btc <= whole.btc && Rate(part, p, log10) > 0.0
    ensures Reach(whole.btc, p) > 10000.0
  {
    EarnsExactlyWhen(part, p, log10);
    MoreBtcReachesMore(part.core, part.btc, whole.btc, p);
  }

  lemma NothingTimes(value: real)
    ensures 0.0 == value * 0.0
  {
  }

  lemma {:induction false} PayingSplitNeeds(parts: seq<Part>, p: Prices, log10: real -> real)
    requires LogLike(log10) && Positive(p) && NonNegative(parts)
    requires PartsEarn(parts, p, log10) > 0.0
    ensures Reach(Whole(parts).btc, p) > 10000.0
  {
    if forall i :: 0 <= i < |parts| ==> Rate(parts[i], p, log10) <= 0.0 {
      NothingTimes(Value(Whole(parts), p));
      PartsEarnAtMost(parts, p, log10, 0.0, Value(Whole(parts), p), 0.0);
      assert false;
    } else {
      var i :| 0 <= i < |parts| && !(Rate(parts[i], p, log10) <= 0.0);
      PartsWithinWhole(parts);
      EarningPartNeeds(parts[i], Whole(parts), p, log10);
    }
  }

  /** The least CORE that brings the BTC to Bronze. */
  function BronzeCore(btc: real, p: Prices): real
    requires p.core > 0.0
  {
    Max(10.0, (10000.0 - btc * p.btc) / p.core)
  }

  lemma BronzeCoreIs(btc: real, p: Prices)
    requires Positive(p) && btc >= 0.001 && Reach(btc, p) > 10000.0
    ensures TotalUsd(BronzeCore(btc, p), btc, p) >= 10000.0
    ensures BronzeCore(btc, p) < 100000.0 * btc
  {
    var rest := 10000.0 - btc * p.btc;
    var q := rest / p.core;
    assert q * p.core == rest;
    TimesMonotone(q, BronzeCore(btc, p), p.core);
    ReachIs(btc, p);
    if q >= 100000.0 * btc {
      TimesMonotone(100000.0 * btc, q, p.core);
    }
  }

  /** All of the BTC with just enough CORE, and the rest of the CORE. */
  function BronzeSplit(whole: Part, p: Prices): seq<Part>
    requires p.core > 0.0
  {
    var core := BronzeCore(whole.btc, p);
    [Part(core, whole.btc), Part(whole.core - core, 0.0)]
  }

  lemma {:induction false} BronzeSplitSplits(whole: Part, p: Prices)
    requires Positive(p) && whole.btc >= 0.001 && whole.core >= 100000.0 * whole.btc
    requires Reach(whole.btc, p) > 10000.0
    ensures Splits(BronzeSplit(whole, p), whole)
  {
    BronzeCoreIs(whole.btc, p);
    var parts := BronzeSplit(whole, p);
    TwoPartsTotal(parts[0], parts[1], _ => 0.0);
  }

  lemma ProductPositive(value: real, rate: real, other: real)
    requires value > 0.0 && rate > 0.0
    ensures value * rate + other * 0.0 > 0.0
  {
  }

  lemma {:induction false} OneOfTwoEarns(a: Part, b: Part, value: Part -> real, rate: Part -> real)
    requires value(a) > 0.0 && rate(a) > 0.0 && rate(b) == 0.0
    ensures Total([a, b], Weighted(value, rate)) > 0.0
  {
    TwoPartsTotal(a, b, Weighted(value, rate));
    ProductPositive(value(a), rate(a), value(b));
  }

  lemma {:induction false} BronzeSplitEarns(whole: Part, p: Prices, log10: real -> real)
    requires LogLike(log10) && Positive(p) && whole.btc >= 0.001 && Reach(whole.btc, p) > 10000.0
    ensures PartsEarn(BronzeSplit(whole, p), p, log10) > 0.0
  {
    var core := BronzeCore(whole.btc, p);
    BronzeCoreIs(whole.btc, p);
    EarnsExactlyWhen(Part(core, whole.btc), p, log10);
    OneOfTwoEarns(Part(core, whole.btc), Part(whole.core - core, 0.0), Values(p), Rates(p, log10));
  }

  lemma {:induction false} BaseSplitsEarnNothing(parts: seq<Part>, p: Prices, log10: real -> real)
    requires LogLike(log10) && Positive(p) && NonNegative(parts) && TierOf(Whole(parts), p).Base?
    ensures PartsEarn(parts, p, log10) <= 0.0
  {
    forall i | 0 <= i < |parts|
      ensures Rate(parts[i], p, log10) <= 0.0
    {
      PartRateAtMostBest(parts, i, p, log10);
    }
    NothingTimes(Value(Whole(parts), p));
    PartsEarnAtMost(parts, p, log10, 0.0, Value(Whole(parts), p), 0.0);
  }

  lemma {:induction false} EarnsNothing(whole: Part, p: Prices, log10: real -> real)
    requires Rate(whole, p, log10) == 0.0
    ensures PartsEarn([whole], p, log10) == 0.0
  {
    NothingTimes(Value(whole, p));
    WholeEarns(whole, p, log10, 0.0);
  }

  lemma {:induction false} SomeSplitPaysThen(whole: Part, p: Prices, log10: real -> real) returns (parts: seq<Part>)
    requires LogLike(log10) && Positive(p) && Rate(whole, p, log10) == 0.0
    requires !TierOf(whole, p).Base? && Reach(whole.btc, p) > 10000.0
    ensures Pays(parts, whole, p, log10)
  {
    TierExactlyWhen(whole.core, whole.btc, p, Bronze);
    EarnsExactlyWhen(whole, p, log10);
    parts := BronzeSplit(whole, p);
    BronzeSplitSplits(whole, p);
    BronzeSplitEarns(whole, p, log10);
    EarnsNothing(whole, p, log10);
  }

  lemma {:induction false} PayingSplitMeans(parts: seq<Part>, whole: Part, p: Prices, log10: real -> real)
    requires LogLike(log10) && Positive(p) && Rate(whole, p, log10) == 0.0 && Pays(parts, whole, p, log10)
    ensures !TierOf(whole, p).Base? && Reach(whole.btc, p) > 10000.0
  {
    EarnsNothing(whole, p, log10);
    PayingSplitNeeds(parts, p, log10);
    if TierOf(whole, p).Base? {
      BaseSplitsEarnNothing(parts, p, log10);
    }
  }

  /**
   Exactly when splitting pays, for every deposit that earns nothing as a whole: it must be above Base,
   that is, have too much CORE for its BTC, and the BTC with less than twice its share of CORE must reach
   Bronze.
   */
  lemma {:induction false} SomeSplitPaysExactlyWhen(whole: Part, p: Prices, log10: real -> real)
    requires LogLike(log10) && Positive(p) && Rate(whole, p, log10) == 0.0
    ensures SomeSplitPays(whole, p, log10) <==> !TierOf(whole, p).Base? && Reach(whole.btc, p) > 10000.0
  {
    if SomeSplitPays(whole, p, log10) {
      var parts :| Pays(parts, whole, p, log10);
      PayingSplitMeans(parts, whole, p, log10);
    }
    if !TierOf(whole, p).Base? && Reach(whole.btc, p) > 10000.0 {
      var parts := SomeSplitPaysThen(whole, p, log10);
    }
  }
}
