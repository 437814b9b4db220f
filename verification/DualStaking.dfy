/**
 Dual staking: the tier tables of src/config/dualStakingTiers.ts, the tier and bonus arithmetic of
 src/hooks/useDualStakingTiers.ts, and the deposit guards of src/hooks/useDualStakingValidation.ts.

 JavaScript numbers are idealised as reals. The logarithm of the size multiplier is a parameter:
 every result holds for any function that is non-negative at 1 and monotone from there on.
 */
module DualStaking {
  import opened RealFacts

  datatype Tier = Base | Bronze | Silver | Gold | Satoshi

  datatype Prices = Prices(core: real, btc: real)

  const MIN_CORE := 10.0
  const MIN_BTC := 0.001
  const MIN_USD := 50.0

  function OptimalRatio(tier: Tier): real {
    if tier.Base? then 10000.0 else 50000.0
  }

  /** The lower USD threshold of a tier. */
  function Threshold(tier: Tier): real {
    match tier
    case Base => 1000.0
    case Bronze => 10000.0
    case Silver => 100000.0
    case Gold => 500000.0
    case Satoshi => 1000000.0
  }

  function MaxBonus(tier: Tier): real {
    match tier
    case Base => 0.05
    case Bronze => 0.10
    case Silver => 0.25
    case Gold => 0.40
    case Satoshi => 0.50
  }

  function Level(tier: Tier): nat {
    match tier
    case Base => 0
    case Bronze => 1
    case Silver => 2
    case Gold => 3
    case Satoshi => 4
  }

  function Max(a: real, b: real): real {
    if a < b then b else a
  }

  function Min(a: real, b: real): real {
    if a < b then a else b
  }

  function Abs(a: real): real {
    if a < 0.0 then -a else a
  }

  /** A missing (zero) price falls back to a default. */
  function AssetPrices(feed: Prices): Prices {
    Prices(if feed.core == 0.0 then 1.5 else feed.core, if feed.btc == 0.0 then 65000.0 else feed.btc)
  }

  predicate Positive(p: Prices) {
    p.core > 0.0 && p.btc > 0.0
  }

  function TotalUsd(core: real, btc: real, p: Prices): real {
    core * p.core + btc * p.btc
  }

  function CalculateTier(core: real, btc: real, p: Prices): Tier {
    if core < MIN_CORE || btc < MIN_BTC then Base
    else
      var total := TotalUsd(core, btc, p);
      if total < MIN_USD then Base
      else if total >= Threshold(Satoshi) then Satoshi
      else if total >= Threshold(Gold) then Gold
      else if total >= Threshold(Silver) then Silver
      else if total >= Threshold(Bronze) then Bronze
      else Base
  }

  function RatioScore(core: real, btc: real, tier: Tier): real
    requires btc != 0.0
  {
    Max(0.0, 1.0 - Abs(core / btc - OptimalRatio(tier)) / OptimalRatio(tier))
  }

  function SizeMultiplier(total: real, log10: real -> real): real {
    log10(Max(1.0, total / 1000.0)) / 2.0
  }

  function Capped(score: real, cap: real, size: real): real {
    Min(cap, score * cap * (1.0 + size))
  }

  function RatioBonus(core: real, btc: real, tier: Tier, p: Prices, log10: real -> real): real {
    if tier.Base? || btc == 0.0 then 0.0
    else
      Capped(RatioScore(core, btc, tier), MaxBonus(tier),
             SizeMultiplier(TotalUsd(core, btc, p), log10))
  }

  /** The bonus a deposit gets in the tier it qualifies for. */
  function Bonus(core: real, btc: real, p: Prices, log10: real -> real): real {
    RatioBonus(core, btc, CalculateTier(core, btc, p), p, log10)
  }

  ghost predicate LogLike(log10: real -> real) {
    log10(1.0) >= 0.0 && forall x, y :: 1.0 <= x <= y ==> log10(x) <= log10(y)
  }

  // ---------------------------------------------------------------- size is rewarded

  lemma TotalMonotone(core: real, btc: real, core': real, btc': real, p: Prices)
    requires Positive(p) && core <= core' && btc <= btc'
    ensures TotalUsd(core, btc, p) <= TotalUsd(core', btc', p)
  {
    TimesMonotone(core, core', p.core);
    TimesMonotone(btc, btc', p.btc);
  }

  /**
   A deposit reaches a tier above Base exactly when it meets the two token minimums and the tier's USD
   threshold. The per-tier token minimums of the project's README are not enforced.
   */
  lemma TierExactlyWhen(core: real, btc: real, p: Prices, tier: Tier)
    requires !tier.Base?
    ensures Level(CalculateTier(core, btc, p)) >= Level(tier)
       <==> core >= 10.0 && btc >= 0.001 && TotalUsd(core, btc, p) >= Threshold(tier)
  {
    var total := TotalUsd(core, btc, p);
    assert CalculateTier(core, btc, p).Base? <==> core < 10.0 || btc < 0.001 || total < 10000.0;
  }

  /** Adding to either side of a deposit never lowers its tier. */
  lemma TierIsMonotone(core: real, btc: real, core': real, btc': real, p: Prices)
    requires Positive(p) && core <= core' && btc <= btc'
    ensures Level(CalculateTier(core, btc, p)) <= Level(CalculateTier(core', btc', p))
    ensures MaxBonus(CalculateTier(core, btc, p)) <= MaxBonus(CalculateTier(core', btc', p))
  {
    TotalMonotone(core, btc, core', btc', p);
  }

  lemma SizeMultiplierMonotone(total: real, total': real, log10: real -> real)
    requires LogLike(log10) && total <= total'
    ensures 0.0 <= SizeMultiplier(total, log10) <= SizeMultiplier(total', log10)
  {
    var x, y := Max(1.0, total / 1000.0), Max(1.0, total' / 1000.0);
    assert log10(1.0) <= log10(x) <= log10(y);
  }

  lemma ProductsMonotone(a: real, a': real, b: real, b': real)
    requires 0.0 <= a <= a' && 0.0 <= b <= b'
    ensures 0.0 <= a * b <= a' * b'
  {
    TimesMonotone(0.0, a, b);
    TimesMonotone(a, a', b);
    TimesMonotone(b, b', a');
  }

  lemma MinMonotone(a: real, a': real, b: real, b': real)
    requires 0.0 <= a <= a' && 0.0 <= b <= b'
    ensures 0.0 <= Min(a, b) <= Min(a', b') && Min(a, b) <= a
  {
  }

  lemma CappedMonotone(score: real, cap: real, cap': real, size: real, size': real)
    requires score >= 0.0 && 0.0 <= cap <= cap' && 0.0 <= size <= size'
    ensures 0.0 <= Capped(score, cap, size) <= Capped(score, cap', size')
    ensures Capped(score, cap, size) <= cap
  {
    ProductsMonotone(score, score, cap, cap');
    ProductsMonotone(score * cap, score * cap', 1.0 + size, 1.0 + size');
    MinMonotone(cap, cap', score * cap * (1.0 + size), score * cap' * (1.0 + size'));
  }

  lemma FullScoreIsCapped(cap: real, size: real)
    requires cap >= 0.0 && size >= 0.0
    ensures Capped(1.0, cap, size) == cap
  {
    ProductsMonotone(cap, cap, 1.0, 1.0 + size);
  }

  /** Whatever is deposited, the bonus lies between nothing and the cap of the tier. */
  lemma BonusWithinCap(core: real, btc: real, tier: Tier, p: Prices, log10: real -> real)
    requires LogLike(log10)
    ensures 0.0 <= RatioBonus(core, btc, tier, p, log10) <= MaxBonus(tier)
  {
    if !tier.Base? && btc != 0.0 {
      var total := TotalUsd(core, btc, p);
      SizeMultiplierMonotone(total, total, log10);
      var size := SizeMultiplier(total, log10);
      CappedMonotone(RatioScore(core, btc, tier), MaxBonus(tier), MaxBonus(tier), size, size);
    }
  }

  /** A deposit at the optimal ratio of a tier above Base gets the whole cap. */
  lemma OptimalRatioGetsCap(btc: real, tier: Tier, p: Prices, log10: real -> real)
    requires LogLike(log10) && !tier.Base? && btc != 0.0
    ensures RatioBonus(btc * OptimalRatio(tier), btc, tier, p, log10) == MaxBonus(tier)
  {
    var core := btc * OptimalRatio(tier);
    assert core / btc == OptimalRatio(tier);
    var total := TotalUsd(core, btc, p);
    SizeMultiplierMonotone(total, total, log10);
    var size := SizeMultiplier(total, log10);
    FullScoreIsCapped(MaxBonus(tier), size);
  }

  lemma CappedInScore(score: real, score': real, cap: real, size: real)
    requires 0.0 <= score <= score' && cap > 0.0 && size >= 0.0
    ensures Capped(score, cap, size) <= Capped(score', cap, size)
    ensures Capped(score, cap, size) == 0.0 <==> score == 0.0
  {
    TimesMonotone(score, score', cap);
    TimesMonotone(score * cap, score' * cap, 1.0 + size);
    if score > 0.0 {
      assert score * cap > 0.0;
      assert score * cap * (1.0 + size) > 0.0;
    }
  }

  /** Between two deposits of equal value, the one closer to the optimal ratio earns no less. */
  lemma CloserRatioNeverLowersBonus(core: real, btc: real, core': real, btc': real, tier: Tier, p: Prices,
                                    log10: real -> real)
    requires LogLike(log10) && btc != 0.0 && btc' != 0.0
    requires TotalUsd(core, btc, p) == TotalUsd(core', btc', p)
    requires Abs(core / btc - OptimalRatio(tier)) <= Abs(core' / btc' - OptimalRatio(tier))
    ensures RatioBonus(core', btc', tier, p, log10) <= RatioBonus(core, btc, tier, p, log10)
  {
    if !tier.Base? {
      var total := TotalUsd(core, btc, p);
      SizeMultiplierMonotone(total, total, log10);
      CappedInScore(RatioScore(core', btc', tier), RatioScore(core, btc, tier), MaxBonus(tier),
                    SizeMultiplier(total, log10));
    }
  }

  /** Above Base, the bonus is nothing exactly when the ratio is off by at least the optimal ratio. */
  lemma NoBonusExactlyWhen(core: real, btc: real, tier: Tier, p: Prices, log10: real -> real)
    requires LogLike(log10) && !tier.Base? && btc != 0.0
    ensures RatioBonus(core, btc, tier, p, log10) == 0.0 <==> Abs(core / btc - 50000.0) >= 50000.0
  {
    var total, score := TotalUsd(core, btc, p), RatioScore(core, btc, tier);
    SizeMultiplierMonotone(total, total, log10);
    CappedInScore(score, score, MaxBonus(tier), SizeMultiplier(total, log10));
  }

  lemma SameRatio(core: real, btc: real, k: real)
    requires btc != 0.0 && k > 0.0
    ensures k * btc != 0.0 && (k * core) / (k * btc) == core / btc
  {
    var q := core / btc;
    assert q * btc == core;
    assert q * (k * btc) == k * (q * btc);
  }

  lemma SameRatioLargerBonus(core: real, btc: real, tier: Tier, core': real, btc': real, tier': Tier,
                             p: Prices, log10: real -> real)
    requires LogLike(log10) && !tier.Base? && !tier'.Base? && MaxBonus(tier) <= MaxBonus(tier')
    requires btc != 0.0 && btc' != 0.0 && core / btc == core' / btc'
    requires TotalUsd(core, btc, p) <= TotalUsd(core', btc', p)
    ensures RatioBonus(core, btc, tier, p, log10) <= RatioBonus(core', btc', tier', p, log10)
  {
    var total, total' := TotalUsd(core, btc, p), TotalUsd(core', btc', p);
    var score := RatioScore(core, btc, tier);
    assert score == RatioScore(core', btc', tier');
    SizeMultiplierMonotone(total, total', log10);
    CappedMonotone(score, MaxBonus(tier), MaxBonus(tier'),
                   SizeMultiplier(total, log10), SizeMultiplier(total', log10));
  }

  /** Scaling a deposit up never lowers its bonus, also when it moves to another tier. */
  lemma ScalingNeverLowersBonus(core: real, btc: real, k: real, p: Prices, log10: real -> real)
    requires LogLike(log10) && Positive(p) && core >= 0.0 && btc >= 0.0 && k >= 1.0
    ensures Bonus(core, btc, p, log10) <= Bonus(k * core, k * btc, p, log10)
  {
    var core', btc' := k * core, k * btc;
    TimesMonotone(1.0, k, core);
    TimesMonotone(1.0, k, btc);
    TierIsMonotone(core, btc, core', btc', p);
    TotalMonotone(core, btc, core', btc', p);
    var tier, tier' := CalculateTier(core, btc, p), CalculateTier(core', btc', p);
    if tier.Base? {
      BonusWithinCap(core', btc', tier', p, log10);
    } else {
      SameRatio(core, btc, k);
      SameRatioLargerBonus(core, btc, tier, core', btc', tier', p, log10);
    }
  }

  // ---------------------------------------------------------------- auto-calculation

  function TierBtc(target: Tier): real {
    match target
    case Base => MIN_BTC
    case Bronze => 0.01
    case Silver => 0.1
    case Gold => 0.5
    case Satoshi => 2.0
  }

  function TierFloor(target: Tier): real {
    match target
    case Base => MIN_CORE
    case Bronze => 1000.0
    case Silver => 5000.0
    case Gold => 25000.0
    case Satoshi => 100000.0
  }

  /** What auto-calculation is for: the ratio, the tier's CORE floor and its USD threshold. */
  predicate Meets(core: real, target: Tier, p: Prices) {
    && core >= TierBtc(target) * OptimalRatio(target)
    && core >= TierFloor(target)
    && TotalUsd(core, TierBtc(target), p) >= Threshold(target)
  }

  /** The CORE asked for when the USD threshold does not bind. */
  function FixedCore(target: Tier): real {
    Max(TierBtc(target) * OptimalRatio(target), TierFloor(target))
  }

  /** The largest of the three lower bounds. */
  function LeastCore(target: Tier, p: Prices): real
    requires p.core > 0.0
  {
    Max(FixedCore(target),
        (Threshold(target) - TierBtc(target) * p.btc) / p.core)
  }

  /** Topping up to a value is the same as dividing the value by the price. */
  lemma TopUp(core: real, value: real, price: real)
    requires price > 0.0
    ensures core + (value - core * price) / price == value / price
    ensures core * price < value <==> core < value / price
  {
    var q := value / price;
    assert q * price == value;
    assert (q - core) * price == value - core * price;
    assert (value - core * price) / price == q - core;
    if core < q {
      assert (q - core) * price > 0.0;
    } else {
      assert (core - q) * price >= 0.0;
    }
  }

  /** `handleAutoCalculate`; the two setters become out-parameters. */
  method AutoCalculate(target: Tier, feed: Prices) returns (core: real, btc: real)
    ensures target.Base? ==> core == MIN_CORE && btc == MIN_BTC
    ensures !target.Base? ==> btc == TierBtc(target)
    ensures !target.Base? && AssetPrices(feed).core > 0.0 ==> core == LeastCore(target, AssetPrices(feed))
  {
    if target == Base {
      btc := MIN_BTC;
      core := MIN_CORE;
      return;
    }
    var minUsdValue := Threshold(target);
    var optimalRatio := OptimalRatio(target);
    var prices := AssetPrices(feed);
    var minCoreForTier;
    match target {
      case Bronze => btc, minCoreForTier := 0.01, 1000.0;
      case Silver => btc, minCoreForTier := 0.1, 5000.0;
      case Gold => btc, minCoreForTier := 0.5, 25000.0;
      case Satoshi => btc, minCoreForTier := 2.0, 100000.0;
    }
    var coreAmountForRatio := btc * optimalRatio;
    var currentUsdValue := coreAmountForRatio * prices.core + btc * prices.btc;
    var finalCoreAmount := coreAmountForRatio;
    if currentUsdValue < minUsdValue {
      var additionalCoreNeeded := (minUsdValue - currentUsdValue) / prices.core;
      finalCoreAmount := coreAmountForRatio + additionalCoreNeeded;
    }
    finalCoreAmount := Max(finalCoreAmount, minCoreForTier);
    core := finalCoreAmount;
    ghost var rest := minUsdValue - btc * prices.btc;
    if prices.core > 0.0 {
      TopUp(coreAmountForRatio, rest, prices.core);
    }
  }

  /**
   The CORE asked for is the least amount that meets the three bounds: an amount meets them all
   exactly when it is at least as large.
   */
  lemma AutoCoreIsLeast(target: Tier, p: Prices, core: real)
    requires p.core > 0.0
    ensures Meets(core, target, p) <==> core >= LeastCore(target, p)
  {
    TopUp(core, Threshold(target) - TierBtc(target) * p.btc, p.core);
  }

  /** The tier after the given one. */
  function NextTier(tier: Tier): Tier
    requires !tier.Satoshi?
  {
    match tier
    case Base => Bronze
    case Bronze => Silver
    case Silver => Gold
    case Gold => Satoshi
  }

  /** The amounts are worth what the fixed amounts are worth, or just the threshold. */
  lemma AutoIsWorth(target: Tier, p: Prices)
    requires p.core > 0.0
    ensures TotalUsd(LeastCore(target, p), TierBtc(target), p)
         == Max(TotalUsd(FixedCore(target), TierBtc(target), p), Threshold(target))
  {
    TopUp(FixedCore(target), Threshold(target) - TierBtc(target) * p.btc, p.core);
  }

  /**
   The amounts land in the target tier or above it, and in the target itself exactly when, at these
   prices, the amounts fixed by ratio and floor are worth less than the next tier asks for.
   */
  lemma AutoLandsInTier(target: Tier, p: Prices)
    requires Positive(p) && !target.Base?
    ensures var tier := CalculateTier(LeastCore(target, p), TierBtc(target), p);
            && Level(tier) >= Level(target)
            && (tier == target
                <==> target.Satoshi? || TotalUsd(FixedCore(target), TierBtc(target), p) < Threshold(NextTier(target)))
  {
    AutoIsWorth(target, p);
    TierExactlyWhen(LeastCore(target, p), TierBtc(target), p, target);
    if !target.Satoshi? {
      TierExactlyWhen(LeastCore(target, p), TierBtc(target), p, NextTier(target));
    }
  }

  lemma TotalMonotoneInPrices(core: real, btc: real, p: Prices, p': Prices)
    requires core >= 0.0 && btc >= 0.0 && p.core <= p'.core && p.btc <= p'.btc
    ensures TotalUsd(core, btc, p) <= TotalUsd(core, btc, p')
  {
    TimesMonotone(p.core, p'.core, core);
    TimesMonotone(p.btc, p'.btc, btc);
  }

  /** Dearer assets never make auto-calculation ask for more CORE. */
  lemma AutoCoreFallsWithPrices(target: Tier, p: Prices, p': Prices)
    requires p.core > 0.0 && p.core <= p'.core && p.btc <= p'.btc
    ensures LeastCore(target, p') <= LeastCore(target, p)
  {
    var core := LeastCore(target, p);
    AutoCoreIsLeast(target, p, core);
    TotalMonotoneInPrices(core, TierBtc(target), p, p');
    AutoCoreIsLeast(target, p', core);
  }

  // ---------------------------------------------------------------- validation

  datatype Refusal =
    | BothZero | TooLittleCore | TooLittleBtc | TooLittleValue
    | NoWallet | CoreBalanceTooLow | BtcBalanceTooLow | PricesUnavailable

  datatype Verdict = Accepted | Refused(reason: Refusal)

  datatype Wallet = Wallet(connected: bool, core: real, btc: real)

  /** `validateDeposit`, first failing guard first. */
  function ValidateDeposit(core: real, btc: real, feed: Prices, wallet: Wallet): Verdict {
    if core == 0.0 && btc == 0.0 then Refused(BothZero)
    else if core < MIN_CORE then Refused(TooLittleCore)
    else if btc < MIN_BTC then Refused(TooLittleBtc)
    else if TotalUsd(core, btc, AssetPrices(feed)) < MIN_USD then Refused(TooLittleValue)
    else if !wallet.connected then Refused(NoWallet)
    else if core > wallet.core then Refused(CoreBalanceTooLow)
    else if btc > wallet.btc then Refused(BtcBalanceTooLow)
    else if feed.core == 0.0 || feed.btc == 0.0 then Refused(PricesUnavailable)
    else Accepted
  }

  /** The wallet and the price feed allow the deposit, whatever its size. */
  predicate Affordable(core: real, btc: real, feed: Prices, wallet: Wallet) {
    wallet.connected && core <= wallet.core && btc <= wallet.btc && feed.core != 0.0 && feed.btc != 0.0
  }

  /** A deposit is accepted exactly when it meets the three minimums and can be paid for. */
  lemma AcceptedExactlyWhen(core: real, btc: real, feed: Prices, wallet: Wallet)
    ensures ValidateDeposit(core, btc, feed, wallet) == Accepted
       <==> && core >= 10.0 && btc >= 0.001
            && core * feed.core + btc * feed.btc >= 50.0
            && Affordable(core, btc, feed, wallet)
  {
  }

  /**
   Auto-calculated amounts for any tier above Base pass every amount check: only the wallet or a
   missing price can stop the deposit.
   */
  lemma AutoPassesValidation(target: Tier, feed: Prices, wallet: Wallet)
    requires Positive(AssetPrices(feed)) && !target.Base?
    ensures var core, btc := LeastCore(target, AssetPrices(feed)), TierBtc(target);
            var verdict := ValidateDeposit(core, btc, feed, wallet);
            && (verdict == Accepted <==> Affordable(core, btc, feed, wallet))
            && (verdict.Refused? ==>
                  verdict.reason in {NoWallet, CoreBalanceTooLow, BtcBalanceTooLow, PricesUnavailable})
  {
    var p := AssetPrices(feed);
    AutoCoreIsLeast(target, p, LeastCore(target, p));
    AcceptedExactlyWhen(LeastCore(target, p), TierBtc(target), feed, wallet);
  }

  /**
   For Base the amounts are fixed and the USD minimum is not looked at, so they can be refused: the
   deposit goes through exactly when, besides, ten CORE and a thousandth of a BTC are worth enough.
   */
  lemma BaseAutoValidation(feed: Prices, wallet: Wallet)
    ensures ValidateDeposit(MIN_CORE, MIN_BTC, feed, wallet) == Accepted
       <==> && Affordable(MIN_CORE, MIN_BTC, feed, wallet)
            && 10.0 * feed.core + 0.001 * feed.btc >= 50.0
    ensures ValidateDeposit(MIN_CORE, MIN_BTC, Prices(1.0, 30000.0), wallet) == Refused(TooLittleValue)
  {
    AcceptedExactlyWhen(MIN_CORE, MIN_BTC, feed, wallet);
  }
}
