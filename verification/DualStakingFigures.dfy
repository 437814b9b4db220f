/**
 The tier tables, the bonus and the guards of dual staking in figures: what each deposit gets, written
 with the numbers of src/config/dualStakingTiers.ts instead of the functions that hold them.
 */
module DualStakingFigures {
  import opened DualStaking
  import opened RealFacts

  lemma TierOfValue(core: real, btc: real, p: Prices, value: real)
    requires TotalUsd(core, btc, p) == value
    ensures CalculateTier(core, btc, p)
         == if core < 10.0 || btc < 0.001 || value < 10000.0 then Base
            else if value < 100000.0 then Bronze
            else if value < 500000.0 then Silver
            else if value < 1000000.0 then Gold
            else Satoshi
  {
  }

  /** Exactly which deposits each tier is for. */
  lemma TierExactly(core: real, btc: real, p: Prices)
    ensures var tier, value := CalculateTier(core, btc, p), core * p.core + btc * p.btc;
            var enough := core >= 10.0 && btc >= 0.001;
            && (tier == Base <==> !enough || value < 10000.0)
            && (tier == Bronze <==> enough && 10000.0 <= value < 100000.0)
            && (tier == Silver <==> enough && 100000.0 <= value < 500000.0)
            && (tier == Gold <==> enough && 500000.0 <= value < 1000000.0)
            && (tier == Satoshi <==> enough && 1000000.0 <= value)
  {
    var value := core * p.core + btc * p.btc;
    assert TotalUsd(core, btc, p) == value;
    TierOfValue(core, btc, p, value);
  }

  // ---------------------------------------------------------------- the bonus

  /** The largest bonus at a value. */
  function CapAt(value: real): real {
    if value < 10000.0 then 0.0
    else if value < 100000.0 then 0.10
    else if value < 500000.0 then 0.25
    else if value < 1000000.0 then 0.40
    else 0.50
  }

  /** What a deposit at the optimal ratio earns depends on its value only. */
  lemma OptimalDepositEarns(btc: real, p: Prices, log10: real -> real)
    requires LogLike(log10) && btc >= 0.001
    ensures Bonus(50000.0 * btc, btc, p, log10) == CapAt(TotalUsd(50000.0 * btc, btc, p))
  {
    var core := 50000.0 * btc;
    var tier := CalculateTier(core, btc, p);
    TierExactly(core, btc, p);
    if !tier.Base? {
      assert core == btc * OptimalRatio(tier);
      OptimalRatioGetsCap(btc, tier, p, log10);
    }
  }

  /** `k` times the CORE that suits the BTC. */
  predicate AtRatio(core: real, btc: real, k: real) {
    btc > 0.0 && 0.0 <= k <= 2.0 && core == k * (50000.0 * btc)
  }

  /** How good that is: everything at one, falling evenly to nothing at zero and at two. */
  function Fit(k: real): real {
    if k <= 1.0 then k else 2.0 - k
  }

  lemma RatioIs(core: real, btc: real, k: real)
    requires AtRatio(core, btc, k)
    ensures core / btc == 50000.0 * k
  {
    assert core == (50000.0 * k) * btc;
  }

  lemma ScoreIsFit(core: real, btc: real, k: real, tier: Tier)
    requires AtRatio(core, btc, k) && !tier.Base?
    ensures RatioScore(core, btc, tier) == Fit(k)
  {
    RatioIs(core, btc, k);
  }

  /** What size adds: half the decimal logarithm of the value in thousands. */
  function SizeAt(value: real, log10: real -> real): real {
    log10(if value < 1000.0 then 1.0 else value / 1000.0) / 2.0
  }

  lemma SizeIs(value: real, log10: real -> real)
    ensures SizeMultiplier(value, log10) == SizeAt(value, log10)
  {
  }

  /** The bonus in figures: fit times cap, raised by the size, capped. */
  lemma BonusExactly(core: real, btc: real, k: real, tier: Tier, p: Prices, log10: real -> real, value: real)
    requires AtRatio(core, btc, k) && !tier.Base? && value == core * p.core + btc * p.btc
    ensures var cap := MaxBonus(tier);
            RatioBonus(core, btc, tier, p, log10) == Min(cap, Fit(k) * cap * (1.0 + SizeAt(value, log10)))
  {
    ScoreIsFit(core, btc, k, tier);
    SizeIs(value, log10);
    assert TotalUsd(core, btc, p) == value;
  }

  lemma FitWithinOne(k: real, cap: real)
    requires 0.0 <= k <= 2.0 && cap >= 0.0
    ensures 0.0 <= Fit(k) <= 1.0 && Fit(k) * cap <= cap
  {
    TimesMonotone(Fit(k), 1.0, cap);
  }

  /** At a value of a thousand dollars, size adds nothing. */
  lemma BonusAtAThousand(core: real, btc: real, k: real, tier: Tier, p: Prices, log10: real -> real)
    requires AtRatio(core, btc, k) && !tier.Base? && log10(1.0) == 0.0
    requires core * p.core + btc * p.btc == 1000.0
    ensures RatioBonus(core, btc, tier, p, log10) == Fit(k) * MaxBonus(tier)
  {
    BonusExactly(core, btc, k, tier, p, log10, 1000.0);
    FitWithinOne(k, MaxBonus(tier));
    assert Fit(k) * MaxBonus(tier) * 1.0 == Fit(k) * MaxBonus(tier);
  }

  lemma BonusOf(core: real, btc: real, k: real, tier: Tier, p: Prices, log10: real -> real, value: real,
                share: real, size: real, bonus: real)
    requires AtRatio(core, btc, k) && !tier.Base? && value == core * p.core + btc * p.btc
    requires share == Fit(k) * MaxBonus(tier) && size == SizeAt(value, log10)
    requires bonus == RatioBonus(core, btc, tier, p, log10)
    ensures bonus == Min(MaxBonus(tier), share * (1.0 + size))
  {
    BonusExactly(core, btc, k, tier, p, log10, value);
  }

  lemma OneMoreShare(share: real, cap: real, size: real, size': real, first: real, second: real)
    requires first == Min(cap, share * (1.0 + size)) < cap && second == Min(cap, share * (1.0 + size'))
    requires size' == size + 1.0
    ensures second == Min(cap, first + share)
  {
    assert share * (1.0 + size') == share * (1.0 + size) + share;
  }

  lemma HundredfoldSize(value: real, value': real, log10: real -> real)
    requires value >= 1000.0 && value' == 100.0 * value
    requires log10(100.0 * (value / 1000.0)) == log10(value / 1000.0) + 2.0
    ensures SizeAt(value', log10) == SizeAt(value, log10) + 1.0
  {
    assert value' / 1000.0 == 100.0 * (value / 1000.0);
  }

  /**
   A hundred times the value at the same ratio, in the same tier, adds the fit of the ratio to a bonus
   below its cap, up to the cap.
   */
  lemma AHundredfoldAddsTheFit(core: real, btc: real, core': real, btc': real, k: real, tier: Tier, p: Prices,
                               log10: real -> real, value: real, share: real, first: real, second: real)
    requires AtRatio(core, btc, k) && AtRatio(core', btc', k) && !tier.Base?
    requires value == core * p.core + btc * p.btc >= 1000.0
    requires 100.0 * value == core' * p.core + btc' * p.btc
    requires log10(100.0 * (value / 1000.0)) == log10(value / 1000.0) + 2.0
    requires first == RatioBonus(core, btc, tier, p, log10) && second == RatioBonus(core', btc', tier, p, log10)
    requires first < MaxBonus(tier) && share == Fit(k) * MaxBonus(tier)
    ensures second == Min(MaxBonus(tier), first + share)
  {
    var size, size' := SizeAt(value, log10), SizeAt(100.0 * value, log10);
    BonusOf(core, btc, k, tier, p, log10, value, share, size, first);
    BonusOf(core', btc', k, tier, p, log10, 100.0 * value, share, size', second);
    HundredfoldSize(value, 100.0 * value, log10);
    OneMoreShare(share, MaxBonus(tier), size, size', first, second);
  }

  /** The size at work: 20,000 CORE and one BTC, worth $100,000, get a fifth instead of a tenth. */
  lemma SilverExample(log10: real -> real)
    requires log10(100.0) == 2.0
    ensures Bonus(20000.0, 1.0, Prices(2.5, 50000.0), log10) == 0.20
  {
    var p := Prices(2.5, 50000.0);
    TierExactly(20000.0, 1.0, p);
    BonusExactly(20000.0, 1.0, 0.4, Silver, p, log10, 100000.0);
  }

  // ---------------------------------------------------------------- auto-calculation

  /** What auto-calculation asks for above Base, at the prices of the feed or the defaults for missing ones. */
  lemma AutoAmountsExactly(feed: Prices)
    ensures var p := AssetPrices(feed);
            && p.core == (if feed.core == 0.0 then 1.5 else feed.core)
            && p.btc == (if feed.btc == 0.0 then 65000.0 else feed.btc)
            && TierBtc(Bronze) == 0.01 && TierBtc(Silver) == 0.1 && TierBtc(Gold) == 0.5 && TierBtc(Satoshi) == 2.0
            && (p.core > 0.0 ==>
                  && LeastCore(Bronze, p) == Max(1000.0, (10000.0 - 0.01 * p.btc) / p.core)
                  && LeastCore(Silver, p) == Max(5000.0, (100000.0 - 0.1 * p.btc) / p.core)
                  && LeastCore(Gold, p) == Max(25000.0, (500000.0 - 0.5 * p.btc) / p.core)
                  && LeastCore(Satoshi, p) == Max(100000.0, (1000000.0 - 2.0 * p.btc) / p.core))
  {
  }

  // ---------------------------------------------------------------- validation

  /** Exactly why a deposit is refused: the first guard, in this order, that it fails. */
  lemma RefusedExactlyBecause(core: real, btc: real, feed: Prices, wallet: Wallet)
    ensures var verdict := ValidateDeposit(core, btc, feed, wallet);
            var price := AssetPrices(feed);
            var amounts := core >= 10.0 && btc >= 0.001;
            var value := core * price.core + btc * price.btc >= 50.0;
            && (verdict == Refused(BothZero) <==> core == 0.0 && btc == 0.0)
            && (verdict == Refused(TooLittleCore) <==> core < 10.0 && !(core == 0.0 && btc == 0.0))
            && (verdict == Refused(TooLittleBtc) <==> core >= 10.0 && btc < 0.001)
            && (verdict == Refused(TooLittleValue) <==> amounts && !value)
            && (verdict == Refused(NoWallet) <==> amounts && value && !wallet.connected)
            && (verdict == Refused(CoreBalanceTooLow)
                <==> amounts && value && wallet.connected && core > wallet.core)
            && (verdict == Refused(BtcBalanceTooLow)
                <==> amounts && value && wallet.connected && core <= wallet.core && btc > wallet.btc)
            && (verdict == Refused(PricesUnavailable)
                <==> && amounts && value && wallet.connected && core <= wallet.core && btc <= wallet.btc
                     && (feed.core == 0.0 || feed.btc == 0.0))
  {
  }
}
