/**
 The redemption calculator of src/utils/redemptionCalculator.ts.

 Amounts of tokens are natural numbers of wei, prices and USD values idealised reals. `parseEther` of
 a computed number is any function `parse` whose error is below one wei; results hold for all such.
 */
module Redemption {
  import opened RealFacts

  const WEI := 1000000000000000000.0

  datatype Params = Params(
    shares: nat, supply: nat, pooledCore: nat, pooledBtc: nat, corePrice: real, btcPrice: real)

  datatype Error = ZeroSupply | TooManyShares | InvalidPrices

  datatype Result =
    | Redeemed(coreWei: int, usdValue: real, breakdown: Breakdown)
    | Failed(error: Error)

  datatype Breakdown = Breakdown(
    coreValue: real, btcValue: real, totalAssetValue: real, shareOfPool: real)

  function Ether(wei: nat): real {
    wei as real / WEI
  }

  function PoolUsd(p: Params): real {
    Ether(p.pooledCore) * p.corePrice + Ether(p.pooledBtc) * p.btcPrice
  }

  function Share(shares: nat, supply: nat): real
    requires supply > 0
  {
    Ether(shares) / Ether(supply)
  }

  /** The USD value of a part of the pool, and what that buys at a price. */
  function Worth(pool: real, share: real): real {
    pool * share
  }

  function Buys(usd: real, price: real): real
    requires price > 0.0
  {
    usd / price
  }

  function Usd(p: Params): real
    requires p.supply > 0
  {
    Worth(PoolUsd(p), Share(p.shares, p.supply))
  }

  /** The payout in CORE before it is rounded to whole wei. */
  function ExactCore(p: Params): real
    requires p.supply > 0 && p.corePrice > 0.0
  {
    Buys(Usd(p), p.corePrice)
  }

  predicate Redeemable(p: Params) {
    p.supply > 0 && p.shares <= p.supply && p.corePrice > 0.0 && p.btcPrice > 0.0
  }

  function Calculate(p: Params, parse: real -> int): Result {
    if p.supply == 0 then Failed(ZeroSupply)
    else if p.shares > p.supply then Failed(TooManyShares)
    else if p.corePrice <= 0.0 || p.btcPrice <= 0.0 then Failed(InvalidPrices)
    else
      Redeemed(parse(ExactCore(p)), Usd(p),
               Breakdown(Ether(p.pooledCore) * p.corePrice, Ether(p.pooledBtc) * p.btcPrice,
                         PoolUsd(p), Share(p.shares, p.supply) * 100.0))
  }

  /** `parseEther(x.toString())` is off by less than one wei. */
  ghost predicate Parses(parse: real -> int) {
    forall x :: x >= 0.0 ==> -1.0 < parse(x) as real - x * WEI < 1.0
  }

  lemma DivideMonotone(a: real, b: real, x: real)
    requires x > 0.0
    ensures a / x <= b / x <==> a <= b
  {
    var u, v := a / x, b / x;
    assert a == u * x && b == v * x;
    if u <= v {
      TimesMonotone(u, v, x);
    } else {
      assert (u - v) * x > 0.0;
      assert a - b == (u - v) * x;
    }
  }

  lemma ShareIsRatio(shares: nat, supply: nat)
    requires supply > 0
    ensures Share(shares, supply) == shares as real / supply as real
  {
    var s, t := shares as real, supply as real;
    var q := s / t;
    assert q * t == s;
    assert q * (t / WEI) == s / WEI;
  }

  // ---------------------------------------------------------------- what a call returns

  /** Exactly which calls fail, and how. */
  lemma FailsExactlyWhen(p: Params, parse: real -> int)
    ensures var r := Calculate(p, parse);
            && (r == Failed(ZeroSupply) <==> p.supply == 0)
            && (r == Failed(TooManyShares) <==> 0 < p.supply < p.shares)
            && (r == Failed(InvalidPrices) <==>
                  p.shares <= p.supply && p.supply > 0 && (p.corePrice <= 0.0 || p.btcPrice <= 0.0))
  {
  }

  lemma EtherIs(wei: nat)
    ensures Ether(wei) * 1000000000000000000.0 == wei as real
  {
  }

  lemma ScaledProduct(x: real, wei: real, price: real)
    requires x * 1000000000000000000.0 == wei
    ensures x * price * 1000000000000000000.0 == wei * price
  {
  }

  lemma WorthTimes(pool: real, share: real, shares: real, supply: real)
    requires supply > 0.0 && share * supply == shares
    ensures Worth(pool, share) * supply == shares * pool
  {
  }

  lemma ShareTimes(p: Params)
    requires p.supply > 0
    ensures Share(p.shares, p.supply) * p.supply as real == p.shares as real
  {
    ShareIsRatio(p.shares, p.supply);
  }

  /**
   The breakdown of an accepted call: the value of each asset at its price, both together, and the share
   of the supply in per cent.
   */
  lemma BreakdownExactly(p: Params, parse: real -> int)
    requires Calculate(p, parse).Redeemed?
    ensures var b := Calculate(p, parse).breakdown;
            && b.coreValue * 1000000000000000000.0 == p.pooledCore as real * p.corePrice
            && b.btcValue * 1000000000000000000.0 == p.pooledBtc as real * p.btcPrice
            && b.totalAssetValue == b.coreValue + b.btcValue
            && b.shareOfPool * p.supply as real == 100.0 * p.shares as real
  {
    EtherIs(p.pooledCore);
    EtherIs(p.pooledBtc);
    ScaledProduct(Ether(p.pooledCore), p.pooledCore as real, p.corePrice);
    ScaledProduct(Ether(p.pooledBtc), p.pooledBtc as real, p.btcPrice);
    ShareTimes(p);
    var share, supply := Share(p.shares, p.supply), p.supply as real;
    assert share * 100.0 * supply == 100.0 * (share * supply);
  }

  /** The value of an accepted call is the shares' part of the supply, of all assets; it is paid in CORE. */
  lemma ValueExactly(p: Params, parse: real -> int)
    requires Calculate(p, parse).Redeemed?
    ensures var r := Calculate(p, parse);
            && r.usdValue * p.supply as real == p.shares as real * r.breakdown.totalAssetValue
            && r.coreWei == parse(r.usdValue / p.corePrice)
  {
    ShareTimes(p);
    WorthTimes(PoolUsd(p), Share(p.shares, p.supply), p.shares as real, p.supply as real);
  }

  // ---------------------------------------------------------------- conservation

  function Sum(shares: seq<nat>): nat {
    if shares == [] then 0 else shares[0] + Sum(shares[1..])
  }

  /** The exact payouts of redeeming each amount against the same pool. */
  function TotalCore(p: Params, shares: seq<nat>): real
    requires p.supply > 0 && p.corePrice > 0.0
  {
    if shares == [] then 0.0
    else ExactCore(p.(shares := shares[0])) + TotalCore(p, shares[1..])
  }

  /** The payouts in wei, as the calculator reports them. */
  function TotalWei(p: Params, shares: seq<nat>, parse: real -> int): int {
    if shares == [] then 0
    else
      (match Calculate(p.(shares := shares[0]), parse)
       case Redeemed(wei, _, _) => wei
       case Failed(_) => 0)
      + TotalWei(p, shares[1..], parse)
  }

  lemma {:induction false} EachAtMostSum(shares: seq<nat>)
    ensures forall i :: 0 <= i < |shares| ==> shares[i] <= Sum(shares)
  {
    if shares == [] {
    } else {
      EachAtMostSum(shares[1..]);
      forall i | 0 <= i < |shares|
        ensures shares[i] <= Sum(shares)
      {
        if i > 0 {
          assert shares[i] == shares[1..][i - 1];
        }
      }
    }
  }

  lemma SharesAdd(a: nat, b: nat, supply: nat)
    requires supply > 0
    ensures Share(a + b, supply) == Share(a, supply) + Share(b, supply)
  {
    assert Ether(a + b) == Ether(a) + Ether(b);
    assert (Ether(a) + Ether(b)) / Ether(supply) == Ether(a) / Ether(supply) + Ether(b) / Ether(supply);
  }

  lemma SumOfQuotients(a: real, b: real, x: real)
    requires x > 0.0
    ensures Buys(a, x) + Buys(b, x) == Buys(a + b, x)
  {
  }

  lemma PayoutsAdd(pool: real, x: real, y: real, price: real)
    requires price > 0.0
    ensures Buys(Worth(pool, x), price) + Buys(Worth(pool, y), price) == Buys(Worth(pool, x + y), price)
  {
    assert Worth(pool, x + y) == Worth(pool, x) + Worth(pool, y);
    SumOfQuotients(Worth(pool, x), Worth(pool, y), price);
  }

  lemma RedeemingTogether(p: Params, a: nat, b: nat)
    requires p.supply > 0 && p.corePrice > 0.0
    ensures ExactCore(p.(shares := a)) + ExactCore(p.(shares := b)) == ExactCore(p.(shares := a + b))
  {
    SharesAdd(a, b, p.supply);
    PayoutsAdd(PoolUsd(p), Share(a, p.supply), Share(b, p.supply), p.corePrice);
  }

  lemma RedeemingNothing(p: Params)
    requires p.supply > 0 && p.corePrice > 0.0
    ensures ExactCore(p.(shares := 0)) == 0.0
  {
    assert Share(0, p.supply) == 0.0;
    assert Worth(PoolUsd(p), 0.0) == 0.0;
  }

  lemma {:induction false} TotalCoreIsProRata(p: Params, shares: seq<nat>)
    requires p.supply > 0 && p.corePrice > 0.0
    ensures TotalCore(p, shares) == ExactCore(p.(shares := Sum(shares)))
  {
    if shares == [] {
      RedeemingNothing(p);
    } else {
      TotalCoreIsProRata(p, shares[1..]);
      RedeemingTogether(p, shares[0], Sum(shares[1..]));
    }
  }

  lemma ExactCoreIsNatural(p: Params)
    requires Redeemable(p)
    ensures ExactCore(p) >= 0.0
  {
    var a, b := Ether(p.pooledCore), Ether(p.pooledBtc);
    TimesMonotone(0.0, a, p.corePrice);
    TimesMonotone(0.0, b, p.btcPrice);
    ShareIsRatio(p.shares, p.supply);
    TimesMonotone(0.0, PoolUsd(p), Share(p.shares, p.supply));
  }

  /** The reported wei are a natural number within one of the exact payout. */
  lemma ReportedWei(p: Params, parse: real -> int)
    requires Parses(parse) && Redeemable(p)
    ensures var r := Calculate(p, parse);
            r.Redeemed? && r.coreWei >= 0 && -1.0 < r.coreWei as real - ExactCore(p) * WEI < 1.0
  {
    ExactCoreIsNatural(p);
    var x := ExactCore(p);
    assert -1.0 < parse(x) as real - x * WEI < 1.0;
  }

  lemma {:induction false} TotalWeiNearTotalCore(p: Params, shares: seq<nat>, parse: real -> int)
    requires Parses(parse)
    requires forall i :: 0 <= i < |shares| ==> Redeemable(p.(shares := shares[i]))
    requires p.supply > 0 && p.corePrice > 0.0
    ensures var error := TotalWei(p, shares, parse) as real - TotalCore(p, shares) * WEI;
            if shares == [] then error == 0.0 else -(|shares| as real) < error < |shares| as real
  {
    if shares == [] {
    } else {
      ReportedWei(p.(shares := shares[0]), parse);
      TotalWeiNearTotalCore(p, shares[1..], parse);
    }
  }

  lemma WholePool(p: Params)
    requires p.supply > 0 && p.corePrice > 0.0
    ensures ExactCore(p.(shares := p.supply)) == Buys(PoolUsd(p), p.corePrice)
    ensures Buys(PoolUsd(p), p.corePrice) * p.corePrice == PoolUsd(p)
  {
    ShareIsRatio(p.supply, p.supply);
    assert Worth(PoolUsd(p), 1.0) == PoolUsd(p);
  }

  /**
   Redemption conserves value: however the supply is divided among redeemers, the payouts valued at
   the CORE price add up to the value of the pool, and in wei the total is off by less than one wei
   per redeemer.
   */
  lemma {:induction false} PartitionConservesValue(p: Params, shares: seq<nat>, parse: real -> int)
    requires Parses(parse) && p.supply > 0 && p.corePrice > 0.0 && p.btcPrice > 0.0
    requires Sum(shares) == p.supply
    ensures TotalCore(p, shares) * p.corePrice == PoolUsd(p)
    ensures forall i :: 0 <= i < |shares| ==> Calculate(p.(shares := shares[i]), parse).Redeemed?
    ensures var n, exact := |shares| as real, Buys(PoolUsd(p), p.corePrice) * WEI;
            exact - n < TotalWei(p, shares, parse) as real < exact + n
  {
    EachAtMostSum(shares);
    TotalCoreIsProRata(p, shares);
    WholePool(p);
    TotalWeiNearTotalCore(p, shares, parse);
  }

  // ---------------------------------------------------------------- invariance

  /** The same pool with supply and both assets given in a unit `k` times smaller. */
  function Rescaled(p: Params, k: nat): Params {
    p.(supply := k * p.supply, pooledCore := k * p.pooledCore, pooledBtc := k * p.pooledBtc)
  }

  lemma RescaledPool(p: Params, k: nat)
    ensures PoolUsd(Rescaled(p, k)) == k as real * PoolUsd(p)
  {
    var f := k as real;
    assert (k * p.pooledCore) as real == f * p.pooledCore as real;
    assert (k * p.pooledBtc) as real == f * p.pooledBtc as real;
    assert Ether(k * p.pooledCore) == f * Ether(p.pooledCore);
    assert Ether(k * p.pooledBtc) == f * Ether(p.pooledBtc);
  }

  lemma CancelFactor(pool: real, share: real, pool': real, share': real, f: real)
    requires pool' == f * pool && f * share' == share
    ensures Worth(pool', share') == Worth(pool, share)
  {
    assert pool' * share' == pool * (f * share');
  }

  lemma RescaledShare(shares: nat, supply: nat, k: nat)
    requires supply > 0 && k >= 1
    ensures k * supply > 0 && k as real * Share(shares, k * supply) == Share(shares, supply)
  {
    assert k * supply > 0;
    ShareIsRatio(shares, supply);
    ShareIsRatio(shares, k * supply);
    var s, t, f := shares as real, supply as real, k as real;
    assert (k * supply) as real == f * t;
    var q := s / (f * t);
    assert q * (f * t) == s;
    assert (f * q) * t == s;
  }

  lemma RescaledUsd(p: Params, k: nat)
    requires p.supply > 0 && k >= 1
    ensures Rescaled(p, k).supply > 0 && Usd(Rescaled(p, k)) == Usd(p)
  {
    RescaledPool(p, k);
    RescaledShare(p.shares, p.supply, k);
    CancelFactor(PoolUsd(p), Share(p.shares, p.supply),
                 PoolUsd(Rescaled(p, k)), Share(p.shares, k * p.supply), k as real);
  }

  /**
   Callers pass the supply and the pools as wei strings where the calculator expects ether, a factor
   of 10^18. The amounts returned are the same.
   */
  lemma UnitInvariance(p: Params, k: nat, parse: real -> int)
    requires k >= 1 && Calculate(p, parse).Redeemed?
    ensures var r, r' := Calculate(p, parse), Calculate(Rescaled(p, k), parse);
            r'.Redeemed? && r'.coreWei == r.coreWei && r'.usdValue == r.usdValue
  {
    RescaledUsd(p, k);
    assert k * p.supply >= p.supply;
    assert Usd(p) == Calculate(p, parse).usdValue;
  }

  lemma MoreThanAll(pool: real, shares: real, supply: real)
    requires 0.0 < supply < shares
    ensures pool > 0.0 ==> pool * (shares / supply) > pool
  {
    var q := shares / supply;
    assert q * supply == shares;
    if q <= 1.0 {
      TimesMonotone(q, 1.0, supply);
      assert false;
    }
    if pool > 0.0 {
      assert pool * (q - 1.0) > 0.0;
    }
  }

  /**
   The guard does not survive the change of unit: rescaled, the calculator also accepts more shares
   than exist. It disagrees with the unscaled call exactly on these inputs, and then it values the
   shares at more than the whole pool, if the pool is worth anything.
   */
  lemma RescalingDisarmsTheGuard(p: Params, k: nat, parse: real -> int)
    requires k >= 1
    ensures Calculate(Rescaled(p, k), parse).Redeemed? && Calculate(p, parse).Failed?
       <==> p.supply < p.shares <= k * p.supply && p.corePrice > 0.0 && p.btcPrice > 0.0
    ensures Calculate(Rescaled(p, k), parse).Redeemed? && Calculate(p, parse).Failed? && PoolUsd(p) > 0.0
        ==> Calculate(Rescaled(p, k), parse).usdValue > PoolUsd(p)
  {
    assert k * p.supply == 0 <==> p.supply == 0;
    if p.supply < p.shares <= k * p.supply && p.supply > 0 {
      RescaledUsd(p, k);
      ShareIsRatio(p.shares, p.supply);
      MoreThanAll(PoolUsd(p), p.shares as real, p.supply as real);
      assert Usd(Rescaled(p, k)) == Usd(p);
    }
  }

  /** The unit the callers use: the number of wei, read as ether. */
  const WEI_PER_ETHER: nat := 1000000000000000000

  function AsCalled(p: Params): Params {
    Rescaled(p, WEI_PER_ETHER)
  }

  /**
   As called, the guard refuses nothing below 10^18 times the supply. With one share in existence and
   one CORE worth one dollar in the pool, two shares are redeemed for two dollars.
   */
  lemma CallersAreHardlyGuarded(p: Params, parse: real -> int)
    requires p.supply > 0 && p.corePrice > 0.0 && p.btcPrice > 0.0
    ensures Calculate(AsCalled(p), parse).Redeemed? <==> p.shares <= WEI_PER_ETHER * p.supply
    ensures var q := Params(2 * WEI_PER_ETHER, WEI_PER_ETHER, WEI_PER_ETHER, 0, 1.0, 1.0);
            && Calculate(q, parse) == Failed(TooManyShares) && PoolUsd(q) == 1.0
            && Calculate(AsCalled(q), parse).Redeemed? && Calculate(AsCalled(q), parse).usdValue == 2.0
  {
    var q := Params(2 * WEI_PER_ETHER, WEI_PER_ETHER, WEI_PER_ETHER, 0, 1.0, 1.0);
    RescaledUsd(q, WEI_PER_ETHER);
    ShareIsRatio(q.shares, q.supply);
    assert PoolUsd(q) == 1.0;
    assert Share(q.shares, q.supply) == 2.0;
    assert WEI_PER_ETHER * p.supply > 0;
  }

  lemma ConvertedWorth(pool: real, pool': real, share: real, c: real)
    requires pool' == c * pool
    ensures Worth(pool', share) == c * Worth(pool, share)
  {
    assert pool' * share == c * (pool * share);
  }

  lemma ConvertedUsd(p: Params, c: real, p': Params)
    requires p.supply > 0 && p' == p.(corePrice := c * p.corePrice, btcPrice := c * p.btcPrice)
    ensures Usd(p') == c * Usd(p)
  {
    assert PoolUsd(p') == c * PoolUsd(p);
    ConvertedWorth(PoolUsd(p), PoolUsd(p'), Share(p.shares, p.supply), c);
  }

  lemma CancelPrice(usd: real, price: real, c: real, usd': real, price': real)
    requires price > 0.0 && c > 0.0 && usd' == c * usd && price' == c * price && price' > 0.0
    ensures Buys(usd', price') == Buys(usd, price)
  {
    var q := usd / price;
    assert q * price == usd;
    assert q * price' == usd';
  }

  /** Quoting both prices in another currency leaves the CORE payout alone. */
  lemma NumeraireInvariance(p: Params, c: real, parse: real -> int)
    requires c > 0.0 && Calculate(p, parse).Redeemed?
    ensures var r := Calculate(p, parse);
            var r' := Calculate(p.(corePrice := c * p.corePrice, btcPrice := c * p.btcPrice), parse);
            r'.Redeemed? && r'.coreWei == r.coreWei && r'.usdValue == c * r.usdValue
  {
    var p' := p.(corePrice := c * p.corePrice, btcPrice := c * p.btcPrice);
    assert c * p.corePrice > 0.0 && c * p.btcPrice > 0.0;
    ConvertedUsd(p, c, p');
    CancelPrice(Usd(p), p.corePrice, c, Usd(p'), p'.corePrice);
  }

  // ---------------------------------------------------------------- fulfilment

  datatype Fulfilment = CanFulfill | Short(shortfall: int)

  function CanFulfillRedemption(required: int, available: int): Fulfilment {
    if available >= required then CanFulfill else Short(required - available)
  }

  lemma CoverArithmetic(v: real, s: real, t: real, core: real, price: real)
    requires t > 0.0 && price > 0.0
    ensures Buys(Worth(v / WEI, s / t), price) <= core / WEI <==> s * v <= t * core * price
  {
    var left := Buys(Worth(v / WEI, s / t), price);
    var d := WEI * t * price;
    assert WEI * t > 0.0;
    assert d > 0.0;
    assert left == (s * v) / d by {
      var q := s / t;
      assert q * t == s;
      assert v / WEI * WEI == v;
      assert left * price == v / WEI * q;
      assert left * d == (left * price) * (WEI * t) == v / WEI * q * (WEI * t);
      assert v / WEI * q * (WEI * t) == (v / WEI * WEI) * (q * t);
    }
    assert core / WEI == (t * core * price) / d by {
      assert core / WEI * d == (core / WEI * WEI) * t * price;
    }
    DivideMonotone(s * v, t * core * price, d);
  }

  /**
   When the pooled CORE covers a payout: exactly when the shares' part of the whole pool is worth no
   more than all of the CORE. With no BTC in the pool that is always so.
   */
  lemma CoverableExactlyWhen(p: Params)
    requires Redeemable(p)
    ensures var core, btc := p.pooledCore as real, p.pooledBtc as real;
            ExactCore(p) <= Ether(p.pooledCore) <==>
              p.shares as real * (core * p.corePrice + btc * p.btcPrice) <= p.supply as real * core * p.corePrice
    ensures p.pooledBtc == 0 ==> ExactCore(p) <= Ether(p.pooledCore)
  {
    var core, btc := p.pooledCore as real, p.pooledBtc as real;
    var s, t, v := p.shares as real, p.supply as real, core * p.corePrice + btc * p.btcPrice;
    ShareIsRatio(p.shares, p.supply);
    assert PoolUsd(p) == v / WEI;
    CoverArithmetic(v, s, t, core, p.corePrice);
    if p.pooledBtc == 0 {
      assert v == core * p.corePrice;
      TimesMonotone(0.0, core, p.corePrice);
      TimesMonotone(s, t, v);
    }
  }

  /**
   The check on the reported wei agrees with exact coverage to within one wei, and a shortfall is
   exactly what is missing.
   */
  lemma FulfilmentAgrees(p: Params, parse: real -> int)
    requires Parses(parse) && Calculate(p, parse).Redeemed?
    ensures var required := Calculate(p, parse).coreWei;
            var answer := CanFulfillRedemption(required, p.pooledCore);
            && (ExactCore(p) <= Ether(p.pooledCore) ==> answer == CanFulfill)
            && (answer == CanFulfill ==> ExactCore(p) * WEI < p.pooledCore as real + 1.0)
            && (answer.Short? ==> answer.shortfall > 0 && answer.shortfall + p.pooledCore == required)
  {
    ReportedWei(p, parse);
    assert Ether(p.pooledCore) * WEI == p.pooledCore as real;
  }
}
