/**
 * Pool-share pricing and the odds shown for a market: the payout preview and
 * odds bar of the market page and the YES percentage of the market list.
 */
module Pricing {
  import opened Wrappers
  import opened Domain
  import opened Money

  /** The lowest price a side can have, so a payout is at most 100 times the stake. */
  const PriceFloor: real := 0.01

  /** The price used when the pool is empty: even odds. */
  const EvenPrice: real := 0.5

  function Max(a: real, b: real): real
  {
    if a >= b then a else b
  }

  /**
   * The price of a side: its share of the pool, never below PriceFloor, and
   * EvenPrice while the pool is empty.
   */
  function Price(sidePool: real, pool: real): (p: real)
    ensures p >= PriceFloor
    ensures pool <= 0.0 ==> p == EvenPrice
    ensures pool > 0.0 ==> p >= sidePool / pool
    ensures pool > 0.0 && sidePool / pool >= PriceFloor ==> p == sidePool / pool
    ensures pool > 0.0 && sidePool / pool < PriceFloor ==> p == PriceFloor
    ensures pool > 0.0 && sidePool <= pool ==> p <= 1.0
  {
    if pool > 0.0 then Max(sidePool / pool, PriceFloor) else EvenPrice
  }

  /**
   * The payout a stake on `side` would receive, priced on the market's pool
   * before the stake is added, rounded to cents.
   */
  function PotentialPayout(m: Market, side: Side, stake: real): (payout: real)
    ensures var exact := stake / Price(SidePool(m, side), m.totalPool);
      exact - 0.005 <= payout <= exact + 0.005
  {
    ToFixed2(stake / Price(SidePool(m, side), m.totalPool))
  }

  /** A non-negative stake never has a negative payout. */
  lemma PayoutNonNegative(m: Market, side: Side, stake: real)
    requires stake >= 0.0
    ensures PotentialPayout(m, side, stake) >= 0.0
  {
    var p := Price(SidePool(m, side), m.totalPool);
    assert stake / p >= 0.0;
  }

  /** The text of the stake box, as the page sees it. */
  datatype StakeInput = Empty | NonNumeric | Number(value: real)

  /**
   * The payout preview: 0 without a market or a numeric stake, otherwise the
   * potential payout of the entered stake.
   */
  function CalcPayout(market: Option<Market>, side: Side, stake: StakeInput): (r: real)
    ensures market.None? || !stake.Number? ==> r == 0.0
    ensures market.Some? && stake.Number? ==> r == PotentialPayout(market.value, side, stake.value)
  {
    if market.None? || !stake.Number? then 0.0
    else PotentialPayout(market.value, side, stake.value)
  }

  /** On an empty pool a stake is paid double: price 0.5. */
  lemma EmptyPoolPaysDouble(m: Market, side: Side, stake: real)
    requires m.totalPool == 0.0
    ensures PotentialPayout(m, side, stake) == ToFixed2(2.0 * stake)
  {
  }

  /** Staking 100 on an empty market previews 200.00. */
  lemma EmptyPoolExample(m: Market)
    requires m.totalPool == 0.0
    ensures CalcPayout(Some(m), Yes, Number(100.0)) == 200.0
  {
    EmptyPoolPaysDouble(m, Yes, 100.0);
    ToFixedExact(20000, 100.0);
  }

  /** Yes pool 300 of 1000 and a stake of 50: price 0.3, payout 166.67. */
  lemma ThirtyPercentExample(m: Market)
    requires m.totalYes == 300.0 && m.totalNo == 700.0 && m.totalPool == 1000.0
    ensures Price(m.totalYes, m.totalPool) == 0.3
    ensures CalcPayout(Some(m), Yes, Number(50.0)) == 166.67
  {
    assert Price(300.0, 1000.0) == 0.3;
    assert 50.0 / 0.3 * 100.0 + 0.5 == 100003.0 / 6.0;
    assert (100003.0 / 6.0).Floor == 16667 by {
      assert 16667.0 <= 100003.0 / 6.0 < 16668.0;
    }
  }

  /** The floor bounds every payout by 100 times the stake (whole cents as entered). */
  lemma PayoutAtMostHundredfold(m: Market, side: Side, stake: real)
    requires stake >= 0.0
    ensures stake / Price(SidePool(m, side), m.totalPool) <= 100.0 * stake
    ensures PotentialPayout(m, side, stake) <= ToFixed2(100.0 * stake)
  {
    var p := Price(SidePool(m, side), m.totalPool);
    DivideByLarger(stake, p, PriceFloor);
    assert stake / PriceFloor == 100.0 * stake;
    ToFixedMonotonic(stake / p, 100.0 * stake, 100.0);
  }

  lemma DivideByLarger(x: real, p: real, q: real)
    requires x >= 0.0 && p >= q > 0.0
    ensures x / p <= x / q
  {
    assert x / p * p == x && x / q * q == x;
    assert x / p * q <= x / p * p;
  }

  /**
   * While a side holds between 1% and 100% of a non-empty pool, its price is
   * its share of the pool and a winning stake is paid stake * pool / sidePool,
   * at least the stake itself.
   */
  lemma PayoutAtLeastStake(m: Market, side: Side, stake: real)
    requires stake >= 0.0 && m.totalPool > 0.0
    requires PriceFloor * m.totalPool <= SidePool(m, side) <= m.totalPool
    ensures Price(SidePool(m, side), m.totalPool) == SidePool(m, side) / m.totalPool
    ensures stake / Price(SidePool(m, side), m.totalPool) == stake * m.totalPool / SidePool(m, side)
    ensures stake * m.totalPool / SidePool(m, side) >= stake
    ensures PotentialPayout(m, side, stake) >= ToFixed2(stake)
  {
    var s, pool := SidePool(m, side), m.totalPool;
    ShareAtLeastFloor(s, pool);
    var p := Price(s, pool);
    assert p == s / pool;
    InverseShare(stake, s, pool);
    ToFixedMonotonic(stake, stake / p, 100.0);
  }

  lemma ShareAtLeastFloor(s: real, pool: real)
    requires pool > 0.0 && PriceFloor * pool <= s
    ensures s / pool >= PriceFloor
  {
    assert s / pool * pool == s;
  }

  lemma InverseShare(stake: real, s: real, pool: real)
    requires stake >= 0.0 && 0.0 < s <= pool
    ensures stake / (s / pool) == stake * pool / s
    ensures stake * pool / s >= stake
  {
    assert stake * pool >= stake * s;
    assert stake * pool / s >= stake * s / s;
  }

  /**
   * The odds bar: each side's share of the pool in percent to one decimal,
   * 50 / 50 while the pool is empty.
   */
  function OddsBar(yes: real, no: real, pool: real): (pcts: (real, real))
    ensures pool <= 0.0 ==> pcts == (50.0, 50.0)
    ensures pool > 0.0 ==> yes / pool * 100.0 - 0.05 <= pcts.0 <= yes / pool * 100.0 + 0.05
    ensures pool > 0.0 ==> no / pool * 100.0 - 0.05 <= pcts.1 <= no / pool * 100.0 + 0.05
  {
    if pool > 0.0 then (ToFixed1(yes / pool * 100.0), ToFixed1(no / pool * 100.0))
    else (50.0, 50.0)
  }

  /** For a consistent pool the two shares are percentages that add up to 100 up to rounding. */
  lemma OddsBarSplitsPool(yes: real, no: real, pool: real)
    requires yes >= 0.0 && no >= 0.0 && pool == yes + no
    ensures 0.0 <= OddsBar(yes, no, pool).0 <= 100.0
    ensures 0.0 <= OddsBar(yes, no, pool).1 <= 100.0
    ensures 99.9 <= OddsBar(yes, no, pool).0 + OddsBar(yes, no, pool).1 <= 100.1
  {
    if pool > 0.0 {
      var y, n := yes / pool * 100.0, no / pool * 100.0;
      SharesComplement(yes, no, pool);
      assert y + n == 100.0;
      assert 0.0 <= y <= 100.0 && 0.0 <= n <= 100.0;
      ToFixedMonotonic(y, 100.0, 10.0);
      ToFixedMonotonic(n, 100.0, 10.0);
      ToFixedExact(1000, 10.0);
    }
  }

  /**
   * A market row as the list pages receive it: the side totals may arrive as
   * `total_yes` / `total_no` or as `yes_pool` / `no_pool`, or not at all.
   */
  datatype PoolRow = PoolRow(totalYes: Option<real>, yesPool: Option<real>, totalNo: Option<real>, noPool: Option<real>)

  /** `a ?? b ?? 0`. */
  function Coalesce(a: Option<real>, b: Option<real>): real
  {
    if a.Some? then a.value else b.GetOr(0.0)
  }

  /** The YES side's share of the pool in whole percent, 50 while the pool is empty. */
  function YesPercent(row: PoolRow): (pct: int)
    ensures var y, n := Coalesce(row.totalYes, row.yesPool), Coalesce(row.totalNo, row.noPool);
      && (y + n <= 0.0 ==> pct == 50)
      && (y + n > 0.0 ==> y / (y + n) * 100.0 - 0.5 < pct as real <= y / (y + n) * 100.0 + 0.5)
  {
    var y := Coalesce(row.totalYes, row.yesPool);
    var n := Coalesce(row.totalNo, row.noPool);
    var total := y + n;
    if total > 0.0 then RoundHalfUp(y / total * 100.0) else 50
  }

  /** For non-negative pools the percentage lies in [0, 100]; one-sided pools give 100 and 0. */
  lemma YesPercentRange(row: PoolRow)
    requires Coalesce(row.totalYes, row.yesPool) >= 0.0 && Coalesce(row.totalNo, row.noPool) >= 0.0
    ensures 0 <= YesPercent(row) <= 100
    ensures Coalesce(row.totalNo, row.noPool) == 0.0 < Coalesce(row.totalYes, row.yesPool) ==> YesPercent(row) == 100
    ensures Coalesce(row.totalYes, row.yesPool) == 0.0 < Coalesce(row.totalNo, row.noPool) ==> YesPercent(row) == 0
  {
    var y, n := Coalesce(row.totalYes, row.yesPool), Coalesce(row.totalNo, row.noPool);
    if y + n > 0.0 {
      SharesComplement(y, n, y + n);
      if n == 0.0 {
        assert y / (y + n) == 1.0;
      }
    }
  }

  /** The two shares of a pool made of two non-negative sides lie in [0, 1] and add up to 1. */
  lemma SharesComplement(a: real, b: real, total: real)
    requires a >= 0.0 && b >= 0.0 && total == a + b && total > 0.0
    ensures 0.0 <= a / total <= 1.0 && 0.0 <= b / total <= 1.0
    ensures a / total + b / total == 1.0
    ensures a / total * 100.0 + b / total * 100.0 == 100.0
  {
    assert a / total + b / total == (a + b) / total;
  }

  /** The `total_*` fields take precedence over the `*_pool` fields, even when they hold 0. */
  lemma YesPercentPrefersTotals(yes: real, no: real, y2: Option<real>, n2: Option<real>)
    ensures YesPercent(PoolRow(Some(yes), y2, Some(no), n2)) == YesPercent(PoolRow(Some(yes), None, Some(no), None))
  {
  }
}
