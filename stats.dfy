/** The bet statistics of the profile page, computed over a user's bet rows. */
module Stats {
  import opened Wrappers
  import opened Domain
  import opened Money

  /** The number of bets with exactly the given status. */
  function CountStatus(bets: seq<Bet>, s: BetStatus): (n: nat)
    ensures n <= |bets|
    decreases |bets|
  {
    if |bets| == 0 then 0
    else CountStatus(bets[..|bets| - 1], s) + (if bets[|bets| - 1].status == s then 1 else 0)
  }

  /** Every bet has exactly one of the four statuses, so the counts partition the bets. */
  lemma {:induction false} CountsPartition(bets: seq<Bet>)
    ensures CountStatus(bets, Won) + CountStatus(bets, Lost) + CountStatus(bets, Pending)
            + CountStatus(bets, Refunded) == |bets|
    ensures CountStatus(bets, Won) + CountStatus(bets, Lost) + CountStatus(bets, Pending) <= |bets|
    decreases |bets|
  {
    if |bets| > 0 {
      CountsPartition(bets[..|bets| - 1]);
    }
  }

  /** The total paid out on won bets; a missing payout counts as 0. */
  function TotalWon(bets: seq<Bet>): (total: real)
    ensures (forall i :: 0 <= i < |bets| ==> bets[i].actualPayout.GetOr(0.0) >= 0.0) ==> total >= 0.0
    decreases |bets|
  {
    if |bets| == 0 then 0.0
    else
      var b := bets[|bets| - 1];
      TotalWon(bets[..|bets| - 1]) + (if b.status == Won then b.actualPayout.GetOr(0.0) else 0.0)
  }

  /** The total staked over all bets. */
  function TotalStaked(bets: seq<Bet>): (total: real)
    ensures (forall i :: 0 <= i < |bets| ==> bets[i].stake >= 0.0) ==> total >= 0.0
    ensures (forall i :: 0 <= i < |bets| ==> bets[i].stake > 0.0) ==> (total > 0.0 <==> |bets| > 0)
    decreases |bets|
  {
    if |bets| == 0 then 0.0 else TotalStaked(bets[..|bets| - 1]) + bets[|bets| - 1].stake
  }

  /** Profit and loss: what was won minus what was staked. */
  function PnL(bets: seq<Bet>): (pnl: real)
    ensures (forall i :: 0 <= i < |bets| ==> bets[i].stake >= 0.0) ==> pnl <= TotalWon(bets)
    ensures (forall i :: 0 <= i < |bets| ==> bets[i].actualPayout.GetOr(0.0) >= 0.0) ==> pnl >= -TotalStaked(bets)
  {
    TotalWon(bets) - TotalStaked(bets)
  }

  /** Totals over two lists add up. */
  lemma {:induction false} TotalsAppend(a: seq<Bet>, b: seq<Bet>)
    ensures TotalStaked(a + b) == TotalStaked(a) + TotalStaked(b)
    ensures TotalWon(a + b) == TotalWon(a) + TotalWon(b)
    ensures PnL(a + b) == PnL(a) + PnL(b)
    decreases |b|
  {
    if |b| == 0 {
      assert a + b == a;
    } else {
      var n := |b| - 1;
      assert (a + b)[..|a + b| - 1] == a + b[..n];
      TotalsAppend(a, b[..n]);
    }
  }

  /** With non-negative payouts the total won is non-negative, and 0 without a won bet. */
  lemma {:induction false} TotalWonBounds(bets: seq<Bet>)
    requires forall i :: 0 <= i < |bets| ==> bets[i].actualPayout.GetOr(0.0) >= 0.0
    ensures TotalWon(bets) >= 0.0
    ensures CountStatus(bets, Won) == 0 ==> TotalWon(bets) == 0.0
    decreases |bets|
  {
    if |bets| > 0 {
      TotalWonBounds(bets[..|bets| - 1]);
    }
  }

  /** Staking positive amounts makes the total staked positive, so a user without wins is behind. */
  lemma {:induction false} NoWinsMeansLoss(bets: seq<Bet>)
    requires |bets| > 0
    requires forall i :: 0 <= i < |bets| ==> bets[i].stake > 0.0
    requires CountStatus(bets, Won) == 0
    ensures TotalStaked(bets) > 0.0
    ensures PnL(bets) < 0.0
    decreases |bets|
  {
    var n := |bets| - 1;
    if n > 0 {
      NoWinsMeansLoss(bets[..n]);
    }
    NoWonNothingPaid(bets);
  }

  lemma {:induction false} NoWonNothingPaid(bets: seq<Bet>)
    requires CountStatus(bets, Won) == 0
    ensures TotalWon(bets) == 0.0
    decreases |bets|
  {
    if |bets| > 0 {
      NoWonNothingPaid(bets[..|bets| - 1]);
    }
  }

  /** The denominator `won + lost || 1`: the settled bets, or 1 while none is settled. */
  function Denominator(won: nat, lost: nat): (d: nat)
    ensures d >= 1 && won <= d
    ensures lost == 0 && won > 0 ==> d == won
  {
    if won + lost == 0 then 1 else won + lost
  }

  /**
   * The win rate: won bets as a share of settled (won or lost) bets, in
   * percent to one decimal; the denominator is 1 while nothing is settled;
   * None (shown as a dash) when there are no bets at all.
   */
  function WinRate(bets: seq<Bet>): (rate: Option<real>)
    ensures rate.None? <==> |bets| == 0
    ensures rate.Some? ==> 0.0 <= rate.value <= 100.0
    ensures |bets| > 0 && CountStatus(bets, Won) == 0 ==> rate == Some(0.0)
    ensures |bets| > 0 && CountStatus(bets, Lost) == 0 && CountStatus(bets, Won) > 0 ==> rate == Some(100.0)
  {
    if |bets| > 0 then
      var won, lost := CountStatus(bets, Won), CountStatus(bets, Lost);
      RateBounds(won, Denominator(won, lost));
      Some(ToFixed1(won as real / Denominator(won, lost) as real * 100.0))
    else None
  }

  /** A share of won among settled bets, in percent and rounded, lies in [0, 100]. */
  lemma RateBounds(won: nat, settled: nat)
    requires 0 < settled && won <= settled
    ensures 0.0 <= ToFixed1(won as real / settled as real * 100.0) <= 100.0
    ensures won == 0 ==> ToFixed1(won as real / settled as real * 100.0) == 0.0
    ensures won == settled ==> ToFixed1(won as real / settled as real * 100.0) == 100.0
  {
    var share := won as real / settled as real;
    ShareIsFraction(won as real, settled as real);
    PercentBounds(share * 100.0);
    if won == 0 {
      assert share * 100.0 == 0.0;
      ToFixedExact(0, 10.0);
    }
    if won == settled {
      assert share * 100.0 == 100.0;
      ToFixedExact(1000, 10.0);
    }
  }

  /** A part of a positive whole is a fraction between 0 and 1, and the whole is exactly 1. */
  lemma ShareIsFraction(part: real, whole: real)
    requires 0.0 <= part <= whole && 0.0 < whole
    ensures 0.0 <= part / whole <= 1.0
    ensures part == whole ==> part / whole == 1.0
  {
    assert part / whole * whole == part;
  }

  /** Rounding to one decimal keeps a percentage within [0, 100]. */
  lemma PercentBounds(x: real)
    requires 0.0 <= x <= 100.0
    ensures 0.0 <= ToFixed1(x) <= 100.0
  {
    ToFixedMonotonic(0.0, x, 10.0);
    ToFixedMonotonic(x, 100.0, 10.0);
    ToFixedExact(0, 10.0);
    ToFixedExact(1000, 10.0);
  }

  /** A settled payout is shown when the bet has one and is no longer pending. */
  predicate ShowsPayout(b: Bet)
    ensures ShowsPayout(b) ==> b.status in {Won, Lost, Refunded}
  {
    b.actualPayout.Some? && b.status != Pending
  }

  /** The elements of s in order of first occurrence, each once: `[...new Set(s)]`. */
  function Dedup<T(==)>(s: seq<T>): seq<T>
    decreases |s|
  {
    if |s| == 0 then []
    else
      var d := Dedup(s[..|s| - 1]);
      if s[|s| - 1] in d then d else d + [s[|s| - 1]]
  }

  /** Each element of s occurs in Dedup(s) exactly once, and nothing else does. */
  lemma {:induction false} DedupFacts<T>(s: seq<T>)
    ensures forall x :: x in Dedup(s) <==> x in s
    ensures forall i, j :: 0 <= i < j < |Dedup(s)| ==> Dedup(s)[i] != Dedup(s)[j]
    decreases |s|
  {
    if |s| > 0 {
      var pre := s[..|s| - 1];
      DedupFacts(pre);
      assert s == pre + [s[|s| - 1]];
    }
  }

  /** The market ids of the bets. */
  function MarketIdsOf(bets: seq<Bet>): (ids: seq<MarketId>)
    ensures |ids| == |bets| && forall i :: 0 <= i < |bets| ==> ids[i] == bets[i].marketId
  {
    seq(|bets|, i requires 0 <= i < |bets| => bets[i].marketId)
  }

  /** The markets whose titles the profile page looks up: each bet's market, once. */
  function MarketIds(bets: seq<Bet>): seq<MarketId>
  {
    Dedup(MarketIdsOf(bets))
  }

  /** Every bet's market id is looked up exactly once, and no other id is. */
  lemma MarketIdsExactlyOnce(bets: seq<Bet>)
    ensures forall i :: 0 <= i < |bets| ==> bets[i].marketId in MarketIds(bets)
    ensures forall x :: x in MarketIds(bets) ==> exists i :: 0 <= i < |bets| && bets[i].marketId == x
    ensures forall i, j :: 0 <= i < j < |MarketIds(bets)| ==> MarketIds(bets)[i] != MarketIds(bets)[j]
  {
    var ids := MarketIdsOf(bets);
    DedupFacts(ids);
    forall x | x in MarketIds(bets) ensures exists i :: 0 <= i < |bets| && bets[i].marketId == x {
      var i :| 0 <= i < |ids| && ids[i] == x;
    }
  }
}
