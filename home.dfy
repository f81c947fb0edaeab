/**
 * The home page: site counters with their defaults, the trading volume,
 * and the featured markets (open ones with the largest pools, at most five).
 */
module Home {
  import opened Wrappers
  import opened Domain
  import Stats

  /** The counters of the stats strip. */
  datatype Counters = Counters(markets: nat, users: nat, volume: real, resolved: nat)

  /** The counters before anything is loaded. */
  const Initial := Counters(0, 0, 0.0, 0)

  /** The volume: the sum of the stakes of all bet rows; no rows count as none. */
  function Volume(rows: Option<seq<Bet>>): (v: real)
    ensures rows.None? ==> v == 0.0
  {
    Stats.TotalStaked(rows.GetOr([]))
  }

  /**
   * Volume adds up over the rows, and is positive once any positive stake
   * exists: the facts about the total staked, stated for the home page.
   */
  lemma VolumeFacts(a: seq<Bet>, b: seq<Bet>)
    ensures Volume(Some(a + b)) == Volume(Some(a)) + Volume(Some(b))
    ensures Volume(Some([])) == 0.0
    ensures (forall i :: 0 <= i < |a| ==> a[i].stake > 0.0) ==> (Volume(Some(a)) > 0.0 <==> |a| > 0)
  {
    Stats.TotalsAppend(a, b);
  }

  /** The counters from the loaded counts; a missing count shows as 0. */
  function LoadedCounters(markets: Option<nat>, users: Option<nat>, rows: Option<seq<Bet>>, resolved: Option<nat>): (c: Counters)
    ensures markets.None? ==> c.markets == 0
    ensures users.None? ==> c.users == 0
    ensures resolved.None? ==> c.resolved == 0
  {
    Counters(markets.GetOr(0), users.GetOr(0), Volume(rows), resolved.GetOr(0))
  }

  /** When nothing loads, the strip keeps showing its initial zeros. */
  lemma NothingLoadedShowsZeros()
    ensures LoadedCounters(None, None, None, None) == Initial
  {
  }

  /** The open markets among the rows, in row order. */
  function OpenOnly(ms: seq<Market>): (r: seq<Market>)
    ensures forall i :: 0 <= i < |r| ==> r[i].status == Open
    ensures multiset(r) <= multiset(ms)
    ensures forall m :: m in ms && m.status == Open ==> m in r
    decreases |ms|
  {
    if |ms| == 0 then []
    else
      var pre := OpenOnly(ms[..|ms| - 1]);
      var m := ms[|ms| - 1];
      assert ms == ms[..|ms| - 1] + [m];
      if m.status == Open then pre + [m] else pre
  }

  /** Ordered by total pool, largest first. */
  predicate PoolDesc(s: seq<Market>)
  {
    forall i, j :: 0 <= i < j < |s| ==> s[i].totalPool >= s[j].totalPool
  }

  /** Inserts m before the first market with a smaller pool. */
  function Insert(m: Market, s: seq<Market>): seq<Market>
    decreases |s|
  {
    if |s| == 0 || m.totalPool >= s[0].totalPool then [m] + s
    else [s[0]] + Insert(m, s[1..])
  }

  lemma {:induction false} InsertFacts(m: Market, s: seq<Market>)
    requires PoolDesc(s)
    ensures PoolDesc(Insert(m, s))
    ensures multiset(Insert(m, s)) == multiset(s) + multiset{m}
    ensures |Insert(m, s)| == |s| + 1
    decreases |s|
  {
    if |s| == 0 || m.totalPool >= s[0].totalPool {
      DescCons(m, s);
    } else {
      var tail := s[1..];
      assert PoolDesc(tail);
      InsertFacts(m, tail);
      assert s == [s[0]] + tail;
      var r := Insert(m, tail);
      forall k | 0 <= k < |r| ensures s[0].totalPool >= r[k].totalPool {
        assert r[k] in multiset(r);
        if r[k] != m {
          assert r[k] in multiset(tail);
          assert r[k] in tail;
        }
      }
      DescCons(s[0], r);
    }
  }

  /** Putting a market with the largest pool in front keeps the order. */
  lemma DescCons(x: Market, r: seq<Market>)
    requires PoolDesc(r)
    requires forall k :: 0 <= k < |r| ==> x.totalPool >= r[k].totalPool
    ensures PoolDesc([x] + r)
  {
    var s := [x] + r;
    forall i, j | 0 <= i < j < |s| ensures s[i].totalPool >= s[j].totalPool {
      if i == 0 {
        assert s[j] == r[j - 1];
      } else {
        assert s[i] == r[i - 1] && s[j] == r[j - 1];
      }
    }
  }

  /** The markets ordered by pool, largest first (ties keep no particular order). */
  function SortByPool(s: seq<Market>): seq<Market>
    decreases |s|
  {
    if |s| == 0 then [] else Insert(s[0], SortByPool(s[1..]))
  }

  /** Sorting orders the markets and keeps exactly the same ones. */
  lemma {:induction false} SortByPoolFacts(s: seq<Market>)
    ensures PoolDesc(SortByPool(s))
    ensures multiset(SortByPool(s)) == multiset(s)
    decreases |s|
  {
    if |s| > 0 {
      SortByPoolFacts(s[1..]);
      InsertFacts(s[0], SortByPool(s[1..]));
      assert s == [s[0]] + s[1..];
    }
  }

  /** How many markets the home page features. */
  const FeaturedLimit: nat := 5

  /** The featured markets: the open ones by pool, largest first, at most five. */
  function Featured(ms: seq<Market>): (f: seq<Market>)
    ensures |f| <= FeaturedLimit
    ensures PoolDesc(f)
  {
    var sorted := SortByPool(OpenOnly(ms));
    SortByPoolFacts(OpenOnly(ms));
    if |sorted| <= FeaturedLimit then sorted else sorted[..FeaturedLimit]
  }

  /**
   * The featured markets are open markets of the table, ordered by pool;
   * there are five of them unless fewer are open; and no open market left
   * out has a larger pool than a featured one.
   */
  lemma FeaturedFacts(ms: seq<Market>)
    ensures var f := Featured(ms);
      && |f| == (if |OpenOnly(ms)| <= FeaturedLimit then |OpenOnly(ms)| else FeaturedLimit)
      && PoolDesc(f)
      && (forall i :: 0 <= i < |f| ==> f[i].status == Open && f[i] in ms)
      && (forall m :: m in ms && m.status == Open && m !in f ==>
            forall i :: 0 <= i < |f| ==> f[i].totalPool >= m.totalPool)
  {
    var open := OpenOnly(ms);
    var sorted := SortByPool(open);
    SortByPoolFacts(open);
    assert |sorted| == |open| by {
      assert |multiset(sorted)| == |multiset(open)|;
    }
    var f := Featured(ms);
    forall i | 0 <= i < |f| ensures f[i].status == Open && f[i] in ms {
      assert f[i] in multiset(sorted);
      assert f[i] in multiset(open);
      assert f[i] in multiset(ms);
    }
    forall m | m in ms && m.status == Open && m !in f
      ensures forall i :: 0 <= i < |f| ==> f[i].totalPool >= m.totalPool
    {
      assert m in multiset(sorted);
      var j :| 0 <= j < |sorted| && sorted[j] == m;
      assert j >= |f|;
    }
  }
}
