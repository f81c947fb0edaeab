/**
 * The specification of settlement over the stored tables: which rows the
 * resolve route selects, what each settled row becomes, what each user is
 * credited, and the pool sums the bet rows must agree with.
 */
module Settlement {
  import opened Wrappers
  import opened Domain

  /** A bet's id is its position in the bets table. */
  predicate IdsArePositions(bets: seq<Bet>)
  {
    forall i :: 0 <= i < |bets| ==> bets[i].id == i
  }

  /** The rows `.eq('market_id', id).eq('status', 'pending')` selects. */
  predicate IsPendingOf(b: Bet, id: MarketId)
  {
    b.marketId == id && b.status == Pending
  }

  /** That market's pending bets, as the resolve route reads them (the query sets no order; these come in table order). */
  function PendingBets(bets: seq<Bet>, id: MarketId): seq<Bet>
    decreases |bets|
  {
    if |bets| == 0 then []
    else
      var last := bets[|bets| - 1];
      PendingBets(bets[..|bets| - 1], id) + (if IsPendingOf(last, id) then [last] else [])
  }

  /** The ids of a list of rows. */
  function IdSet(q: seq<Bet>): set<nat>
  {
    set j | 0 <= j < |q| :: q[j].id
  }

  lemma IdSetSnoc(q: seq<Bet>, k: nat)
    requires k < |q|
    ensures IdSet(q[..k + 1]) == IdSet(q[..k]) + {q[k].id}
  {
    var a, b := q[..k + 1], q[..k];
    forall x | x in IdSet(a) ensures x in IdSet(b) + {q[k].id} {
      var j :| 0 <= j < |a| && a[j].id == x;
      if j < k { assert b[j] == a[j]; }
    }
    forall x | x in IdSet(b) + {q[k].id} ensures x in IdSet(a) {
      if x == q[k].id {
        assert a[k] == q[k];
      } else {
        var j :| 0 <= j < |b| && b[j].id == x;
        assert a[j] == b[j];
      }
    }
  }

  /**
   * The selected rows are exactly that market's pending rows: each is the
   * row stored under its id, ids increase along the list, and every pending
   * row of the market is selected.
   */
  lemma {:induction false} PendingBetsFacts(bets: seq<Bet>, id: MarketId)
    requires IdsArePositions(bets)
    ensures var q := PendingBets(bets, id);
      && (forall j :: 0 <= j < |q| ==> q[j].id < |bets| && bets[q[j].id] == q[j] && IsPendingOf(q[j], id))
      && (forall j1, j2 :: 0 <= j1 < j2 < |q| ==> q[j1].id < q[j2].id)
      && (forall i :: 0 <= i < |bets| ==> (IsPendingOf(bets[i], id) <==> i in IdSet(q)))
    decreases |bets|
  {
    if |bets| > 0 {
      var n := |bets| - 1;
      var pre, last := bets[..n], bets[n];
      PendingBetsFacts(pre, id);
      var p := PendingBets(pre, id);
      var q := PendingBets(bets, id);
      assert pre == bets[..|bets| - 1];
      if IsPendingOf(last, id) {
        assert q == p + [last];
        forall j | 0 <= j < |q| ensures q[j].id < |bets| && bets[q[j].id] == q[j] && IsPendingOf(q[j], id) {
          if j < |p| { assert q[j] == p[j]; }
        }
        forall j1, j2 | 0 <= j1 < j2 < |q| ensures q[j1].id < q[j2].id {
          if j2 < |p| { assert q[j1] == p[j1] && q[j2] == p[j2]; }
          else { assert q[j1] == p[j1] && q[j2] == bets[n]; }
        }
        assert IdSet(q) == IdSet(p) + {n} by {
          assert q[..|p|] == p;
          assert q[..|p| + 1] == q;
          IdSetSnoc(q, |p|);
        }
        forall i | 0 <= i < |bets| ensures IsPendingOf(bets[i], id) <==> i in IdSet(q) {
          if i < n { assert bets[i] == pre[i]; }
        }
      } else {
        assert q == p;
        forall i | 0 <= i < |bets| ensures IsPendingOf(bets[i], id) <==> i in IdSet(q) {
          if i < n { assert bets[i] == pre[i]; }
        }
      }
    }
  }

  /** One settled row: the winning side gets its potential payout, the losing side 0. */
  function Settle(b: Bet, result: Side): Bet
  {
    if b.side == result then b.(status := Won, actualPayout := Some(b.potentialPayout))
    else b.(status := Lost, actualPayout := Some(0.0))
  }

  /** The bets table after resolution: that market's pending rows settled, every other row as it was. */
  function SettleAll(bets: seq<Bet>, id: MarketId, result: Side): (r: seq<Bet>)
    ensures |r| == |bets|
  {
    seq(|bets|, i requires 0 <= i < |bets| => if IsPendingOf(bets[i], id) then Settle(bets[i], result) else bets[i])
  }

  /**
   * What resolution does to each row: every pending bet of the market ends
   * won (paid its potential payout) or lost (paid 0) by its side, no bet of
   * the market is left pending, other rows are untouched, and no row's
   * owner, market, side, stake or potential payout changes.
   */
  lemma SettleAllFacts(bets: seq<Bet>, id: MarketId, result: Side, i: nat)
    requires i < |bets|
    ensures var b, r := bets[i], SettleAll(bets, id, result)[i];
      && r.id == b.id && r.marketId == b.marketId && r.userId == b.userId
      && r.side == b.side && r.stake == b.stake && r.potentialPayout == b.potentialPayout
      && (IsPendingOf(b, id) && b.side == result ==> r.status == Won && r.actualPayout == Some(b.potentialPayout))
      && (IsPendingOf(b, id) && b.side != result ==> r.status == Lost && r.actualPayout == Some(0.0))
      && (!IsPendingOf(b, id) ==> r == b)
      && !IsPendingOf(r, id)
  {
  }

  /** The table with the rows under the given ids settled, as the loop of the resolve route leaves it. */
  function SettleIds(bets: seq<Bet>, ids: set<nat>, result: Side): (r: seq<Bet>)
    ensures |r| == |bets|
  {
    seq(|bets|, i requires 0 <= i < |bets| => if i in ids then Settle(bets[i], result) else bets[i])
  }

  lemma SettleIdsStep(bets: seq<Bet>, ids: set<nat>, x: nat, result: Side)
    requires x < |bets| && x !in ids
    ensures SettleIds(bets, ids, result)[x] == bets[x]
    ensures SettleIds(bets, ids + {x}, result) == SettleIds(bets, ids, result)[x := Settle(bets[x], result)]
  {
  }

  /** The k-th selected row: stored under its id, pending in the market, and not selected before. */
  lemma PendingStep(bets: seq<Bet>, id: MarketId, k: nat)
    requires IdsArePositions(bets) && k < |PendingBets(bets, id)|
    ensures var q := PendingBets(bets, id);
      q[k].id < |bets| && bets[q[k].id] == q[k] && IsPendingOf(q[k], id) && q[k].id !in IdSet(q[..k])
  {
    PendingBetsFacts(bets, id);
    var q := PendingBets(bets, id);
    forall j | 0 <= j < k ensures q[..k][j].id != q[k].id {
      assert q[..k][j] == q[j];
    }
  }

  /** Settling the selected rows by id is settling the market's pending rows. */
  lemma SettleIdsOfPending(bets: seq<Bet>, id: MarketId, result: Side)
    requires IdsArePositions(bets)
    ensures SettleIds(bets, IdSet(PendingBets(bets, id)), result) == SettleAll(bets, id, result)
  {
    PendingBetsFacts(bets, id);
  }

  /** A second settlement pass finds nothing left to settle. */
  lemma {:induction false} NothingPendingAfterSettle(bets: seq<Bet>, id: MarketId, result: Side)
    ensures PendingBets(SettleAll(bets, id, result), id) == []
    decreases |bets|
  {
    if |bets| > 0 {
      var n := |bets| - 1;
      var r := SettleAll(bets, id, result);
      assert r[..n] == SettleAll(bets[..n], id, result);
      NothingPendingAfterSettle(bets[..n], id, result);
      SettleAllFacts(bets, id, result, n);
    }
  }

  /** The balance a user has, 0 when the user has no profile. */
  function BalanceOf(users: map<UserId, Profile>, u: UserId): real
  {
    if u in users then users[u].balance else 0.0
  }

  /** `increment_balance(user, amount)`: adds to an existing profile's balance. */
  function Increment(users: map<UserId, Profile>, u: UserId, amount: real): map<UserId, Profile>
  {
    if u in users then users[u := users[u].(balance := users[u].balance + amount)] else users
  }

  /** The credit one selected row causes: its owner is paid its potential payout if it won. */
  function Credit(users: map<UserId, Profile>, b: Bet, result: Side): map<UserId, Profile>
  {
    if b.side == result then Increment(users, b.userId, b.potentialPayout) else users
  }

  /** The credits of a list of selected rows, in order. */
  function CreditAll(users: map<UserId, Profile>, q: seq<Bet>, result: Side): map<UserId, Profile>
    decreases |q|
  {
    if |q| == 0 then users else Credit(CreditAll(users, q[..|q| - 1], result), q[|q| - 1], result)
  }

  /** What a user's winning bets in q pay: the sum of their potential payouts. */
  function Winnings(q: seq<Bet>, u: UserId, result: Side): real
    decreases |q|
  {
    if |q| == 0 then 0.0
    else
      var b := q[|q| - 1];
      Winnings(q[..|q| - 1], u, result) + (if b.userId == u && b.side == result then b.potentialPayout else 0.0)
  }

  /**
   * Crediting a list of rows changes no profile but the balances, and raises
   * each user's balance by exactly that user's winnings; losing rows credit
   * nothing.
   */
  lemma {:induction false} CreditAllBalances(users: map<UserId, Profile>, q: seq<Bet>, result: Side)
    ensures CreditAll(users, q, result).Keys == users.Keys
    ensures forall u :: u in users ==>
      CreditAll(users, q, result)[u] == users[u].(balance := users[u].balance + Winnings(q, u, result))
    decreases |q|
  {
    if |q| > 0 {
      CreditAllBalances(users, q[..|q| - 1], result);
    }
  }

  lemma {:induction false} WinningsNonNegative(q: seq<Bet>, u: UserId, result: Side)
    requires forall j :: 0 <= j < |q| ==> q[j].potentialPayout >= 0.0
    ensures Winnings(q, u, result) >= 0.0
    decreases |q|
  {
    if |q| > 0 {
      WinningsNonNegative(q[..|q| - 1], u, result);
    }
  }

  /** A user's winnings in a market, stated over the whole bets table. */
  function MarketWinnings(bets: seq<Bet>, id: MarketId, u: UserId, result: Side): real
    decreases |bets|
  {
    if |bets| == 0 then 0.0
    else
      var b := bets[|bets| - 1];
      MarketWinnings(bets[..|bets| - 1], id, u, result)
        + (if IsPendingOf(b, id) && b.userId == u && b.side == result then b.potentialPayout else 0.0)
  }

  /** The winnings over the rows the route reads equal the winnings over the table. */
  lemma {:induction false} WinningsOfPendingBets(bets: seq<Bet>, id: MarketId, u: UserId, result: Side)
    ensures Winnings(PendingBets(bets, id), u, result) == MarketWinnings(bets, id, u, result)
    decreases |bets|
  {
    if |bets| > 0 {
      var n := |bets| - 1;
      var p := PendingBets(bets[..n], id);
      WinningsOfPendingBets(bets[..n], id, u, result);
      if IsPendingOf(bets[n], id) {
        assert (p + [bets[n]])[..|p|] == p;
      } else {
        assert p + [] == p;
      }
    }
  }

  /** The stake on one side of a market, summed over the bets table. */
  function StakeOn(bets: seq<Bet>, id: MarketId, side: Side): real
    decreases |bets|
  {
    if |bets| == 0 then 0.0
    else
      var b := bets[|bets| - 1];
      StakeOn(bets[..|bets| - 1], id, side) + (if b.marketId == id && b.side == side then b.stake else 0.0)
  }

  lemma StakeOnSnoc(bets: seq<Bet>, b: Bet, id: MarketId, side: Side)
    ensures StakeOn(bets + [b], id, side) == StakeOn(bets, id, side) + (if b.marketId == id && b.side == side then b.stake else 0.0)
  {
    assert (bets + [b])[..|bets|] == bets;
  }

  /** The sums depend only on each row's market, side and stake. */
  lemma {:induction false} StakeOnPreserved(bets: seq<Bet>, after: seq<Bet>, id: MarketId, side: Side)
    requires |after| == |bets|
    requires forall i :: 0 <= i < |bets| ==>
      after[i].marketId == bets[i].marketId && after[i].side == bets[i].side && after[i].stake == bets[i].stake
    ensures StakeOn(after, id, side) == StakeOn(bets, id, side)
    decreases |bets|
  {
    if |bets| > 0 {
      StakeOnPreserved(bets[..|bets| - 1], after[..|after| - 1], id, side);
    }
  }

  /** A market no bet refers to has nothing staked on it. */
  lemma {:induction false} StakeOnUnused(bets: seq<Bet>, id: MarketId, side: Side)
    requires forall i :: 0 <= i < |bets| ==> bets[i].marketId != id
    ensures StakeOn(bets, id, side) == 0.0
    decreases |bets|
  {
    if |bets| > 0 {
      StakeOnUnused(bets[..|bets| - 1], id, side);
    }
  }

  lemma {:induction false} StakeOnNonNegative(bets: seq<Bet>, id: MarketId, side: Side)
    requires forall i :: 0 <= i < |bets| ==> bets[i].stake > 0.0
    ensures StakeOn(bets, id, side) >= 0.0
    decreases |bets|
  {
    if |bets| > 0 {
      StakeOnNonNegative(bets[..|bets| - 1], id, side);
    }
  }

  /** The market's pool counters after a stake on `side`. */
  function AddStake(m: Market, side: Side, stake: real): (r: Market)
    ensures SidePool(r, side) == SidePool(m, side) + stake
    ensures r.totalPool == m.totalPool + stake
    ensures r == m.(totalYes := r.totalYes, totalNo := r.totalNo, totalPool := r.totalPool)
    ensures side == Yes ==> r.totalNo == m.totalNo
    ensures side == No ==> r.totalYes == m.totalYes
  {
    match side
    case Yes => m.(totalYes := m.totalYes + stake, totalPool := m.totalPool + stake)
    case No => m.(totalNo := m.totalNo + stake, totalPool := m.totalPool + stake)
  }

  /** Pool conservation: the counters are the sums of the stakes placed on the market. */
  predicate PoolsMatchBets(m: Market, bets: seq<Bet>, id: MarketId)
  {
    && m.totalYes == StakeOn(bets, id, Yes)
    && m.totalNo == StakeOn(bets, id, No)
    && m.totalPool == m.totalYes + m.totalNo
  }
}
