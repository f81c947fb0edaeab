/**
 * The database the routes and procedures act on, as an in-memory store: the
 * users (profile) table, the markets table and the bets table.
 */
module Store {
  import opened Wrappers
  import opened Domain
  import opened Settlement
  import opened Text
  import Pricing
  import Lifecycle
  import Requests

  /** Every account starts with 1000.00 points. */
  const StartingBalance: real := 1000.0

  /** Stands for the database's message when a profile with the new id already exists. */
  const MsgDuplicateProfile := "duplicate key value violates unique constraint"

  /** Stands for the database's message when a stake text is not a number. */
  const MsgNotNumeric := "invalid input syntax for type numeric"

  /** An HTTP status code and the message (or error) of the JSON reply. */
  datatype Reply = Reply(code: nat, message: string)

  /** The bet route's reply: an error, or 201 with the created bet. */
  datatype BetReply = BetRejected(code: nat, message: string) | BetCreated(bet: Bet)

  /** Some profile already has this username. */
  predicate UsernameTaken(users: map<UserId, Profile>, username: string)
  {
    exists u :: u in users && users[u].username == username
  }

  /**
   * The store's invariant, over the three tables: bet ids are positions;
   * every bet has a positive stake, a non-negative potential payout and an
   * existing market; no balance is negative; and every market's pool
   * counters are the sums of its bets' stakes.
   */
  ghost predicate Consistent(users: map<UserId, Profile>, markets: map<MarketId, Market>, bets: seq<Bet>)
  {
    && IdsArePositions(bets)
    && (forall i :: 0 <= i < |bets| ==>
          bets[i].stake > 0.0 && bets[i].potentialPayout >= 0.0 && bets[i].marketId in markets)
    && (forall u :: u in users ==> users[u].balance >= 0.0)
    && (forall id :: id in markets ==> PoolsMatchBets(markets[id], bets, id))
  }

  /** Resolving a market keeps the store consistent. */
  lemma ResolutionKeepsConsistent(users: map<UserId, Profile>, markets: map<MarketId, Market>, bets: seq<Bet>,
                                  id: MarketId, side: Side)
    requires Consistent(users, markets, bets) && id in markets
    ensures Consistent(CreditAll(users, PendingBets(bets, id), side),
                       markets[id := markets[id].(status := Resolved, result := Some(side))],
                       SettleAll(bets, id, side))
  {
    SettleAllKeepsStakes(bets, id, side);
    var q := PendingBets(bets, id);
    PendingBetsFacts(bets, id);
    CreditAllBalances(users, q, side);
    forall u | u in users ensures CreditAll(users, q, side)[u].balance >= 0.0 {
      WinningsNonNegative(q, u, side);
    }
  }

  lemma SettleAllKeepsStakes(bets: seq<Bet>, id: MarketId, side: Side)
    ensures forall i :: 0 <= i < |bets| ==>
      var a := SettleAll(bets, id, side)[i];
      a.id == bets[i].id && a.marketId == bets[i].marketId && a.potentialPayout == bets[i].potentialPayout
      && a.side == bets[i].side && a.stake == bets[i].stake
    ensures forall mid, s :: StakeOn(SettleAll(bets, id, side), mid, s) == StakeOn(bets, mid, s)
  {
    var after := SettleAll(bets, id, side);
    forall i | 0 <= i < |bets|
      ensures after[i].marketId == bets[i].marketId && after[i].side == bets[i].side && after[i].stake == bets[i].stake
    {
      SettleAllFacts(bets, id, side, i);
    }
    forall mid, s ensures StakeOn(after, mid, s) == StakeOn(bets, mid, s) {
      StakeOnPreserved(bets, after, mid, s);
    }
  }

  /** Placing a bet keeps the store consistent. */
  lemma PlacementKeepsConsistent(users: map<UserId, Profile>, markets: map<MarketId, Market>, bets: seq<Bet>,
                                 user: UserId, marketId: MarketId, side: Side, stake: real)
    requires Consistent(users, markets, bets)
    requires marketId in markets && user in users && stake > 0.0 && users[user].balance >= stake
    ensures var bet := Bet(|bets|, marketId, user, side, stake,
                           Pricing.PotentialPayout(markets[marketId], side, stake), Pending, None);
      Consistent(users[user := users[user].(balance := users[user].balance - stake)],
                 markets[marketId := AddStake(markets[marketId], side, stake)],
                 bets + [bet])
  {
    var m := markets[marketId];
    Pricing.PayoutNonNegative(m, side, stake);
    var bet := Bet(|bets|, marketId, user, side, stake, Pricing.PotentialPayout(m, side, stake), Pending, None);
    forall id | id in markets
      ensures StakeOn(bets + [bet], id, Yes) == StakeOn(bets, id, Yes) + (if id == marketId && side == Yes then stake else 0.0)
      ensures StakeOn(bets + [bet], id, No) == StakeOn(bets, id, No) + (if id == marketId && side == No then stake else 0.0)
    {
      StakeOnSnoc(bets, bet, id, Yes);
      StakeOnSnoc(bets, bet, id, No);
    }
  }

  class Store {
    var users: map<UserId, Profile>
    var markets: map<MarketId, Market>
    var bets: seq<Bet>

    ghost predicate Valid()
      reads this
    {
      Consistent(users, markets, bets)
    }

    constructor ()
      ensures Valid()
      ensures users == map[] && markets == map[] && bets == []
    {
      users, markets, bets := map[], map[], [];
    }

    /** The increment_balance procedure. */
    method IncrementBalance(u: UserId, amount: real)
      modifies this`users
      ensures users == Increment(old(users), u, amount)
      ensures old(Valid()) && amount >= 0.0 ==> Valid()
    {
      if u in users {
        users := users[u := users[u].(balance := users[u].balance + amount)];
      }
    }

    /**
     * The place_bet procedure: the market must be open and the balance must
     * cover the stake; then, priced on the pool as it stands, the stake is
     * debited, added to the pool and recorded as a pending bet.
     */
    method PlaceBet(user: UserId, marketId: MarketId, side: Side, stake: real) returns (r: Result<Bet, string>)
      requires Valid() && stake > 0.0
      modifies this
      ensures Valid()
      ensures r == Failure(Requests.CodeNotOpen) <==>
        marketId !in old(markets) || !Lifecycle.AcceptsBets(old(markets)[marketId].status)
      ensures r == Failure(Requests.CodeInsufficient) <==>
        marketId in old(markets) && Lifecycle.AcceptsBets(old(markets)[marketId].status)
        && BalanceOf(old(users), user) < stake
      ensures r.Failure? ==> r.error in {Requests.CodeNotOpen, Requests.CodeInsufficient}
      ensures r.Failure? ==> users == old(users) && markets == old(markets) && bets == old(bets)
      ensures r.Success? ==>
        && marketId in old(markets) && user in old(users)
        && r.value == Bet(|old(bets)|, marketId, user, side, stake,
                          Pricing.PotentialPayout(old(markets)[marketId], side, stake), Pending, None)
        && bets == old(bets) + [r.value]
        && users == old(users)[user := old(users)[user].(balance := old(users)[user].balance - stake)]
        && markets == old(markets)[marketId := AddStake(old(markets)[marketId], side, stake)]
    {
      if marketId !in markets || markets[marketId].status != Open {
        return Failure(Requests.CodeNotOpen);
      }
      if BalanceOf(users, user) < stake {
        return Failure(Requests.CodeInsufficient);
      }
      var m := markets[marketId];
      var payout := Pricing.PotentialPayout(m, side, stake);
      var bet := Bet(|bets|, marketId, user, side, stake, payout, Pending, None);
      PlacementKeepsConsistent(users, markets, bets, user, marketId, side, stake);
      users := users[user := users[user].(balance := users[user].balance - stake)];
      markets := markets[marketId := AddStake(m, side, stake)];
      bets := bets + [bet];
      r := Success(bet);
    }

    /**
     * The bet route: the guard chain, then place_bet, whose error codes are
     * turned into messages; every failure is a 400 and changes nothing. A
     * text stake reaches place_bet as the number it spells; one that spells
     * no number is refused by the database.
     */
    method PostBet(user: UserId, body: Requests.BetBody) returns (reply: BetReply)
      requires Valid()
      modifies this
      ensures Valid()
      ensures reply.BetRejected? ==> reply.code == 400
      ensures reply.BetRejected? ==> users == old(users) && markets == old(markets) && bets == old(bets)
      ensures Requests.CheckBetBody(body).Reject? ==>
        reply == BetRejected(400, Requests.CheckBetBody(body).message)
      ensures Requests.CheckBetBody(body).Accept? && Requests.StakeAmount(Requests.CheckBetBody(body).stake).None? ==>
        reply == BetRejected(400, MsgNotNumeric)
      ensures Requests.CheckBetBody(body).Accept? && Requests.StakeAmount(Requests.CheckBetBody(body).stake).Some? ==>
        var v := Requests.CheckBetBody(body);
        var stake := Requests.StakeAmount(v.stake).value;
        && (v.marketId !in old(markets) || !Lifecycle.AcceptsBets(old(markets)[v.marketId].status) ==>
              reply == BetRejected(400, Requests.MsgNotOpen))
        && (v.marketId in old(markets) && Lifecycle.AcceptsBets(old(markets)[v.marketId].status)
              && BalanceOf(old(users), user) < stake ==>
              reply == BetRejected(400, Requests.MsgInsufficient))
        && (v.marketId in old(markets) && Lifecycle.AcceptsBets(old(markets)[v.marketId].status)
              && BalanceOf(old(users), user) >= stake ==>
              reply.BetCreated?)
      ensures reply.BetCreated? ==>
        var v := Requests.CheckBetBody(body);
        && v.Accept? && Requests.StakeAmount(v.stake).Some?
        && var stake := Requests.StakeAmount(v.stake).value;
        && v.marketId in old(markets) && user in old(users)
        && reply.bet == Bet(|old(bets)|, v.marketId, user, v.side, stake,
                            Pricing.PotentialPayout(old(markets)[v.marketId], v.side, stake), Pending, None)
        && bets == old(bets) + [reply.bet]
        && users == old(users)[user := old(users)[user].(balance := old(users)[user].balance - stake)]
        && markets == old(markets)[v.marketId := AddStake(old(markets)[v.marketId], v.side, stake)]
    {
      var v := Requests.CheckBetBody(body);
      if v.Reject? {
        return BetRejected(v.code, v.message);
      }
      var amount := Requests.StakeAmount(v.stake);
      if amount.None? {
        return BetRejected(400, MsgNotNumeric);
      }
      var r := PlaceBet(user, v.marketId, v.side, amount.value);
      if r.Failure? {
        KnownCodeMessages();
        return BetRejected(400, Requests.PlaceBetErrorMessage(r.error));
      }
      reply := BetCreated(r.value);
    }

    /** The two codes place_bet raises get the route's two fixed messages. */
    static lemma KnownCodeMessages()
      ensures Requests.PlaceBetErrorMessage(Requests.CodeInsufficient) == Requests.MsgInsufficient
      ensures Requests.PlaceBetErrorMessage(Requests.CodeNotOpen) == Requests.MsgNotOpen
    {
      ContainsSelf(Requests.CodeInsufficient);
      ContainsSelf(Requests.CodeNotOpen);
      MissingCharNotContained(Requests.CodeNotOpen, Requests.CodeInsufficient, 'I');
    }

    /**
     * The resolve route: checks the result and the market, marks the market
     * resolved, then settles that market's pending bets one by one, crediting
     * each winner's potential payout through increment_balance.
     */
    method ResolveMarket(id: MarketId, result: Option<string>) returns (reply: Reply)
      requires Valid()
      modifies this
      ensures Valid()
      ensures reply.code != 200 ==> users == old(users) && markets == old(markets) && bets == old(bets)
      ensures Requests.ParseResult(result).None? ==> reply == Reply(400, "Result must be yes or no")
      ensures Requests.ParseResult(result).Some? && id !in old(markets) ==> reply == Reply(404, "Market not found")
      ensures Requests.ParseResult(result).Some? && id in old(markets)
              && !Lifecycle.RouteCanResolve(old(markets)[id].status) ==>
              reply == Reply(400, "Market cannot be resolved")
      ensures reply.code == 200 <==>
        Requests.ParseResult(result).Some? && id in old(markets) && Lifecycle.RouteCanResolve(old(markets)[id].status)
      ensures reply.code == 200 ==>
        var side := Requests.ParseResult(result).value;
        && reply.message == "Market resolved successfully"
        && markets == old(markets)[id := old(markets)[id].(status := Resolved, result := Some(side))]
        && bets == SettleAll(old(bets), id, side)
        && users == CreditAll(old(users), PendingBets(old(bets), id), side)
    {
      var parsed := Requests.ParseResult(result);
      if parsed.None? {
        return Reply(400, "Result must be yes or no");
      }
      var side := parsed.value;
      if id !in markets {
        return Reply(404, "Market not found");
      }
      var m := markets[id];
      if m.status != Closed && m.status != Open {
        return Reply(400, "Market cannot be resolved");
      }
      ResolutionKeepsConsistent(users, markets, bets, id, side);
      markets := markets[id := m.(status := Resolved, result := Some(side))];
      PayOutWinners(id, side);
      reply := Reply(200, "Market resolved successfully");
    }

    /**
     * The settlement loop of the resolve route: reads the market's pending
     * bets once, then, bet by bet, credits a winner through increment_balance
     * and marks it won with its potential payout, or marks a loser lost with 0.
     */
    method PayOutWinners(id: MarketId, side: Side)
      requires IdsArePositions(bets)
      modifies this`bets, this`users
      ensures bets == SettleAll(old(bets), id, side)
      ensures users == CreditAll(old(users), PendingBets(old(bets), id), side)
    {
      var pending := PendingBets(bets, id);
      ghost var bets0, users0 := bets, users;
      ghost var done: set<nat> := {};
      var k := 0;
      while k < |pending|
        invariant 0 <= k <= |pending|
        invariant done == IdSet(pending[..k])
        invariant bets == SettleIds(bets0, done, side)
        invariant users == CreditAll(users0, pending[..k], side)
      {
        var bet := pending[k];
        PendingStep(bets0, id, k);
        SettleIdsStep(bets0, done, bet.id, side);
        if bet.side == side {
          IncrementBalance(bet.userId, bet.potentialPayout);
          bets := bets[bet.id := bets[bet.id].(status := Won, actualPayout := Some(bet.potentialPayout))];
        } else {
          bets := bets[bet.id := bets[bet.id].(status := Lost, actualPayout := Some(0.0))];
        }
        IdSetSnoc(pending, k);
        assert pending[..k + 1][..k] == pending[..k];
        done := done + {bet.id};
        k := k + 1;
      }
      assert pending[..k] == pending;
      SettleIdsOfPending(bets0, id, side);
    }

    /** The admin panel's status change: a single unguarded write of the status. */
    method SetStatus(id: MarketId, status: Status)
      requires Valid()
      modifies this`markets
      ensures Valid()
      ensures id in old(markets) ==> markets == old(markets)[id := old(markets)[id].(status := status)]
      ensures id !in old(markets) ==> markets == old(markets)
    {
      if id in markets {
        markets := markets[id := markets[id].(status := status)];
      }
    }

    /**
     * The admin panel's market creation: rejected without a title or closing
     * date; otherwise a new open market with empty pools under the fresh id
     * the database assigns.
     */
    method CreateMarket(id: MarketId, title: string, closingDate: string) returns (err: Option<string>)
      requires Valid() && id !in markets
      modifies this`markets
      ensures Valid()
      ensures err == Requests.CreateFormError(title, closingDate)
      ensures err.Some? ==> markets == old(markets)
      ensures err.None? ==> markets == old(markets)[id := Market(title, closingDate, Open, 0.0, 0.0, 0.0, None)]
    {
      err := Requests.CreateFormError(title, closingDate);
      if err.None? {
        StakeOnUnused(bets, id, Yes);
        StakeOnUnused(bets, id, No);
        markets := markets[id := Market(title, closingDate, Open, 0.0, 0.0, 0.0, None)];
      }
    }

    /**
     * The register route: all three fields are required and the username must
     * be free; the auth account is created by a call outside this model,
     * whose outcome is `created`; on success one profile is inserted under
     * the new account's id, with the starting balance and the role "user".
     */
    method Register(email: Option<string>, password: Option<string>, username: Option<string>,
                    created: Result<UserId, string>) returns (reply: Reply)
      requires Valid()
      modifies this`users
      ensures Valid()
      ensures reply.code != 201 ==> users == old(users)
      ensures Requests.Blank(email) || Requests.Blank(password) || Requests.Blank(username) ==>
        reply == Reply(400, "Email, password and username are required")
      ensures !Requests.Blank(email) && !Requests.Blank(password) && !Requests.Blank(username)
              && UsernameTaken(old(users), username.value) ==>
        reply == Reply(400, "Username already taken")
      ensures reply.code == 201 <==>
        && !Requests.Blank(email) && !Requests.Blank(password) && !Requests.Blank(username)
        && !UsernameTaken(old(users), username.value)
        && created.Success? && created.value !in old(users)
      ensures !Requests.Blank(email) && !Requests.Blank(password) && !Requests.Blank(username)
              && !UsernameTaken(old(users), username.value) && created.Failure? ==>
        reply == Reply(400, created.error)
      ensures !Requests.Blank(email) && !Requests.Blank(password) && !Requests.Blank(username)
              && !UsernameTaken(old(users), username.value) && created.Success? && created.value in old(users) ==>
        reply == Reply(400, MsgDuplicateProfile)
      ensures reply.code == 201 ==>
        reply == Reply(201, "Account created successfully")
        && users == old(users)[created.value := Profile(username.value, StartingBalance, "user")]
    {
      if Requests.Blank(email) || Requests.Blank(password) || Requests.Blank(username) {
        return Reply(400, "Email, password and username are required");
      }
      if UsernameTaken(users, username.value) {
        return Reply(400, "Username already taken");
      }
      if created.Failure? {
        return Reply(400, created.error);
      }
      if created.value in users {
        return Reply(400, MsgDuplicateProfile);
      }
      users := users[created.value := Profile(username.value, StartingBalance, "user")];
      reply := Reply(201, "Account created successfully");
    }
  }

  /**
   * Resolving the same market twice: once the first call succeeds the
   * market is resolved, so the second is refused and pays nobody again.
   */
  method ResolveTwice(store: Store, id: MarketId, result: Option<string>) returns (first: Reply, second: Reply)
    requires store.Valid()
    modifies store
    ensures store.Valid()
    ensures first.code == 200 ==> second == Reply(400, "Market cannot be resolved")
    ensures first.code == 200 ==> Requests.ParseResult(result).Some?
    ensures first.code == 200 ==>
      var side := Requests.ParseResult(result).value;
      && store.users == CreditAll(old(store.users), PendingBets(old(store.bets), id), side)
      && store.bets == SettleAll(old(store.bets), id, side)
      && PendingBets(store.bets, id) == []
  {
    first := store.ResolveMarket(id, result);
    second := store.ResolveMarket(id, result);
    if first.code == 200 {
      NothingPendingAfterSettle(old(store.bets), id, Requests.ParseResult(result).value);
    }
  }
}
