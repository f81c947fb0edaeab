# Wager settlement of a prediction market

A model of the settlement logic of a small prediction-market web
application. Users receive 1000 virtual points when they register. They bet
points on the YES or NO side of a binary market. An admin closes the market
and resolves it. Winning bets are then paid their potential payout, and
losing bets are marked lost. The logic is spread over the Express routes
of the backend and the React pages of the frontend. The model gathers it
into Dafny modules:

- `domain.dfy`: the rows of the three tables (profiles, markets, bets), sides and statuses.
- `money.dfy`: exact money on `real`. It models `Math.round` and `toFixed(n)` as round-half-up.
- `text.dfy`: `includes` and `split` on strings.
- `pricing.dfy`: the pool-share price, the payout preview, the odds bar and the YES percentage.
- `lifecycle.dfy`: the market lifecycle, i.e. which admin actions each status offers, and the resolve guards.
- `requests.dfy`: the bet route's guard chain and the client-side checks. It also maps the engine's error codes to messages.
- `settlement.dfy`: value-level specification of settlement. It covers the pending-bet snapshot, the settled bets, the credited balances and the pool sums.
- `store.dfy`: the database as a `Store` class holding a profile map, a market map and the bets sequence. A bet's id is its position in the sequence. The class has the resolve route with its settlement loop, the `place_bet` and `increment_balance` procedures, the bet route, the admin panel's writes and registration. The invariant `Valid` says: ids are positions, stakes are positive, balances are non-negative, and each market's pool counters equal the stakes of its bets. Every route-level method (the bet route, resolution, the admin panel's writes, registration) requires and ensures it. `IncrementBalance` keeps it for a non-negative amount. `PayOutWinners` is the inner loop of resolution and is covered by `Store.ResolutionKeepsConsistent`.
- `stats.dfy`, `leaderboard.dfy`, `home.dfy`: the derived statistics of the profile, leaderboard and home pages.
- `middleware.dfy`: bearer-token authentication and the admin gate.

The database procedures `place_bet`, `resolve_market` and `increment_balance`
are not part of this model's sources. `increment_balance` and `place_bet` are
modelled from what their callers rely on: the market must be open, the
balance must cover the stake, the stake is debited, and the stake is added
to the pool. `resolve_market` appears only through its callers' guard
(`Lifecycle.RpcCanResolve`) and its error mapping.

The resolve route accepts an `open` market as well as a `closed` one
(backend/src/routes/markets.js:73). The admin panel only offers resolution
for closed markets, and the procedure reports `MARKET_NOT_FOUND_OR_NOT_CLOSED`.
The model follows the route as written (`Lifecycle.RouteCanResolve`). It keeps
the closed-only guard as a separate predicate, and
`Lifecycle.RouteGuardWeakerThanRpc` states the difference.

## Model

| member | source | states |
|---|---|---|
| Store.Store.ResolveMarket | backend/src/routes/markets.js:59-111 | A result other than yes/no gives 400, an unknown market 404, and a market that is neither open nor closed 400; all three change nothing. Success happens exactly when all guards pass. The market then becomes resolved with the requested result. Every bet becomes `SettleAll` of the old bets, each balance is credited with the winnings of the old pending bets, and the store stays consistent. |
| Store.Store.PayOutWinners | backend/src/routes/markets.js:84-105 | The loop over the snapshot of the market's pending bets. The loop invariant ties the processed prefix to the set of settled ids and to the credits made so far. Afterwards the bets are exactly `SettleAll` and the balances exactly `CreditAll` over the snapshot. |
| Store.ResolveTwice | backend/src/routes/markets.js:73-75 | After a successful resolution, a second one is refused with 400 "Market cannot be resolved". Each pending bet was credited once, and no pending bet of the market remains. |
| Store.ResolutionKeepsConsistent | backend/src/routes/markets.js:77-105 | Resolution keeps ids, stakes and pool sums, and leaves no balance negative. |
| Settlement.PendingBetsFacts | backend/src/routes/markets.js:84-88 | The pending snapshot holds exactly the market's pending bets, each once and at its own id (taken in table order, since the query sets none). Every pending bet of the market is in the snapshot. |
| Settlement.SettleAllFacts | backend/src/routes/markets.js:90-104 | A pending bet of the market becomes won with payout = potential payout if its side is the result, and lost with payout 0 otherwise. Bets that were not pending and bets of other markets are unchanged. Id, owner, side, stake and potential payout never change. |
| Settlement.NothingPendingAfterSettle | backend/src/routes/markets.js:84-105 | No pending bet of the market remains after settlement. |
| Settlement.CreditAllBalances | backend/src/routes/markets.js:96-101 | The set of users is unchanged. Each user's balance rises by exactly the sum of the potential payouts of their winning pending bets, and losers' bets add nothing. |
| Settlement.WinningsOfPendingBets | backend/src/routes/markets.js:84-101 | The credit a user receives equals the sum, over the whole bets table, of their winning pending bets on the market. |
| Settlement.WinningsNonNegative | backend/src/routes/markets.js:96-99 | With non-negative potential payouts, no credit is negative. |
| Store.Store.IncrementBalance | backend/src/routes/markets.js:96-99 | increment_balance adds the amount to the user's balance and changes nothing else. A non-negative amount keeps the store consistent. |
| Store.Store.PlaceBet | backend/src/routes/bets.js:27-41 | `MARKET_NOT_OPEN` exactly when the market is missing or not open. Otherwise `INSUFFICIENT_BALANCE` exactly when the balance is below the stake. A failure changes nothing. Success appends a pending bet priced on the pool before the stake, debits the stake, adds it to the side's pool, and keeps the store consistent. |
| Store.PlacementKeepsConsistent | frontend/src/pages/MarketDetail.jsx:63-66 | Recording a bet priced on the current pool, debiting the stake and adding it to the pool keeps the store consistent. |
| Store.Store.PostBet | backend/src/routes/bets.js:9-43 | The guard chain's rejection is returned as is, and place_bet runs only when every guard passes. A text stake that is not a number is refused by the database's cast. For a numeric stake on a missing or closed market the reply is 400 "Market is not open". On an open market with too small a balance it is 400 "Insufficient balance". Both change nothing. On an open market whose owner can cover the stake, the bet is created (201). It is a pending bet priced on the pool before the stake and appended at the next id. The stake is debited from the user and added to the market's side pool. |
| Requests.CheckBetBody | backend/src/routes/bets.js:9-18 | A stake arrives as a JSON number or a text. Accept holds iff every field is present, the side is yes/no and the stake is not at most 0. A missing stake is absent, the number 0 or the empty text. `stake <= 0` holds only for a stake that converts to a number at most 0. Accepted fields are the body's own fields, an accepted stake that is numeric is positive, and every rejection is a 400. |
| Requests.GuardOrder | backend/src/routes/bets.js:10-18 | Missing fields are checked first, then the side, then the stake, and the first failure decides the message. |
| Requests.ZeroStakeIsMissing | backend/src/routes/bets.js:10-12 | The number 0 as stake gets the "required" message. The text "0" is not falsy and gets the "greater than 0" one. |
| Requests.NonNumericTextPasses | backend/src/routes/bets.js:10-18 | A non-empty text that is not a number passes every guard (NaN is not at most 0) and is accepted as given. |
| Requests.PlaceBetErrorMessage | backend/src/routes/bets.js:33-41 | An error containing INSUFFICIENT_BALANCE maps to "Insufficient balance". Otherwise one containing MARKET_NOT_OPEN maps to "Market is not open". Any other message is returned raw. |
| Requests.ErrorCodesRecognised | backend/src/routes/bets.js:34-39 | A code anywhere inside a message is recognised, and INSUFFICIENT_BALANCE takes precedence. |
| Requests.ShortMessagesPassThrough | backend/src/routes/bets.js:40 | A message too short to hold either code is returned unchanged. |
| Domain.ParseSide | backend/src/routes/bets.js:13-15 | A side is accepted iff it is "yes" or "no", and it prints back to the same text. |
| Requests.ClientBetErrorMessage | frontend/src/pages/MarketDetail.jsx:95-99 | A missing message becomes "Failed to place bet". Otherwise the market page maps errors the same way the route does. |
| Requests.HandleBetGuard | frontend/src/pages/MarketDetail.jsx:69-78 | A signed-out user is sent to login. An empty, non-numeric or non-positive stake is refused. A valid stake above the known balance gets "Insufficient balance". Submission happens exactly when all checks pass. |
| Requests.ClientStakePassesRoute | frontend/src/pages/MarketDetail.jsx:71-87 | The page's checks are at least as strict as the route's guards: a stake the page submits (it calls place_bet directly, not the route) would pass the route's guard chain. |
| Pricing.Price | frontend/src/pages/MarketDetail.jsx:65 | The price is 0.5 on an empty pool, never below 0.01, at least the side's share, equal to that share when the share is at least 0.01, exactly 0.01 when the share is below it, and at most 1. |
| Pricing.CalcPayout | frontend/src/pages/MarketDetail.jsx:61-67 | The preview is 0 without a market or a numeric stake. Otherwise it is stake / price rounded to cents, priced on the current pool fields. |
| Pricing.PotentialPayout | frontend/src/pages/MarketDetail.jsx:63-66 | The payout is within half a cent of stake / price, the price taken on the side's pool before the stake. |
| Pricing.PayoutNonNegative | frontend/src/pages/MarketDetail.jsx:66 | A non-negative stake never has a negative payout. |
| Pricing.EmptyPoolPaysDouble | frontend/src/pages/MarketDetail.jsx:63-66 | On an empty pool the payout is twice the stake, rounded to cents. |
| Pricing.EmptyPoolExample | frontend/src/pages/MarketDetail.jsx:65-66 | A stake of 100 on an empty pool pays 200.00. |
| Pricing.ThirtyPercentExample | frontend/src/pages/MarketDetail.jsx:64-66 | A stake of 50 on a YES pool of 300 out of 1000 pays 166.67. |
| Pricing.PayoutAtMostHundredfold | frontend/src/pages/MarketDetail.jsx:65-66 | Before rounding the payout never exceeds 100 times the stake. After rounding it never exceeds 100 times the stake rounded to cents. |
| Pricing.PayoutAtLeastStake | frontend/src/pages/MarketDetail.jsx:65-66 | When 0.01·pool ≤ side ≤ pool, the unrounded payout is stake·pool/side and at least the stake. |
| Pricing.OddsBar | frontend/src/pages/MarketDetail.jsx:7-9 | The bar shows 50/50 on an empty pool. Otherwise each side's percentage is within 0.05 of 100·side/pool. |
| Pricing.OddsBarSplitsPool | frontend/src/pages/MarketDetail.jsx:8-9 | When the two sides make up the pool, both percentages lie in [0, 100] and add up to 100 within 0.1. |
| Pricing.YesPercent | frontend/src/pages/Markets.jsx:34-39 | The result is 50 when yes + no is not positive. Otherwise it is within 0.5 of 100·yes/(yes+no), reading `total_yes`, then `yes_pool`, then 0, and likewise for no. |
| Pricing.YesPercentRange | frontend/src/pages/Home.jsx:30-33 | For non-negative pools the percentage is a whole number in [0, 100]. All stake on YES gives 100, and all stake on NO gives 0. |
| Pricing.YesPercentPrefersTotals | frontend/src/pages/Markets.jsx:35-36 | When `total_yes` and `total_no` are present, the legacy pool fields are ignored. |
| Money.RoundHalfUp | frontend/src/pages/Markets.jsx:38 | `Math.round` gives the integer within half a unit, rounding halves up. |
| Money.ToFixed | frontend/src/pages/MarketDetail.jsx:66 | `toFixed` is within half a unit of the last place and keeps the sign. |
| Money.ToFixedMonotonic | frontend/src/pages/MarketDetail.jsx:66 | Rounding to a fixed number of places is monotone. |
| Lifecycle.CanStepExactly | frontend/src/pages/AdminPanel.jsx:166-192 | An open market offers exactly Close (to closed) and Cancel (to cancelled). A closed market offers exactly Reopen (to open) and the two resolutions (to resolved). |
| Lifecycle.Actions | frontend/src/pages/AdminPanel.jsx:166-192 | Every offered action moves the market to a different status, and no action is offered exactly for resolved and cancelled markets. |
| Lifecycle.CanStep | frontend/src/pages/AdminPanel.jsx:166-192 | An offered step always changes the status and never leaves a finalized market. |
| Lifecycle.TerminalStatesAreTerminal | frontend/src/pages/AdminPanel.jsx:190-192 | Resolved and cancelled markets offer no action and cannot step anywhere. |
| Lifecycle.FinalizedIffNoActions | frontend/src/pages/AdminPanel.jsx:190-192 | The "Finalized" label (shown for resolved or cancelled) appears iff the row has no button. The two conditions are written separately in the panel. |
| Lifecycle.ResolutionOnlyFromClosed | frontend/src/pages/AdminPanel.jsx:172-184 | A resolve action is offered only for a closed market, and its result is YES or NO. |
| Lifecycle.RouteGuardWeakerThanRpc | backend/src/routes/markets.js:73-75 | Every status the procedure accepts, the route accepts too. The route also accepts open, which no admin action reaches. Neither accepts a finalized market. |
| Lifecycle.BettingWindow | frontend/src/pages/MarketDetail.jsx:108 | Only an open market accepts bets, and only a closed market can be reopened. |
| Requests.ParseResult | backend/src/routes/markets.js:61-64 | The result is accepted iff it is "yes" or "no", and it maps to the side of that name. |
| Requests.CreateFormError | frontend/src/pages/AdminPanel.jsx:34-37 | Market creation is refused iff the title or the closing date is empty. |
| Store.Store.CreateMarket | frontend/src/pages/AdminPanel.jsx:34-46 | A refused form inserts nothing. Otherwise exactly one open market with empty pools is added, and the store stays consistent. |
| Store.Store.SetStatus | frontend/src/pages/AdminPanel.jsx:57-58 | The status is written with no transition check. Only that market's status changes, and the store stays consistent. |
| Requests.ResolveCodesMapped | frontend/src/pages/AdminPanel.jsx:73-77 | NOT_AUTHORIZED maps to "Not authorized", and MARKET_NOT_FOUND_OR_NOT_CLOSED maps to "Market must be CLOSED before resolving". |
| Requests.ResolveErrorMessage | frontend/src/pages/AdminPanel.jsx:73-77 | A missing or empty message becomes "Failed to resolve market". A message containing NOT_AUTHORIZED shows "Not authorized". Otherwise one containing MARKET_NOT_FOUND_OR_NOT_CLOSED shows "Market must be CLOSED before resolving". Any other message is shown raw. |
| Store.Store.Register | backend/src/routes/auth.js:8-40 | Missing email, password or username gives 400 "Email, password and username are required". A taken username gives 400 "Username already taken". A failed account creation gives 400 with its message, and a profile-insert error for an id that already has a profile gives 400 with the insert's message. None of these changes the profiles. Success (201) inserts exactly one profile under the new account's id, with balance 1000.00 and role "user", and leaves every existing profile unchanged. Its reply is "Account created successfully". |
| Stats.CountsPartition | frontend/src/pages/Profile.jsx:61-64 | The won, lost, pending and refunded counts partition the bets, so won + lost + pending ≤ total. |
| Stats.CountStatus | frontend/src/pages/Profile.jsx:62-64 | A status count never exceeds the number of bets. |
| Stats.WinRate | frontend/src/pages/Profile.jsx:65 | The win rate is absent (a dash) iff there are no bets. Otherwise it lies in [0, 100]. It is 0 with no win, and 100 with wins and no loss. |
| Stats.TotalWon | frontend/src/pages/Profile.jsx:66 | With non-negative payouts (a null payout counting as 0), the total won is non-negative. |
| Stats.TotalStaked | frontend/src/pages/Profile.jsx:67 | With non-negative stakes the total staked is non-negative. With positive stakes it is positive iff there is a bet. |
| Stats.PnL | frontend/src/pages/Leaderboard.jsx:39 | With non-negative stakes P&L never exceeds the total won. With non-negative payouts it never falls below minus the total staked. |
| Stats.RateBounds | frontend/src/pages/Profile.jsx:65 | won/settled·100, rounded to one decimal, lies in [0, 100] and hits the ends exactly. |
| Stats.TotalWonBounds | frontend/src/pages/Profile.jsx:66 | The total won, counting a null payout as 0, is non-negative, and it is 0 without a won bet. |
| Stats.TotalsAppend | frontend/src/pages/Profile.jsx:66-67 | Total won, total staked and P&L add up over concatenated bet lists. |
| Stats.NoWinsMeansLoss | frontend/src/pages/Profile.jsx:107-108 | With positive stakes and no won bet, P&L = total won − total staked is negative. |
| Stats.ShowsPayout | frontend/src/pages/Profile.jsx:142 | The payout column is filled only for a non-pending bet with a payout, so a pending bet never shows one. |
| Stats.DedupFacts | frontend/src/pages/Profile.jsx:51 | Deduplication keeps exactly the elements of the list, each once. |
| Stats.MarketIdsExactlyOnce | frontend/src/pages/Profile.jsx:51 | Every bet's market id is looked up exactly once, and no other id is. |
| Leaderboard.BetsOf | frontend/src/pages/Leaderboard.jsx:29-32 | The rows of the per-user query are that user's bets, every one of them, each drawn from the table (as a sub-multiset). |
| Leaderboard.LeaderWinRateRange | frontend/src/pages/Leaderboard.jsx:40 | The win rate is a whole number in [0, 100]. It is 0 without bets or wins, and 100 with wins and no loss. |
| Leaderboard.LeaderWinRate | frontend/src/pages/Leaderboard.jsx:40 | The rate is a whole percentage in [0, 100], and 0 for a user without bets. |
| Leaderboard.PlayerOf | frontend/src/pages/Leaderboard.jsx:34-42 | An entry keeps the user and rank. won + lost ≤ total, the win rate lies in [0, 100], and a user without bets has rate 0 and P&L 0. |
| Leaderboard.PlayerOfCounts | frontend/src/pages/Leaderboard.jsx:34-40 | total, won and lost are the user's bet count and won/lost counts. P&L is total won − total staked. |
| Leaderboard.Enrich | frontend/src/pages/Leaderboard.jsx:28-43 | One entry per user, in order, with rank = position + 1. |
| Leaderboard.RanksFollowBalance | frontend/src/pages/Leaderboard.jsx:20-42 | Ranks are 1..n, increasing, with no gaps. A better rank never has a smaller balance. |
| Leaderboard.FindIndex | frontend/src/pages/Leaderboard.jsx:47 | `findIndex` gives the first position with the id, or -1 exactly when the id is absent. |
| Leaderboard.MyRankIsOwnEntry | frontend/src/pages/Leaderboard.jsx:46-49 | The signed-in user's rank names their own entry, and it is null exactly when the user is not listed. |
| Leaderboard.MyRank | frontend/src/pages/Leaderboard.jsx:46-49 | A rank r is given only to a signed-in user, lies in 1..n, and entry r is that user's. No rank is given iff the user is signed out or not listed. |
| Leaderboard.ParseNatToString | frontend/src/pages/Leaderboard.jsx:57 | The rank printed after "#" reads back as the rank. |
| Leaderboard.MedalCases | frontend/src/pages/Leaderboard.jsx:53-58 | Ranks 1, 2 and 3 get gold, silver and bronze. Any other rank r gets "#" followed by r. |
| Leaderboard.MedalInjective | frontend/src/pages/Leaderboard.jsx:53-58 | Different ranks never get the same badge. |
| Leaderboard.Medal | frontend/src/pages/Leaderboard.jsx:53-58 | Ranks 1-3 get a one-character medal. Every other rank gets a badge of at least two characters starting with "#". |
| Leaderboard.PodiumIsTopThree | frontend/src/pages/Leaderboard.jsx:77-100 | The podium is drawn only with at least three players. Its places are ranks 1-3, and no lower-ranked player is richer than third place. |
| Home.Volume | frontend/src/pages/Home.jsx:22 | Volume is the sum of the stakes, and 0 when the rows are missing. |
| Home.VolumeFacts | frontend/src/pages/Home.jsx:22 | Restates `Stats.TotalsAppend` and `Stats.TotalStaked`'s contract for the home page's volume: it adds up over rows and is 0 for none, and with positive stakes it is positive iff there is a row. |
| Home.LoadedCounters | frontend/src/pages/Home.jsx:23 | A missing market, user or resolved count shows as 0. |
| Home.NothingLoadedShowsZeros | frontend/src/pages/Home.jsx:10-23 | When every query fails, the fallbacks to 0 reproduce the initial state of line 10, so the strip shows zeros and a volume of 0. |
| Home.OpenOnly | frontend/src/pages/Home.jsx:20 | Every open market is kept and nothing else, and no row is kept more often than it occurs in the table. |
| Home.SortByPoolFacts | frontend/src/pages/Home.jsx:20 | Ordering by pool yields a pool-descending permutation of the input. |
| Home.Featured | frontend/src/pages/Home.jsx:20 | At most five markets are featured, in pool-descending order. |
| Home.FeaturedFacts | frontend/src/pages/Home.jsx:20 | Featured markets are open markets of the table, in pool-descending order. There are min(5, number open) of them, and no open market left out has a larger pool than a featured one. |
| Middleware.BearerHeaderSplits | backend/src/middleware/auth.js:6-10 | A header starting with "Bearer " splits into at least two fields. The token is the first field after the prefix. |
| Middleware.BearerTokenRoundTrip | backend/src/middleware/auth.js:10 | "Bearer t" yields token t for any t without a space. |
| Middleware.BearerToken | backend/src/middleware/auth.js:10 | The token contains no space and is a prefix of the text after "Bearer ". |
| Middleware.Merge | backend/src/middleware/auth.js:25 | The spread keeps every field of both records, and the profile's fields override the auth user's. |
| Middleware.Authenticate | backend/src/middleware/auth.js:3-30 | Every refusal is a 401. "No token provided" is returned iff the header is missing or does not start with "Bearer ". |
| Middleware.AuthenticateOutcomes | backend/src/middleware/auth.js:5-29 | The request proceeds iff the token resolves to a user. A thrown lookup gives "Authentication failed", and an error or no user gives "Invalid or expired token". The user carries the profile's fields over the auth user's. |
| Middleware.RequireAdmin | backend/src/middleware/auth.js:32-37 | The request passes iff a user is present and its role is "admin". Otherwise the reply is 403 "Admin access required". |
| Middleware.ProfileRoleDecides | backend/src/middleware/auth.js:19-37 | After authentication, the stored profile's role alone decides admin access. |

## Left out

- Database, auth and realtime I/O: queries, inserts and procedure calls are operations on the in-memory `Store`. Account creation and token lookup are outcomes passed in as parameters. A failed read (other than the cases modelled) is not modelled.
- The balance write at backend/src/routes/markets.js:92-94 is not modelled. It stores an un-awaited procedure promise as the balance, which has no meaningful value. Only the `increment_balance` credit at lines 96-99 is modelled. If that write took effect, a winner's balance would be written twice.
- The bodies of the `place_bet`, `resolve_market` and `increment_balance` procedures are not part of this model. `Store.Store.PlaceBet` checks the open status before the balance (the order inside the procedure is unknown). It treats a user without a profile as having balance 0.
- Store.Store.ResolveMarket: concurrency and atomicity are not modelled. The route's separate writes (status first, then each bet and balance) run as one sequential step, so a failure between them cannot leave a half-settled market in the model. The 500 reply of the catch block is not modelled.
- The cancellation of a market does not refund its bets in any of the files modelled, so the refund path is not modelled. `refunded` appears only as a bet status.
- IEEE floating point is not modelled. Money, percentages and prices are exact reals, with `toFixed` and `Math.round` as exact round-half-up.
- Dates (`closing_date` conversion, `resolved_at`, date formatting), realtime channels, parallel fetches and all rendering are left out.
- Store.Store.Register: the username check treats a username as taken whenever some profile has it. With `.single()`, two profiles sharing a name would read as free; the model does not capture that. A duplicate-profile insert error is represented by a fixed message.
- The transactions ledger shown on the profile page is not modelled.
- Settlement.PendingBets: the pending-bets query sets no row order. The model takes the rows in table order.
- Requests.CheckBetBody: a stake given as a boolean, array or object is not modelled. The `Number()` reading of a text stake is an input of the model (`Text`'s `numeric` field, absent for NaN), not computed from the characters.
- Store.Store.PostBet: the route passes no user id to place_bet (backend/src/routes/bets.js:27-31) and calls it through a client built with the service key and no user session. The procedure's bettor is therefore not determined by the route's code. The model takes the bettor to be the authenticated user, as the procedure's `place_bet(user_id, …)` design intends.
- Store.Store.PostBet: the 500 "Failed to place bet" reply of the catch block (backend/src/routes/bets.js:44-45) is not modelled. It covers thrown exceptions, which the model has none of.
- Store.Store.Register: the 500 "Registration failed" reply of the catch block (backend/src/routes/auth.js:41-42) is not modelled, for the same reason.
- Store.Store.PostBet: the database reads a numeric text stake as its number. A text that is not a number is refused with the database's cast error, which is represented by a fixed message and a 400.
- Home.FeaturedFacts: ties between equal pools come in no particular order. The database's tie order is not modelled.
- Leaderboard.Enrich: every user's bet query is taken as succeeding (a failed query is covered by `Leaderboard.PlayerOf` with no rows).
- Middleware.Authenticate: a failed profile read is treated as an absent profile, exactly like a missing profile row.
- The admin panel offers no action from closed to cancelled, and the model keeps it that way.
