/**
 * The leaderboard page: users in balance-descending order, each enriched
 * with a rank and the statistics of their bets, the signed-in user's rank,
 * and the medal shown beside a rank.
 */
module Leaderboard {
  import opened Wrappers
  import opened Domain
  import opened Money
  import Stats

  /** A row of the users query: identity, balance and role. */
  datatype UserRow = UserRow(id: UserId, username: string, balance: real, role: string)

  /** A user row together with its rank and bet statistics. */
  datatype Player = Player(user: UserRow, rank: nat, total: nat, won: nat, lost: nat, winRate: int, pnl: real)

  /** The order the users query asks for: balance descending. */
  predicate ByBalanceDesc(users: seq<UserRow>)
  {
    forall i, j :: 0 <= i < j < |users| ==> users[i].balance >= users[j].balance
  }

  /** The rows of the bets table that belong to user u, in table order. */
  function BetsOf(table: seq<Bet>, u: UserId): (rows: seq<Bet>)
    ensures forall i :: 0 <= i < |rows| ==> rows[i].userId == u
    ensures forall i :: 0 <= i < |table| && table[i].userId == u ==> table[i] in rows
    ensures multiset(rows) <= multiset(table)
    decreases |table|
  {
    if |table| == 0 then []
    else
      var pre := BetsOf(table[..|table| - 1], u);
      var b := table[|table| - 1];
      assert table == table[..|table| - 1] + [b];
      if b.userId == u then pre + [b] else pre
  }

  /**
   * The leaderboard win rate: won bets as a share of settled ones (the
   * denominator is 1 while nothing is settled), in whole percent, and 0
   * for a user without bets.
   */
  function LeaderWinRate(total: nat, won: nat, lost: nat): (rate: int)
    ensures 0 <= rate <= 100
    ensures total == 0 ==> rate == 0
  {
    if total > 0 then
      Stats.ShareIsFraction(won as real, Stats.Denominator(won, lost) as real);
      RoundHalfUp(won as real / Stats.Denominator(won, lost) as real * 100.0)
    else 0
  }

  /** The win rate is a whole percentage; 0 without bets or wins, 100 with wins and no losses. */
  lemma LeaderWinRateRange(total: nat, won: nat, lost: nat)
    ensures 0 <= LeaderWinRate(total, won, lost) <= 100
    ensures total == 0 || won == 0 ==> LeaderWinRate(total, won, lost) == 0
    ensures total > 0 && won > 0 && lost == 0 ==> LeaderWinRate(total, won, lost) == 100
  {
    if total > 0 {
      var settled := Stats.Denominator(won, lost);
      Stats.ShareIsFraction(won as real, settled as real);
      var x := won as real / settled as real * 100.0;
      assert 0.0 <= x <= 100.0;
      if won == 0 {
        assert x == 0.0;
      }
      if won > 0 && lost == 0 {
        assert x == 100.0;
      }
    }
  }

  /**
   * One user's entry: the statistics over the rows of their bets query.
   * A failed query (None) counts as no bets.
   */
  function PlayerOf(u: UserRow, rank: nat, rows: Option<seq<Bet>>): (p: Player)
    ensures p.user == u && p.rank == rank
    ensures p.won + p.lost <= p.total
    ensures 0 <= p.winRate <= 100
    ensures p.total == 0 ==> p.winRate == 0 && p.pnl == 0.0
  {
    var bets := rows.GetOr([]);
    var total := |bets|;
    var won := Stats.CountStatus(bets, Won);
    var lost := Stats.CountStatus(bets, Lost);
    Stats.CountsPartition(bets);
    LeaderWinRateRange(total, won, lost);
    Player(u, rank, total, won, lost, LeaderWinRate(total, won, lost), Stats.PnL(bets))
  }

  /** The counts, win rate and P&L of an entry are those of the user's own bets. */
  lemma PlayerOfCounts(u: UserRow, rank: nat, table: seq<Bet>)
    ensures var p := PlayerOf(u, rank, Some(BetsOf(table, u.id)));
      && p.total == |BetsOf(table, u.id)|
      && p.won == Stats.CountStatus(BetsOf(table, u.id), Won)
      && p.lost == Stats.CountStatus(BetsOf(table, u.id), Lost)
      && p.pnl == Stats.TotalWon(BetsOf(table, u.id)) - Stats.TotalStaked(BetsOf(table, u.id))
      && p.winRate == LeaderWinRate(p.total, p.won, p.lost)
  {
  }

  /** Every user of the ordered list, ranked by position: the first is 1. */
  function Enrich(users: seq<UserRow>, table: seq<Bet>): (ps: seq<Player>)
    ensures |ps| == |users|
    ensures forall i :: 0 <= i < |ps| ==> ps[i] == PlayerOf(users[i], i + 1, Some(BetsOf(table, users[i].id)))
  {
    seq(|users|, i requires 0 <= i < |users| => PlayerOf(users[i], i + 1, Some(BetsOf(table, users[i].id))))
  }

  /** Ranks are 1..n without gaps or repeats, and a better rank never has a smaller balance. */
  lemma RanksFollowBalance(users: seq<UserRow>, table: seq<Bet>)
    requires ByBalanceDesc(users)
    ensures var ps := Enrich(users, table);
      forall i :: 0 <= i < |ps| ==> ps[i].rank == i + 1 && ps[i].user == users[i]
    ensures var ps := Enrich(users, table);
      forall i, j :: 0 <= i < |ps| && 0 <= j < |ps| && ps[i].rank < ps[j].rank ==>
        ps[i].user.balance >= ps[j].user.balance
    ensures var ps := Enrich(users, table);
      forall i, j :: 0 <= i < j < |ps| ==> 1 <= ps[i].rank < ps[j].rank <= |ps|
  {
  }

  /** `findIndex`: the first position whose user has the given id, or -1. */
  function FindIndex(ps: seq<Player>, id: UserId): (r: int)
    ensures -1 <= r < |ps|
    ensures r >= 0 ==> ps[r].user.id == id && forall k :: 0 <= k < r ==> ps[k].user.id != id
    ensures r == -1 <==> forall k :: 0 <= k < |ps| ==> ps[k].user.id != id
    decreases |ps|
  {
    if |ps| == 0 then -1
    else if ps[0].user.id == id then 0
    else
      var r := FindIndex(ps[1..], id);
      if r < 0 then -1 else r + 1
  }

  /** The signed-in user's rank: position + 1, or None when signed out or not listed. */
  function MyRank(ps: seq<Player>, signedIn: Option<UserId>): (r: Option<nat>)
    ensures r.Some? ==> signedIn.Some? && 1 <= r.value <= |ps| && ps[r.value - 1].user.id == signedIn.value
    ensures r.None? <==> signedIn.None? || forall k :: 0 <= k < |ps| ==> ps[k].user.id != signedIn.value
  {
    if signedIn.None? then None
    else
      var pos := FindIndex(ps, signedIn.value);
      if pos >= 0 then Some(pos + 1) else None
  }

  /** The rank badge names the user's own entry; it is missing exactly when the user is not listed. */
  lemma MyRankIsOwnEntry(users: seq<UserRow>, table: seq<Bet>, id: UserId)
    ensures var ps := Enrich(users, table);
      MyRank(ps, Some(id)).Some? ==>
        var r := MyRank(ps, Some(id)).value;
        1 <= r <= |ps| && ps[r - 1].user.id == id && ps[r - 1].rank == r
    ensures MyRank(Enrich(users, table), Some(id)).None? <==> forall i :: 0 <= i < |users| ==> users[i].id != id
  {
    var ps := Enrich(users, table);
    assert forall i :: 0 <= i < |users| ==> ps[i].user == users[i];
  }

  /** The decimal digit character of d. */
  function DigitChar(d: nat): char
    requires d < 10
  {
    "0123456789"[d]
  }

  /** The value of a decimal digit character, 0 for anything else. */
  function DigitValue(c: char): nat
  {
    if '0' <= c <= '9' then (c as int - '0' as int) as nat else 0
  }

  lemma DigitRoundTrip(d: nat)
    requires d < 10
    ensures DigitValue(DigitChar(d)) == d
  {
  }

  /** The decimal numeral of n, as a template literal prints it. */
  function NatToString(n: nat): (s: string)
    ensures |s| >= 1
    ensures forall i :: 0 <= i < |s| ==> '0' <= s[i] <= '9'
    decreases n
  {
    if n < 10 then [DigitChar(n)] else NatToString(n / 10) + [DigitChar(n % 10)]
  }

  /** Reads a decimal numeral back. */
  function ParseDigits(s: string): nat
    decreases |s|
  {
    if |s| == 0 then 0 else ParseDigits(s[..|s| - 1]) * 10 + DigitValue(s[|s| - 1])
  }

  /** Printing a number and reading it back gives the number. */
  lemma {:induction false} ParseNatToString(n: nat)
    ensures ParseDigits(NatToString(n)) == n
    decreases n
  {
    var s := NatToString(n);
    if n < 10 {
      assert s[..0] == [];
      DigitRoundTrip(n);
    } else {
      assert s[..|s| - 1] == NatToString(n / 10);
      ParseNatToString(n / 10);
      DigitRoundTrip(n % 10);
    }
  }

  /** The gold, silver and bronze medals. */
  const Gold: string := "\U{1F947}"
  const Silver: string := "\U{1F948}"
  const Bronze: string := "\U{1F949}"

  /** The badge of a rank: a medal for the first three, "#r" below them. */
  function Medal(rank: nat): (badge: string)
    ensures 1 <= rank <= 3 ==> |badge| == 1 && badge[0] != '#'
    ensures !(1 <= rank <= 3) ==> |badge| >= 2 && badge[0] == '#'
  {
    if rank == 1 then Gold
    else if rank == 2 then Silver
    else if rank == 3 then Bronze
    else "#" + NatToString(rank)
  }

  /** The first three ranks get the three distinct medals, every other rank its own "#r" badge. */
  lemma MedalCases(rank: nat)
    ensures rank == 1 ==> Medal(rank) == Gold
    ensures rank == 2 ==> Medal(rank) == Silver
    ensures rank == 3 ==> Medal(rank) == Bronze
    ensures !(1 <= rank <= 3) ==> Medal(rank)[0] == '#' && ParseDigits(Medal(rank)[1..]) == rank
  {
    if !(1 <= rank <= 3) {
      assert Medal(rank)[1..] == NatToString(rank);
      ParseNatToString(rank);
    }
  }

  /** Different ranks never share a badge. */
  lemma MedalInjective(a: nat, b: nat)
    requires Medal(a) == Medal(b)
    ensures a == b
  {
    MedalCases(a);
    MedalCases(b);
  }

  /** The podium is drawn only when there are at least three players. */
  predicate ShowPodium(ps: seq<Player>)
  {
    |ps| >= 3
  }

  /** When the podium is drawn, its three places are the players ranked 1, 2 and 3, richest first. */
  lemma PodiumIsTopThree(users: seq<UserRow>, table: seq<Bet>)
    requires ByBalanceDesc(users)
    requires ShowPodium(Enrich(users, table))
    ensures var ps := Enrich(users, table);
      ps[0].rank == 1 && ps[1].rank == 2 && ps[2].rank == 3
      && ps[0].user.balance >= ps[1].user.balance >= ps[2].user.balance
      && forall i :: 3 <= i < |ps| ==> ps[2].user.balance >= ps[i].user.balance
  {
  }
}
