/** The rows the settlement engine stores and the pages read. */
module Domain {
  import opened Wrappers

  type UserId = string
  type MarketId = string

  /** The two outcomes of a binary market; the wire form is "yes" / "no". */
  datatype Side = Yes | No

  function SideName(s: Side): string
  {
    match s
    case Yes => "yes"
    case No => "no"
  }

  /** The check `['yes', 'no'].includes(x)` together with the value it admits. */
  function ParseSide(x: string): (r: Option<Side>)
    ensures r.Some? <==> (x == "yes" || x == "no")
    ensures r.Some? ==> SideName(r.value) == x
  {
    if x == "yes" then Some(Yes) else if x == "no" then Some(No) else None
  }

  lemma ParseSideName(s: Side)
    ensures ParseSide(SideName(s)) == Some(s)
  {
  }

  /** A market's lifecycle status. */
  datatype Status = Open | Closed | Resolved | Cancelled

  /** A bet's settlement status. */
  datatype BetStatus = Pending | Won | Lost | Refunded

  /**
   * A row of the bets table. `id` is the row's key; `actualPayout` is `null`
   * until the bet is settled.
   */
  datatype Bet = Bet(
    id: nat,
    marketId: MarketId,
    userId: UserId,
    side: Side,
    stake: real,
    potentialPayout: real,
    status: BetStatus,
    actualPayout: Option<real>)

  /** A row of the markets table, with its pool counters. */
  datatype Market = Market(
    title: string,
    closingDate: string,
    status: Status,
    totalYes: real,
    totalNo: real,
    totalPool: real,
    result: Option<Side>)

  /** The pool counter of one side. */
  function SidePool(m: Market, side: Side): real
  {
    match side
    case Yes => m.totalYes
    case No => m.totalNo
  }

  /** A row of the users (profile) table. */
  datatype Profile = Profile(username: string, balance: real, role: string)
}
