/**
 * Request checks that run before the engine is called, and the mapping of
 * the engine's error codes to the messages users see.
 */
module Requests {
  import opened Wrappers
  import opened Domain
  import opened Text
  import Pricing

  const MsgFieldsRequired := "market_id, side, and stake are required"
  const MsgBadSide := "Side must be yes or no"
  const MsgBadStake := "Stake must be greater than 0"
  const MsgInsufficient := "Insufficient balance"
  const MsgNotOpen := "Market is not open"

  /** The error codes raised by place_bet and resolve_market. */
  const CodeInsufficient := "INSUFFICIENT_BALANCE"
  const CodeNotOpen := "MARKET_NOT_OPEN"
  const CodeNotAuthorized := "NOT_AUTHORIZED"
  const CodeNotClosed := "MARKET_NOT_FOUND_OR_NOT_CLOSED"

  /**
   * The stake field of a JSON body: a number, or a text together with the
   * number `Number(text)` gives for it (None for NaN).
   */
  datatype StakeField = Num(value: real) | Text(text: string, numeric: Option<real>)

  /** The JSON body of a bet request; a field may be absent. */
  datatype BetBody = BetBody(marketId: Option<string>, side: Option<string>, stake: Option<StakeField>)

  /** JavaScript falsiness of a string field: absent or empty. */
  predicate Blank(x: Option<string>)
  {
    x.None? || x.value == ""
  }

  /** JavaScript falsiness of the stake: absent, the number 0 or the empty text. */
  predicate NoStake(x: Option<StakeField>)
  {
    x.None? || x.value == Num(0.0) || (x.value.Text? && x.value.text == "")
  }

  predicate MissingField(b: BetBody)
  {
    Blank(b.marketId) || Blank(b.side) || NoStake(b.stake)
  }

  /** The number a stake stands for; None for a text that is not a number. */
  function StakeAmount(x: StakeField): Option<real>
  {
    match x
    case Num(v) => Some(v)
    case Text(_, n) => n
  }

  /** JavaScript's `stake <= 0`: a text is compared as its number, and NaN compares false. */
  predicate AtMostZero(x: StakeField)
  {
    StakeAmount(x).Some? && StakeAmount(x).value <= 0.0
  }

  /** What the bet route does with a body: a 400 reply, or a call of place_bet. */
  datatype Verdict = Reject(code: nat, message: string) | Accept(marketId: MarketId, side: Side, stake: StakeField)

  /** The guard chain of the bet route: missing fields, then the side, then the stake. */
  function CheckBetBody(b: BetBody): (v: Verdict)
    ensures v.Reject? ==> v.code == 400
    ensures v.Accept? <==>
      !MissingField(b) && (b.side.value == "yes" || b.side.value == "no") && !AtMostZero(b.stake.value)
    ensures v.Accept? ==>
      b.marketId == Some(v.marketId) && b.side == Some(SideName(v.side)) && b.stake == Some(v.stake)
    ensures v.Accept? && StakeAmount(v.stake).Some? ==> StakeAmount(v.stake).value > 0.0
  {
    if MissingField(b) then Reject(400, MsgFieldsRequired)
    else if ParseSide(b.side.value).None? then Reject(400, MsgBadSide)
    else if AtMostZero(b.stake.value) then Reject(400, MsgBadStake)
    else Accept(b.marketId.value, ParseSide(b.side.value).value, b.stake.value)
  }

  /** The first failing guard decides the reply, whatever else is wrong with the body. */
  lemma GuardOrder(b: BetBody)
    ensures MissingField(b) ==> CheckBetBody(b) == Reject(400, MsgFieldsRequired)
    ensures !MissingField(b) && b.side.value != "yes" && b.side.value != "no" ==>
      CheckBetBody(b) == Reject(400, MsgBadSide)
    ensures !MissingField(b) && (b.side.value == "yes" || b.side.value == "no") && AtMostZero(b.stake.value) ==>
      CheckBetBody(b) == Reject(400, MsgBadStake)
  {
  }

  /**
   * The number 0 is reported as a missing field, even next to a bad side,
   * while the text "0" is present and is reported as a bad stake.
   */
  lemma ZeroStakeIsMissing(id: string, side: string)
    ensures CheckBetBody(BetBody(Some(id), Some(side), Some(Num(0.0)))) == Reject(400, MsgFieldsRequired)
    ensures id != "" && side == "yes" ==>
      CheckBetBody(BetBody(Some(id), Some(side), Some(Text("0", Some(0.0))))) == Reject(400, MsgBadStake)
  {
  }

  /** A text stake that is not a number passes every guard of the route. */
  lemma NonNumericTextPasses(id: string, side: Side, text: string)
    requires id != "" && text != ""
    ensures CheckBetBody(BetBody(Some(id), Some(SideName(side)), Some(Text(text, None)))) == Accept(id, side, Text(text, None))
  {
    ParseSideName(side);
  }

  /** The bet route's message for an error raised by place_bet. */
  function PlaceBetErrorMessage(raw: string): (msg: string)
    ensures Contains(raw, CodeInsufficient) ==> msg == MsgInsufficient
    ensures !Contains(raw, CodeInsufficient) && Contains(raw, CodeNotOpen) ==> msg == MsgNotOpen
    ensures !Contains(raw, CodeInsufficient) && !Contains(raw, CodeNotOpen) ==> msg == raw
  {
    if Contains(raw, CodeInsufficient) then MsgInsufficient
    else if Contains(raw, CodeNotOpen) then MsgNotOpen
    else raw
  }

  /** The codes are recognised wherever they occur in the database's message. */
  lemma ErrorCodesRecognised(before: string, after: string)
    ensures PlaceBetErrorMessage(before + CodeInsufficient + after) == MsgInsufficient
    ensures !Contains(before + CodeNotOpen + after, CodeInsufficient) ==>
      PlaceBetErrorMessage(before + CodeNotOpen + after) == MsgNotOpen
  {
    ContainsPiece(before, CodeInsufficient, after);
    ContainsPiece(before, CodeNotOpen, after);
  }

  /** A message shorter than both codes is shown unchanged. */
  lemma ShortMessagesPassThrough(raw: string)
    requires |raw| < |CodeNotOpen|
    ensures PlaceBetErrorMessage(raw) == raw
  {
    if Contains(raw, CodeInsufficient) {
      ContainsNotLonger(raw, CodeInsufficient);
    }
    if Contains(raw, CodeNotOpen) {
      ContainsNotLonger(raw, CodeNotOpen);
    }
  }

  /** The market page's message for a failed place_bet call; a missing message becomes a generic one. */
  function ClientBetErrorMessage(raw: Option<string>): (msg: string)
    ensures Blank(raw) ==> msg == "Failed to place bet"
    ensures !Blank(raw) ==> msg == PlaceBetErrorMessage(raw.value)
  {
    var m := if Blank(raw) then "Failed to place bet" else raw.value;
    MissingCharNotContained("Failed to place bet", CodeInsufficient, '_');
    MissingCharNotContained("Failed to place bet", CodeNotOpen, '_');
    if Contains(m, CodeInsufficient) then MsgInsufficient
    else if Contains(m, CodeNotOpen) then MsgNotOpen
    else m
  }

  /** What the bet button does before anything is sent. */
  datatype BetStep = GoToLogin | ShowError(text: string) | Submit(stake: real)

  /**
   * The market page's checks: a signed-in user, a numeric positive stake, and
   * a stake within the known balance (an unknown balance compares as NaN and
   * so never blocks).
   */
  function HandleBetGuard(signedIn: bool, stake: Pricing.StakeInput, balance: Option<real>): (step: BetStep)
    ensures !signedIn <==> step == GoToLogin
    ensures step.Submit? <==>
      signedIn && stake.Number? && stake.value > 0.0 && (balance.Some? ==> stake.value <= balance.value)
    ensures step.Submit? ==> step.stake == stake.value
    ensures signedIn && !(stake.Number? && stake.value > 0.0) ==> step == ShowError("Enter a valid stake amount")
    ensures signedIn && stake.Number? && stake.value > 0.0 && balance.Some? && stake.value > balance.value ==>
      step == ShowError(MsgInsufficient)
  {
    if !signedIn then GoToLogin
    else if !stake.Number? || stake.value <= 0.0 then ShowError("Enter a valid stake amount")
    else if balance.Some? && stake.value > balance.value then ShowError(MsgInsufficient)
    else Submit(stake.value)
  }

  /** The market page's checks are at least as strict as the bet route's: a stake it submits would pass the route's guard chain. */
  lemma ClientStakePassesRoute(id: MarketId, side: Side, signedIn: bool, stake: Pricing.StakeInput, balance: Option<real>)
    requires id != ""
    requires HandleBetGuard(signedIn, stake, balance).Submit?
    ensures CheckBetBody(BetBody(Some(id), Some(SideName(side)), Some(Num(stake.value)))) == Accept(id, side, Num(stake.value))
  {
    ParseSideName(side);
  }

  /** The resolve route's check of the requested result. */
  function ParseResult(result: Option<string>): (r: Option<Side>)
    ensures r.Some? <==> result == Some("yes") || result == Some("no")
    ensures r.Some? ==> result == Some(SideName(r.value))
  {
    if Blank(result) then None else ParseSide(result.value)
  }

  /** The admin panel's check before a market is inserted. */
  function CreateFormError(title: string, closingDate: string): (err: Option<string>)
    ensures err.None? <==> title != "" && closingDate != ""
  {
    if title == "" || closingDate == "" then Some("Title and closing date are required") else None
  }

  /** The admin panel's message for a failed resolve_market call. */
  function ResolveErrorMessage(raw: Option<string>): (msg: string)
    ensures var m := if Blank(raw) then "Failed to resolve market" else raw.value;
      && (Contains(m, CodeNotAuthorized) ==> msg == "Not authorized")
      && (!Contains(m, CodeNotAuthorized) && Contains(m, CodeNotClosed) ==> msg == "Market must be CLOSED before resolving")
      && (!Contains(m, CodeNotAuthorized) && !Contains(m, CodeNotClosed) ==> msg == m)
  {
    var m := if Blank(raw) then "Failed to resolve market" else raw.value;
    if Contains(m, CodeNotAuthorized) then "Not authorized"
    else if Contains(m, CodeNotClosed) then "Market must be CLOSED before resolving"
    else m
  }

  /** The procedure's own error codes, as raised, get the panel's two fixed messages. */
  lemma ResolveCodesMapped(raw: string)
    ensures raw == CodeNotAuthorized ==> ResolveErrorMessage(Some(raw)) == "Not authorized"
    ensures raw == CodeNotClosed ==> ResolveErrorMessage(Some(raw)) == "Market must be CLOSED before resolving"
  {
    ContainsSelf(raw);
    if raw == CodeNotClosed {
      MissingCharNotContained(raw, CodeNotAuthorized, 'H');
    }
  }
}
