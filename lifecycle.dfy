/**
 * The market lifecycle. The admin panel encodes it as the actions it offers
 * for each status; the market page accepts bets only on open markets; the
 * resolve route and the resolve_market procedure each guard resolution.
 */
module Lifecycle {
  import opened Domain

  /** The buttons of a market row in the admin panel. */
  datatype AdminAction = CloseMarket | Reopen | ResolveAs(result: Side) | CancelMarket

  /** The actions offered for a market in the given status, in the order they are shown. */
  function Actions(s: Status): (acts: seq<AdminAction>)
    ensures forall i :: 0 <= i < |acts| ==> Target(acts[i]) != s
    ensures |acts| == 0 <==> s == Resolved || s == Cancelled
  {
    match s
    case Open => [CloseMarket, CancelMarket]
    case Closed => [Reopen, ResolveAs(Yes), ResolveAs(No)]
    case Resolved => []
    case Cancelled => []
  }

  /** The row is labelled "Finalized" instead. */
  predicate Finalized(s: Status)
  {
    s == Resolved || s == Cancelled
  }

  /** The status a market has once the action has taken effect. */
  function Target(a: AdminAction): Status
  {
    match a
    case CloseMarket => Closed
    case Reopen => Open
    case ResolveAs(_) => Resolved
    case CancelMarket => Cancelled
  }

  /** The transition relation the admin panel offers. */
  predicate CanStep(from: Status, to: Status)
    ensures CanStep(from, to) ==> from != to && !Finalized(from)
  {
    exists i :: 0 <= i < |Actions(from)| && Target(Actions(from)[i]) == to
  }

  /** Bets are offered on a market only while it is open. */
  predicate AcceptsBets(s: Status)
  {
    s == Open
  }

  /** The guard of the resolve route: open and closed markets can be resolved. */
  predicate RouteCanResolve(s: Status)
  {
    s == Closed || s == Open
  }

  /** The guard the admin panel expects of resolve_market: closed markets only. */
  predicate RpcCanResolve(s: Status)
  {
    s == Closed
  }

  /** The offered transitions are exactly close, cancel, reopen and resolve-from-closed. */
  lemma CanStepExactly(from: Status, to: Status)
    ensures CanStep(from, to) <==>
      || (from == Open && to == Closed)
      || (from == Open && to == Cancelled)
      || (from == Closed && to == Open)
      || (from == Closed && to == Resolved)
  {
    if from == Open && to == Closed {
      assert Target(Actions(from)[0]) == to;
    } else if from == Open && to == Cancelled {
      assert Target(Actions(from)[1]) == to;
    } else if from == Closed && to == Open {
      assert Target(Actions(from)[0]) == to;
    } else if from == Closed && to == Resolved {
      assert Target(Actions(from)[1]) == to;
    }
  }

  /** Resolved and cancelled markets are terminal: nothing is offered and no transition leaves them. */
  lemma TerminalStatesAreTerminal(s: Status, to: Status)
    requires Finalized(s)
    ensures Actions(s) == []
    ensures !CanStep(s, to)
  {
  }

  /** A status is finalized exactly when no action is offered for it. */
  lemma FinalizedIffNoActions(s: Status)
    ensures Finalized(s) <==> |Actions(s)| == 0
  {
  }

  /** The admin panel resolves only closed markets, and only as YES or NO. */
  lemma ResolutionOnlyFromClosed(s: Status, a: AdminAction)
    requires a in Actions(s) && a.ResolveAs?
    ensures s == Closed && RpcCanResolve(s)
    ensures a == ResolveAs(Yes) || a == ResolveAs(No)
  {
  }

  /**
   * The resolve route is weaker than the procedure's guard: it also resolves
   * open markets, which the admin panel never offers.
   */
  lemma RouteGuardWeakerThanRpc(s: Status)
    ensures RpcCanResolve(s) ==> RouteCanResolve(s)
    ensures RouteCanResolve(Open) && !RpcCanResolve(Open) && !CanStep(Open, Resolved)
    ensures RouteCanResolve(s) ==> !Finalized(s)
  {
    CanStepExactly(Open, Resolved);
  }

  /** Only an open market accepts bets, and every offered step into Open is a reopen of a closed market. */
  lemma BettingWindow(from: Status)
    ensures AcceptsBets(from) <==> from == Open
    ensures CanStep(from, Open) <==> from == Closed
  {
    CanStepExactly(from, Open);
  }
}
