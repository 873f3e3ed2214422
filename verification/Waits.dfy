/** What the waiting calls of the bot API amount to: elapsing exactly to the moment of what is awaited. */
module Waits {
  import opened Core
  import opened EventSet
  import opened Scheduler
  import opened SchedulerLaws

  /** Dispatching this intent delivers what the goal waits for. */
  predicate Awaits<L, X>(goal: Goal, a: Asset<L, X>, i: Intent) {
    (goal.nextFeed && i.kind == LOCAL_DATA) || GotWait(goal, a, i)
  }

  /** When the awaited row or reply first reaches the local side, if the replay ever gets there. */
  function Arrival<L, X>(v: Venue<L, X>, assets: seq<Asset<L, X>>, goal: Goal): Option<int>
    decreases Rows(assets), Requests(assets), Replies(assets)
  {
    match Next(assets)
    case None => None
    case Some(i) =>
      DispatchProgress(v, assets);
      if Awaits(goal, assets[i.asset], i) then Some(i.timestamp)
      else Arrival(v, assets[i.asset := Dispatch(v, assets[i.asset], i.kind, i.timestamp)], goal)
  }

  lemma {:induction false} NeverArrivesEarly<L(!new), X(!new)>(
    v: Venue<L, X>, inv: (nat, Asset<L, X>) -> bool, assets: seq<Asset<L, X>>, now: int, goal: Goal)
    requires Tended(v, inv) && AllHold(inv, assets) && AllTimely(assets, now)
    ensures Arrival(v, assets, goal).Some? ==> now <= Arrival(v, assets, goal).value
    decreases Rows(assets), Requests(assets), Replies(assets)
  {
    if Next(assets).Some? {
      var i := Next(assets).value;
      DispatchProgress(v, assets);
      StepTimely(v, inv, assets, now);
      NeverArrivesEarly(v, inv, assets[i.asset := Dispatch(v, assets[i.asset], i.kind, i.timestamp)], i.timestamp,
                        goal);
    }
  }

  /** The combinations the bot API uses: waiting for a feed row, or for a reply, or for neither. */
  predicate OneAwaited(goal: Goal) {
    goal.nextFeed ==> goal.wait == NoWait
  }

  /** The state after dispatching the next intent. */
  function Dispatched<L, X>(v: Venue<L, X>, assets: seq<Asset<L, X>>): seq<Asset<L, X>>
    requires Next(assets).Some?
  {
    var i := Next(assets).value;
    assets[i.asset := Dispatch(v, assets[i.asset], i.kind, i.timestamp)]
  }

  lemma OneTurnOfElapse<L, X>(v: Venue<L, X>, assets: seq<Asset<L, X>>, now: int, t: int)
    requires Next(assets).Some? && Next(assets).value.timestamp <= t
    ensures Elapse(v, assets, now, t) == Elapse(v, Dispatched(v, assets), Next(assets).value.timestamp, t)
  {
  }

  /** A turn at the present keeps the target there. */
  lemma PresentTurn<L, X>(v: Venue<L, X>, assets: seq<Asset<L, X>>, t: int, goal: Goal, result: Result)
    requires Next(assets).Some? && Next(assets).value.timestamp == t && goal.target == At(t) && OneAwaited(goal)
    requires result == if goal.nextFeed then MarketFeed else Ok
    ensures Goto(v, assets, t, goal, result) == Goto(v, Dispatched(v, assets), t, goal, result)
  {
  }

  /** Once the target is the present, the loop only finishes what is due now. */
  lemma {:induction false} FinishesPresent<L(!new), X(!new)>(
    v: Venue<L, X>, inv: (nat, Asset<L, X>) -> bool, assets: seq<Asset<L, X>>, t: int, goal: Goal, result: Result)
    requires Tended(v, inv) && AllHold(inv, assets) && AllTimely(assets, t) && goal.target == At(t) && OneAwaited(goal)
    requires result == if goal.nextFeed then MarketFeed else Ok
    ensures var plain := Elapse(v, assets, t, t);
            && plain.now == t
            && Goto(v, assets, t, goal, result) == plain.(result := if goal.nextFeed then MarketFeed else plain.result)
    decreases Rows(assets), Requests(assets), Replies(assets)
  {
    if Next(assets).Some? {
      var i := Next(assets).value;
      StepTimely(v, inv, assets, t);
      if i.timestamp == t {
        DispatchProgress(v, assets);
        PresentTurn(v, assets, t, goal, result);
        OneTurnOfElapse(v, assets, t, t);
        FinishesPresent(v, inv, Dispatched(v, assets), t, goal, result);
      }
    }
  }

  /** One turn of a waiting loop whose intent is not awaited, and the same turn of an elapse that reaches as far. */
  lemma OneTurn<L, X>(v: Venue<L, X>, assets: seq<Asset<L, X>>, now: int, goal: Goal)
    requires Next(assets).Some? && goal.target == Never
    requires !Awaits(goal, assets[Next(assets).value.asset], Next(assets).value)
    ensures Goto(v, assets, now, goal, Ok) == Goto(v, Dispatched(v, assets), Next(assets).value.timestamp, goal, Ok)
    ensures Arrival(v, assets, goal) == Arrival(v, Dispatched(v, assets), goal)
  {
  }

  /** Dispatching what is awaited: from here on the target is the present. */
  lemma LastTurn<L, X>(v: Venue<L, X>, assets: seq<Asset<L, X>>, now: int, goal: Goal)
    requires Next(assets).Some? && goal.target == Never && OneAwaited(goal)
    requires Awaits(goal, assets[Next(assets).value.asset], Next(assets).value)
    ensures var t := Next(assets).value.timestamp;
            && Goto(v, assets, now, goal, Ok)
               == Goto(v, Dispatched(v, assets), t, goal.(target := At(t)), if goal.nextFeed then MarketFeed else Ok)
            && Arrival(v, assets, goal) == Some(t)
  {
  }

  /** Waiting ended exactly as an elapse to `t` would have. */
  ghost predicate EndsAsElapse<L, X>(v: Venue<L, X>, assets: seq<Asset<L, X>>, now: int, goal: Goal, t: int) {
    var plain := Elapse(v, assets, now, t);
    && plain.now == t
    && Goto(v, assets, now, goal, Ok) == plain.(result := if goal.nextFeed then MarketFeed else plain.result)
  }

  /**
    * A waiting call leaves assets and clock exactly as elapsing to the moment the awaited row or reply
    * first reaches the local side.
    */
  lemma {:induction false} WaitIsElapse<L(!new), X(!new)>(
    v: Venue<L, X>, inv: (nat, Asset<L, X>) -> bool, assets: seq<Asset<L, X>>, now: int, goal: Goal)
    requires Tended(v, inv) && AllHold(inv, assets) && AllTimely(assets, now)
    requires goal.target == Never && OneAwaited(goal)
    requires Arrival(v, assets, goal).Some?
    ensures EndsAsElapse(v, assets, now, goal, Arrival(v, assets, goal).value)
    decreases Rows(assets), Requests(assets), Replies(assets)
  {
    var i, rest := Next(assets).value, Dispatched(v, assets);
    DispatchProgress(v, assets);
    StepTimely(v, inv, assets, now);
    if Awaits(goal, assets[i.asset], i) {
      LastTurn(v, assets, now, goal);
      OneTurnOfElapse(v, assets, now, i.timestamp);
      FinishesPresent(v, inv, rest, i.timestamp, goal.(target := At(i.timestamp)),
                      if goal.nextFeed then MarketFeed else Ok);
    } else {
      OneTurn(v, assets, now, goal);
      NeverArrivesEarly(v, inv, rest, i.timestamp, goal);
      WaitIsElapse(v, inv, rest, i.timestamp, goal);
      OneTurnOfElapse(v, assets, now, Arrival(v, assets, goal).value);
    }
  }

  /** A call that waits in vain replays everything there is and reports the end of the data. */
  lemma {:induction false} WaitInVain<L, X>(v: Venue<L, X>, assets: seq<Asset<L, X>>, now: int, goal: Goal)
    requires goal.target == Never && Arrival(v, assets, goal).None?
    ensures var end := Goto(v, assets, now, goal, Ok);
            && end == Goto(v, assets, now, Goal(Never, false, NoWait), Ok)
            && end.result == EndOfData && Next(end.assets).None?
    decreases Rows(assets), Requests(assets), Replies(assets)
  {
    if Next(assets).Some? {
      DispatchProgress(v, assets);
      OneTurn(v, assets, now, goal);
      OneTurn(v, assets, now, Goal(Never, false, NoWait));
      WaitInVain(v, Dispatched(v, assets), Next(assets).value.timestamp, goal);
    }
  }
}
