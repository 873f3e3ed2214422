/** The replay loop over any number of assets (include/hbt/backtest/backtest.hpp), as functions on values. */
module Scheduler {
  import opened Core
  import opened OrderBus
  import opened EventSet
  import opened LocalSide

  /**
    * One asset: both processors, the relevant feed rows each has yet to see, and the buses. The
    * processors' own types are left open, as behind the abstract processor interface.
    */
  datatype Asset<L, X> = Asset(
    local: L, exch: X, localRows: seq<Event>, exchRows: seq<Event>, buses: Buses)

  /** The virtual operations of the two processors, and the latency model of the buses. */
  datatype Venue<!L, !X> = Venue(
    localFeed: (L, Event) -> L,
    localReceive: (L, Order) -> L,
    clearInactive: L -> L,
    issue: (L, Command, int) -> Option<(L, Order, Order)>,
    exchFeed: (X, Event) -> (X, seq<Order>),
    exchHandle: (X, Order, int) -> (X, Order),
    lm: Latency)

  // ---------------------------------------------------------------- slots

  function FrontDue(bus: seq<Msg>): Time {
    if bus == [] then Never else At(bus[0].due)
  }

  /** What the four slots of an asset must hold. */
  function Due<L, X>(a: Asset<L, X>, kind: nat): Time
    requires kind < 4
  {
    if kind == LOCAL_DATA then (if a.localRows == [] then Never else At(a.localRows[0].localTs))
    else if kind == LOCAL_ORDER then FrontDue(a.buses.toLocal)
    else if kind == EXCH_DATA then (if a.exchRows == [] then Never else At(a.exchRows[0].exchTs))
    else FrontDue(a.buses.toExch)
  }

  function Slots<L, X>(assets: seq<Asset<L, X>>): seq<Time> {
    seq(4 * |assets|, i requires 0 <= i < 4 * |assets| => Due(assets[i / 4], i % 4))
  }

  function Next<L, X>(assets: seq<Asset<L, X>>): (r: Option<Intent>)
    ensures r.Some? ==> r.value.asset < |assets| && r.value.kind < 4
                        && Due(assets[r.value.asset], r.value.kind) == At(r.value.timestamp)
  {
    NextIntent(Slots(assets))
  }

  // ---------------------------------------------------------------- one dispatch

  function ReceiveAll<L, X>(v: Venue<L, X>, l: L, msgs: seq<Msg>): L
    decreases |msgs|
  {
    if msgs == [] then l else ReceiveAll(v, v.localReceive(l, msgs[0].order), msgs[1..])
  }

  function HandleAll<L, X>(v: Venue<L, X>, x: X, toLocal: seq<Msg>, msgs: seq<Msg>, t: int): (X, seq<Msg>)
    decreases |msgs|
  {
    if msgs == [] then (x, toLocal)
    else
      var (y, reply) := v.exchHandle(x, msgs[0].order, t);
      HandleAll(v, y, Respond(v.lm, toLocal, reply), msgs[1..], t)
  }

  /** Dispatch one intent to its asset. */
  function Dispatch<L, X>(v: Venue<L, X>, a: Asset<L, X>, kind: nat, t: int): Asset<L, X>
    requires kind < 4
  {
    if kind == LOCAL_DATA then
      if a.localRows == [] then a
      else a.(local := v.localFeed(a.local, a.localRows[0]), localRows := a.localRows[1..])
    else if kind == LOCAL_ORDER then
      var n := Batch(a.buses.toLocal, t);
      a.(local := ReceiveAll(v, a.local, a.buses.toLocal[..n]), buses := a.buses.(toLocal := a.buses.toLocal[n..]))
    else if kind == EXCH_DATA then
      if a.exchRows == [] then a
      else
        var (x, reports) := v.exchFeed(a.exch, a.exchRows[0]);
        a.(exch := x, exchRows := a.exchRows[1..],
           buses := a.buses.(toLocal := RespondAll(v.lm, a.buses.toLocal, reports)))
    else
      var n := Batch(a.buses.toExch, t);
      var (x, toLocal) := HandleAll(v, a.exch, a.buses.toLocal, a.buses.toExch[..n], t);
      a.(exch := x, buses := Buses(a.buses.toExch[n..], toLocal))
  }

  // ---------------------------------------------------------------- termination

  function Rows<L, X>(assets: seq<Asset<L, X>>): nat {
    if assets == [] then 0 else |assets[0].localRows| + |assets[0].exchRows| + Rows(assets[1..])
  }

  function Requests<L, X>(assets: seq<Asset<L, X>>): nat {
    if assets == [] then 0 else |assets[0].buses.toExch| + Requests(assets[1..])
  }

  function Replies<L, X>(assets: seq<Asset<L, X>>): nat {
    if assets == [] then 0 else |assets[0].buses.toLocal| + Replies(assets[1..])
  }

  lemma {:induction false} MeasuresUpdate<L, X>(assets: seq<Asset<L, X>>, n: nat, a: Asset<L, X>)
    requires n < |assets|
    ensures var old', new' := assets[n], assets[n := a];
            && Rows(new') == Rows(assets) - |old'.localRows| - |old'.exchRows| + |a.localRows| + |a.exchRows|
            && Requests(new') == Requests(assets) - |old'.buses.toExch| + |a.buses.toExch|
            && Replies(new') == Replies(assets) - |old'.buses.toLocal| + |a.buses.toLocal|
  {
    if n > 0 {
      assert assets[n := a][1..] == assets[1..][n - 1 := a];
      MeasuresUpdate(assets[1..], n - 1, a);
    } else {
      assert assets[n := a][1..] == assets[1..];
    }
  }

  /** Every dispatch makes progress, however short the latencies: rows first, then requests, then replies. */
  lemma DispatchProgress<L, X>(v: Venue<L, X>, assets: seq<Asset<L, X>>)
    requires Next(assets).Some?
    ensures var i := Next(assets).value;
            var next := assets[i.asset := Dispatch(v, assets[i.asset], i.kind, i.timestamp)];
            || Rows(next) < Rows(assets)
            || (Rows(next) == Rows(assets) && Requests(next) < Requests(assets))
            || (Rows(next) == Rows(assets) && Requests(next) == Requests(assets) && Replies(next) < Replies(assets))
  {
    var i := Next(assets).value;
    MeasuresUpdate(assets, i.asset, Dispatch(v, assets[i.asset], i.kind, i.timestamp));
  }

  // ---------------------------------------------------------------- the loop

  datatype Wait = NoWait | AnyReply | ReplyTo(asset: nat, id: OrderId)
  datatype Result = Ok | EndOfData | MarketFeed | OrderResponse
  datatype Goal = Goal(target: Time, nextFeed: bool, wait: Wait)
  datatype Outcome<L, X> = Outcome(assets: seq<Asset<L, X>>, now: int, result: Result)

  /** The reply waited for is in the batch the local side is about to receive. */
  predicate GotWait<L, X>(goal: Goal, a: Asset<L, X>, i: Intent) {
    i.kind == LOCAL_ORDER &&
    (goal.wait == AnyReply ||
     (goal.wait.ReplyTo? && goal.wait.asset == i.asset &&
      exists j :: 0 <= j < Batch(a.buses.toLocal, i.timestamp) && a.buses.toLocal[j].order.id == goal.wait.id))
  }

  /** Dispatching the awaited event pulls the target to the present. */
  function Retarget<L, X>(goal: Goal, a: Asset<L, X>, i: Intent, result: Result): (Goal, Result) {
    if i.kind == LOCAL_DATA && goal.nextFeed then (goal.(target := At(i.timestamp)), MarketFeed)
    else if GotWait(goal, a, i) then
      (goal.(target := At(i.timestamp)), if goal.nextFeed then OrderResponse else result)
    else (goal, result)
  }

  function Goto<L, X>(v: Venue<L, X>, assets: seq<Asset<L, X>>, now: int, goal: Goal, result: Result): Outcome<L, X>
    decreases Rows(assets), Requests(assets), Replies(assets)
  {
    match Next(assets)
    case None => Outcome(assets, now, if result != Ok then result else EndOfData)
    case Some(i) =>
      if Earlier(goal.target, At(i.timestamp)) then Outcome(assets, goal.target.t, result)
      else
        var a := assets[i.asset];
        var (goal', result') := Retarget(goal, a, i, result);
        DispatchProgress(v, assets);
        Goto(v, assets[i.asset := Dispatch(v, a, i.kind, i.timestamp)], i.timestamp, goal', result')
  }

  /** Plain elapse: no waiting. */
  function Elapse<L, X>(v: Venue<L, X>, assets: seq<Asset<L, X>>, now: int, target: int): Outcome<L, X> {
    Goto(v, assets, now, Goal(At(target), false, NoWait), Ok)
  }
}
