/** What each call of the bot API does with time, in terms of the rows and replies that reach the local side. */
module WaitingCalls {
  import opened Core
  import opened OrderBus
  import opened EventSet
  import opened LocalSide
  import opened Scheduler
  import opened SchedulerLaws
  import opened Backtest
  import opened Waits

  /** What may come to the local side: a feed row of any asset, a reply on any asset, or a reply to one order. */
  datatype Sign = DataRow | SomeReply | ReplyFor(asset: nat, id: OrderId)

  predicate DueTogether(msgs: seq<Msg>, t: int) {
    forall m :: m in msgs ==> m.due == t
  }

  /** Dispatching this intent brings it. */
  predicate Brings<L, X>(sign: Sign, a: Asset<L, X>, i: Intent) {
    match sign
    case DataRow => i.kind == LOCAL_DATA
    case SomeReply => i.kind == LOCAL_ORDER
    case ReplyFor(asset, id) =>
      i.kind == LOCAL_ORDER && i.asset == asset
      && exists j :: 0 <= j < |a.buses.toLocal| && a.buses.toLocal[j].order.id == id
                     && DueTogether(a.buses.toLocal[..j + 1], i.timestamp)
  }

  /** When it first comes, as the replay goes on. */
  function FirstTime<L, X>(v: Venue<L, X>, assets: seq<Asset<L, X>>, sign: Sign): Option<int>
    decreases Rows(assets), Requests(assets), Replies(assets)
  {
    match Next(assets)
    case None => None
    case Some(i) =>
      DispatchProgress(v, assets);
      if Brings(sign, assets[i.asset], i) then Some(i.timestamp)
      else FirstTime(v, assets[i.asset := Dispatch(v, assets[i.asset], i.kind, i.timestamp)], sign)
  }

  lemma BatchHolds(bus: seq<Msg>, t: int, j: nat)
    requires j < |bus|
    ensures j < Batch(bus, t) <==> DueTogether(bus[..j + 1], t)
  {
    if Batch(bus, t) <= j {
      assert bus[..j + 1][Batch(bus, t)].due != t;
    }
  }

  lemma BringsIsAwaited<L, X>(sign: Sign, goal: Goal, a: Asset<L, X>, i: Intent)
    requires goal == GoalFor(sign)
    ensures Brings(sign, a, i) <==> Awaits(goal, a, i)
  {
    if sign.ReplyFor? {
      var bus := a.buses.toLocal;
      if Brings(sign, a, i) {
        var j :| 0 <= j < |bus| && bus[j].order.id == sign.id && DueTogether(bus[..j + 1], i.timestamp);
        BatchHolds(bus, i.timestamp, j);
      }
      if Awaits(goal, a, i) {
        var j :| 0 <= j < Batch(bus, i.timestamp) && bus[j].order.id == sign.id;
        BatchHolds(bus, i.timestamp, j);
      }
    }
  }

  /** The goal of a loop that waits for it. */
  function GoalFor(sign: Sign): Goal {
    match sign
    case DataRow => Goal(Never, true, NoWait)
    case SomeReply => Goal(Never, false, AnyReply)
    case ReplyFor(asset, id) => Goal(Never, false, ReplyTo(asset, id))
  }

  lemma {:induction false} FirstTimeIsArrival<L, X>(v: Venue<L, X>, assets: seq<Asset<L, X>>, sign: Sign)
    ensures FirstTime(v, assets, sign) == Arrival(v, assets, GoalFor(sign))
    decreases Rows(assets), Requests(assets), Replies(assets)
  {
    if Next(assets).Some? {
      var i := Next(assets).value;
      DispatchProgress(v, assets);
      BringsIsAwaited(sign, GoalFor(sign), assets[i.asset], i);
      FirstTimeIsArrival(v, Dispatched(v, assets), sign);
    }
  }

  // ---------------------------------------------------------------- calls

  /** The assets are in the care of `inv`, and in time. */
  ghost predicate InTime<L(!new), X(!new)>(v: Venue<L, X>, inv: (nat, Asset<L, X>) -> bool, b: Engine<L, X>) {
    Tended(v, inv) && AllHold(inv, b.assets) && AllTimely(b.assets, b.now)
  }

  /** The call ends as an elapse to time `t` does. */
  ghost predicate ElapsesTo<L, X>(v: Venue<L, X>, b: Engine<L, X>, call: Call, t: int) {
    b.now <= t && Perform(v, b, call) == Perform(v, b, ElapseFor(t - b.now)) && Perform(v, b, call).now == t
  }

  /** The call replays everything there is, and says so. */
  ghost predicate ReplaysAll<L, X>(v: Venue<L, X>, b: Engine<L, X>, call: Call) {
    var end := Perform(v, b, call);
    && Next(end.assets).None? && Returns(v, b, call) == Some(EndOfData)
    && ElapsesTo(v, b, call, end.now) && Returns(v, b, ElapseFor(end.now - b.now)) == Some(EndOfData)
  }

  /** The call ends with the sign, at once after all that is due then, or never finds it and replays everything. */
  ghost predicate EndsWith<L, X>(v: Venue<L, X>, b: Engine<L, X>, call: Call, sign: Sign) {
    match FirstTime(v, b.assets, sign)
    case None => ReplaysAll(v, b, call)
    case Some(t) =>
      && ElapsesTo(v, b, call, t)
      && Returns(v, b, call) == if sign == DataRow then Some(MarketFeed) else Returns(v, b, ElapseFor(t - b.now))
  }

  /** The call does nothing but run the loop, which ends so. */
  ghost predicate OnlyRuns<L, X>(v: Venue<L, X>, b: Engine<L, X>, call: Call, out: Outcome<L, X>) {
    Perform(v, b, call) == Engine(out.assets, out.now) && Returns(v, b, call) == Some(out.result)
  }

  lemma ElapseRuns<L, X>(v: Venue<L, X>, b: Engine<L, X>, d: nat)
    ensures OnlyRuns(v, b, ElapseFor(d), Elapse(v, b.assets, b.now, b.now + d))
  {
  }

  lemma RunsAsElapse<L, X>(
    v: Venue<L, X>, b: Engine<L, X>, call: Call, out: Outcome<L, X>, t: int, plain: Outcome<L, X>)
    requires OnlyRuns(v, b, call, out) && b.now <= t && plain == Elapse(v, b.assets, b.now, t)
    requires out.assets == plain.assets && out.now == plain.now == t
    ensures ElapsesTo(v, b, call, t) && Returns(v, b, ElapseFor(t - b.now)) == Some(plain.result)
  {
    ElapseRuns(v, b, t - b.now);
  }

  /** Replaying everything is elapsing to where that ends. */
  lemma {:induction false} AllIsElapse<L(!new), X(!new)>(
    v: Venue<L, X>, inv: (nat, Asset<L, X>) -> bool, assets: seq<Asset<L, X>>, now: int)
    requires Tended(v, inv) && AllHold(inv, assets) && AllTimely(assets, now)
    ensures var end := Goto(v, assets, now, Goal(Never, false, NoWait), Ok);
            && now <= end.now && Next(end.assets).None? && end.result == EndOfData
            && end == Elapse(v, assets, now, end.now)
    decreases Rows(assets), Requests(assets), Replies(assets)
  {
    if Next(assets).Some? {
      var t := Next(assets).value.timestamp;
      DispatchProgress(v, assets);
      StepTimely(v, inv, assets, now);
      AllIsElapse(v, inv, Dispatched(v, assets), t);
      OneTurn(v, assets, now, Goal(Never, false, NoWait));
      OneTurnOfElapse(v, assets, now, Goto(v, assets, now, Goal(Never, false, NoWait), Ok).now);
    }
  }

  /** The loop replayed everything there is. */
  ghost predicate AllOut<L, X>(v: Venue<L, X>, b: Engine<L, X>, out: Outcome<L, X>) {
    && b.now <= out.now && Next(out.assets).None? && out.result == EndOfData
    && out == Elapse(v, b.assets, b.now, out.now)
  }

  /** The loop ended as an elapse to `t` does, but perhaps with another result. */
  ghost predicate OutAt<L, X>(v: Venue<L, X>, b: Engine<L, X>, out: Outcome<L, X>, t: int, result: Option<Result>) {
    var plain := Elapse(v, b.assets, b.now, t);
    && b.now <= t == out.now == plain.now && out.assets == plain.assets
    && out.result == if result.Some? then result.value else plain.result
  }

  lemma LoopReplaysAll<L(!new), X(!new)>(v: Venue<L, X>, inv: (nat, Asset<L, X>) -> bool, b: Engine<L, X>)
    requires InTime(v, inv, b)
    ensures AllOut(v, b, Goto(v, b.assets, b.now, Goal(Never, false, NoWait), Ok))
  {
    AllIsElapse(v, inv, b.assets, b.now);
  }

  /** A loop that waits for the sign ends with it, or having replayed everything. */
  lemma LoopFinds<L(!new), X(!new)>(v: Venue<L, X>, inv: (nat, Asset<L, X>) -> bool, b: Engine<L, X>, sign: Sign)
    requires InTime(v, inv, b)
    ensures var out, t := Goto(v, b.assets, b.now, GoalFor(sign), Ok), FirstTime(v, b.assets, sign);
            if t.None? then AllOut(v, b, out)
            else OutAt(v, b, out, t.value, if sign == DataRow then Some(MarketFeed) else None)
  {
    FirstTimeIsArrival(v, b.assets, sign);
    if FirstTime(v, b.assets, sign).None? {
      WaitInVain(v, b.assets, b.now, GoalFor(sign));
      LoopReplaysAll(v, inv, b);
    } else {
      NeverArrivesEarly(v, inv, b.assets, b.now, GoalFor(sign));
      WaitIsElapse(v, inv, b.assets, b.now, GoalFor(sign));
    }
  }

  lemma RunsThrough<L, X>(v: Venue<L, X>, b: Engine<L, X>, call: Call, out: Outcome<L, X>)
    requires OnlyRuns(v, b, call, out) && AllOut(v, b, out)
    ensures ReplaysAll(v, b, call)
  {
    RunsAsElapse(v, b, call, out, out.now, out);
  }

  lemma RunsUntil<L, X>(v: Venue<L, X>, b: Engine<L, X>, call: Call, sign: Sign, out: Outcome<L, X>)
    requires OnlyRuns(v, b, call, out)
    requires var t := FirstTime(v, b.assets, sign);
             if t.None? then AllOut(v, b, out)
             else OutAt(v, b, out, t.value, if sign == DataRow then Some(MarketFeed) else None)
    ensures EndsWith(v, b, call, sign)
  {
    match FirstTime(v, b.assets, sign)
    case None => RunsThrough(v, b, call, out);
    case Some(t) => RunsAsElapse(v, b, call, out, t, Elapse(v, b.assets, b.now, t));
  }

  /** The loop a call runs, for calls that do nothing else. */
  function Loop<L, X>(v: Venue<L, X>, b: Engine<L, X>, goal: Goal): Outcome<L, X> {
    Goto(v, b.assets, b.now, goal, Ok)
  }

  /** Waiting for data ends with the first feed row of any asset, whether or not orders are waited for as well. */
  lemma WaitForData<L(!new), X(!new)>(
    v: Venue<L, X>, inv: (nat, Asset<L, X>) -> bool, b: Engine<L, X>, anyOrder: bool)
    requires InTime(v, inv, b)
    ensures EndsWith(v, b, WaitNextFeed(true, anyOrder), DataRow)
  {
    LoopFinds(v, inv, b, DataRow);
    RunsUntil(v, b, WaitNextFeed(true, anyOrder), DataRow, Loop(v, b, GoalFor(DataRow)));
  }

  /** Waiting for orders only ends with the first reply on any asset. */
  lemma WaitForOrders<L(!new), X(!new)>(v: Venue<L, X>, inv: (nat, Asset<L, X>) -> bool, b: Engine<L, X>)
    requires InTime(v, inv, b)
    ensures EndsWith(v, b, WaitNextFeed(false, true), SomeReply)
  {
    LoopFinds(v, inv, b, SomeReply);
    RunsUntil(v, b, WaitNextFeed(false, true), SomeReply, Loop(v, b, GoalFor(SomeReply)));
  }

  /** Waiting for nothing replays everything, and so does closing. */
  lemma WaitForNothing<L(!new), X(!new)>(v: Venue<L, X>, inv: (nat, Asset<L, X>) -> bool, b: Engine<L, X>)
    requires InTime(v, inv, b)
    ensures ReplaysAll(v, b, WaitNextFeed(false, false)) && ReplaysAll(v, b, Close)
  {
    LoopReplaysAll(v, inv, b);
    RunsThrough(v, b, WaitNextFeed(false, false), Loop(v, b, Goal(Never, false, NoWait)));
    RunsThrough(v, b, Close, Loop(v, b, Goal(Never, false, NoWait)));
  }

  /** Waiting for the reply to an order ends with the first one on its asset. */
  lemma WaitForReply<L(!new), X(!new)>(
    v: Venue<L, X>, inv: (nat, Asset<L, X>) -> bool, b: Engine<L, X>, asset: nat, id: OrderId)
    requires InTime(v, inv, b)
    ensures EndsWith(v, b, WaitOrderResponse(asset, id), ReplyFor(asset, id))
  {
    LoopFinds(v, inv, b, ReplyFor(asset, id));
    RunsUntil(v, b, WaitOrderResponse(asset, id), ReplyFor(asset, id), Loop(v, b, GoalFor(ReplyFor(asset, id))));
  }

  /** What a request does at once: the order sent, or nothing where it is refused. */
  function AfterRequest<L, X>(v: Venue<L, X>, b: Engine<L, X>, asset: nat, cmd: Command): Engine<L, X>
    requires asset < |b.assets|
  {
    var a := b.assets[asset];
    match v.issue(a.local, cmd, b.now)
    case None => b
    case Some((l, request, rejected)) =>
      b.(assets := b.assets[asset := a.(local := l, buses := Send(v.lm, a.buses, request, rejected))])
  }

  /**
    * A request is sent and no time passes; a refused one changes nothing and is answered with an exception. Only a
    * submission that is told to goes on to wait, for the reply to its own order.
    */
  lemma RequestsTakeNoTime<L, X>(
    v: Venue<L, X>, b: Engine<L, X>, asset: nat, cmd: Command, wait: bool)
    requires asset < |b.assets|
    ensures var call, sent := Request(asset, cmd, wait), AfterRequest(v, b, asset, cmd);
            var refused := v.issue(b.assets[asset].local, cmd, b.now).None?;
            if refused then Perform(v, b, call) == b && Returns(v, b, call) == None
            else if !wait || !cmd.Submit? then Perform(v, b, call) == sent && Returns(v, b, call) == Some(Ok)
            else
              var next := WaitOrderResponse(asset, cmd.id);
              Perform(v, b, call) == Perform(v, sent, next) && Returns(v, b, call) == Returns(v, sent, next)
  {
    assert WithRequest(v, b, Request(asset, cmd, wait)) == AfterRequest(v, b, asset, cmd).assets;
  }

  /** Forgetting finished orders takes no time and touches nothing else. */
  lemma ClearsAtOnce<L, X>(v: Venue<L, X>, b: Engine<L, X>, asset: nat)
    requires asset < |b.assets|
    ensures var a, call := b.assets[asset], Call.ClearInactiveOrders(asset);
            && Perform(v, b, call) == b.(assets := b.assets[asset := a.(local := v.clearInactive(a.local))])
            && Returns(v, b, call) == Some(Ok)
  {
  }

  /** It ends at `target` with nothing more due by then, or where the data ends. */
  ghost predicate Stops<L, X>(end: Engine<L, X>, result: Option<Result>, target: int) {
    if Next(end.assets).None? then result == Some(EndOfData)
    else end.now == target && result == Some(Ok) && Next(end.assets).value.timestamp > target
  }

  lemma StopsAsLoop<L, X>(v: Venue<L, X>, b: Engine<L, X>, call: Call, out: Outcome<L, X>, target: int)
    requires OnlyRuns(v, b, call, out) && Stops(Engine(out.assets, out.now), Some(out.result), target)
    ensures Stops(Perform(v, b, call), Returns(v, b, call), target)
  {
  }

  lemma LoopStops<L, X>(v: Venue<L, X>, b: Engine<L, X>, target: int) returns (out: Outcome<L, X>)
    ensures out == Elapse(v, b.assets, b.now, target) && Stops(Engine(out.assets, out.now), Some(out.result), target)
  {
    out := Elapse(v, b.assets, b.now, target);
    ElapseStops(v, b.assets, b.now, target);
  }

  /** Elapsing ends exactly then, with everything dispatched that is due by then, or where the data ends. */
  lemma ElapseEnds<L, X>(v: Venue<L, X>, b: Engine<L, X>, d: nat)
    ensures Stops(Perform(v, b, ElapseFor(d)), Returns(v, b, ElapseFor(d)), b.now + d)
  {
    var out := LoopStops(v, b, b.now + d);
    assert OnlyRuns(v, b, ElapseFor(d), out) by {
      ElapseRuns(v, b, d);
    }
    StopsAsLoop(v, b, ElapseFor(d), out, b.now + d);
  }
}
