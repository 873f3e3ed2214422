/** The replay engine in place (include/hbt/backtest/backtest.hpp): cached slots, clock, and the bot API. */
module Backtest {
  import opened Core
  import opened OrderBus
  import opened EventSet
  import opened LocalSide
  import opened Scheduler
  import opened SchedulerLaws

  /** The engine between two calls of the bot API. */
  datatype Engine<L, X> = Engine(assets: seq<Asset<L, X>>, now: int)

  datatype Call =
    | ElapseFor(duration: nat)
    | WaitNextFeed(anyData: bool, anyOrder: bool)
    | WaitOrderResponse(asset: nat, id: OrderId)
    | Close
    | Request(asset: nat, cmd: Command, wait: bool)
    | ClearInactiveOrders(asset: nat)

  function GoalOf(now: int, call: Call): Goal {
    match call
    case ElapseFor(d) => Goal(At(now + d), false, NoWait)
    case WaitNextFeed(anyData, anyOrder) =>
      Goal(Never, anyData, if !anyData && anyOrder then AnyReply else NoWait)
    case WaitOrderResponse(asset, id) => Goal(Never, false, ReplyTo(asset, id))
    case Close => Goal(Never, false, NoWait)
    case Request(asset, cmd, _) => Goal(Never, false, ReplyTo(asset, cmd.id))
    case ClearInactiveOrders(_) => Goal(At(now), false, NoWait)
  }

  /** Issue a command on one asset; a refused one changes nothing. */
  function Ask<L, X>(v: Venue<L, X>, a: Asset<L, X>, cmd: Command, now: int): Asset<L, X> {
    match v.issue(a.local, cmd, now)
    case None => a
    case Some((l, request, rejected)) => a.(local := l, buses := Send(v.lm, a.buses, request, rejected))
  }

  /** The assets after the immediate effect of a call, before any time passes. */
  function WithRequest<L, X>(v: Venue<L, X>, b: Engine<L, X>, call: Call): seq<Asset<L, X>> {
    if call.Request? && call.asset < |b.assets|
    then b.assets[call.asset := Ask(v, b.assets[call.asset], call.cmd, b.now)]
    else if call.ClearInactiveOrders? && call.asset < |b.assets|
    then var a := b.assets[call.asset]; b.assets[call.asset := a.(local := v.clearInactive(a.local))]
    else b.assets
  }

  /** The command is answered with an exception. */
  predicate Refuses<L, X>(v: Venue<L, X>, b: Engine<L, X>, call: Call) {
    call.Request? && call.asset < |b.assets| && v.issue(b.assets[call.asset].local, call.cmd, b.now).None?
  }

  /** The call lets time pass: all but the requests do, and so does a submission told to wait for its reply. */
  predicate RunsLoop<L, X>(v: Venue<L, X>, b: Engine<L, X>, call: Call) {
    !call.ClearInactiveOrders? && (call.Request? ==> call.wait && call.cmd.Submit? && !Refuses(v, b, call))
  }

  function Perform<L, X>(v: Venue<L, X>, b: Engine<L, X>, call: Call): Engine<L, X> {
    var assets := WithRequest(v, b, call);
    if RunsLoop(v, b, call)
    then var end := Goto(v, assets, b.now, GoalOf(b.now, call), Ok); Engine(end.assets, end.now)
    else b.(assets := assets)
  }

  /** What the call returns; None is an exception. */
  function Returns<L, X>(v: Venue<L, X>, b: Engine<L, X>, call: Call): Option<Result> {
    if Refuses(v, b, call) then None
    else if RunsLoop(v, b, call) then Some(Goto(v, WithRequest(v, b, call), b.now, GoalOf(b.now, call), Ok).result)
    else Some(Ok)
  }

  function PerformAll<L, X>(v: Venue<L, X>, b: Engine<L, X>, calls: seq<Call>): Engine<L, X>
    decreases |calls|
  {
    if calls == [] then b else PerformAll(v, Perform(v, b, calls[0]), calls[1..])
  }

  // ---------------------------------------------------------------- the clock

  /** A strategy's requests are stamped with the present, and leave the assets in the care of `inv`. */
  ghost predicate SoundCall<L, X>(v: Venue<L, X>, inv: (nat, Asset<L, X>) -> bool, b: Engine<L, X>, call: Call) {
    && AllHold(inv, WithRequest(v, b, call))
    && (call.Request? && call.asset < |b.assets| ==>
          match v.issue(b.assets[call.asset].local, call.cmd, b.now)
          case None => true
          case Some((_, request, _)) => request.localTs == b.now)
  }

  lemma RequestTimely<L, X>(v: Venue<L, X>, inv: (nat, Asset<L, X>) -> bool, b: Engine<L, X>, call: Call)
    requires AllTimely(b.assets, b.now) && SoundCall(v, inv, b, call)
    ensures AllTimely(WithRequest(v, b, call), b.now)
  {
    if call.Request? && call.asset < |b.assets| {
      var a := b.assets[call.asset];
      match v.issue(a.local, call.cmd, b.now)
      case None =>
      case Some((l, request, rejected)) =>
        assert Timely(a, b.now);
        var lat := v.lm.entry(request.localTs, request);
        if lat < 0 {
          AppendSorted(a.buses.toLocal, rejected, request.localTs - lat, b.now);
        } else {
          AppendSorted(a.buses.toExch, request, request.localTs + lat, b.now);
        }
        assert Timely(Ask(v, a, call.cmd, b.now), b.now);
    } else if call.ClearInactiveOrders? && call.asset < |b.assets| {
      assert Timely(b.assets[call.asset], b.now);
    }
  }

  /**
    * No API call turns the clock back: both buses of every asset stay sorted and nothing pending is before the
    * clock, so no message is ever received late.
    */
  lemma CallTimely<L(!new), X(!new)>(v: Venue<L, X>, inv: (nat, Asset<L, X>) -> bool, b: Engine<L, X>, call: Call)
    requires Tended(v, inv) && AllTimely(b.assets, b.now) && SoundCall(v, inv, b, call)
    ensures var end := Perform(v, b, call);
            && b.now <= end.now && |end.assets| == |b.assets|
            && AllTimely(end.assets, end.now) && AllHold(inv, end.assets)
  {
    RequestTimely(v, inv, b, call);
    if RunsLoop(v, b, call) {
      GotoTimely(v, inv, WithRequest(v, b, call), b.now, GoalOf(b.now, call), Ok);
    }
  }

  // ---------------------------------------------------------------- the slot cache

  /** The four slots of asset `n` hold what they must. */
  ghost predicate SlotsExact<L, X>(ts: seq<Time>, assets: seq<Asset<L, X>>, n: nat) {
    && n < |assets| && |ts| == 4 * |assets|
    && ts[4 * n] == Due(assets[n], LOCAL_DATA) && ts[4 * n + 1] == Due(assets[n], LOCAL_ORDER)
    && ts[4 * n + 2] == Due(assets[n], EXCH_DATA) && ts[4 * n + 3] == Due(assets[n], EXCH_ORDER)
  }

  ghost predicate DataSlotsExact<L, X>(ts: seq<Time>, assets: seq<Asset<L, X>>, n: nat) {
    && n < |assets| && |ts| == 4 * |assets|
    && ts[4 * n] == Due(assets[n], LOCAL_DATA) && ts[4 * n + 2] == Due(assets[n], EXCH_DATA)
  }

  /** Setting the two order slots of asset `n` completes its slots and disturbs no other. */
  lemma OrderSlotsSet<L, X>(was: seq<Time>, ts: seq<Time>, assets: seq<Asset<L, X>>, n: nat)
    requires n < |assets| && DataSlotsExact(was, assets, n)
    requires ts == was[4 * n + 3 := Due(assets[n], EXCH_ORDER)][4 * n + 1 := Due(assets[n], LOCAL_ORDER)]
    ensures SlotsExact(ts, assets, n)
    ensures forall m :: 0 <= m < n && SlotsExact(was, assets, m) ==> SlotsExact(ts, assets, m)
    ensures forall m :: n <= m < |assets| && DataSlotsExact(was, assets, m) ==> DataSlotsExact(ts, assets, m)
  {
  }

  lemma SlotsFromExact<L, X>(ts: seq<Time>, assets: seq<Asset<L, X>>)
    requires |ts| == 4 * |assets| && forall n :: 0 <= n < |assets| ==> SlotsExact(ts, assets, n)
    ensures ts == Slots(assets)
  {
    forall i | 0 <= i < |ts| ensures ts[i] == Slots(assets)[i] {
      assert SlotsExact(ts, assets, i / 4);
      assert i == 4 * (i / 4) + i % 4;
    }
  }

  /** The slots the loop refreshes after dispatching a slot of this kind. */
  predicate Refreshed(kind: nat, slot: nat) {
    slot == kind || (slot == LOCAL_ORDER && (kind == EXCH_DATA || kind == EXCH_ORDER))
  }

  /**
    * A slot array differing from the exact one only where asset `n` changed, with those slots refreshed, is exact
    * again.
    */
  lemma SlotsRefreshed<L, X>(was: seq<Time>, ts: seq<Time>, assets: seq<Asset<L, X>>, n: nat, a: Asset<L, X>, kind: nat)
    requires was == Slots(assets) && n < |assets| && kind < 4 && |ts| == |was|
    requires forall k: nat :: k < 4 && !Refreshed(kind, k) ==> Due(a, k) == Due(assets[n], k)
    requires forall i :: 0 <= i < |ts| ==>
            ts[i] == if i / 4 == n && Refreshed(kind, i % 4) then Due(a, i % 4) else was[i]
    ensures ts == Slots(assets[n := a])
  {
  }

  /** No dispatch changes what any other slot must hold. */
  lemma DispatchDue<L, X>(v: Venue<L, X>, a: Asset<L, X>, kind: nat, t: int)
    requires kind < 4
    ensures forall k: nat :: k < 4 && !Refreshed(kind, k) ==> Due(Dispatch(v, a, kind, t), k) == Due(a, k)
  {
  }

  /** One turn of the loop. */
  lemma GotoOnce<L, X>(v: Venue<L, X>, assets: seq<Asset<L, X>>, now: int, goal: Goal, result: Result)
    requires Next(assets).Some? && !Earlier(goal.target, At(Next(assets).value.timestamp))
    ensures var i := Next(assets).value;
            var next := Retarget(goal, assets[i.asset], i, result);
            Goto(v, assets, now, goal, result) ==
            Goto(v, assets[i.asset := Dispatch(v, assets[i.asset], i.kind, i.timestamp)], i.timestamp, next.0, next.1)
  {
  }

  // ---------------------------------------------------------------- the engine in place

  class Backtest<L, X> {
    const v: Venue<L, X>
    var assets: seq<Asset<L, X>>
    const evs: EventSet
    var curTs: int

    /** Between calls the data slots are exact; the order slots are refreshed on entry to the loop. */
    ghost predicate Valid()
      reads this, evs.ts
    {
      && evs.Valid() && evs.numAssets == |assets|
      && forall n :: 0 <= n < |assets| ==> DataSlotsExact(evs.ts[..], assets, n)
    }

    function View(): Engine<L, X>
      reads this
    {
      Engine(assets, curTs)
    }

    /** Take the assets, load the data slots, and start the clock at the first event. */
    constructor (v: Venue<L, X>, assets: seq<Asset<L, X>>)
      requires assets != []
      requires forall n :: 0 <= n < |assets| ==> assets[n].buses == Buses([], [])
      ensures Valid() && this.v == v && fresh(evs) && fresh(evs.ts) && this.assets == assets
      ensures curTs == if Next(assets).Some? then Next(assets).value.timestamp else INVALID_MAX
    {
      this.v := v;
      this.assets := assets;
      evs := new EventSet(|assets|);
      curTs := INVALID_MAX;
      new;
      LoadSlots();
      SlotsAreValid();
      var first := evs.Next();
      if first.Some? {
        curTs := first.value.timestamp;
      }
    }

    method LoadSlots()
      requires evs.Valid() && evs.numAssets == |assets|
      requires forall n :: 0 <= n < |assets| ==> assets[n].buses == Buses([], [])
      requires forall i :: 0 <= i < evs.ts.Length ==> evs.ts[i] == Never
      modifies evs.ts
      ensures evs.ts[..] == Slots(assets)
    {
      for n := 0 to |assets|
        invariant forall i :: 4 * n <= i < evs.ts.Length ==> evs.ts[i] == Never
        invariant forall m :: 0 <= m < n ==> SlotsExact(evs.ts[..], assets, m)
      {
        ghost var was := evs.ts[..];
        evs.Update(n, LOCAL_DATA, Due(assets[n], LOCAL_DATA));
        evs.Update(n, EXCH_DATA, Due(assets[n], EXCH_DATA));
        assert evs.ts[..] == was[4 * n := Due(assets[n], LOCAL_DATA)][4 * n + 2 := Due(assets[n], EXCH_DATA)];
        assert forall m :: 0 <= m < n && SlotsExact(was, assets, m) ==> SlotsExact(evs.ts[..], assets, m);
      }
      SlotsFromExact(evs.ts[..], assets);
    }

    /** Reload the order slots from the bus fronts. */
    method RefreshOrderSlots()
      requires Valid()
      modifies evs.ts
      ensures Valid() && evs.ts[..] == Slots(assets)
    {
      for n := 0 to |assets|
        invariant forall m :: 0 <= m < n ==> SlotsExact(evs.ts[..], assets, m)
        invariant forall m :: n <= m < |assets| ==> DataSlotsExact(evs.ts[..], assets, m)
      {
        ghost var was := evs.ts[..];
        evs.Update(n, EXCH_ORDER, Due(assets[n], EXCH_ORDER));
        evs.Update(n, LOCAL_ORDER, Due(assets[n], LOCAL_ORDER));
        OrderSlotsSet(was, evs.ts[..], assets, n);
      }
      SlotsFromExact(evs.ts[..], assets);
      SlotsAreValid();
    }

    /** Dispatch one intent and refresh only the slots it can have changed. */
    method DispatchOne(i: Intent)
      requires Valid() && evs.ts[..] == Slots(assets) && Next(assets) == Some(i)
      modifies this`assets, evs.ts
      ensures assets == old(assets)[i.asset := Dispatch(v, old(assets)[i.asset], i.kind, i.timestamp)]
      ensures Valid() && evs.ts[..] == Slots(assets)
    {
      var a := Dispatch(v, assets[i.asset], i.kind, i.timestamp);
      DispatchDue(v, assets[i.asset], i.kind, i.timestamp);
      Store(i.asset, a, i.kind);
    }

    /** Store one asset back and refresh the slots its dispatch can have changed. */
    method Store(n: nat, a: Asset<L, X>, kind: nat)
      requires Valid() && evs.ts[..] == Slots(assets) && n < |assets| && kind < 4
      requires forall k: nat :: k < 4 && !Refreshed(kind, k) ==> Due(a, k) == Due(assets[n], k)
      modifies this`assets, evs.ts
      ensures assets == old(assets)[n := a]
      ensures Valid() && evs.ts[..] == Slots(assets)
    {
      ghost var was, before := evs.ts[..], assets;
      assets := assets[n := a];
      RefreshSlots(n, a, kind);
      SlotsRefreshed(was, evs.ts[..], before, n, a, kind);
      SlotsAreValid();
    }

    method RefreshSlots(n: nat, a: Asset<L, X>, kind: nat)
      requires evs.Valid() && n < evs.numAssets && kind < 4
      modifies evs.ts
      ensures forall i :: 0 <= i < evs.ts.Length ==>
        evs.ts[..][i] == if i / 4 == n && Refreshed(kind, i % 4) then Due(a, i % 4) else old(evs.ts[..])[i]
    {
      if kind == LOCAL_DATA {
        evs.Update(n, LOCAL_DATA, Due(a, LOCAL_DATA));
      } else if kind == LOCAL_ORDER {
        evs.Update(n, LOCAL_ORDER, Due(a, LOCAL_ORDER));
      } else if kind == EXCH_DATA {
        evs.Update(n, EXCH_DATA, Due(a, EXCH_DATA));
        evs.Update(n, LOCAL_ORDER, Due(a, LOCAL_ORDER));
      } else {
        evs.Update(n, EXCH_ORDER, Due(a, EXCH_ORDER));
        evs.Update(n, LOCAL_ORDER, Due(a, LOCAL_ORDER));
      }
    }

    lemma SlotsAreValid()
      requires evs.Valid() && evs.numAssets == |assets| && evs.ts[..] == Slots(assets)
      ensures Valid()
    {
      forall n | 0 <= n < |assets| ensures DataSlotsExact(evs.ts[..], assets, n) {
        SlotOf(assets, n, LOCAL_DATA);
        SlotOf(assets, n, EXCH_DATA);
      }
    }

    /** The core dispatch loop. On every iteration the cached slots are exactly the fronts of buses and cursors. */
    method DoGoto(goal0: Goal) returns (result: Result)
      requires Valid()
      modifies this`assets, this`curTs, evs.ts
      ensures Valid()
      ensures Outcome(assets, curTs, result) == Goto(v, old(assets), old(curTs), goal0, Ok)
    {
      ghost var outcome := Goto(v, assets, curTs, goal0, Ok);
      var goal := goal0;
      result := Ok;
      RefreshOrderSlots();
      while true
        invariant Valid() && evs.ts[..] == Slots(assets)
        invariant Goto(v, assets, curTs, goal, result) == outcome
        decreases Rows(assets), Requests(assets), Replies(assets)
      {
        var next := evs.Next();
        if next.None? {
          result := if result != Ok then result else EndOfData;
          return;
        }
        var i := next.value;
        if Earlier(goal.target, At(i.timestamp)) {
          curTs := goal.target.t;
          return;
        }
        DispatchProgress(v, assets);
        GotoOnce(v, assets, curTs, goal, result);
        var (goal', result') := Retarget(goal, assets[i.asset], i, result);
        curTs := i.timestamp;
        goal, result := goal', result';
        DispatchOne(i);
      }
    }

    /** One call of the bot API; None stands for the exception a refused command ends in. */
    method Call(call: Call) returns (result: Option<Result>)
      requires Valid()
      modifies this`assets, this`curTs, evs.ts
      ensures Valid() && View() == Perform(v, old(View()), call) && result == Returns(v, old(View()), call)
    {
      ghost var before := View();
      if call.Request? && call.asset < |assets| {
        match v.issue(assets[call.asset].local, call.cmd, curTs) {
          case None =>
            return None;
          case Some((l, request, rejected)) =>
            var a := assets[call.asset];
            Replace(call.asset, a.(local := l, buses := Send(v.lm, a.buses, request, rejected)));
        }
      } else if call.ClearInactiveOrders? && call.asset < |assets| {
        var a := assets[call.asset];
        Replace(call.asset, a.(local := v.clearInactive(a.local)));
      }
      assert assets == WithRequest(v, before, call);
      result := Some(Ok);
      if !call.ClearInactiveOrders? && (call.Request? ==> call.wait && call.cmd.Submit?) {
        var end := DoGoto(GoalOf(curTs, call));
        result := Some(end);
      }
    }

    /** Put back an asset whose cursors have not moved. */
    method Replace(n: nat, a: Asset<L, X>)
      requires Valid() && n < |assets|
      requires a.localRows == assets[n].localRows && a.exchRows == assets[n].exchRows
      modifies this`assets
      ensures Valid() && assets == old(assets)[n := a]
    {
      ghost var before := assets;
      assets := assets[n := a];
      assert forall m :: 0 <= m < |assets| && DataSlotsExact(evs.ts[..], before, m) ==>
              DataSlotsExact(evs.ts[..], assets, m);
    }
  }
}
