/** The whole simulator: the concrete processors under the scheduler and the bot API. */
module Replay {
  import opened Core
  import opened HashMapDepth
  import opened Exchange
  import opened OrderBus
  import opened EventSet
  import opened LocalSide
  import opened Protocol
  import opened AccountAgreement
  import opened AskedTerms
  import opened FreshBooks
  import opened FreshIds
  import opened FreshViews
  import opened Scheduler
  import opened SchedulerLaws
  import opened Backtest
  import opened Processors
  import opened WaitingCalls

  /** The exchange together with whatever its containers remember about their history. */
  datatype Venued = Venued(x: Exch, history: nat)

  /** Some traversal order of the scanned orders, possibly different every time. */
  ghost predicate Traverses(pick: (Venued, EventKind) -> seq<OrderId>) {
    forall h: Venued, k: EventKind :: Enumerates(pick(h, k), VisitedBy(h.x, k))
  }

  function IssueOn(l: Local, cmd: Command, now: int): Option<(Local, Order, Order)> {
    match Issue(l, cmd, now)
    case Refused => None
    case Sent(l2, request, rejected) => Some((l2, request, rejected))
  }

  function FeedOn(s: Setup, pick: (Venued, EventKind) -> seq<OrderId>, h: Venued, e: Event): (Venued, seq<Order>) {
    var f := Feed(s.c, h.x, e.kind, e.exchTs, pick(h, e.kind));
    (Venued(f.0, h.history + 1), f.1)
  }

  function HandleOn(s: Setup, h: Venued, o: Order, t: int): (Venued, Order) {
    var a := Handle(s.c, h.x, o, t);
    (Venued(a.x, h.history + 1), a.reply)
  }

  /** The concrete processors as the scheduler sees them. */
  function Concrete(s: Setup, pick: (Venued, EventKind) -> seq<OrderId>): Venue<Local, Venued> {
    Venue(
      (l: Local, e: Event) => l.(book := Apply(l.book, e.kind)),
      (l: Local, o: Order) => Receive(s.c.acct, l, o),
      (l: Local) => ClearInactive(l),
      (l: Local, cmd: Command, now: int) => IssueOn(l, cmd, now),
      (h: Venued, e: Event) => FeedOn(s, pick, h, e),
      (h: Venued, o: Order, t: int) => HandleOn(s, h, o, t),
      s.lm)
  }

  /** What the exchange object does with a batch of requests is what the scheduler dispatches. */
  lemma {:induction false} ServeIsDispatched(
    s: Setup, pick: (Venued, EventKind) -> seq<OrderId>, h: Venued, toLocal: seq<Msg>, msgs: seq<Msg>, t: int)
    ensures var (z, bus) := HandleAll(Concrete(s, pick), h, toLocal, msgs, t);
            Serve(s.c, s.lm, h.x, toLocal, msgs, t) == (z.x, bus)
    decreases |msgs|
  {
    if msgs != [] {
      var (y, reply) := HandleOn(s, h, msgs[0].order, t);
      ServeIsDispatched(s, pick, y, Respond(s.lm, toLocal, reply), msgs[1..], t);
    }
  }

  /** And so is what the local object does with a batch of replies. */
  lemma {:induction false} TakeInIsDispatched(
    s: Setup, pick: (Venued, EventKind) -> seq<OrderId>, l: Local, msgs: seq<Msg>)
    ensures TakeIn(s.c.acct, l, msgs) == ReceiveAll(Concrete(s, pick), l, msgs)
    decreases |msgs|
  {
    if msgs != [] {
      TakeInIsDispatched(s, pick, Receive(s.c.acct, l, msgs[0].order), msgs[1..]);
    }
  }

  // ---------------------------------------------------------------- replies are never stamped in the past

  lemma {:induction false} ReportsStamped(
    c: Config, orders: map<OrderId, Resting>, ids: seq<OrderId>, why: Trigger, ts: int)
    ensures forall o :: o in Reports(c, orders, ids, why, ts) ==> o.exchTs == ts
  {
    if ids != [] {
      ReportsStamped(c, orders, ids[1..], why, ts);
    }
  }

  lemma FeedStamped(c: Config, x: Exch, k: EventKind, ts: int, ids: seq<OrderId>)
    ensures forall o :: o in Feed(c, x, k, ts, ids).1 ==> o.exchTs == ts
  {
    var m := Absorb(c, x, k);
    match ScanOf(x, k)
    case NoScan =>
    case Scan(_, _, _, why) => ReportsStamped(c, m.orders, ids, why, ts);
  }

  /**
    * A reply carries the time of handling, except when the request names no operation or would execute a finished
    * order.
    */
  lemma ReplyStamp(c: Config, x: Exch, o: Order, ts: int)
    ensures var stale := (o.req != New && o.req != Canceled && o.req != Replaced) || FinishedTaker(x, o);
            Handle(c, x, o, ts).reply.exchTs == if stale then o.exchTs else ts
  {
  }

  /**
    * Exactly when an answer is queued in time: always, unless the request would execute a finished order, the
    * reply bus is empty, and the order's old stamp makes the reply due before the present.
    */
  lemma AnswerTimelyIff(c: Config, lm: Latency, x: Exch, o: Order, t: int, bus: seq<Msg>)
    requires SortedFrom(bus, t) && (o.req == New || o.req == Canceled || o.req == Replaced)
    requires forall ts, r :: lm.response(ts, r) >= 0
    ensures var reply := Handle(c, x, o, t).reply;
            SortedFrom(Respond(lm, bus, reply), t) <==>
            !FinishedTaker(x, o) || bus != [] || t <= 0 || t <= o.exchTs + lm.response(o.exchTs, reply)
  {
    var reply := Handle(c, x, o, t).reply;
    ReplyStamp(c, x, o, t);
    AppendSortedIff(bus, reply, reply.exchTs + lm.response(reply.exchTs, reply), t);
  }

  // ---------------------------------------------------------------- dispatches are protocol moves

  function SysOf(a: Asset<Local, Venued>): Sys {
    Sys(a.local, a.exch.x, a.buses)
  }

  /** Moves the scheduler makes on its own: no commands, and every scan visits each order once. */
  ghost predicate Internal(s: Setup, y: Sys, ms: seq<Move>)
    decreases |ms|
  {
    ms == [] ||
    (&& !ms[0].Command?
     && (ms[0].ExchRow? ==> Enumerates(ms[0].ids, VisitedBy(y.exch, ms[0].k)))
     && Internal(s, Protocol.Next(s, y, ms[0]), ms[1..]))
  }

  lemma OneMoveRuns(s: Setup, y: Sys, m: Move)
    requires !m.Command? && (m.ExchRow? ==> Enumerates(m.ids, VisitedBy(y.exch, m.k)))
    ensures RunMoves(s, y, [m]) == Protocol.Next(s, y, m) && Internal(s, y, [m])
  {
    assert [m][1..] == [];
  }

  function Turns(n: nat, m: Move): seq<Move> {
    if n == 0 then [] else [m] + Turns(n - 1, m)
  }

  lemma {:induction false} ReceiveTurns(s: Setup, pick: (Venued, EventKind) -> seq<OrderId>, y: Sys, n: nat)
    requires n <= |y.buses.toLocal|
    ensures Internal(s, y, Turns(n, LocalReceive))
    ensures RunMoves(s, y, Turns(n, LocalReceive))
         == y.(local := ReceiveAll(Concrete(s, pick), y.local, y.buses.toLocal[..n]),
               buses := y.buses.(toLocal := y.buses.toLocal[n..]))
    decreases n
  {
    var bus := y.buses.toLocal;
    if n == 0 {
      assert bus[0..] == bus;
    } else {
      ReceiveTurns(s, pick, Protocol.Next(s, y, LocalReceive), n - 1);
      assert Turns(n, LocalReceive)[1..] == Turns(n - 1, LocalReceive);
      assert bus[..n][1..] == bus[1..][..n - 1] && bus[1..][n - 1..] == bus[n..];
    }
  }

  lemma {:induction false} HandleTurns(
    s: Setup, pick: (Venued, EventKind) -> seq<OrderId>, h: Venued, y: Sys, n: nat, t: int)
    requires n <= |y.buses.toExch| && h.x == y.exch
    ensures Internal(s, y, Turns(n, ExchReceive(t)))
    ensures var (z, toLocal) := HandleAll(Concrete(s, pick), h, y.buses.toLocal, y.buses.toExch[..n], t);
            RunMoves(s, y, Turns(n, ExchReceive(t))) == y.(exch := z.x, buses := Buses(y.buses.toExch[n..], toLocal))
    decreases n
  {
    var bus := y.buses.toExch;
    if n == 0 {
      assert bus[0..] == bus;
    } else {
      HandleTurns(s, pick, HandleOn(s, h, bus[0].order, t).0, Protocol.Next(s, y, ExchReceive(t)), n - 1, t);
      assert Turns(n, ExchReceive(t))[1..] == Turns(n - 1, ExchReceive(t));
      assert bus[..n][1..] == bus[1..][..n - 1] && bus[1..][n - 1..] == bus[n..];
    }
  }

  /** The moves that a dispatch to an asset amounts to. */
  function DispatchMoves(
    pick: (Venued, EventKind) -> seq<OrderId>, a: Asset<Local, Venued>, kind: nat, t: int): seq<Move>
    requires kind < 4
  {
    if kind == LOCAL_DATA then if a.localRows == [] then [] else [LocalRow(a.localRows[0].kind)]
    else if kind == LOCAL_ORDER then Turns(Batch(a.buses.toLocal, t), LocalReceive)
    else if kind == EXCH_DATA then
      if a.exchRows == [] then []
      else var e := a.exchRows[0]; [ExchRow(e.kind, e.exchTs, pick(a.exch, e.kind))]
    else Turns(Batch(a.buses.toExch, t), ExchReceive(t))
  }

  /** Whatever the scheduler dispatches to an asset is a run of protocol moves. */
  lemma DispatchIsMoves(
    s: Setup, pick: (Venued, EventKind) -> seq<OrderId>, a: Asset<Local, Venued>, kind: nat, t: int)
    requires Traverses(pick) && kind < 4
    ensures Internal(s, SysOf(a), DispatchMoves(pick, a, kind, t))
    ensures SysOf(Dispatch(Concrete(s, pick), a, kind, t)) == RunMoves(s, SysOf(a), DispatchMoves(pick, a, kind, t))
  {
    var y := SysOf(a);
    if kind == LOCAL_DATA {
      if a.localRows != [] {
        OneMoveRuns(s, y, LocalRow(a.localRows[0].kind));
      }
    } else if kind == LOCAL_ORDER {
      ReceiveTurns(s, pick, y, Batch(a.buses.toLocal, t));
    } else if kind == EXCH_DATA {
      if a.exchRows != [] {
        var e := a.exchRows[0];
        OneMoveRuns(s, y, ExchRow(e.kind, e.exchTs, pick(a.exch, e.kind)));
      }
    } else {
      HandleTurns(s, pick, a.exch, y, Batch(a.buses.toExch, t), t);
    }
  }

  lemma {:induction false} RunMovesConcat(s: Setup, y: Sys, a: seq<Move>, b: seq<Move>)
    ensures RunMoves(s, y, a + b) == RunMoves(s, RunMoves(s, y, a), b)
    ensures Internal(s, y, a) && Internal(s, RunMoves(s, y, a), b) ==> Internal(s, y, a + b)
    decreases |a|
  {
    if a == [] {
      assert a + b == b;
    } else {
      assert (a + b)[1..] == a[1..] + b;
      RunMovesConcat(s, Protocol.Next(s, y, a[0]), a[1..], b);
    }
  }

  /** The moves of asset `n` while the loop runs. */
  function GotoMoves(
    s: Setup, pick: (Venued, EventKind) -> seq<OrderId>, assets: seq<Asset<Local, Venued>>, goal: Goal, n: nat)
    : seq<Move>
    decreases Rows(assets), Requests(assets), Replies(assets)
  {
    match Scheduler.Next(assets)
    case None => []
    case Some(i) =>
      if Earlier(goal.target, At(i.timestamp)) then []
      else
        var v, a := Concrete(s, pick), assets[i.asset];
        DispatchProgress(v, assets);
        (if i.asset == n then DispatchMoves(pick, a, i.kind, i.timestamp) else [])
        + GotoMoves(s, pick, assets[i.asset := Dispatch(v, a, i.kind, i.timestamp)], Retarget(goal, a, i, Ok).0, n)
  }

  /** One turn of the loop. */
  lemma GotoMovesOnce(
    s: Setup, pick: (Venued, EventKind) -> seq<OrderId>, assets: seq<Asset<Local, Venued>>, goal: Goal, n: nat,
    i: Intent, next: seq<Asset<Local, Venued>>)
    requires Scheduler.Next(assets) == Some(i) && !Earlier(goal.target, At(i.timestamp))
    requires next == assets[i.asset := Dispatch(Concrete(s, pick), assets[i.asset], i.kind, i.timestamp)]
    ensures GotoMoves(s, pick, assets, goal, n)
         == (if i.asset == n then DispatchMoves(pick, assets[n], i.kind, i.timestamp) else [])
            + GotoMoves(s, pick, next, Retarget(goal, assets[i.asset], i, Ok).0, n)
  {
  }

  /** What a call of the loop does to asset `n` is the moves named. */
  ghost predicate LoopIsMoves(
    s: Setup, pick: (Venued, EventKind) -> seq<OrderId>, assets: seq<Asset<Local, Venued>>, now: int, goal: Goal,
    result: Result, n: nat)
    requires n < |assets|
  {
    var ms, end := GotoMoves(s, pick, assets, goal, n), Goto(Concrete(s, pick), assets, now, goal, result).assets;
    Internal(s, SysOf(assets[n]), ms) && |end| == |assets| && SysOf(end[n]) == RunMoves(s, SysOf(assets[n]), ms)
  }

  lemma TurnIsMoves(
    s: Setup, pick: (Venued, EventKind) -> seq<OrderId>, assets: seq<Asset<Local, Venued>>, i: Intent,
    next: seq<Asset<Local, Venued>>, n: nat, rest: seq<Move>)
    requires Traverses(pick) && n < |assets| && i.asset < |assets| && i.kind < 4
    requires next == assets[i.asset := Dispatch(Concrete(s, pick), assets[i.asset], i.kind, i.timestamp)]
    requires Internal(s, SysOf(next[n]), rest)
    ensures var ms := (if i.asset == n then DispatchMoves(pick, assets[n], i.kind, i.timestamp) else []) + rest;
            Internal(s, SysOf(assets[n]), ms)
            && RunMoves(s, SysOf(assets[n]), ms) == RunMoves(s, SysOf(next[n]), rest)
  {
    if i.asset == n {
      DispatchIsMoves(s, pick, assets[n], i.kind, i.timestamp);
      RunMovesConcat(s, SysOf(assets[n]), DispatchMoves(pick, assets[n], i.kind, i.timestamp), rest);
    } else {
      assert [] + rest == rest;
    }
  }

  lemma OneMoreTurn(
    s: Setup, pick: (Venued, EventKind) -> seq<OrderId>, assets: seq<Asset<Local, Venued>>, now: int, goal: Goal,
    result: Result, n: nat, i: Intent, next: seq<Asset<Local, Venued>>, goal': Goal, result': Result)
    requires Traverses(pick) && n < |assets| && Scheduler.Next(assets) == Some(i)
    requires !Earlier(goal.target, At(i.timestamp))
    requires next == assets[i.asset := Dispatch(Concrete(s, pick), assets[i.asset], i.kind, i.timestamp)]
    requires (goal', result') == Retarget(goal, assets[i.asset], i, result)
    requires LoopIsMoves(s, pick, next, i.timestamp, goal', result', n)
    ensures LoopIsMoves(s, pick, assets, now, goal, result, n)
  {
    GotoOnce(Concrete(s, pick), assets, now, goal, result);
    GotoMovesOnce(s, pick, assets, goal, n, i, next);
    TurnIsMoves(s, pick, assets, i, next, n, GotoMoves(s, pick, next, goal', n));
  }

  lemma {:induction false} GotoIsMoves(
    s: Setup, pick: (Venued, EventKind) -> seq<OrderId>, assets: seq<Asset<Local, Venued>>,
    now: int, goal: Goal, result: Result, n: nat)
    requires Traverses(pick) && n < |assets|
    ensures LoopIsMoves(s, pick, assets, now, goal, result, n)
    decreases Rows(assets), Requests(assets), Replies(assets)
  {
    var v := Concrete(s, pick);
    if Scheduler.Next(assets).Some? {
      var i := Scheduler.Next(assets).value;
      if !Earlier(goal.target, At(i.timestamp)) {
        DispatchProgress(v, assets);
        var (goal', result') := Retarget(goal, assets[i.asset], i, result);
        var next := assets[i.asset := Dispatch(v, assets[i.asset], i.kind, i.timestamp)];
        GotoIsMoves(s, pick, next, i.timestamp, goal', result', n);
        OneMoreTurn(s, pick, assets, now, goal, result, n, i, next, goal', result');
      }
    }
  }

  /** The moves of asset `n` that an API call makes at once. */
  function AskMoves(b: Engine<Local, Venued>, call: Call, n: nat): seq<Move> {
    if call.Request? && call.asset == n then [Move.Command(call.cmd, b.now)]
    else if call.ClearInactiveOrders? && call.asset == n then [Move.ClearInactiveOrders]
    else []
  }

  function CallMoves(
    s: Setup, pick: (Venued, EventKind) -> seq<OrderId>, b: Engine<Local, Venued>, call: Call, n: nat): seq<Move>
  {
    var v := Concrete(s, pick);
    AskMoves(b, call, n)
    + if RunsLoop(v, b, call) then GotoMoves(s, pick, WithRequest(v, b, call), GoalOf(b.now, call), n) else []
  }

  /** Everything that happens to asset `n` over a sequence of API calls, move by move. */
  function Trace(
    s: Setup, pick: (Venued, EventKind) -> seq<OrderId>, b: Engine<Local, Venued>, calls: seq<Call>, n: nat)
    : seq<Move>
    decreases |calls|
  {
    if calls == [] then []
    else CallMoves(s, pick, b, calls[0], n) + Trace(s, pick, Perform(Concrete(s, pick), b, calls[0]), calls[1..], n)
  }

  lemma AskIsMoves(
    s: Setup, pick: (Venued, EventKind) -> seq<OrderId>, b: Engine<Local, Venued>, call: Call, n: nat)
    requires n < |b.assets|
    ensures var assets := WithRequest(Concrete(s, pick), b, call);
            |assets| == |b.assets| && SysOf(assets[n]) == RunMoves(s, SysOf(b.assets[n]), AskMoves(b, call, n))
  {
    var y, ms := SysOf(b.assets[n]), AskMoves(b, call, n);
    if ms != [] {
      assert ms[1..] == [];
      assert SysOf(WithRequest(Concrete(s, pick), b, call)[n]) == Protocol.Next(s, y, ms[0]);
    }
  }

  /** What an API call does to one asset is a run of protocol moves, its own command first. */
  lemma CallIsMoves(
    s: Setup, pick: (Venued, EventKind) -> seq<OrderId>, b: Engine<Local, Venued>, call: Call, n: nat)
    requires Traverses(pick) && n < |b.assets|
    ensures var ms, end := CallMoves(s, pick, b, call, n), Perform(Concrete(s, pick), b, call).assets;
            && |end| == |b.assets| && SysOf(end[n]) == RunMoves(s, SysOf(b.assets[n]), ms)
    ensures var ask, ms := AskMoves(b, call, n), CallMoves(s, pick, b, call, n);
            |ask| <= |ms| && Internal(s, RunMoves(s, SysOf(b.assets[n]), ask), ms[|ask|..])
  {
    var v, ask := Concrete(s, pick), AskMoves(b, call, n);
    AskIsMoves(s, pick, b, call, n);
    if RunsLoop(v, b, call) {
      var assets, goal := WithRequest(v, b, call), GoalOf(b.now, call);
      var rest := GotoMoves(s, pick, assets, goal, n);
      GotoIsMoves(s, pick, assets, b.now, goal, Ok, n);
      RunMovesConcat(s, SysOf(b.assets[n]), ask, rest);
      assert CallMoves(s, pick, b, call, n)[|ask|..] == rest;
    } else {
      assert CallMoves(s, pick, b, call, n) == ask;
    }
  }

  /** So every replay is, asset by asset, a run of protocol moves. */
  lemma {:induction false} ReplayIsTrace(
    s: Setup, pick: (Venued, EventKind) -> seq<OrderId>, b: Engine<Local, Venued>, calls: seq<Call>, n: nat)
    requires Traverses(pick) && n < |b.assets|
    ensures var end := PerformAll(Concrete(s, pick), b, calls).assets;
            |end| == |b.assets|
            && SysOf(end[n]) == RunMoves(s, SysOf(b.assets[n]), Trace(s, pick, b, calls, n))
    decreases |calls|
  {
    if calls != [] {
      var next := Perform(Concrete(s, pick), b, calls[0]);
      CallIsMoves(s, pick, b, calls[0], n);
      ReplayIsTrace(s, pick, next, calls[1..], n);
      RunMovesConcat(s, SysOf(b.assets[n]), CallMoves(s, pick, b, calls[0], n), Trace(s, pick, next, calls[1..], n));
    }
  }

  lemma {:induction false} InternalKeepsOnce(s: Setup, y: Sys, used: set<OrderId>, ms: seq<Move>)
    requires AllOnce(y, used) && Internal(s, y, ms)
    ensures AllOnce(RunMoves(s, y, ms), used)
    decreases |ms|
  {
    if ms != [] {
      StepKeepsOnce(s, y, used, ms[0]);
      InternalKeepsOnce(s, Protocol.Next(s, y, ms[0]), used, ms[1..]);
    }
  }

  // ---------------------------------------------------------------- the clock

  /** With fresh ids the exchange answers every request of a batch promptly. */
  lemma {:induction false} BatchIsPrompt(
    s: Setup, pick: (Venued, EventKind) -> seq<OrderId>, h: Venued, y: Sys, used: set<OrderId>, n: nat, t: int)
    requires AllOnce(y, used) && n <= |y.buses.toExch| && h.x == y.exch && (forall ts, o :: s.lm.response(ts, o) >= 0)
    ensures PromptBatch(Concrete(s, pick), h, y.buses.toExch[..n], t)
    decreases n
  {
    if n > 0 {
      var bus := y.buses.toExch;
      NoFinishedTaker(y, used);
      ReplyStamp(s.c, y.exch, bus[0].order, t);
      StepKeepsOnce(s, y, used, ExchReceive(t));
      BatchIsPrompt(s, pick, HandleOn(s, h, bus[0].order, t).0, Protocol.Next(s, y, ExchReceive(t)), used, n - 1, t);
      assert bus[..n][1..] == bus[1..][..n - 1];
    }
  }

  /** The invariant under which the concrete exchange never answers into the past. */
  ghost function CareOf(used: seq<set<OrderId>>): (nat, Asset<Local, Venued>) -> bool {
    (n: nat, a: Asset<Local, Venued>) => n < |used| && AllOnce(SysOf(a), used[n])
  }

  /** With non-negative response latency and no id reused, the concrete exchange never answers into the past. */
  lemma FreshIdsAreTended(s: Setup, pick: (Venued, EventKind) -> seq<OrderId>, used: seq<set<OrderId>>)
    requires Traverses(pick) && (forall ts, o :: s.lm.response(ts, o) >= 0)
    ensures Tended(Concrete(s, pick), CareOf(used))
  {
    var v, inv := Concrete(s, pick), CareOf(used);
    forall n: nat, a: Asset<Local, Venued>, kind: nat, t: int | inv(n, a) && kind < 4 && Due(a, kind) == At(t)
      ensures inv(n, Dispatch(v, a, kind, t)) && PromptDispatch(v, a, kind, t)
    {
      DispatchIsMoves(s, pick, a, kind, t);
      InternalKeepsOnce(s, SysOf(a), used[n], DispatchMoves(pick, a, kind, t));
      if kind == EXCH_DATA {
        FeedStamped(s.c, a.exch.x, a.exchRows[0].kind, t, pick(a.exch, a.exchRows[0].kind));
      } else if kind == EXCH_ORDER {
        BatchIsPrompt(s, pick, a.exch, SysOf(a), used[n], Batch(a.buses.toExch, t), t);
      }
    }
  }

  /** The strategy's one rule for the clock: no id is submitted twice on an asset. */
  ghost predicate FreshCall(b: Engine<Local, Venued>, used: seq<set<OrderId>>, call: Call) {
    |used| == |b.assets| &&
    (call.Request? && call.asset < |b.assets| && call.cmd.Submit? ==> call.cmd.id !in used[call.asset])
  }

  function UsedAfter(b: Engine<Local, Venued>, used: seq<set<OrderId>>, call: Call): seq<set<OrderId>>
    requires |used| == |b.assets|
  {
    if call.Request? && call.asset < |b.assets|
    then used[call.asset := Used(used[call.asset], Move.Command(call.cmd, b.now))]
    else used
  }

  lemma FreshCallIsSound(
    s: Setup, pick: (Venued, EventKind) -> seq<OrderId>, b: Engine<Local, Venued>, used: seq<set<OrderId>>, call: Call)
    requires AllHold(CareOf(used), b.assets) && FreshCall(b, used, call)
    ensures SoundCall(Concrete(s, pick), CareOf(UsedAfter(b, used, call)), b, call)
  {
    var v, after := Concrete(s, pick), WithRequest(Concrete(s, pick), b, call);
    forall n: nat | n < |after| ensures CareOf(UsedAfter(b, used, call))(n, after[n]) {
      assert CareOf(used)(n, b.assets[n]);
      if call.Request? && call.asset == n {
        var m := Move.Command(call.cmd, b.now);
        StepKeepsOnce(s, SysOf(b.assets[n]), used[n], m);
        assert SysOf(after[n]) == Protocol.Next(s, SysOf(b.assets[n]), m);
      } else if call.ClearInactiveOrders? && call.asset == n {
        StepKeepsOnce(s, SysOf(b.assets[n]), used[n], Move.ClearInactiveOrders);
      }
    }
  }

  ghost predicate FreshCalls(
    s: Setup, pick: (Venued, EventKind) -> seq<OrderId>, b: Engine<Local, Venued>, used: seq<set<OrderId>>,
    calls: seq<Call>)
    decreases |calls|
  {
    calls == [] ||
    (FreshCall(b, used, calls[0]) &&
     FreshCalls(s, pick, Perform(Concrete(s, pick), b, calls[0]), UsedAfter(b, used, calls[0]), calls[1..]))
  }

  /** Only the ids in `used` have been submitted, and nothing pending is before the clock. */
  ghost predicate Tidy(b: Engine<Local, Venued>, used: seq<set<OrderId>>) {
    |used| == |b.assets| && AllHold(CareOf(used), b.assets) && AllTimely(b.assets, b.now)
  }

  lemma CallKeepsTidy(
    s: Setup, pick: (Venued, EventKind) -> seq<OrderId>, b: Engine<Local, Venued>, used: seq<set<OrderId>>, call: Call)
    requires Traverses(pick) && (forall ts, o :: s.lm.response(ts, o) >= 0)
    requires Tidy(b, used) && FreshCall(b, used, call)
    ensures var end := Perform(Concrete(s, pick), b, call);
            Tidy(end, UsedAfter(b, used, call)) && b.now <= end.now && |end.assets| == |b.assets|
  {
    FreshIdsAreTended(s, pick, UsedAfter(b, used, call));
    FreshCallIsSound(s, pick, b, used, call);
    CallTimely(Concrete(s, pick), CareOf(UsedAfter(b, used, call)), b, call);
  }

  /** The ids submitted over a sequence of calls. */
  function UsedAfterAll(
    s: Setup, pick: (Venued, EventKind) -> seq<OrderId>, b: Engine<Local, Venued>, used: seq<set<OrderId>>,
    calls: seq<Call>)
    : seq<set<OrderId>>
    decreases |calls|
  {
    if calls == [] || |used| != |b.assets| then used
    else UsedAfterAll(s, pick, Perform(Concrete(s, pick), b, calls[0]), UsedAfter(b, used, calls[0]), calls[1..])
  }

  lemma {:induction false} CallsKeepTidy(
    s: Setup, pick: (Venued, EventKind) -> seq<OrderId>, b: Engine<Local, Venued>, used: seq<set<OrderId>>,
    calls: seq<Call>)
    requires Traverses(pick) && (forall ts, o :: s.lm.response(ts, o) >= 0)
    requires Tidy(b, used) && FreshCalls(s, pick, b, used, calls)
    ensures var end := PerformAll(Concrete(s, pick), b, calls);
            b.now <= end.now && |end.assets| == |b.assets| && Tidy(end, UsedAfterAll(s, pick, b, used, calls))
    decreases |calls|
  {
    if calls != [] {
      CallKeepsTidy(s, pick, b, used, calls[0]);
      CallsKeepTidy(s, pick, Perform(Concrete(s, pick), b, calls[0]), UsedAfter(b, used, calls[0]), calls[1..]);
    }
  }

  /** An engine before its first call: nothing submitted, feeds in time order from the present on. */
  ghost predicate Fresh(b: Engine<Local, Venued>) {
    forall n :: 0 <= n < |b.assets| ==>
      && Initial(SysOf(b.assets[n])) && b.assets[n].local.sv == b.assets[n].exch.x.sv
      && RowsFrom(b.assets[n].localRows, b.now, true) && RowsFrom(b.assets[n].exchRows, b.now, false)
  }

  lemma FreshIsTidy(b: Engine<Local, Venued>)
    requires Fresh(b)
    ensures Tidy(b, seq(|b.assets|, _ => {}))
  {
    var used: seq<set<OrderId>> := seq(|b.assets|, _ => {});
    forall n: nat | n < |b.assets| ensures CareOf(used)(n, b.assets[n]) {
      assert AllOnce(SysOf(b.assets[n]), {});
    }
  }

  /**
    * The clock of the simulator never goes back. Over any sequence of API calls in which no id is submitted twice,
    * whatever is canceled or modified, with partial fills and rejections, for any number of assets and any traversal
    * order: every bus and feed stays sorted with nothing pending before the clock, so no message is ever received late.
    */
  lemma ClockNeverGoesBack(
    s: Setup, pick: (Venued, EventKind) -> seq<OrderId>, b: Engine<Local, Venued>, calls: seq<Call>)
    requires Traverses(pick) && (forall ts, o :: s.lm.response(ts, o) >= 0)
    requires Fresh(b) && FreshCalls(s, pick, b, seq(|b.assets|, _ => {}), calls)
    ensures var end := PerformAll(Concrete(s, pick), b, calls);
            b.now <= end.now && |end.assets| == |b.assets| && AllTimely(end.assets, end.now)
  {
    FreshIsTidy(b);
    CallsKeepTidy(s, pick, b, seq(|b.assets|, _ => {}), calls);
  }

  /**
    * Wherever the simulator gets to by calls that submit no id twice, the waiting calls of its API do what they are
    * for: they end as an elapse to the first feed row, or to the first reply, of any asset; to the first reply to
    * the order named; and without any of these they replay everything.
    */
  lemma SimulationWaits(
    s: Setup, pick: (Venued, EventKind) -> seq<OrderId>, b: Engine<Local, Venued>, calls: seq<Call>, anyOrder: bool,
    asset: nat, id: OrderId)
    requires Traverses(pick) && (forall ts, o :: s.lm.response(ts, o) >= 0)
    requires Fresh(b) && FreshCalls(s, pick, b, seq(|b.assets|, _ => {}), calls)
    ensures var v := Concrete(s, pick);
            var here := PerformAll(v, b, calls);
            && EndsWith(v, here, WaitNextFeed(true, anyOrder), DataRow)
            && EndsWith(v, here, WaitNextFeed(false, true), SomeReply)
            && EndsWith(v, here, WaitOrderResponse(asset, id), ReplyFor(asset, id))
            && ReplaysAll(v, here, WaitNextFeed(false, false)) && ReplaysAll(v, here, Close)
  {
    var v, none: seq<set<OrderId>> := Concrete(s, pick), seq(|b.assets|, _ => {});
    var here, inv := PerformAll(v, b, calls), CareOf(UsedAfterAll(s, pick, b, none, calls));
    FreshIsTidy(b);
    CallsKeepTidy(s, pick, b, none, calls);
    FreshIdsAreTended(s, pick, UsedAfterAll(s, pick, b, none, calls));
    WaitForData(v, inv, here, anyOrder);
    WaitForOrders(v, inv, here);
    WaitForReply(v, inv, here, asset, id);
    WaitForNothing(v, inv, here);
  }

  // ---------------------------------------------------------------- what holds of every replay

  lemma {:induction false} FreshConcat(s: Setup, y: Sys, used: set<OrderId>, a: seq<Move>, b: seq<Move>)
    requires FreshRun(s, y, used, a) && FreshRun(s, RunMoves(s, y, a), UsedBy(used, a), b)
    ensures FreshRun(s, y, used, a + b)
    decreases |a|
  {
    if a == [] {
      assert a + b == b;
    } else {
      assert (a + b)[1..] == a[1..] + b;
      FreshConcat(s, Protocol.Next(s, y, a[0]), Used(used, a[0]), a[1..], b);
    }
  }

  lemma {:induction false} UsedByConcat(used: set<OrderId>, a: seq<Move>, b: seq<Move>)
    ensures UsedBy(used, a + b) == UsedBy(UsedBy(used, a), b)
    decreases |a|
  {
    if a == [] {
      assert a + b == b;
    } else {
      assert (a + b)[1..] == a[1..] + b;
      UsedByConcat(Used(used, a[0]), a[1..], b);
    }
  }

  lemma {:induction false} InternalIsFresh(s: Setup, y: Sys, used: set<OrderId>, ms: seq<Move>)
    requires Internal(s, y, ms)
    ensures FreshRun(s, y, used, ms) && UsedBy(used, ms) == used
    decreases |ms|
  {
    if ms != [] {
      InternalIsFresh(s, Protocol.Next(s, y, ms[0]), used, ms[1..]);
    }
  }

  lemma OneMoveIsFresh(s: Setup, y: Sys, used: set<OrderId>, m: Move)
    requires UsesFreshIds(y, used, m)
    ensures FreshRun(s, y, used, [m]) && UsedBy(used, [m]) == Used(used, m)
  {
    assert [m][1..] == [];
  }

  lemma AskIsFresh(s: Setup, b: Engine<Local, Venued>, used: seq<set<OrderId>>, call: Call, n: nat)
    requires n < |b.assets| && FreshCall(b, used, call)
    ensures var ask := AskMoves(b, call, n);
            FreshRun(s, SysOf(b.assets[n]), used[n], ask) && UsedBy(used[n], ask) == UsedAfter(b, used, call)[n]
  {
    var ask := AskMoves(b, call, n);
    if ask != [] {
      OneMoveIsFresh(s, SysOf(b.assets[n]), used[n], ask[0]);
    }
  }

  lemma CallIsFresh(
    s: Setup, pick: (Venued, EventKind) -> seq<OrderId>, b: Engine<Local, Venued>, used: seq<set<OrderId>>,
    call: Call, n: nat)
    requires Traverses(pick) && n < |b.assets| && FreshCall(b, used, call)
    ensures var ms := CallMoves(s, pick, b, call, n);
            FreshRun(s, SysOf(b.assets[n]), used[n], ms) && UsedBy(used[n], ms) == UsedAfter(b, used, call)[n]
  {
    var y, ask, ms := SysOf(b.assets[n]), AskMoves(b, call, n), CallMoves(s, pick, b, call, n);
    CallIsMoves(s, pick, b, call, n);
    AskIsFresh(s, b, used, call, n);
    InternalIsFresh(s, RunMoves(s, y, ask), UsedBy(used[n], ask), ms[|ask|..]);
    assert ms == ask + ms[|ask|..];
    FreshConcat(s, y, used[n], ask, ms[|ask|..]);
    UsedByConcat(used[n], ask, ms[|ask|..]);
  }

  /** A strategy that submits no id twice makes every trace one that uses fresh ids. */
  lemma {:induction false} TraceIsFresh(
    s: Setup, pick: (Venued, EventKind) -> seq<OrderId>, b: Engine<Local, Venued>, used: seq<set<OrderId>>,
    calls: seq<Call>, n: nat)
    requires Traverses(pick) && n < |b.assets| && |used| == |b.assets| && FreshCalls(s, pick, b, used, calls)
    ensures FreshRun(s, SysOf(b.assets[n]), used[n], Trace(s, pick, b, calls, n))
    decreases |calls|
  {
    if calls != [] {
      var next := Perform(Concrete(s, pick), b, calls[0]);
      CallIsMoves(s, pick, b, calls[0], n);
      CallIsFresh(s, pick, b, used, calls[0], n);
      TraceIsFresh(s, pick, next, UsedAfter(b, used, calls[0]), calls[1..], n);
      FreshConcat(s, SysOf(b.assets[n]), used[n], CallMoves(s, pick, b, calls[0], n),
                  Trace(s, pick, next, calls[1..], n));
    }
  }

  /**
    * After any sequence of API calls by any strategy, partial fills, rejections and reused ids included, the local
    * account of each asset plus what is queued for it is the exchange's account plus the bookings of the
    * spurious messages; they agree if and only if there was none.
    */
  lemma SimulationBooks(
    s: Setup, pick: (Venued, EventKind) -> seq<OrderId>, b: Engine<Local, Venued>, calls: seq<Call>, n: nat)
    requires Traverses(pick) && n < |b.assets|
    requires Initial(SysOf(b.assets[n])) && b.assets[n].local.sv == b.assets[n].exch.x.sv
    ensures var end := PerformAll(Concrete(s, pick), b, calls).assets;
            && |end| == |b.assets|
            && var z, extra := SysOf(end[n]), SpuriousIn(s, SysOf(b.assets[n]), Trace(s, pick, b, calls, n));
            && Settled(s, z) == z.exch.sv.Plus(s.c.acct.Total(extra))
            && (Settled(s, z) == z.exch.sv <==> extra == [])
  {
    var y := SysOf(b.assets[n]);
    assert Orders(y.buses.toLocal) == [];
    PlusLaws(y.local.sv, ZERO_VALUES);
    ReplayIsTrace(s, pick, b, calls, n);
    AccountsDiffer(s, y, Trace(s, pick, b, calls, n));
  }

  /**
    * After any sequence of API calls by any strategy, every order anywhere on an asset has the side, type and time in
    * force of an accepted submission of its id on that asset, and the price and quantity of an accepted submission or
    * modify of its id.
    */
  lemma SimulationCarriesWhatWasAsked(
    s: Setup, pick: (Venued, EventKind) -> seq<OrderId>, b: Engine<Local, Venued>, calls: seq<Call>, n: nat)
    requires Traverses(pick) && n < |b.assets| && Initial(SysOf(b.assets[n]))
    ensures var end := PerformAll(Concrete(s, pick), b, calls).assets;
            |end| == |b.assets|
            && SysAsked(SentIn(s, SysOf(b.assets[n]), Trace(s, pick, b, calls, n)), SysOf(end[n]))
  {
    ReplayIsTrace(s, pick, b, calls, n);
    EverythingIsAsked(s, SysOf(b.assets[n]), Trace(s, pick, b, calls, n));
  }

  /**
    * After any sequence of API calls that submits no id twice, on every asset on which no change of terms was refused
    * unheard, with partial fills and requests on orders in any state: whenever an order does not rest, or no request
    * for it is under way, the queued replies bring the local order to exactly what the exchange rests.
    */
  lemma SimulationViews(
    s: Setup, pick: (Venued, EventKind) -> seq<OrderId>, b: Engine<Local, Venued>, calls: seq<Call>, n: nat,
    id: OrderId)
    requires Traverses(pick) && n < |b.assets| && Initial(SysOf(b.assets[n]))
    requires FreshCalls(s, pick, b, seq(|b.assets|, _ => {}), calls)
    requires HeardRun(s, SysOf(b.assets[n]), Trace(s, pick, b, calls, n))
    ensures var end := PerformAll(Concrete(s, pick), b, calls).assets;
            && |end| == |b.assets|
            && var v := View(SysOf(end[n]), id);
            v.x.None? || v.r == [] ==> Agrees(v)
  {
    var y, ms := SysOf(b.assets[n]), Trace(s, pick, b, calls, n);
    ReplayIsTrace(s, pick, b, calls, n);
    TraceIsFresh(s, pick, b, seq(|b.assets|, _ => {}), calls, n);
    ViewsAgree(s, y, ms, id);
  }

  /**
    * Over any sequence of API calls that submits no id twice and asks for positive quantities only: nothing ever
    * crosses in an asset's resting book if and only if no clear of its feed revives a level that does, and then the
    * cost rule never makes a scan miss an order.
    */
  lemma SimulationRests(
    s: Setup, pick: (Venued, EventKind) -> seq<OrderId>, b: Engine<Local, Venued>, calls: seq<Call>, n: nat)
    requires Traverses(pick) && n < |b.assets| && Initial(SysOf(b.assets[n])) && Sane(b.assets[n].exch.x.book)
    requires FreshCalls(s, pick, b, seq(|b.assets|, _ => {}), calls)
    requires forall m :: m in Trace(s, pick, b, calls, n) ==> Proper(m)
    ensures var y, ms := SysOf(b.assets[n]), Trace(s, pick, b, calls, n);
            && (RestsThroughout(s, y, ms) <==> ClearsSafelyThroughout(s, y, ms))
            && (RestsThroughout(s, y, ms) ==> ScansFullyThroughout(s, y, ms))
            && var end := PerformAll(Concrete(s, pick), b, calls).assets;
            |end| == |b.assets| && SysOf(end[n]) == RunMoves(s, y, ms)
  {
    ReplayIsTrace(s, pick, b, calls, n);
    TraceIsFresh(s, pick, b, seq(|b.assets|, _ => {}), calls, n);
    BookRestsIff(s, SysOf(b.assets[n]), Trace(s, pick, b, calls, n));
  }

  lemma {:induction false} FreshAndCareful(s: Setup, y: Sys, used: set<OrderId>, ms: seq<Move>)
    requires FreshRun(s, y, used, ms) && CarefulRun(s, y, ms)
    ensures DisciplinedRun(s, y, used, ms)
    decreases |ms|
  {
    if ms != [] {
      FreshAndCareful(s, Protocol.Next(s, y, ms[0]), Used(used, ms[0]), ms[1..]);
    }
  }

  /**
    * End to end. After any sequence of API calls that submits no id twice, over any number of assets, for any
    * traversal order of the containers: the clock has not gone back and nothing pending is before it; and on every
    * asset on which only cancellable orders were changed, without partial fills or refusals, at most one request of
    * an id is under way, without one the queued replies bring the local order to the exchange's, and the local
    * account plus the fills still queued is the exchange's account.
    */
  lemma SimulationAgrees(
    s: Setup, pick: (Venued, EventKind) -> seq<OrderId>, b: Engine<Local, Venued>, calls: seq<Call>, n: nat,
    id: OrderId)
    requires Plain(s) && Traverses(pick) && (forall ts, o :: s.lm.response(ts, o) >= 0)
    requires Fresh(b) && FreshCalls(s, pick, b, seq(|b.assets|, _ => {}), calls) && n < |b.assets|
    requires CarefulRun(s, SysOf(b.assets[n]), Trace(s, pick, b, calls, n))
    ensures var end := PerformAll(Concrete(s, pick), b, calls);
            && |end.assets| == |b.assets| && b.now <= end.now && AllTimely(end.assets, end.now)
            && var y := SysOf(end.assets[n]);
            && |View(y, id).r| <= 1 && (View(y, id).x.None? || View(y, id).r == [] ==> Agrees(View(y, id)))
            && y.exch.sv == y.local.sv.Plus(s.c.acct.Total(Orders(y.buses.toLocal)))
  {
    var y, ms := SysOf(b.assets[n]), Trace(s, pick, b, calls, n);
    ClockNeverGoesBack(s, pick, b, calls);
    ReplayIsTrace(s, pick, b, calls, n);
    TraceIsFresh(s, pick, b, seq(|b.assets|, _ => {}), calls, n);
    FreshAndCareful(s, y, {}, ms);
    ViewAgreement(s, y, ms, id);
    AcceptedIsHeard(s, y, ms);
    ViewsAgree(s, y, ms, id);
    AccountsAgree(s, y, ms);
  }
}
