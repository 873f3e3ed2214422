/** A replay in which reusing an order id turns the clock back. */
module IdReuse {
  import opened Core
  import opened HashMapDepth
  import opened Exchange
  import opened OrderBus
  import opened EventSet
  import opened LocalSide
  import opened Protocol
  import opened Scheduler
  import opened Backtest
  import opened Replay

  // ---------------------------------------------------------------- elapsing with one asset and no rows

  ghost predicate NoRows(a: Asset<Local, Venued>) {
    a.localRows == [] && a.exchRows == []
  }

  lemma ExchangeTurn(v: Venue<Local, Venued>, a: Asset<Local, Venued>, now: int, target: int)
    requires NoRows(a) && a.buses.toExch != [] && a.buses.toExch[0].due <= target
    requires a.buses.toLocal != [] ==> a.buses.toExch[0].due < a.buses.toLocal[0].due
    ensures var t := a.buses.toExch[0].due;
            Elapse(v, [a], now, target) == Elapse(v, [Dispatch(v, a, EXCH_ORDER, t)], t, target)
  {
    NextOfOne(a, EXCH_ORDER);
    assert [a][0 := Dispatch(v, a, EXCH_ORDER, a.buses.toExch[0].due)]
         == [Dispatch(v, a, EXCH_ORDER, a.buses.toExch[0].due)];
  }

  lemma LocalTurn(v: Venue<Local, Venued>, a: Asset<Local, Venued>, now: int, target: int)
    requires NoRows(a) && a.buses.toLocal != [] && a.buses.toLocal[0].due <= target
    requires a.buses.toExch != [] ==> a.buses.toLocal[0].due <= a.buses.toExch[0].due
    ensures var t := a.buses.toLocal[0].due;
            Elapse(v, [a], now, target) == Elapse(v, [Dispatch(v, a, LOCAL_ORDER, t)], t, target)
  {
    NextOfOne(a, LOCAL_ORDER);
    assert [a][0 := Dispatch(v, a, LOCAL_ORDER, a.buses.toLocal[0].due)]
         == [Dispatch(v, a, LOCAL_ORDER, a.buses.toLocal[0].due)];
  }

  lemma HandlesFront(v: Venue<Local, Venued>, a: Asset<Local, Venued>)
    requires a.buses.toExch != [] && (|a.buses.toExch| > 1 ==> a.buses.toExch[1].due != a.buses.toExch[0].due)
    ensures var m := a.buses.toExch[0];
            var (x, reply) := v.exchHandle(a.exch, m.order, m.due);
            Dispatch(v, a, EXCH_ORDER, m.due)
            == a.(exch := x, buses := Buses(a.buses.toExch[1..], Respond(v.lm, a.buses.toLocal, reply)))
  {
    var bus := a.buses.toExch;
    assert Batch(bus, bus[0].due) == 1;
    var msgs := bus[..1];
    assert msgs == [bus[0]] && msgs[1..] == [];
    var (x, reply) := v.exchHandle(a.exch, bus[0].order, bus[0].due);
    assert HandleAll(v, a.exch, a.buses.toLocal, msgs, bus[0].due) == (x, Respond(v.lm, a.buses.toLocal, reply));
  }

  lemma TakesFront(v: Venue<Local, Venued>, a: Asset<Local, Venued>)
    requires |a.buses.toLocal| == 1
    ensures var m := a.buses.toLocal[0];
            Dispatch(v, a, LOCAL_ORDER, m.due)
                 == a.(local := v.localReceive(a.local, m.order), buses := a.buses.(toLocal := []))
  {
    var bus := a.buses.toLocal;
    assert Batch(bus, bus[0].due) == 1;
    var msgs := bus[..1];
    assert msgs == [bus[0]] && msgs[1..] == [] && bus[1..] == [];
    assert ReceiveAll(v, a.local, msgs) == v.localReceive(a.local, bus[0].order);
  }

  lemma NothingDue(v: Venue<Local, Venued>, a: Asset<Local, Venued>, now: int, target: int)
    requires NoRows(a) && a.buses.toLocal == [] && (a.buses.toExch != [] ==> target < a.buses.toExch[0].due)
    ensures Elapse(v, [a], now, target).assets == [a]
    ensures Elapse(v, [a], now, target).now == if a.buses.toExch == [] then now else target
  {
    if a.buses.toExch == [] {
      forall k: nat | k < 4 ensures Slots([a])[k] == Never {
        assert Slots([a])[k] == Due(a, k);
      }
      FirstMinIsFirst(Slots([a]));
    } else {
      NextOfOne(a, EXCH_ORDER);
    }
  }

  lemma NextOfOne(a: Asset<Local, Venued>, kind: nat)
    requires NoRows(a) && (kind == EXCH_ORDER || kind == LOCAL_ORDER) && Due(a, kind).At?
    requires if kind == EXCH_ORDER then Earlier(Due(a, kind), Due(a, LOCAL_ORDER))
            else !Earlier(Due(a, EXCH_ORDER), Due(a, kind))
    ensures Scheduler.Next([a]) == Some(Intent(Due(a, kind).t, 0, kind))
  {
    var slots := Slots([a]);
    forall k: nat | k < 4 ensures slots[k] == Due(a, k) {
    }
    assert IsFirstMin(slots, kind);
    FirstMinUnique(slots, kind);
  }

  // ---------------------------------------------------------------- the orders and messages of the replay

  /** Requests take three units of time, cancels one, and replies one. */
  const LATENCY := Latency((ts: int, o: Order) => if o.req == Canceled then 1 else 3, (ts: int, o: Order) => 1)

  const ASK_AT_7 := Book(map[], map[7 := 1], INVALID_MIN, 7, INVALID_MAX, 7)

  const FIRST := Order.Order(1, Buy, Limit, IOC, 5, 1, 1, 0, 0, false, 0, 10, New, NoStatus)
  const ENDED := FIRST.(req := NoStatus, status := Expired, exchTs := 13)
  const CANCEL := ENDED.(req := Canceled, localTs := 14)
  const BOUNCED := CANCEL.(req := Rejected, exchTs := 15)
  const SECOND := Order.Order(1, Buy, Limit, GTC, 5, 1, 1, 0, 0, false, 0, 14, New, NoStatus)
  const MISTAKEN := SECOND.(req := NoStatus, status := Expired)
  const MODIFY := MISTAKEN.(tick := 7, qty := 1, req := Replaced, localTs := 16)
  const RESTS := SECOND.(req := NoStatus, status := New, exchTs := 17)
  const LATE := MODIFY.(req := NoStatus)

  function Holding(sv: StateValues, order: Option<Order>): Local {
    Local.Local(EMPTY, sv, if order.None? then map[] else map[1 := order.value])
  }

  function Market(sv: StateValues, handled: nat): Venued {
    Venued(Exch(ASK_AT_7, sv, map[]), 1 + handled)
  }

  /** Once the row has set the ask, and so many requests have been handled since. */
  function State(sv: StateValues, order: Option<Order>, handled: nat, toExch: seq<Msg>): Asset<Local, Venued> {
    Asset.Asset(Holding(sv, order), Market(sv, handled), [], [], Buses(toExch, []))
  }

  function Replaying(c: Config, pick: (Venued, EventKind) -> seq<OrderId>): Venue<Local, Venued> {
    Concrete(Setup(c, LATENCY), pick)
  }

  const CALLS := [
    Request(0, Submit(1, Buy, 5, 1, Limit, IOC), false), ElapseFor(4),
    Request(0, Cancel(1), false), Call.ClearInactiveOrders(0),
    Request(0, Submit(1, Buy, 5, 1, Limit, GTC), false), ElapseFor(2),
    Request(0, Modify(1, 7, 1), false), ElapseFor(4)]

  // ---------------------------------------------------------------- the one row of the feed

  const ROW := Event(AskDepth(7, 1), false, true, 10, 10)

  /** An asset as the engine takes it: empty books, and a feed of one row that only the exchange sees. */
  function Start(sv: StateValues): Asset<Local, Venued> {
    Asset.Asset(Holding(sv, None), Venued(Exch(EMPTY, sv, map[]), 0), [], [ROW], Buses([], []))
  }

  lemma {:induction false} NoOrdersNoReports(c: Config, ids: seq<OrderId>, why: Trigger, ts: int)
    ensures Reports(c, map[], ids, why, ts) == []
  {
    if ids != [] {
      NoOrdersNoReports(c, ids[1..], why, ts);
    }
  }

  lemma RowSetsAsk(c: Config, sv: StateValues, ids: seq<OrderId>)
    ensures Feed(c, Exch(EMPTY, sv, map[]), ROW.kind, 10, ids) == (Exch(ASK_AT_7, sv, map[]), [])
  {
    NoOrdersNoReports(c, ids, BestMoved, 10);
    var x := Exch(EMPTY, sv, map[]);
    assert map[][7 := 1] == map[7 := 1];
    assert Absorb(c, x, ROW.kind).orders == map[];
    assert Swept(c, map[], ids, BestMoved, 10) == map[];
  }

  lemma StartIsNext(sv: StateValues)
    ensures Scheduler.Next([Start(sv)]) == Some(Intent(10, 0, EXCH_DATA))
  {
    var slots := Slots([Start(sv)]);
    forall k: nat | k < 4 ensures slots[k] == Due(Start(sv), k) {
    }
    assert IsFirstMin(slots, EXCH_DATA);
    FirstMinUnique(slots, EXCH_DATA);
  }

  /** The engine starts its clock at that row, and takes it in without further ado. */
  lemma RowIsFed(c: Config, pick: (Venued, EventKind) -> seq<OrderId>, sv: StateValues)
    ensures Perform(Replaying(c, pick), Engine([Start(sv)], 10), ElapseFor(0)) == Engine([State(sv, None, 0, [])], 10)
  {
    var v, a, b := Replaying(c, pick), Start(sv), State(sv, None, 0, []);
    Elapses(v, a, 10, 0);
    StartIsNext(sv);
    RowSetsAsk(c, sv, pick(a.exch, ROW.kind));
    assert [ROW][1..] == [];
    assert Dispatch(v, a, EXCH_DATA, 10) == b;
    assert [a][0 := b] == [b];
    assert Elapse(v, [a], 10, 10) == Elapse(v, [b], 10, 10);
    NothingDue(v, b, 10, 10);
  }

  // ---------------------------------------------------------------- step by step

  /** The asset after the request in front is answered with `reply`. */
  function AfterAnswer(a: Asset<Local, Venued>, x: Exch, reply: Order): Asset<Local, Venued>
    requires a.buses.toExch != []
  {
    a.(exch := Venued(x, a.exch.history + 1), buses := Buses(a.buses.toExch[1..], [Msg(reply, reply.exchTs + 1)]))
  }

  lemma Answers(c: Config, pick: (Venued, EventKind) -> seq<OrderId>, a: Asset<Local, Venued>, x: Exch, reply: Order)
    requires a.buses.toLocal == [] && a.buses.toExch != []
    requires |a.buses.toExch| > 1 ==> a.buses.toExch[1].due != a.buses.toExch[0].due
    requires Handle(c, a.exch.x, a.buses.toExch[0].order, a.buses.toExch[0].due) == Ack(x, reply) && reply.exchTs >= 0
    ensures Dispatch(Replaying(c, pick), a, EXCH_ORDER, a.buses.toExch[0].due) == AfterAnswer(a, x, reply)
  {
    HandlesFront(Replaying(c, pick), a);
    assert Respond(LATENCY, [], reply) == [Msg(reply, reply.exchTs + 1)];
  }

  lemma Learns(c: Config, pick: (Venued, EventKind) -> seq<OrderId>, a: Asset<Local, Venued>, l: Local)
    requires |a.buses.toLocal| == 1 && Receive(c.acct, a.local, a.buses.toLocal[0].order) == l
    ensures Dispatch(Replaying(c, pick), a, LOCAL_ORDER, a.buses.toLocal[0].due)
         == a.(local := l, buses := a.buses.(toLocal := []))
  {
    TakesFront(Replaying(c, pick), a);
  }

  lemma TwoTurns(
    v: Venue<Local, Venued>, a: Asset<Local, Venued>, b: Asset<Local, Venued>, d: Asset<Local, Venued>, now: int,
    target: int)
    requires NoRows(a) && a.buses.toLocal == [] && a.buses.toExch != [] && a.buses.toExch[0].due <= target
    requires Dispatch(v, a, EXCH_ORDER, a.buses.toExch[0].due) == b
    requires NoRows(b) && b.buses.toLocal != [] && b.buses.toLocal[0].due <= target
    requires b.buses.toExch != [] ==> b.buses.toLocal[0].due <= b.buses.toExch[0].due
    requires Dispatch(v, b, LOCAL_ORDER, b.buses.toLocal[0].due) == d
    ensures Elapse(v, [a], now, target) == Elapse(v, [d], b.buses.toLocal[0].due, target)
  {
    ExchangeTurn(v, a, now, target);
    LocalTurn(v, b, a.buses.toExch[0].due, target);
  }

  /** A request is answered, and the answer taken in before anything else is due. */
  lemma RoundTrip(
    c: Config, pick: (Venued, EventKind) -> seq<OrderId>, a: Asset<Local, Venued>, x: Exch, reply: Order, l: Local,
    now: int, target: int)
    requires NoRows(a) && a.buses.toLocal == [] && a.buses.toExch != []
    requires Handle(c, a.exch.x, a.buses.toExch[0].order, a.buses.toExch[0].due) == Ack(x, reply) && reply.exchTs >= 0
    requires |a.buses.toExch| > 1 ==> reply.exchTs + 1 <= a.buses.toExch[1].due
    requires |a.buses.toExch| > 1 ==> a.buses.toExch[0].due < a.buses.toExch[1].due
    requires a.buses.toExch[0].due <= target && reply.exchTs + 1 <= target
    requires Receive(c.acct, a.local, reply) == l
    ensures Elapse(Replaying(c, pick), [a], now, target)
         == Elapse(Replaying(c, pick), [Asset.Asset(l, Venued(x, a.exch.history + 1), [], [],
                                                    Buses(a.buses.toExch[1..], []))],
                   reply.exchTs + 1, target)
  {
    var b := AfterAnswer(a, x, reply);
    var d := Asset.Asset(l, Venued(x, a.exch.history + 1), [], [], Buses(a.buses.toExch[1..], []));
    Answers(c, pick, a, x, reply);
    Learns(c, pick, b, l);
    assert b.(local := l, buses := b.buses.(toLocal := [])) == d;
    TwoTurns(Replaying(c, pick), a, b, d, now, target);
  }

  /** A request that does not wait: the local record is kept, and the request joins the bus. */
  lemma Asks(
    c: Config, pick: (Venued, EventKind) -> seq<OrderId>, a: Asset<Local, Venued>, now: int, cmd: Command, l: Local,
    request: Order, rejected: Order)
    requires Issue(a.local, cmd, now) == Sent(l, request, rejected) && request.localTs == now
    ensures Perform(Replaying(c, pick), Engine([a], now), Request(0, cmd, false))
         == Engine([a.(local := l, buses := a.buses.(
                         toExch := Append(a.buses.toExch, request, now + if request.req == Canceled then 1
                                 else 3)))], now)
  {
    assert [a][0 := Ask(Replaying(c, pick), a, cmd, now)] == [Ask(Replaying(c, pick), a, cmd, now)];
  }

  lemma Elapses<L, X>(v: Venue<L, X>, a: Asset<L, X>, now: int, d: nat)
    ensures var end := Elapse(v, [a], now, now + d);
            Perform(v, Engine([a], now), ElapseFor(d)) == Engine(end.assets, end.now)
  {
  }

  /** An elapse that gets to a state with nothing more due by its end. */
  lemma ElapsesTo(
    v: Venue<Local, Venued>, a: Asset<Local, Venued>, b: Asset<Local, Venued>, now: int, d: nat, reached: int)
    requires Elapse(v, [a], now, now + d) == Elapse(v, [b], reached, now + d)
    requires NoRows(b) && b.buses.toLocal == [] && (b.buses.toExch != [] ==> now + d < b.buses.toExch[0].due)
    ensures Perform(v, Engine([a], now), ElapseFor(d))
         == Engine([b], if b.buses.toExch == [] then reached else now + d)
  {
    Elapses(v, a, now, d);
    NothingDue(v, b, reached, now + d);
  }

  /** A reply that reports no fill replaces the local record. */
  lemma Replaces(acct: Accounting, sv: StateValues, was: Order, reply: Order)
    requires was.id == reply.id == 1 && reply.req != Rejected && !reply.ReportsFill()
    ensures Receive(acct, Holding(sv, Some(was)), reply) == Holding(sv, Some(was.Update(reply)))
  {
    assert map[1 := was][1 := was.Update(reply)] == map[1 := was.Update(reply)];
  }

  lemma FirstIsRefused(c: Config, sv: StateValues)
    ensures Handle(c, Market(sv, 0).x, FIRST, 13) == Ack(Market(sv, 0).x, ENDED)
  {
  }

  lemma CancelIsRefused(c: Config, sv: StateValues)
    ensures Handle(c, Market(sv, 0).x, CANCEL, 15) == Ack(Market(sv, 0).x, BOUNCED)
    ensures Receive(c.acct, Holding(sv, Some(SECOND)), BOUNCED) == Holding(sv, Some(MISTAKEN))
  {
    assert map[1 := SECOND][1 := MISTAKEN] == map[1 := MISTAKEN];
  }

  lemma SecondIsFiled(c: Config, sv: StateValues)
    ensures Handle(c, Market(sv, 0).x, SECOND, 17) == Ack(RestingMarket(c, sv), RESTS)
  {
    assert map[][1 := Resting(RESTS, c.queue.newOrder(0))] == map[1 := Resting(RESTS, c.queue.newOrder(0))];
  }

  /** The first order is submitted at 10. */
  lemma FirstIsSubmitted(c: Config, pick: (Venued, EventKind) -> seq<OrderId>, sv: StateValues)
    ensures Perform(Replaying(c, pick), Engine([State(sv, None, 0, [])], 10), CALLS[0])
         == Engine([State(sv, Some(FIRST), 0, [Msg(FIRST, 13)])], 10)
  {
    assert map[][1 := FIRST] == map[1 := FIRST];
    assert Append([], FIRST, 13) == [Msg(FIRST, 13)];
    Asks(c, pick, State(sv, None, 0, []), 10, CALLS[0].cmd, Holding(sv, Some(FIRST)), FIRST, FIRST.(req := Rejected));
  }

  lemma FirstRoundTrip(c: Config, pick: (Venued, EventKind) -> seq<OrderId>, sv: StateValues)
    ensures Elapse(Replaying(c, pick), [State(sv, Some(FIRST), 0, [Msg(FIRST, 13)])], 10, 14)
         == Elapse(Replaying(c, pick), [State(sv, Some(ENDED), 1, [])], 14, 14)
  {
    var a := State(sv, Some(FIRST), 0, [Msg(FIRST, 13)]);
    FirstIsRefused(c, sv);
    Replaces(c.acct, sv, FIRST, ENDED);
    assert a.buses.toExch[1..] == [];
    RoundTrip(c, pick, a, a.exch.x, ENDED, Holding(sv, Some(ENDED)), 10, 14);
  }

  lemma FirstElapses(c: Config, pick: (Venued, EventKind) -> seq<OrderId>, sv: StateValues)
    ensures Perform(Replaying(c, pick), Engine([State(sv, Some(FIRST), 0, [Msg(FIRST, 13)])], 10), ElapseFor(4))
         == Engine([State(sv, Some(ENDED), 1, [])], 14)
  {
    FirstRoundTrip(c, pick, sv);
    ElapsesTo(Replaying(c, pick), State(sv, Some(FIRST), 0, [Msg(FIRST, 13)]), State(sv, Some(ENDED), 1, []),
              10, 4, 14);
  }

  /** It expires at 13, and is known to have expired at 14. */
  lemma FirstExpires(c: Config, pick: (Venued, EventKind) -> seq<OrderId>, sv: StateValues)
    ensures Perform(Replaying(c, pick), Engine([State(sv, Some(FIRST), 0, [Msg(FIRST, 13)])], 10), CALLS[1])
         == Engine([State(sv, Some(ENDED), 1, [])], 14)
  {
    FirstElapses(c, pick, sv);
    assert CALLS[1] == ElapseFor(4);
  }

  /** At 14 the finished order is canceled, */
  lemma FinishedIsCanceled(c: Config, pick: (Venued, EventKind) -> seq<OrderId>, sv: StateValues)
    ensures Perform(Replaying(c, pick), Engine([State(sv, Some(ENDED), 1, [])], 14), CALLS[2])
         == Engine([State(sv, Some(CANCEL), 1, [Msg(CANCEL, 15)])], 14)
  {
    assert map[1 := ENDED][1 := CANCEL] == map[1 := CANCEL];
    assert Append([], CANCEL, 15) == [Msg(CANCEL, 15)];
    Asks(c, pick, State(sv, Some(ENDED), 1, []), 14, CALLS[2].cmd, Holding(sv, Some(CANCEL)), CANCEL,
         CANCEL.(req := Rejected));
  }

  /** forgotten, */
  lemma FinishedIsForgotten(c: Config, pick: (Venued, EventKind) -> seq<OrderId>, sv: StateValues)
    ensures Perform(Replaying(c, pick), Engine([State(sv, Some(CANCEL), 1, [Msg(CANCEL, 15)])], 14), CALLS[3])
         == Engine([State(sv, None, 1, [Msg(CANCEL, 15)])], 14)
  {
    assert ClearInactive(Holding(sv, Some(CANCEL))).orders == map[];
  }

  /** and its id submitted again. */
  lemma IdIsReused(c: Config, pick: (Venued, EventKind) -> seq<OrderId>, sv: StateValues)
    ensures Perform(Replaying(c, pick), Engine([State(sv, None, 1, [Msg(CANCEL, 15)])], 14), CALLS[4])
         == Engine([State(sv, Some(SECOND), 1, [Msg(CANCEL, 15), Msg(SECOND, 17)])], 14)
  {
    assert map[][1 := SECOND] == map[1 := SECOND];
    assert Append([Msg(CANCEL, 15)], SECOND, 17) == [Msg(CANCEL, 15), Msg(SECOND, 17)];
    Asks(c, pick, State(sv, None, 1, [Msg(CANCEL, 15)]), 14, CALLS[4].cmd, Holding(sv, Some(SECOND)), SECOND,
         SECOND.(req := Rejected));
  }

  /** The bounced cancel, stamped like the second submission, makes the local side take that one for expired. */
  lemma SecondIsMistaken(c: Config, pick: (Venued, EventKind) -> seq<OrderId>, sv: StateValues)
    ensures Perform(Replaying(c, pick), Engine([State(sv, Some(SECOND), 1, [Msg(CANCEL, 15), Msg(SECOND, 17)])], 14),
                    ElapseFor(2))
         == Engine([State(sv, Some(MISTAKEN), 2, [Msg(SECOND, 17)])], 16)
  {
    var a := State(sv, Some(SECOND), 1, [Msg(CANCEL, 15), Msg(SECOND, 17)]);
    CancelIsRefused(c, sv);
    assert a.buses.toExch[1..] == [Msg(SECOND, 17)];
    RoundTrip(c, pick, a, a.exch.x, BOUNCED, Holding(sv, Some(MISTAKEN)), 14, 16);
    ElapsesTo(Replaying(c, pick), a, State(sv, Some(MISTAKEN), 2, [Msg(SECOND, 17)]), 14, 2, 16);
  }

  /** So it is modified as a finished order, through the best ask, before it comes to rest. */
  lemma MistakenIsModified(c: Config, pick: (Venued, EventKind) -> seq<OrderId>, sv: StateValues)
    ensures Perform(Replaying(c, pick), Engine([State(sv, Some(MISTAKEN), 2, [Msg(SECOND, 17)])], 16), CALLS[6])
         == Engine([State(sv, Some(MODIFY), 2, [Msg(SECOND, 17), Msg(MODIFY, 19)])], 16)
  {
    assert map[1 := MISTAKEN][1 := MODIFY] == map[1 := MODIFY];
    assert Append([Msg(SECOND, 17)], MODIFY, 19) == [Msg(SECOND, 17), Msg(MODIFY, 19)];
    Asks(c, pick, State(sv, Some(MISTAKEN), 2, [Msg(SECOND, 17)]), 16, CALLS[6].cmd, Holding(sv, Some(MODIFY)), MODIFY,
         MODIFY.(req := Rejected, tick := 5, qty := 1));
  }

  function RestingMarket(c: Config, sv: StateValues): Exch {
    Exch(ASK_AT_7, sv, map[1 := Resting(RESTS, c.queue.newOrder(0))])
  }

  const KNOWN := RESTS.(localTs := 16)

  /** The second order comes to rest at 17, and is known to rest at 18. */
  lemma SecondRests(c: Config, pick: (Venued, EventKind) -> seq<OrderId>, sv: StateValues)
    ensures Elapse(Replaying(c, pick), [State(sv, Some(MODIFY), 2, [Msg(SECOND, 17), Msg(MODIFY, 19)])], 16, 20)
         == Elapse(Replaying(c, pick),
                   [Asset.Asset(Holding(sv, Some(KNOWN)), Venued(RestingMarket(c, sv), 4), [], [],
                                Buses([Msg(MODIFY, 19)], []))], 18, 20)
  {
    var a := State(sv, Some(MODIFY), 2, [Msg(SECOND, 17), Msg(MODIFY, 19)]);
    SecondIsFiled(c, sv);
    Replaces(c.acct, sv, MODIFY, RESTS);
    assert a.buses.toExch[1..] == [Msg(MODIFY, 19)];
    RoundTrip(c, pick, a, RestingMarket(c, sv), RESTS, Holding(sv, Some(KNOWN)), 16, 20);
  }

  /** At 19 the exchange would execute the modified order, but it is finished: the reply keeps the stamp 0. */
  lemma ModifyIsStale(c: Config, sv: StateValues)
    ensures Handle(c, RestingMarket(c, sv), MODIFY, 19) == Ack(Exch(ASK_AT_7, sv, map[]), LATE)
  {
    assert RestingMarket(c, sv).orders - {1} == map[];
  }

  /** So it is due at 1, */
  lemma StaleRoundTrip(c: Config, pick: (Venued, EventKind) -> seq<OrderId>, sv: StateValues)
    returns (d: Asset<Local, Venued>)
    ensures NoRows(d) && d.buses == Buses([], [])
    ensures Elapse(Replaying(c, pick),
                   [Asset.Asset(Holding(sv, Some(KNOWN)), Venued(RestingMarket(c, sv), 4), [], [],
                                Buses([Msg(MODIFY, 19)], []))], 18, 20)
         == Elapse(Replaying(c, pick), [d], 1, 20)
  {
    var a := Asset.Asset(Holding(sv, Some(KNOWN)), Venued(RestingMarket(c, sv), 4), [], [],
                         Buses([Msg(MODIFY, 19)], []));
    var l := Receive(c.acct, a.local, LATE);
    d := Asset.Asset(l, Market(sv, 4), [], [], Buses([], []));
    ModifyIsStale(c, sv);
    assert a.buses.toExch[1..] == [];
    RoundTrip(c, pick, a, Exch(ASK_AT_7, sv, map[]), LATE, l, 18, 20);
  }

  /** and the clock follows. */
  lemma ClockGoesBack(c: Config, pick: (Venued, EventKind) -> seq<OrderId>, sv: StateValues)
    ensures Perform(Replaying(c, pick), Engine([State(sv, Some(MODIFY), 2, [Msg(SECOND, 17), Msg(MODIFY, 19)])], 16),
                    ElapseFor(4)).now == 1
  {
    SecondRests(c, pick, sv);
    var d := StaleRoundTrip(c, pick, sv);
    ElapsesTo(Replaying(c, pick), State(sv, Some(MODIFY), 2, [Msg(SECOND, 17), Msg(MODIFY, 19)]), d, 16, 4, 1);
  }

  lemma {:induction false} OneMoreCall(
    v: Venue<Local, Venued>, b: Engine<Local, Venued>, calls: seq<Call>, n: nat, mid: Engine<Local, Venued>)
    requires n < |calls| && PerformAll(v, b, calls[..n]) == mid
    ensures PerformAll(v, b, calls[..n + 1]) == Perform(v, mid, calls[n])
    decreases n
  {
    if n == 0 {
      assert calls[..1][1..] == [];
    } else {
      assert calls[..n + 1][1..] == calls[1..][..n] && calls[..n][1..] == calls[1..][..n - 1];
      OneMoreCall(v, Perform(v, b, calls[0]), calls[1..], n - 1, mid);
    }
  }

  lemma FirstCall(c: Config, pick: (Venued, EventKind) -> seq<OrderId>, sv: StateValues)
    ensures PerformAll(Replaying(c, pick), Engine([State(sv, None, 0, [])], 10), CALLS[..1])
         == Engine([State(sv, Some(FIRST), 0, [Msg(FIRST, 13)])], 10)
  {
    FirstIsSubmitted(c, pick, sv);
    assert CALLS[..1][0] == CALLS[0] && CALLS[..1][1..] == [];
  }

  lemma FirstTwoCalls(c: Config, pick: (Venued, EventKind) -> seq<OrderId>, sv: StateValues)
    ensures PerformAll(Replaying(c, pick), Engine([State(sv, None, 0, [])], 10), CALLS[..2])
         == Engine([State(sv, Some(ENDED), 1, [])], 14)
  {
    FirstCall(c, pick, sv);
    OneMoreCall(Replaying(c, pick), Engine([State(sv, None, 0, [])], 10), CALLS, 1,
                Engine([State(sv, Some(FIRST), 0, [Msg(FIRST, 13)])], 10));
    FirstExpires(c, pick, sv);
  }

  lemma FirstFourCalls(c: Config, pick: (Venued, EventKind) -> seq<OrderId>, sv: StateValues)
    ensures PerformAll(Replaying(c, pick), Engine([State(sv, None, 0, [])], 10), CALLS[..4])
         == Engine([State(sv, None, 1, [Msg(CANCEL, 15)])], 14)
  {
    var v, b := Replaying(c, pick), Engine([State(sv, None, 0, [])], 10);
    FirstTwoCalls(c, pick, sv);
    FinishedIsCanceled(c, pick, sv);
    OneMoreCall(v, b, CALLS, 2, Engine([State(sv, Some(ENDED), 1, [])], 14));
    FinishedIsForgotten(c, pick, sv);
    OneMoreCall(v, b, CALLS, 3, Engine([State(sv, Some(CANCEL), 1, [Msg(CANCEL, 15)])], 14));
  }

  lemma FirstSixCalls(c: Config, pick: (Venued, EventKind) -> seq<OrderId>, sv: StateValues)
    ensures PerformAll(Replaying(c, pick), Engine([State(sv, None, 0, [])], 10), CALLS[..6])
         == Engine([State(sv, Some(MISTAKEN), 2, [Msg(SECOND, 17)])], 16)
  {
    var v, b := Replaying(c, pick), Engine([State(sv, None, 0, [])], 10);
    FirstFourCalls(c, pick, sv);
    IdIsReused(c, pick, sv);
    OneMoreCall(v, b, CALLS, 4, Engine([State(sv, None, 1, [Msg(CANCEL, 15)])], 14));
    SecondIsMistaken(c, pick, sv);
    OneMoreCall(v, b, CALLS, 5, Engine([State(sv, Some(SECOND), 1, [Msg(CANCEL, 15), Msg(SECOND, 17)])], 14));
  }

  lemma StartIsFresh(sv: StateValues)
    ensures Fresh(Engine([Start(sv)], 10))
  {
  }

  lemma FirstSevenCalls(c: Config, pick: (Venued, EventKind) -> seq<OrderId>, sv: StateValues)
    ensures PerformAll(Replaying(c, pick), Engine([State(sv, None, 0, [])], 10), CALLS[..7])
         == Engine([State(sv, Some(MODIFY), 2, [Msg(SECOND, 17), Msg(MODIFY, 19)])], 16)
  {
    FirstSixCalls(c, pick, sv);
    MistakenIsModified(c, pick, sv);
    OneMoreCall(Replaying(c, pick), Engine([State(sv, None, 0, [])], 10), CALLS, 6,
                Engine([State(sv, Some(MISTAKEN), 2, [Msg(SECOND, 17)])], 16));
  }

  lemma AllCalls(c: Config, pick: (Venued, EventKind) -> seq<OrderId>, sv: StateValues)
    ensures PerformAll(Replaying(c, pick), Engine([State(sv, None, 0, [])], 10), CALLS).now == 1
  {
    FirstSevenCalls(c, pick, sv);
    OneMoreCall(Replaying(c, pick), Engine([State(sv, None, 0, [])], 10), CALLS, 7,
                Engine([State(sv, Some(MODIFY), 2, [Msg(SECOND, 17), Msg(MODIFY, 19)])], 16));
    assert CALLS[..8] == CALLS;
    ClockGoesBack(c, pick, sv);
  }

  /**
    * Reusing one id is enough to turn the clock back from 16 to 1, on an engine as it is constructed, with positive
    * latencies, nothing executed and every call accepted: so the rule of `Replay.ClockNeverGoesBack` cannot be
    * dropped.
    */
  lemma ReuseTurnsClockBack(c: Config, pick: (Venued, EventKind) -> seq<OrderId>, sv: StateValues)
    ensures var b := Engine([Start(sv)], 10);
            && Fresh(b) && Scheduler.Next(b.assets) == Some(Intent(b.now, 0, EXCH_DATA))
            && PerformAll(Replaying(c, pick), b, [ElapseFor(0)] + CALLS[..7]).now == 16
            && PerformAll(Replaying(c, pick), b, [ElapseFor(0)] + CALLS).now == 1
  {
    StartIsFresh(sv);
    StartIsNext(sv);
    RowIsFed(c, pick, sv);
    assert ([ElapseFor(0)] + CALLS[..7])[1..] == CALLS[..7];
    assert ([ElapseFor(0)] + CALLS)[1..] == CALLS;
    FirstSevenCalls(c, pick, sv);
    AllCalls(c, pick, sv);
  }
}
