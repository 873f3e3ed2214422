/** One asset as a two-party protocol: local side, exchange, and the two buses between them. */
module Protocol {
  import opened Core
  import opened HashMapDepth
  import opened Exchange
  import opened ExchangeLaws
  import opened OrderBus
  import opened LocalSide

  datatype Setup = Setup(c: Config, lm: Latency)

  datatype Sys = Sys(local: Local, exch: Exch, buses: Buses)

  /** Every way the state of an asset can change, in any interleaving. */
  datatype Move =
    | Command(cmd: Command, now: int)
    | ClearInactiveOrders
    | LocalRow(k: EventKind)
    | LocalReceive
    | ExchRow(k: EventKind, ts: int, ids: seq<OrderId>)
    | ExchReceive(ts: int)

  function Next(s: Setup, y: Sys, m: Move): Sys
  {
    match m
    case Command(cmd, now) =>
      (match Issue(y.local, cmd, now)
       case Refused => y
       case Sent(l, request, rejected) => y.(local := l, buses := Send(s.lm, y.buses, request, rejected)))
    case ClearInactiveOrders => y.(local := ClearInactive(y.local))
    case LocalRow(k) => y.(local := y.local.(book := Apply(y.local.book, k)))
    case LocalReceive =>
      if y.buses.toLocal == [] then y
      else y.(local := Receive(s.c.acct, y.local, y.buses.toLocal[0].order),
              buses := y.buses.(toLocal := y.buses.toLocal[1..]))
    case ExchRow(k, ts, ids) =>
      var (x, reports) := Feed(s.c, y.exch, k, ts, ids);
      y.(exch := x, buses := y.buses.(toLocal := RespondAll(s.lm, y.buses.toLocal, reports)))
    case ExchReceive(ts) =>
      if y.buses.toExch == [] then y
      else
        var a := Handle(s.c, y.exch, y.buses.toExch[0].order, ts);
        y.(exch := a.x, buses := Buses(y.buses.toExch[1..], Respond(s.lm, y.buses.toLocal, a.reply)))
  }

  // ---------------------------------------------------------------- the view of one order id

  /** Local record, resting order, requests under way and replies under way of one id. */
  datatype IdView = IdView(l: Option<Order>, x: Option<Order>, r: seq<Order>, p: seq<Order>)

  function Mine(os: seq<Order>, id: OrderId): seq<Order> {
    if os == [] then []
    else (if os[0].id == id then [os[0]] else []) + Mine(os[1..], id)
  }

  function RestingOrder(x: Exch, id: OrderId): Option<Order> {
    if id in x.orders then Some(x.orders[id].o) else None
  }

  function View(y: Sys, id: OrderId): IdView {
    IdView(Find(y.local.orders, id), RestingOrder(y.exch, id),
           Mine(Orders(y.buses.toExch), id), Mine(Orders(y.buses.toLocal), id))
  }

  /** Apply replies in FIFO order. */
  function Fold(l: Option<Order>, p: seq<Order>): Option<Order>
    decreases |p|
  {
    if p == [] then l else Fold(Take(l, p[0]), p[1..])
  }

  predicate SameTerms(a: Order, b: Order) {
    a.id == b.id && a.side == b.side && a.tick == b.tick && a.qty == b.qty && a.leaves == b.leaves
  }

  predicate Live(o: Order) {
    o.status == New && (o.req == NoStatus || o.req == Replaced)
  }

  /** A cancel or modify of an order that was live when it was sent. */
  predicate Late(o: Order) {
    o.status == New && (o.req == Canceled || o.req == Replaced)
  }

  predicate AllRejected(p: seq<Order>) {
    forall i :: 0 <= i < |p| ==> p[i].req == Rejected
  }

  predicate Done(l: Option<Order>) {
    l.Some? ==> l.value.Terminal() && l.value.req == NoStatus
  }

  predicate Closing(o: Order) {
    o.Terminal() && o.req == NoStatus
  }

  /** Known locally, and not finished. */
  predicate Waiting(l: Option<Order>) {
    l.Some? && (l.value.status == NoStatus || l.value.status == New)
  }

  predicate Unused(v: IdView) {
    v == IdView(None, None, [], [])
  }

  /** A submitted order on its way to the exchange. */
  predicate Asked(v: IdView) {
    v.x.None? && v.p == [] && v.l.Some? && v.r == [v.l.value] && v.l.value.req == New && v.l.value.status == NoStatus
  }

  /** A resting order: agreed, about to be agreed by one reply, or asked to change. */
  predicate Open(v: IdView) {
    && v.x.Some? && Waiting(v.l) && v.x.value.status == New && v.x.value.req == NoStatus
    && (|| (v.r == [] && v.p == [] && Live(v.l.value) && SameTerms(v.l.value, v.x.value))
        || (v.r == [] && |v.p| == 1 && Live(v.p[0]) && SameTerms(v.p[0], v.x.value) && v.l.value.req != NoStatus)
        || (v.r == [v.l.value] && v.p == [] && Late(v.l.value)
            && v.l.value.side == v.x.value.side && v.l.value.leaves == v.x.value.leaves))
  }

  /** Nothing rests: the closing reply is at most one acknowledgement away, and only rejections follow it. */
  predicate Closed(v: IdView) {
    && v.x.None?
    && (v.r == [] || (|v.r| == 1 && Late(v.r[0]) && !(v.l.Some? && v.l.value.Cancellable())))
    && (|| (Done(v.l) && AllRejected(v.p))
        || (Waiting(v.l) && v.p != [] && Closing(v.p[0]) && AllRejected(v.p[1..]))
        || (Waiting(v.l) && |v.p| == 2 && v.r == [] && Live(v.p[0]) && Closing(v.p[1]) && v.l.value.req != NoStatus))
  }

  predicate IdOk(id: OrderId, v: IdView) {
    && (v.x.Some? ==> v.x.value.id == id)
    && (v.l.Some? ==> v.l.value.id == id)
    && (forall o :: o in v.r + v.p ==> o.id == id)
    && (Unused(v) || Asked(v) || Open(v) || Closed(v))
  }

  // ---------------------------------------------------------------- what the view promises

  /** With no request under way, the replies under way bring the local order to the exchange's. */
  ghost predicate Agrees(v: IdView) {
    var f := Fold(v.l, v.p);
    && (v.x.Some? <==> f.Some? && f.value.Active())
    && (v.x.Some? ==> SameTerms(f.value, v.x.value))
  }

  lemma {:induction false} RejectionsChangeNothing(l: Option<Order>, p: seq<Order>)
    requires Done(l) && AllRejected(p)
    ensures Fold(l, p) == l
    decreases |p|
  {
    if p != [] {
      RejectionsChangeNothing(l, p[1..]);
    }
  }

  lemma ViewAgrees(id: OrderId, v: IdView)
    requires IdOk(id, v)
    ensures |v.r| <= 1
    ensures v.r == [] ==> Agrees(v)
    ensures v.r == [] && v.p == [] && v.l.Some? ==>
              v.l.value.req == NoStatus || (v.x.Some? && v.l.value.req == Replaced)
  {
    if Open(v) && v.p != [] {
      assert Fold(v.l, v.p) == Fold(Take(v.l, v.p[0]), v.p[1..]) == Take(v.l, v.p[0]);
    }
    if Closed(v) {
      if Done(v.l) && AllRejected(v.p) {
        RejectionsChangeNothing(v.l, v.p);
      } else if Closing(v.p[0]) {
        RejectionsChangeNothing(Take(v.l, v.p[0]), v.p[1..]);
      } else {
        var l1 := Take(v.l, v.p[0]);
        assert Fold(l1, v.p[1..]) == Fold(Take(l1, v.p[1]), v.p[1..][1..]);
        RejectionsChangeNothing(Take(l1, v.p[1]), []);
      }
    }
  }

  // ---------------------------------------------------------------- steps of one id

  /** The local side sends a new order under an unused id. */
  lemma SubmitKeepsIdOk(id: OrderId, v: IdView, o: Order)
    requires IdOk(id, v) && Unused(v) && o.id == id && o.req == New && o.status == NoStatus
    ensures IdOk(id, v.(l := Some(o), r := v.r + [o]))
  {
  }

  /** The local side asks to cancel or modify a cancellable order. */
  lemma RequestKeepsIdOk(id: OrderId, v: IdView, o: Order)
    requires IdOk(id, v) && v.l.Some? && v.l.value.Cancellable()
    requires Late(o) && o.id == id && o.side == v.l.value.side && o.leaves == v.l.value.leaves
    ensures IdOk(id, v.(l := Some(o), r := v.r + [o]))
  {
  }

  lemma TakeKeepsIdOk(id: OrderId, v: IdView)
    requires IdOk(id, v) && v.p != []
    ensures IdOk(id, v.(l := Take(v.l, v.p[0]), p := v.p[1..]))
  {
  }

  lemma ClearKeepsIdOk(id: OrderId, v: IdView)
    requires IdOk(id, v)
    ensures IdOk(id, v.(l := if v.l.Some? && v.l.value.Terminal() then None else v.l))
  {
  }

  /** A resting order is executed by the feed. */
  lemma FillKeepsIdOk(id: OrderId, v: IdView, report: Order)
    requires IdOk(id, v) && v.x.Some? && report.id == id && report.status == Filled && report.req == v.x.value.req
    ensures IdOk(id, v.(x := None, p := v.p + [report]))
  {
  }

  /** The state of an id after the exchange answers `request`. */
  function Answered(v: IdView, id: OrderId, a: Ack): IdView
    requires v.r != []
  {
    v.(x := RestingOrder(a.x, id), r := v.r[1..], p := v.p + [a.reply])
  }

  lemma AskedAnswered(c: Config, x: Exch, id: OrderId, v: IdView, ts: int)
    requires IdOk(id, v) && Asked(v) && v.x == RestingOrder(x, id)
    ensures IdOk(id, Answered(v, id, AckNew(c, x, v.r[0], ts)))
  {
    var w := Answered(v, id, AckNew(c, x, v.r[0], ts));
    assert if id in AckNew(c, x, v.r[0], ts).x.orders then Open(w) else Closed(w);
  }

  lemma OpenAnswered(c: Config, x: Exch, id: OrderId, v: IdView, ts: int)
    requires IdOk(id, v) && Open(v) && v.r != [] && v.x == RestingOrder(x, id)
    ensures v.r[0].req == Canceled ==> IdOk(id, Answered(v, id, AckCancel(x, v.r[0], ts)))
    ensures v.r[0].req == Replaced ==> IdOk(id, Answered(v, id, AckModify(c, x, v.r[0], ts)))
  {
    if v.r[0].req == Replaced {
      var a := AckModify(c, x, v.r[0], ts);
      var w := Answered(v, id, a);
      assert if id in a.x.orders then Open(w) else Closed(w);
    }
  }

  lemma ClosedAnswered(c: Config, x: Exch, id: OrderId, v: IdView, ts: int)
    requires IdOk(id, v) && Closed(v) && v.r != [] && v.x == RestingOrder(x, id)
    ensures IdOk(id, Answered(v, id, Reject(x, v.r[0], ts)))
  {
  }

  /** The exchange handles the request under way. */
  lemma HandleKeepsIdOk(s: Setup, x: Exch, id: OrderId, v: IdView, ts: int)
    requires IdOk(id, v) && v.r != [] && v.x == RestingOrder(x, id)
    ensures IdOk(id, Answered(v, id, Handle(s.c, x, v.r[0], ts)))
  {
    assert v.r[0] in v.r + v.p;
    if Asked(v) {
      AskedAnswered(s.c, x, id, v, ts);
    } else if Open(v) {
      OpenAnswered(s.c, x, id, v, ts);
    } else {
      ClosedAnswered(s.c, x, id, v, ts);
    }
  }

  // ---------------------------------------------------------------- projections of a system step

  lemma {:induction false} MineConcat(a: seq<Order>, b: seq<Order>, id: OrderId)
    ensures Mine(a + b, id) == Mine(a, id) + Mine(b, id)
  {
    if a == [] {
      assert a + b == b;
    } else {
      assert (a + b)[1..] == a[1..] + b;
      MineConcat(a[1..], b, id);
    }
  }

  lemma MineAppend(bus: seq<Msg>, o: Order, ts: int, id: OrderId)
    ensures Mine(Orders(Append(bus, o, ts)), id) == Mine(Orders(bus), id) + if o.id == id then [o] else []
  {
    assert Orders(Append(bus, o, ts)) == Orders(bus) + [o];
    MineConcat(Orders(bus), [o], id);
  }

  lemma MinePop(bus: seq<Msg>, id: OrderId)
    requires bus != []
    ensures Mine(Orders(bus), id) == (if bus[0].order.id == id then [bus[0].order] else []) + Mine(Orders(bus[1..]), id)
  {
    assert Orders(bus)[1..] == Orders(bus[1..]);
  }

  /** A touched order reports only under its own id. */
  lemma ReportIsOwn(c: Config, r: Resting, why: Trigger, ts: int, id: OrderId)
    ensures var reports := Touch(c, r, why, ts).reports;
            Mine(reports, id) == if r.o.id == id then reports else []
  {
  }

  /** Under one id, the reports of one more visited order come first. */
  lemma MineOneMore(
    c: Config, orders: map<OrderId, Resting>, ids: seq<OrderId>, why: Trigger, ts: int, id: OrderId)
    requires ids != [] && forall i :: i in orders ==> orders[i].o.id == i
    ensures Mine(Reports(c, orders, ids, why, ts), id) ==
            (if ids[0] == id && id in orders then Touch(c, orders[id], why, ts).reports else [])
            + Mine(Reports(c, orders, ids[1..], why, ts), id)
  {
    var head := if ids[0] in orders then Touch(c, orders[ids[0]], why, ts).reports else [];
    if ids[0] in orders {
      ReportIsOwn(c, orders[ids[0]], why, ts, id);
    }
    MineConcat(head, Reports(c, orders, ids[1..], why, ts), id);
  }

  lemma {:induction false} MineReports(
    c: Config, orders: map<OrderId, Resting>, ids: seq<OrderId>, why: Trigger, ts: int, id: OrderId)
    requires forall i :: i in orders ==> orders[i].o.id == i
    requires forall i, j :: 0 <= i < j < |ids| ==> ids[i] != ids[j]
    ensures Mine(Reports(c, orders, ids, why, ts), id) ==
            if id in ids && id in orders then Touch(c, orders[id], why, ts).reports else []
  {
    if ids != [] {
      var rest := ids[1..];
      MineOneMore(c, orders, ids, why, ts, id);
      MineReports(c, orders, rest, why, ts, id);
      assert ids == [ids[0]] + rest;
    }
  }

  // ---------------------------------------------------------------- the system invariant

  /** Every id is in a permitted state, and ids not yet submitted appear nowhere. */
  ghost predicate AllOk(y: Sys, used: set<OrderId>) {
    && forall id: OrderId :: IdOk(id, View(y, id)) && (id !in used ==> Unused(View(y, id)))
  }

  /**
    * The strategy never reuses an id and asks only to change cancellable orders; a scan visits each
    * order once.
    */
  ghost predicate Disciplined(y: Sys, used: set<OrderId>, m: Move)
  {
    match m
    case Command(cmd, now) =>
      if cmd.Submit? then cmd.id !in used
      else cmd.id in y.local.orders ==> y.local.orders[cmd.id].Cancellable()
    case ExchRow(k, ts, ids) => Enumerates(ids, VisitedBy(y.exch, k))
    case _ => true
  }

  function Used(used: set<OrderId>, m: Move): set<OrderId> {
    if m.Command? && m.cmd.Submit? then used + {m.cmd.id} else used
  }

  /** No partial fills, and the latency model accepts every request. */
  ghost predicate Plain(s: Setup) {
    !s.c.partial && forall ts, o :: s.lm.entry(ts, o) >= 0
  }

  lemma SweepOnOneId(c: Config, x: Exch, ids: seq<OrderId>, why: Trigger, ts: int, id: OrderId)
    requires forall i, j :: 0 <= i < j < |ids| ==> ids[i] != ids[j]
    requires forall i :: i in x.orders ==> x.orders[i].o.id == i
    ensures var (z, out) := Sweep(c, x, ids, why, ts);
            if id in ids && id in x.orders then
              var t := Touch(c, x.orders[id], why, ts);
              RestingOrder(z, id) == (if t.gone then None else Some(t.r.o)) && Mine(out, id) == t.reports
            else RestingOrder(z, id) == RestingOrder(x, id) && Mine(out, id) == []
  {
    MineReports(c, x.orders, ids, why, ts, id);
  }

  /** What a feed row may do to one resting order: nothing, execute part of it, or execute what is left. */
  predicate Fed(was: Option<Order>, now: Option<Order>, out: seq<Order>) {
    || (now == was && out == [])
    || (was.Some? && |out| <= 1
        && (forall o :: o in out ==> o.id == was.value.id && o.ReportsFill() && o.req == was.value.req
                                     && o.side == was.value.side)
        && (now.None? ==> |out| == 1 && out[0].status == Filled)
        && (now.Some? ==> out == [now.value] && now.value.status == PartiallyFilled && now.value.leaves > 0))
  }

  lemma TouchFeeds(c: Config, r: Resting, why: Trigger, ts: int)
    requires !r.o.Terminal()
    ensures var t := Touch(c, r, why, ts);
            && Fed(Some(r.o), if t.gone then None else Some(t.r.o), t.reports)
            && (!c.partial ==> t.reports != [] ==> t.gone)
  {
  }

  /**
    * What a feed row means to one id; without partial fills a resting order is reported filled and gone, or untouched.
    */
  lemma FeedOnOneId(c: Config, x: Exch, k: EventKind, ts: int, ids: seq<OrderId>, id: OrderId)
    requires forall i, j :: 0 <= i < j < |ids| ==> ids[i] != ids[j]
    requires forall i :: i in x.orders ==> x.orders[i].o.id == i && !x.orders[i].o.Terminal()
    ensures var (z, out) := Feed(c, x, k, ts, ids);
            && Fed(RestingOrder(x, id), RestingOrder(z, id), Mine(out, id))
            && (!c.partial ==> Mine(out, id) != [] ==> RestingOrder(z, id).None?)
  {
    AbsorbKeepsOrders(c, x, k);
    var m := Absorb(c, x, k);
    match ScanOf(x, k)
    case NoScan =>
    case Scan(_, _, _, why) =>
      SweepOnOneId(c, m, ids, why, ts, id);
      if id in m.orders {
        TouchFeeds(c, m.orders[id], why, ts);
      }
  }

  lemma ExchRowView(s: Setup, y: Sys, m: Move, id: OrderId)
    requires m.ExchRow?
    ensures var (x, reports) := Feed(s.c, y.exch, m.k, m.ts, m.ids);
            View(Next(s, y, m), id) == View(y, id).(x := RestingOrder(x, id), p := View(y, id).p + Mine(reports, id))
  {
    var (x, reports) := Feed(s.c, y.exch, m.k, m.ts, m.ids);
    RespondAllOrders(s.lm, y.buses.toLocal, reports);
    MineConcat(Orders(y.buses.toLocal), reports, id);
  }

  lemma RestingAsFiled(y: Sys, used: set<OrderId>)
    requires AllOk(y, used)
    ensures forall i :: i in y.exch.orders ==> y.exch.orders[i].o.id == i && y.exch.orders[i].o.status == New
  {
    forall i | i in y.exch.orders ensures y.exch.orders[i].o.id == i && y.exch.orders[i].o.status == New {
      assert IdOk(i, View(y, i));
    }
  }

  lemma RowKeepsIdOk(id: OrderId, v: IdView, x: Option<Order>, out: seq<Order>)
    requires IdOk(id, v) && Fed(v.x, x, out) && (out != [] ==> x.None?)
    ensures IdOk(id, v.(x := x, p := v.p + out))
  {
    if out == [] {
      assert v.p + out == v.p;
    } else {
      assert out == [out[0]];
      FillKeepsIdOk(id, v, out[0]);
    }
  }

  lemma ExchRowKeepsOk(s: Setup, y: Sys, used: set<OrderId>, m: Move, id: OrderId)
    requires Plain(s) && AllOk(y, used) && m.ExchRow? && Disciplined(y, used, m)
    ensures var v := View(Next(s, y, m), id); IdOk(id, v) && (id !in used ==> Unused(v))
  {
    var (x, reports) := Feed(s.c, y.exch, m.k, m.ts, m.ids);
    assert IdOk(id, View(y, id));
    RestingAsFiled(y, used);
    ExchRowView(s, y, m, id);
    FeedOnOneId(s.c, y.exch, m.k, m.ts, m.ids, id);
    RowKeepsIdOk(id, View(y, id), RestingOrder(x, id), Mine(reports, id));
  }

  lemma SendView(lm: Latency, b: Buses, request: Order, rejected: Order, id: OrderId)
    ensures var z, refused := Send(lm, b, request, rejected), lm.entry(request.localTs, request) < 0;
            && Mine(Orders(z.toExch), id)
                 == Mine(Orders(b.toExch), id) + (if !refused && request.id == id then [request] else [])
            && Mine(Orders(z.toLocal), id)
                 == Mine(Orders(b.toLocal), id) + (if refused && rejected.id == id then [rejected] else [])
  {
    var lat := lm.entry(request.localTs, request);
    if lat < 0 {
      MineAppend(b.toLocal, rejected, request.localTs - lat, id);
    } else {
      MineAppend(b.toExch, request, request.localTs + lat, id);
    }
  }

  lemma CommandView(s: Setup, y: Sys, cmd: Command, now: int, id: OrderId)
    requires cmd.id in y.local.orders ==> y.local.orders[cmd.id].id == cmd.id
    ensures var v, w, i := View(y, id), View(Next(s, y, Command(cmd, now)), id), Issue(y.local, cmd, now);
            if i.Refused? || id != cmd.id then w == v
            else if s.lm.entry(i.request.localTs, i.request) < 0
            then w == v.(l := Some(i.request), p := v.p + [i.rejected])
            else w == v.(l := Some(i.request), r := v.r + [i.request])
  {
    var i := Issue(y.local, cmd, now);
    if i.Sent? {
      assert i.request.id == i.rejected.id == cmd.id;
      assert Find(i.l.orders, id) == if id == cmd.id then Some(i.request) else Find(y.local.orders, id);
      SendView(s.lm, y.buses, i.request, i.rejected, id);
    }
  }

  lemma CommandKeepsOk(s: Setup, y: Sys, used: set<OrderId>, m: Move, id: OrderId)
    requires Plain(s) && AllOk(y, used) && m.Command? && Disciplined(y, used, m)
    ensures var v := View(Next(s, y, m), id); IdOk(id, v) && (id !in Used(used, m) ==> Unused(v))
  {
    var v := View(y, id);
    assert IdOk(id, v);
    assert IdOk(m.cmd.id, View(y, m.cmd.id));
    CommandView(s, y, m.cmd, m.now, id);
    var issued := Issue(y.local, m.cmd, m.now);
    if issued.Sent? && id == m.cmd.id {
      if m.cmd.Submit? {
        SubmitKeepsIdOk(id, v, issued.request);
      } else {
        RequestKeepsIdOk(id, v, issued.request);
      }
    }
  }

  lemma LocalReceiveView(s: Setup, y: Sys, id: OrderId)
    requires y.buses.toLocal != []
    ensures var v, w := View(y, id), View(Next(s, y, LocalReceive), id);
            if y.buses.toLocal[0].order.id == id
            then v.p != [] && w == v.(l := Take(v.l, v.p[0]), p := v.p[1..])
            else w == v
  {
    MinePop(y.buses.toLocal, id);
  }

  lemma LocalReceiveKeepsOk(s: Setup, y: Sys, used: set<OrderId>, id: OrderId)
    requires AllOk(y, used)
    ensures var v := View(Next(s, y, LocalReceive), id); IdOk(id, v) && (id !in used ==> Unused(v))
  {
    var v := View(y, id);
    assert IdOk(id, v);
    if y.buses.toLocal != [] {
      LocalReceiveView(s, y, id);
      if y.buses.toLocal[0].order.id == id {
        TakeKeepsIdOk(id, v);
      }
    }
  }

  /** A request is answered once, for its own id, and touches no other resting order. */
  lemma HandleOnOneId(c: Config, x: Exch, request: Order, ts: int, id: OrderId)
    requires request.id in x.orders ==> x.orders[request.id].o.id == request.id
    ensures var a := Handle(c, x, request, ts);
            a.reply.id == request.id && (id != request.id ==> RestingOrder(a.x, id) == RestingOrder(x, id))
            && a.x.book == x.book
  {
  }

  lemma ExchReceiveView(s: Setup, y: Sys, ts: int, id: OrderId)
    requires y.buses.toExch != []
    requires var o := y.buses.toExch[0].order; o.id in y.exch.orders ==> y.exch.orders[o.id].o.id == o.id
    ensures var v, w := View(y, id), View(Next(s, y, ExchReceive(ts)), id);
            var request := y.buses.toExch[0].order;
            var a := Handle(s.c, y.exch, request, ts);
            if request.id == id then
              v.r != [] && v.r[0] == request
              && w == Answered(v, id, a)
            else w == v
  {
    var request := y.buses.toExch[0].order;
    var a := Handle(s.c, y.exch, request, ts);
    HandleOnOneId(s.c, y.exch, request, ts, id);
    AnsweredView(s.lm, y, a, id);
  }

  /** The view of one id after the oldest request is answered with `a`. */
  lemma AnsweredView(lm: Latency, y: Sys, a: Ack, id: OrderId)
    requires y.buses.toExch != []
    ensures var request, v := y.buses.toExch[0].order, View(y, id);
            var z := y.(exch := a.x, buses := Buses(y.buses.toExch[1..], Respond(lm, y.buses.toLocal, a.reply)));
            && (request.id == id ==> v.r != [] && v.r[0] == request)
            && View(z, id) == IdView(v.l, RestingOrder(a.x, id), if request.id == id then v.r[1..] else v.r,
                                     v.p + if a.reply.id == id then [a.reply] else [])
  {
    MinePop(y.buses.toExch, id);
    MineAppend(y.buses.toLocal, a.reply, a.reply.exchTs + lm.response(a.reply.exchTs, a.reply), id);
  }

  lemma ExchReceiveKeepsOk(s: Setup, y: Sys, used: set<OrderId>, ts: int, id: OrderId)
    requires Plain(s) && AllOk(y, used)
    ensures var v := View(Next(s, y, ExchReceive(ts)), id); IdOk(id, v) && (id !in used ==> Unused(v))
  {
    var v := View(y, id);
    assert IdOk(id, v);
    if y.buses.toExch != [] {
      var request := y.buses.toExch[0].order;
      RestingAsFiled(y, used);
      ExchReceiveView(s, y, ts, id);
      if request.id == id {
        HandleKeepsIdOk(s, y.exch, id, v, ts);
      }
    }
  }

  lemma StepKeepsOk(s: Setup, y: Sys, used: set<OrderId>, m: Move)
    requires Plain(s) && AllOk(y, used) && Disciplined(y, used, m)
    ensures AllOk(Next(s, y, m), Used(used, m))
  {
    var z := Next(s, y, m);
    forall id: OrderId ensures IdOk(id, View(z, id)) && (id !in Used(used, m) ==> Unused(View(z, id))) {
      assert IdOk(id, View(y, id));
      match m
      case Command(_, _) => CommandKeepsOk(s, y, used, m, id);
      case ExchRow(_, _, _) => ExchRowKeepsOk(s, y, used, m, id);
      case LocalReceive => LocalReceiveKeepsOk(s, y, used, id);
      case ExchReceive(ts) => ExchReceiveKeepsOk(s, y, used, ts, id);
      case ClearInactiveOrders => ClearKeepsIdOk(id, View(y, id));
      case LocalRow(_) =>
    }
  }

  // ---------------------------------------------------------------- whole runs

  predicate Initial(y: Sys) {
    y.local.orders == map[] && y.exch.orders == map[]
    && y.buses == Buses([], [])
  }

  function RunMoves(s: Setup, y: Sys, ms: seq<Move>): Sys
    decreases |ms|
  {
    if ms == [] then y else RunMoves(s, Next(s, y, ms[0]), ms[1..])
  }

  ghost predicate DisciplinedRun(s: Setup, y: Sys, used: set<OrderId>, ms: seq<Move>)
    decreases |ms|
  {
    ms == [] || (Disciplined(y, used, ms[0]) && DisciplinedRun(s, Next(s, y, ms[0]), Used(used, ms[0]), ms[1..]))
  }

  function UsedBy(used: set<OrderId>, ms: seq<Move>): set<OrderId>
    decreases |ms|
  {
    if ms == [] then used else UsedBy(Used(used, ms[0]), ms[1..])
  }

  lemma {:induction false} RunKeepsOk(s: Setup, y: Sys, used: set<OrderId>, ms: seq<Move>)
    requires Plain(s) && AllOk(y, used) && DisciplinedRun(s, y, used, ms)
    ensures AllOk(RunMoves(s, y, ms), UsedBy(used, ms))
    decreases |ms|
  {
    if ms != [] {
      StepKeepsOk(s, y, used, ms[0]);
      RunKeepsOk(s, Next(s, y, ms[0]), Used(used, ms[0]), ms[1..]);
    }
  }

  /**
    * View agreement. In every state a disciplined run reaches, an id has at most one request under way;
    * when it has none, its replies under way bring the local order to exactly what the exchange rests;
    * and when both buses are empty nothing local is still pending on a submission or a cancel.
    */
  lemma ViewAgreement(s: Setup, y: Sys, ms: seq<Move>, id: OrderId)
    requires Plain(s) && Initial(y) && DisciplinedRun(s, y, {}, ms)
    ensures var z := RunMoves(s, y, ms);
            var v := View(z, id);
            && |v.r| <= 1
            && (v.r == [] ==> Agrees(v))
            && (z.buses == Buses([], []) && id in z.local.orders ==>
                  z.local.orders[id].req != New && z.local.orders[id].req != Canceled)
  {
    assert AllOk(y, {});
    RunKeepsOk(s, y, {}, ms);
    var z := RunMoves(s, y, ms);
    assert IdOk(id, View(z, id));
    ViewAgrees(id, View(z, id));
  }

  // ---------------------------------------------------------------- where the discipline is needed

  /** The reply to a modify of a live order frees it for further requests exactly when the modify was a resubmission. */
  lemma ModifyReplyFreesIff(s: Setup, x: Exch, request: Order, ts: int)
    requires request.req == Replaced && request.id in x.orders
    ensures var reply := Handle(s.c, x, request, ts).reply;
            Take(Some(request), reply).value.req == NoStatus <==> Resubmits(x.orders[request.id].o, request)
  {
  }

  /** A modify that a negative entry latency rejects leaves the local terms restored only if it changed none. */
  lemma RejectedModifyRestoresIff(l: Local, id: OrderId, tick: int, qty: int, now: int)
    requires id in l.orders && l.orders[id].req == NoStatus
    ensures var i := Issue(l, Modify(id, tick, qty), now);
            && i.Sent? && i.rejected.req == Rejected
            && var after := Take(Find(i.l.orders, id), i.rejected);
            && after.Some?
            && (SameTerms(after.value, l.orders[id]) <==> tick == l.orders[id].tick && qty == l.orders[id].qty)
  {
  }
}
