/** What never reusing an order id guarantees, whatever else the strategy does. */
module FreshIds {
  import opened Core
  import opened Exchange
  import opened LocalSide
  import opened Protocol

  // ---------------------------------------------------------------- one id

  /** The exchange rests the order: nothing about it, anywhere, is finished. */
  predicate StillLive(v: IdView) {
    && v.x.Some? && !v.x.value.Terminal() && v.x.value.req == NoStatus
    && (v.l.Some? ==> !v.l.value.Terminal())
    && (forall o :: o in v.r ==> !o.Terminal())
    && (forall o :: o in v.p ==> !o.Terminal())
    && (v.l.Some? && v.l.value.req == New ==> forall o :: o in v.p ==> o.req != Rejected)
  }

  /** The submission is no longer under way, so an order that does not rest now never will again. */
  predicate Seen(v: IdView) {
    && (forall o :: o in v.r ==> o.req == Canceled || o.req == Replaced)
    && (forall o :: o in v.p ==> o.req != New)
    && (v.x.Some? ==> StillLive(v))
  }

  predicate SameId(id: OrderId, v: IdView) {
    && (v.x.Some? ==> v.x.value.id == id) && (v.l.Some? ==> v.l.value.id == id)
    && (forall o :: o in v.r ==> o.id == id) && (forall o :: o in v.p ==> o.id == id)
  }

  predicate OnceOnly(id: OrderId, v: IdView) {
    SameId(id, v) && (Asked(v) || Seen(v))
  }

  lemma SubmitOnce(id: OrderId, v: IdView, o: Order, rejected: Order)
    requires Unused(v) && o.id == rejected.id == id && o.req == New && o.status == NoStatus && rejected.req == Rejected
    ensures OnceOnly(id, v.(l := Some(o), r := v.r + [o]))
    ensures OnceOnly(id, v.(l := Some(o), p := v.p + [rejected]))
  {
  }

  /** Any request on any known order, finished or not. */
  lemma RequestOnce(id: OrderId, v: IdView, o: Order, rejected: Order)
    requires OnceOnly(id, v) && v.l.Some? && v.l.value.req == NoStatus && o.id == rejected.id == id
    requires (o.req == Canceled || o.req == Replaced) && rejected.req == Rejected
    requires o.status == rejected.status == v.l.value.status
    ensures OnceOnly(id, v.(l := Some(o), r := v.r + [o]))
    ensures OnceOnly(id, v.(l := Some(o), p := v.p + [rejected]))
  {
  }

  lemma TakeOnce(id: OrderId, v: IdView)
    requires OnceOnly(id, v) && v.p != []
    ensures OnceOnly(id, v.(l := Take(v.l, v.p[0]), p := v.p[1..]))
  {
    assert v.p[0] in v.p;
  }

  lemma RowOnce(id: OrderId, v: IdView, x: Option<Order>, out: seq<Order>)
    requires OnceOnly(id, v) && Fed(v.x, x, out)
    ensures OnceOnly(id, v.(x := x, p := v.p + out))
  {
    if out == [] {
      assert v.p + out == v.p;
    } else {
      assert out == [out[0]];
    }
  }

  lemma AskedOnce(c: Config, x: Exch, id: OrderId, v: IdView, ts: int)
    requires OnceOnly(id, v) && Asked(v) && v.x == RestingOrder(x, id)
    ensures OnceOnly(id, Answered(v, id, AckNew(c, x, v.r[0], ts)))
  {
    assert Seen(Answered(v, id, AckNew(c, x, v.r[0], ts)));
  }

  lemma CanceledOnce(x: Exch, id: OrderId, v: IdView, ts: int)
    requires OnceOnly(id, v) && Seen(v) && v.r != [] && v.x == RestingOrder(x, id)
    ensures OnceOnly(id, Answered(v, id, AckCancel(x, v.r[0], ts)))
  {
    assert v.r[0] in v.r;
    assert Seen(Answered(v, id, AckCancel(x, v.r[0], ts)));
  }

  lemma ModifiedOnce(c: Config, x: Exch, id: OrderId, v: IdView, ts: int)
    requires OnceOnly(id, v) && Seen(v) && v.r != [] && v.r[0].req == Replaced && v.x == RestingOrder(x, id)
    ensures OnceOnly(id, Answered(v, id, AckModify(c, x, v.r[0], ts)))
  {
    assert v.r[0] in v.r;
    var a := AckModify(c, x, v.r[0], ts);
    ModifyAnswer(c, x, v.r[0], ts);
    assert Seen(Answered(v, id, a));
  }

  /** What a modify is answered with, and what rests afterwards. */
  lemma ModifyAnswer(c: Config, x: Exch, request: Order, ts: int)
    requires request.req == Replaced
    requires request.id in x.orders ==> x.orders[request.id].o.id == request.id
    ensures var a := AckModify(c, x, request, ts);
            && a.reply.id == request.id
            && a.reply.req != New
            && (request.id !in x.orders ==> request.id !in a.x.orders)
            && (request.id in a.x.orders ==>
                  && a.x.orders[request.id].o.id == request.id && a.x.orders[request.id].o.status == New
                  && (|| a.x.orders[request.id].o.req == NoStatus
                      || a.x.orders[request.id].o.req == x.orders[request.id].o.req)
                  && a.reply.status == New && a.reply.req != Rejected)
  {
  }

  lemma HandleOnce(c: Config, x: Exch, id: OrderId, v: IdView, ts: int)
    requires OnceOnly(id, v) && v.r != [] && v.x == RestingOrder(x, id)
    ensures OnceOnly(id, Answered(v, id, Handle(c, x, v.r[0], ts)))
  {
    assert v.r[0] in v.r;
    if Asked(v) {
      AskedOnce(c, x, id, v, ts);
    } else {
      if v.r[0].req == Canceled {
        CanceledOnce(x, id, v, ts);
      } else {
        ModifiedOnce(c, x, id, v, ts);
      }
    }
  }

  // ---------------------------------------------------------------- the system

  ghost predicate AllOnce(y: Sys, used: set<OrderId>) {
    forall id: OrderId :: OnceOnly(id, View(y, id)) && (id !in used ==> Unused(View(y, id)))
  }

  /** The one rule: an id is submitted at most once. A scan visits each order once. */
  ghost predicate UsesFreshIds(y: Sys, used: set<OrderId>, m: Move) {
    match m
    case Command(cmd, now) => cmd.Submit? ==> cmd.id !in used
    case ExchRow(k, ts, ids) => Enumerates(ids, VisitedBy(y.exch, k))
    case _ => true
  }

  lemma RestsUnfinished(y: Sys, used: set<OrderId>)
    requires AllOnce(y, used)
    ensures forall i :: i in y.exch.orders ==> y.exch.orders[i].o.id == i && !y.exch.orders[i].o.Terminal()
  {
    forall i | i in y.exch.orders ensures y.exch.orders[i].o.id == i && !y.exch.orders[i].o.Terminal() {
      assert OnceOnly(i, View(y, i));
    }
  }

  lemma CommandKeepsOnce(s: Setup, y: Sys, used: set<OrderId>, m: Move, id: OrderId)
    requires AllOnce(y, used) && m.Command? && UsesFreshIds(y, used, m)
    ensures var v := View(Next(s, y, m), id); OnceOnly(id, v) && (id !in Used(used, m) ==> Unused(v))
  {
    var v, i := View(y, id), Issue(y.local, m.cmd, m.now);
    assert OnceOnly(id, v);
    assert OnceOnly(m.cmd.id, View(y, m.cmd.id));
    CommandView(s, y, m.cmd, m.now, id);
    if i.Sent? && id == m.cmd.id {
      if m.cmd.Submit? {
        SubmitOnce(id, v, i.request, i.rejected);
      } else {
        RequestOnce(id, v, i.request, i.rejected);
      }
    }
  }

  lemma StepKeepsOnce(s: Setup, y: Sys, used: set<OrderId>, m: Move)
    requires AllOnce(y, used) && UsesFreshIds(y, used, m)
    ensures AllOnce(Next(s, y, m), Used(used, m))
  {
    var z := Next(s, y, m);
    RestsUnfinished(y, used);
    forall id: OrderId ensures OnceOnly(id, View(z, id)) && (id !in Used(used, m) ==> Unused(View(z, id))) {
      var v := View(y, id);
      assert OnceOnly(id, v);
      match m
      case Command(_, _) => CommandKeepsOnce(s, y, used, m, id);
      case ExchRow(k, ts, ids) =>
        ExchRowView(s, y, m, id);
        FeedOnOneId(s.c, y.exch, k, ts, ids, id);
        RowOnce(id, v, RestingOrder(Feed(s.c, y.exch, k, ts, ids).0, id), Mine(Feed(s.c, y.exch, k, ts, ids).1, id));
      case LocalReceive =>
        if y.buses.toLocal != [] {
          LocalReceiveView(s, y, id);
          if y.buses.toLocal[0].order.id == id {
            TakeOnce(id, v);
          }
        }
      case ExchReceive(ts) =>
        if y.buses.toExch != [] {
          ExchReceiveView(s, y, ts, id);
          if y.buses.toExch[0].order.id == id {
            HandleOnce(s.c, y.exch, id, v, ts);
          }
        }
      case ClearInactiveOrders =>
      case LocalRow(_) =>
    }
  }

  ghost predicate FreshRun(s: Setup, y: Sys, used: set<OrderId>, ms: seq<Move>)
    decreases |ms|
  {
    ms == [] || (UsesFreshIds(y, used, ms[0]) && FreshRun(s, Next(s, y, ms[0]), Used(used, ms[0]), ms[1..]))
  }

  lemma {:induction false} RunKeepsOnce(s: Setup, y: Sys, used: set<OrderId>, ms: seq<Move>)
    requires AllOnce(y, used) && FreshRun(s, y, used, ms)
    ensures AllOnce(RunMoves(s, y, ms), UsedBy(used, ms))
    decreases |ms|
  {
    if ms != [] {
      StepKeepsOnce(s, y, used, ms[0]);
      RunKeepsOnce(s, Next(s, y, ms[0]), Used(used, ms[0]), ms[1..]);
    }
  }

  /**
    * Over every run that never reuses an id, with partial fills, rejections and requests on finished orders: an
    * order the local side knows to be finished, or about whose end a reply is under way, does not rest.
    */
  lemma FinishedStaysGone(s: Setup, y: Sys, ms: seq<Move>, id: OrderId)
    requires Initial(y) && FreshRun(s, y, {}, ms)
    ensures var v := View(RunMoves(s, y, ms), id);
            (v.l.Some? && v.l.value.Terminal()) || (exists o :: o in v.p && o.Terminal()) ==> v.x.None?
  {
    assert AllOnce(y, {});
    RunKeepsOnce(s, y, {}, ms);
    assert OnceOnly(id, View(RunMoves(s, y, ms), id));
  }

  /** The request is one the exchange would execute at once although its order is already finished. */
  predicate FinishedTaker(x: Exch, o: Order) {
    && o.Terminal() && WouldTake(x.book, o)
    && (|| (o.req == New && o.id !in x.orders)
        || (o.req == Replaced && o.id in x.orders && Resubmits(x.orders[o.id].o, o)))
  }

  /**
    * Under that one rule the exchange never finds a finished order in a request to execute: whatever is modified
    * or canceled, finished or not, a request that names a resting order is about an unfinished one.
    */
  lemma NoFinishedTaker(y: Sys, used: set<OrderId>)
    requires AllOnce(y, used) && y.buses.toExch != []
    ensures var o := y.buses.toExch[0].order;
            && (o.req == New || o.req == Canceled || o.req == Replaced)
            && !FinishedTaker(y.exch, o)
  {
    var o := y.buses.toExch[0].order;
    MinePop(y.buses.toExch, o.id);
    assert OnceOnly(o.id, View(y, o.id));
    assert View(y, o.id).r[0] == o && o in View(y, o.id).r;
  }
}
