/** With fresh ids and positive quantities a strategy's requests keep the resting book; only a clear can break it. */
module FreshBooks {
  import opened Core
  import opened HashMapDepth
  import opened Exchange
  import opened ExchangeLaws
  import opened LocalSide
  import opened Protocol
  import opened FreshIds

  // ---------------------------------------------------------------- one id

  /** Unless it is finished, something is left to execute. */
  predicate Sized(o: Order) {
    !o.Terminal() ==> o.leaves > 0
  }

  predicate AllSized(os: seq<Order>) {
    forall o :: o in os ==> Sized(o)
  }

  predicate SizedView(v: IdView) {
    && (v.l.Some? ==> Sized(v.l.value)) && (v.x.Some? ==> Sized(v.x.value)) && AllSized(v.r) && AllSized(v.p)
    && forall o :: o in v.r && o.req == Replaced ==> o.qty > 0
  }

  lemma SubmitSized(v: IdView, o: Order, rejected: Order)
    requires Unused(v) && Sized(o) && Sized(rejected) && o.req == New
    ensures SizedView(v.(l := Some(o), r := v.r + [o]))
    ensures SizedView(v.(l := Some(o), p := v.p + [rejected]))
  {
  }

  lemma RequestSized(v: IdView, o: Order, rejected: Order)
    requires SizedView(v) && Sized(o) && Sized(rejected) && (o.req == Replaced ==> o.qty > 0)
    ensures SizedView(v.(l := Some(o), r := v.r + [o]))
    ensures SizedView(v.(l := Some(o), p := v.p + [rejected]))
  {
  }

  lemma TakeSized(v: IdView)
    requires SizedView(v) && v.p != []
    ensures SizedView(v.(l := Take(v.l, v.p[0]), p := v.p[1..]))
  {
    assert v.p[0] in v.p;
  }

  lemma RowSized(v: IdView, x: Option<Order>, out: seq<Order>)
    requires SizedView(v) && Fed(v.x, x, out)
    ensures SizedView(v.(x := x, p := v.p + out))
  {
  }

  /** The request next in line leaves no empty order in the book. */
  lemma NextIsPlaceable(x: Exch, id: OrderId, v: IdView)
    requires OnceOnly(id, v) && SizedView(v) && v.r != [] && v.x == RestingOrder(x, id)
    ensures Placeable(x, v.r[0])
  {
    assert v.r[0] in v.r;
  }

  lemma NewSized(c: Config, x: Exch, request: Order, ts: int)
    requires Sized(request)
    ensures var a := AckNew(c, x, request, ts);
            && (!request.Terminal() ==> Sized(a.reply))
            && (request.id in x.orders ==> a.x.orders == x.orders && Sized(a.reply))
            && (request.id in a.x.orders && request.id !in x.orders && !request.Terminal()
                ==> Sized(a.x.orders[request.id].o))
  {
  }

  lemma HandleSized(c: Config, x: Exch, id: OrderId, v: IdView, ts: int)
    requires OnceOnly(id, v) && SizedView(v) && v.r != [] && v.x == RestingOrder(x, id)
    ensures SizedView(Answered(v, id, Handle(c, x, v.r[0], ts)))
  {
    var request := v.r[0];
    assert request in v.r;
    NewSized(c, x, request, ts);
    NewSized(c, AckCancel(x, request, ts).x, request, ts);
    var a := Handle(c, x, request, ts);
    assert Sized(a.reply);
    assert id in a.x.orders ==> Sized(a.x.orders[id].o);
  }

  // ---------------------------------------------------------------- the system

  ghost predicate AllViewsSized(y: Sys) {
    forall id: OrderId :: SizedView(View(y, id))
  }

  /** Quantities asked for are positive, and rows carry proper ticks. */
  predicate Proper(m: Move) {
    match m
    case Command(cmd, _) => !cmd.Cancel? ==> cmd.qty > 0
    case ExchRow(k, _, _) => FeedRow(k)
    case _ => true
  }

  lemma CommandKeepsSized(s: Setup, y: Sys, used: set<OrderId>, m: Move, id: OrderId)
    requires AllOnce(y, used) && AllViewsSized(y) && m.Command? && UsesFreshIds(y, used, m) && Proper(m)
    ensures SizedView(View(Next(s, y, m), id))
  {
    var v, i := View(y, id), Issue(y.local, m.cmd, m.now);
    assert OnceOnly(id, v) && SizedView(v);
    assert OnceOnly(m.cmd.id, View(y, m.cmd.id));
    CommandView(s, y, m.cmd, m.now, id);
    if i.Sent? && id == m.cmd.id {
      if m.cmd.Submit? {
        SubmitSized(v, i.request, i.rejected);
      } else {
        RequestSized(v, i.request, i.rejected);
      }
    }
  }

  lemma StepKeepsSized(s: Setup, y: Sys, used: set<OrderId>, m: Move)
    requires AllOnce(y, used) && AllViewsSized(y) && UsesFreshIds(y, used, m) && Proper(m)
    ensures AllViewsSized(Next(s, y, m))
  {
    var z := Next(s, y, m);
    RestsUnfinished(y, used);
    forall id: OrderId ensures SizedView(View(z, id)) {
      var v := View(y, id);
      assert OnceOnly(id, v) && SizedView(v);
      match m
      case Command(_, _) => CommandKeepsSized(s, y, used, m, id);
      case ExchRow(k, ts, ids) =>
        ExchRowView(s, y, m, id);
        FeedOnOneId(s.c, y.exch, k, ts, ids, id);
        RowSized(v, RestingOrder(Feed(s.c, y.exch, k, ts, ids).0, id), Mine(Feed(s.c, y.exch, k, ts, ids).1, id));
      case LocalReceive =>
        if y.buses.toLocal != [] {
          LocalReceiveView(s, y, id);
          if y.buses.toLocal[0].order.id == id {
            TakeSized(v);
          }
        }
      case ExchReceive(ts) =>
        if y.buses.toExch != [] {
          ExchReceiveView(s, y, ts, id);
          if y.buses.toExch[0].order.id == id {
            HandleSized(s.c, y.exch, id, v, ts);
          }
        }
      case ClearInactiveOrders =>
      case LocalRow(_) =>
    }
  }

  ghost predicate SafeClear(y: Sys, m: Move) {
    m.ExchRow? ==> ClearsSafely(y.exch, m.k)
  }

  /** Of all that can happen only a clear can break the resting book, and it does so exactly when it is unsafe. */
  lemma StepKeepsRestingBookIff(s: Setup, y: Sys, used: set<OrderId>, m: Move)
    requires AllOnce(y, used) && AllViewsSized(y) && RestingBook(y.exch) && UsesFreshIds(y, used, m) && Proper(m)
    ensures RestingBook(Next(s, y, m).exch) <==> SafeClear(y, m)
  {
    match m
    case ExchRow(k, ts, ids) => FeedKeepsRestingBook(s.c, y.exch, k, ts, ids);
    case ExchReceive(ts) =>
      if y.buses.toExch != [] {
        var o := y.buses.toExch[0].order;
        MinePop(y.buses.toExch, o.id);
        assert OnceOnly(o.id, View(y, o.id)) && SizedView(View(y, o.id));
        NextIsPlaceable(y.exch, o.id, View(y, o.id));
        HandleKeepsRestingBook(s.c, y.exch, o, ts);
      }
    case _ =>
  }

  /** The book is orderly at the start and after every move. */
  ghost predicate RestsThroughout(s: Setup, y: Sys, ms: seq<Move>)
    decreases |ms|
  {
    RestingBook(y.exch) && (ms == [] || RestsThroughout(s, Next(s, y, ms[0]), ms[1..]))
  }

  ghost predicate ClearsSafelyThroughout(s: Setup, y: Sys, ms: seq<Move>)
    decreases |ms|
  {
    ms == [] || (SafeClear(y, ms[0]) && ClearsSafelyThroughout(s, Next(s, y, ms[0]), ms[1..]))
  }

  lemma {:induction false} RunRestsIff(s: Setup, y: Sys, used: set<OrderId>, ms: seq<Move>)
    requires AllOnce(y, used) && AllViewsSized(y) && RestingBook(y.exch)
    requires FreshRun(s, y, used, ms) && forall m :: m in ms ==> Proper(m)
    ensures RestsThroughout(s, y, ms) <==> ClearsSafelyThroughout(s, y, ms)
    decreases |ms|
  {
    if ms != [] {
      var z := Next(s, y, ms[0]);
      assert ms[0] in ms;
      StepKeepsRestingBookIff(s, y, used, ms[0]);
      if RestingBook(z.exch) {
        StepKeepsOnce(s, y, used, ms[0]);
        StepKeepsSized(s, y, used, ms[0]);
        RunRestsIff(s, z, Used(used, ms[0]), ms[1..]);
      }
    }
  }

  /** Whichever branch the cost rule picks, a scan looks at all orders within reach. */
  predicate ScansFully(x: Exch, k: EventKind) {
    var s := ScanOf(x, k);
    s.Scan? ==> VisitedBy(x, k) == Reach(x.orders, s.side, s.limit)
  }

  predicate ScansFullyThroughout(s: Setup, y: Sys, ms: seq<Move>)
    decreases |ms|
  {
    ms == [] ||
    ((ms[0].ExchRow? ==> ScansFully(y.exch, ms[0].k)) && ScansFullyThroughout(s, Next(s, y, ms[0]), ms[1..]))
  }

  lemma {:induction false} RestingScansFully(s: Setup, y: Sys, ms: seq<Move>)
    requires RestsThroughout(s, y, ms)
    ensures ScansFullyThroughout(s, y, ms)
    decreases |ms|
  {
    if ms != [] {
      if ms[0].ExchRow? && ScanOf(y.exch, ms[0].k).Scan? {
        FastScanVisitsAll(y.exch, ms[0].k);
      }
      RestingScansFully(s, Next(s, y, ms[0]), ms[1..]);
    }
  }

  /**
    * Over every run that reuses no id and asks for positive quantities, with partial fills and requests on orders in
    * any state: nothing ever crosses in the resting book if and only if every clear is safe, and then no scan by tick
    * range ever misses an order.
    */
  lemma BookRestsIff(s: Setup, y: Sys, ms: seq<Move>)
    requires Initial(y) && Sane(y.exch.book) && FreshRun(s, y, {}, ms) && forall m :: m in ms ==> Proper(m)
    ensures RestsThroughout(s, y, ms) <==> ClearsSafelyThroughout(s, y, ms)
    ensures RestsThroughout(s, y, ms) ==> ScansFullyThroughout(s, y, ms)
  {
    assert AllOnce(y, {});
    assert AllViewsSized(y);
    RunRestsIff(s, y, {}, ms);
    if RestsThroughout(s, y, ms) {
      RestingScansFully(s, y, ms);
    }
  }
}
