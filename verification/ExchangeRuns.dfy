/** Safety of the matching engine over whole runs: any interleaving of feed rows and requests. */
module ExchangeRuns {
  import opened Core
  import opened HashMapDepth
  import opened QueueModels
  import opened Exchange
  import opened ExchangeLaws

  /** One input of the exchange: a feed row with the traversal order of its scan, or a request. */
  datatype Input = Row(k: EventKind, ts: int, ids: seq<OrderId>) | Request(o: Order, ts: int)

  function Step(c: Config, x: Exch, i: Input): (Exch, seq<Order>)
  {
    match i
    case Row(k, ts, ids) => Feed(c, x, k, ts, ids)
    case Request(o, ts) => var a := Handle(c, x, o, ts); (a.x, [a.reply])
  }

  /** Rows carry proper ticks, and a scan visits each of its orders once. */
  ghost predicate WellFed(x: Exch, i: Input) {
    i.Row? ==> FeedRow(i.k) && Enumerates(i.ids, VisitedBy(x, i.k))
  }

  /** No clear revives a level that crosses something, and no request places an order with nothing to execute. */
  ghost predicate Admissible(x: Exch, i: Input) {
    WellFed(x, i) && if i.Row? then ClearsSafely(x, i.k) else Placeable(x, i.o)
  }

  lemma StepKeepsRestingBook(c: Config, x: Exch, i: Input)
    requires RestingBook(x) && WellFed(x, i)
    ensures RestingBook(Step(c, x, i).0) <==> Admissible(x, i)
  {
    match i
    case Row(k, ts, ids) => FeedKeepsRestingBook(c, x, k, ts, ids);
    case Request(o, ts) => HandleKeepsRestingBook(c, x, o, ts);
  }

  /** The exchange after a run, and every message it sent, in order. */
  function Run(c: Config, x: Exch, run: seq<Input>): (Exch, seq<Order>)
    decreases |run|
  {
    if run == [] then (x, [])
    else
      var (y, out) := Step(c, x, run[0]);
      var (z, rest) := Run(c, y, run[1..]);
      (z, out + rest)
  }

  ghost predicate WellFedRun(c: Config, x: Exch, run: seq<Input>)
    decreases |run|
  {
    run == [] || (WellFed(x, run[0]) && WellFedRun(c, Step(c, x, run[0]).0, run[1..]))
  }

  ghost predicate AdmissibleRun(c: Config, x: Exch, run: seq<Input>)
    decreases |run|
  {
    run == [] || (Admissible(x, run[0]) && AdmissibleRun(c, Step(c, x, run[0]).0, run[1..]))
  }

  /** The resting book is orderly at the start and after every input. */
  ghost predicate OrderlyRun(c: Config, x: Exch, run: seq<Input>)
    decreases |run|
  {
    RestingBook(x) && (run == [] || OrderlyRun(c, Step(c, x, run[0]).0, run[1..]))
  }

  lemma {:induction false} RunKeepsRestingBook(c: Config, x: Exch, run: seq<Input>)
    requires RestingBook(x) && AdmissibleRun(c, x, run)
    ensures RestingBook(Run(c, x, run).0)
    decreases |run|
  {
    if run != [] {
      StepKeepsRestingBook(c, x, run[0]);
      RunKeepsRestingBook(c, Step(c, x, run[0]).0, run[1..]);
    }
  }

  /**
    * Nothing ever crosses and nothing finished ever lingers in the resting book, if and only if no clear of the run
    * revives a level that crosses something and no request places an order with nothing to execute.
    */
  lemma {:induction false} RunOrderlyIff(c: Config, x: Exch, run: seq<Input>)
    requires RestingBook(x) && WellFedRun(c, x, run)
    ensures OrderlyRun(c, x, run) <==> AdmissibleRun(c, x, run)
    decreases |run|
  {
    if run != [] {
      var y := Step(c, x, run[0]).0;
      StepKeepsRestingBook(c, x, run[0]);
      if RestingBook(y) {
        RunOrderlyIff(c, y, run[1..]);
      }
    }
  }

  // ---------------------------------------------------------------- conservation of quantity

  function Leaves(x: Exch, id: OrderId): int {
    if id in x.orders then x.orders[id].o.leaves else 0
  }

  /** Lots of order `id` executed by the messages sent. */
  function Executed(msgs: seq<Order>, id: OrderId): int {
    if msgs == [] then 0
    else (if msgs[0].id == id && msgs[0].ReportsFill() then msgs[0].execQty else 0) + Executed(msgs[1..], id)
  }

  lemma {:induction false} ExecutedConcat(a: seq<Order>, b: seq<Order>, id: OrderId)
    ensures Executed(a + b, id) == Executed(a, id) + Executed(b, id)
  {
    if a == [] {
      assert a + b == b;
    } else {
      assert (a + b)[1..] == a[1..] + b;
      ExecutedConcat(a[1..], b, id);
    }
  }

  lemma OthersExecuteNothing(c: Config, r: Resting, why: Trigger, ts: int, id: OrderId)
    requires r.o.id != id
    ensures Executed(Touch(c, r, why, ts).reports, id) == 0
  {
  }

  /** A scan reports an order at most once, and only if it visits it. */
  lemma {:induction false} ReportsExecute(
    c: Config, orders: map<OrderId, Resting>, ids: seq<OrderId>, why: Trigger, ts: int, id: OrderId)
    requires forall i :: i in orders ==> orders[i].o.id == i
    requires forall i, j :: 0 <= i < j < |ids| ==> ids[i] != ids[j]
    ensures Executed(Reports(c, orders, ids, why, ts), id) ==
            if id in ids && id in orders then Executed(Touch(c, orders[id], why, ts).reports, id) else 0
  {
    if ids != [] {
      ReportsExecute(c, orders, ids[1..], why, ts, id);
      var head := if ids[0] in orders then Touch(c, orders[ids[0]], why, ts).reports else [];
      ExecutedConcat(head, Reports(c, orders, ids[1..], why, ts), id);
      if ids[0] in orders && ids[0] != id {
        OthersExecuteNothing(c, orders[ids[0]], why, ts, id);
      }
      assert ids == [ids[0]] + ids[1..];
    }
  }

  /** Order `id`, if it rests, is live and owes something. */
  predicate OwesIfResting(x: Exch, id: OrderId) {
    id in x.orders ==> Owes(id, x.orders[id].o)
  }

  lemma SweepConserves(c: Config, x: Exch, ids: seq<OrderId>, why: Trigger, ts: int, id: OrderId)
    requires Filed(x) && OwesIfResting(x, id)
    requires forall i, j :: 0 <= i < j < |ids| ==> ids[i] != ids[j]
    ensures var (y, out) := Sweep(c, x, ids, why, ts);
            Leaves(x, id) == Executed(out, id) + Leaves(y, id) && OwesIfResting(y, id)
  {
    ReportsExecute(c, x.orders, ids, why, ts, id);
    if id in x.orders {
      TouchKeeps(c, x.orders[id], why, ts);
      var t := Touch(c, x.orders[id], why, ts);
      assert Executed(t.reports, id) == if t.reports == [] then 0 else t.r.o.execQty;
    }
  }

  lemma FeedConserves(c: Config, x: Exch, k: EventKind, ts: int, ids: seq<OrderId>, id: OrderId)
    requires Filed(x) && OwesIfResting(x, id)
    requires forall i, j :: 0 <= i < j < |ids| ==> ids[i] != ids[j]
    ensures var (y, out) := Feed(c, x, k, ts, ids);
            Leaves(x, id) == Executed(out, id) + Leaves(y, id) && OwesIfResting(y, id)
  {
    AbsorbKeepsOrders(c, x, k);
    if ScanOf(x, k).Scan? {
      SweepConserves(c, Absorb(c, x, k), ids, ScanOf(x, k).why, ts, id);
    }
  }

  /** The input neither asks anything of order `id` nor visits an order twice. */
  predicate LeavesAlone(i: Input, id: OrderId) {
    match i
    case Row(_, _, ids) => forall a, b :: 0 <= a < b < |ids| ==> ids[a] != ids[b]
    case Request(o, _) => o.id != id
  }

  lemma StepConserves(c: Config, x: Exch, i: Input, id: OrderId)
    requires Filed(x) && OwesIfResting(x, id) && LeavesAlone(i, id)
    ensures var (y, out) := Step(c, x, i);
            Filed(y) && OwesIfResting(y, id) && Leaves(x, id) == Executed(out, id) + Leaves(y, id)
  {
    match i
    case Row(k, ts, ids) =>
      RowKeepsFiled(c, x, k, ts, ids);
      FeedConserves(c, x, k, ts, ids, id);
    case Request(o, ts) =>
      RequestKeepsFiled(c, x, o, ts);
      OthersUntouched(c, x, o, ts, id);
  }

  /**
    * Conservation: over any stretch of a run without a request for order `id`, whatever else is fed or asked, the
    * quantity it still had at the start is exactly what was executed meanwhile plus what it still has; it is gone
    * exactly when all of it was executed.
    */
  lemma {:induction false} QuantityConserved(c: Config, x: Exch, run: seq<Input>, id: OrderId)
    requires Filed(x) && OwesIfResting(x, id) && forall i :: i in run ==> LeavesAlone(i, id)
    ensures var (z, out) := Run(c, x, run);
            && Leaves(x, id) == Executed(out, id) + Leaves(z, id)
            && (id in z.orders <==> Executed(out, id) < Leaves(x, id))
    decreases |run|
  {
    if run != [] {
      var (y, out) := Step(c, x, run[0]);
      StepConserves(c, x, run[0], id);
      QuantityConserved(c, y, run[1..], id);
      ExecutedConcat(out, Run(c, y, run[1..]).1, id);
    }
  }

  /** A request answers for its own order and leaves every other resting order alone. */
  lemma OthersUntouched(c: Config, x: Exch, request: Order, ts: int, id: OrderId)
    requires Filed(x)
    ensures var a := Handle(c, x, request, ts);
            && a.reply.id == request.id
            && (id != request.id ==> (id in a.x.orders <==> id in x.orders))
            && (id != request.id && id in x.orders ==> a.x.orders[id] == x.orders[id])
  {
    NewLeavesOthers(c, x, request, ts, id);
    CancelLeavesOthers(x, request, ts, id);
    NewLeavesOthers(c, AckCancel(x, request, ts).x, request, ts, id);
  }

  lemma NewLeavesOthers(c: Config, x: Exch, request: Order, ts: int, id: OrderId)
    ensures var a := AckNew(c, x, request, ts);
            && a.reply.id == request.id
            && (id != request.id ==> (id in a.x.orders <==> id in x.orders))
            && (id != request.id && id in x.orders ==> a.x.orders[id] == x.orders[id])
  {
  }

  lemma CancelLeavesOthers(x: Exch, request: Order, ts: int, id: OrderId)
    requires request.id in x.orders ==> x.orders[request.id].o.id == request.id
    ensures var a := AckCancel(x, request, ts);
            && a.reply.id == request.id
            && (id != request.id ==> (id in a.x.orders <==> id in x.orders))
            && (id != request.id && id in x.orders ==> a.x.orders[id] == x.orders[id])
  {
  }

  // ---------------------------------------------------------------- what a request is answered with

  /** Nothing happens but that the request comes back rejected. */
  predicate Bounced(x: Exch, request: Order, ts: int, a: Ack) {
    a == Ack(x, request.(req := Rejected, exchTs := ts))
  }

  /** Nothing happens but that the request comes back expired. */
  predicate Expires(x: Exch, request: Order, ts: int, a: Ack) {
    a == Ack(x, request.(req := NoStatus, status := Expired, exchTs := ts))
  }

  /** The request comes to rest as it is, behind everything displayed at its price, and comes back as it rests. */
  predicate Rests(c: Config, x: Exch, request: Order, ts: int, a: Ack) {
    var levels := if request.side == Buy then x.book.bids else x.book.asks;
    && a.reply == request.(req := NoStatus, status := New, exchTs := ts)
    && a.x == x.(orders := x.orders[request.id := Resting(a.reply, c.queue.newOrder(At(levels, request.tick)))])
  }

  /**
    * A new order of a known id bounces. Any other is executed (see `Executions.RequestTakes`), or rests if it may wait
    * and does not reach the other side, or expires.
    */
  lemma NewIsAnswered(c: Config, x: Exch, request: Order, ts: int)
    requires request.req == New
    ensures var a := Handle(c, x, request, ts);
            if request.id in x.orders then Bounced(x, request, ts, a)
            else if WouldTake(x.book, request) then request.id !in a.x.orders
            else if ComesToRest(x.book, request) then Rests(c, x, request, ts, a)
            else Expires(x, request, ts, a)
  {
  }

  /** A cancel takes the order out of the book and brings back the exchange's record of it, or bounces. */
  lemma CancelIsAnswered(c: Config, x: Exch, request: Order, ts: int)
    requires request.req == Canceled
    ensures var a := Handle(c, x, request, ts);
            if request.id !in x.orders then Bounced(x, request, ts, a)
            else a == Ack(x.(orders := x.orders - {request.id}),
                          x.orders[request.id].o.(req := NoStatus, status := Canceled, exchTs := ts))
  {
  }

  /** The order keeps everything but its quantity, all of which it then owes, and its stamp; it counts as new. */
  predicate Amended(x: Exch, request: Order, ts: int, a: Ack)
    requires request.id in x.orders
  {
    var was := x.orders[request.id];
    && a.reply == request.(leaves := request.qty, status := New, exchTs := ts)
    && a.x == x.(orders := x.orders[request.id := was.(o := was.o.(qty := request.qty, leaves := request.qty,
                                                                   status := New, exchTs := ts))])
  }

  /**
    * A modify to another price, or to more than the order still owes, is a cancel followed by a new order; any other
    * amends the order in its place in the queue; and a modify of an unknown order bounces.
    */
  lemma ModifyIsAnswered(c: Config, x: Exch, request: Order, ts: int)
    requires request.req == Replaced && Filed(x)
    ensures var a := Handle(c, x, request, ts);
            if request.id !in x.orders then Bounced(x, request, ts, a)
            else
              var was := x.orders[request.id].o;
              if request.tick == was.tick && request.qty <= was.leaves then Amended(x, request, ts, a)
              else a == Handle(c, Handle(c, x, request.(req := Canceled), ts).x, request.(req := New), ts)
  {
  }

  /** What an admission starts the count from. */
  lemma AdmissionLeaves(c: Config, x: Exch, request: Order, ts: int)
    ensures var a := Handle(c, x, request, ts);
            && (request.req == New && request.id !in x.orders && request.id in a.x.orders
                ==> Leaves(a.x, request.id) == request.leaves == a.reply.leaves)
            && (request.req == Replaced && request.id in a.x.orders && request.id in x.orders
                ==> Leaves(a.x, request.id) == a.reply.leaves
                 == if Resubmits(x.orders[request.id].o, request) then request.leaves else request.qty)
  {
  }

  /**
    * An order keeps its place in the queue through every request but one that resubmits it: then, as when
    * it first comes to rest, it joins behind all the quantity displayed at its price.
    */
  lemma RequestKeepsPlace(c: Config, x: Exch, request: Order, ts: int, id: OrderId)
    requires Filed(x) && id in Handle(c, x, request, ts).x.orders
    ensures var r := Handle(c, x, request, ts).x.orders[id];
            if id in x.orders && (request.id != id || request.req != Replaced || !Resubmits(x.orders[id].o, request))
            then r.q == x.orders[id].q
            else request.id == id && r.o.status == New && r.q == c.queue.newOrder(Displayed(x.book, r.o.side, r.o.tick))
  {
    OthersUntouched(c, x, request, ts, id);
  }

  // ---------------------------------------------------------------- queue position

  /** No resting order stands behind the quantity displayed at its own price and side. */
  ghost predicate QueueWithinDisplay(x: Exch) {
    forall id :: id in x.orders ==>
      x.orders[id].q.front <= Displayed(x.book, x.orders[id].o.side, x.orders[id].o.tick) as real
  }

  predicate IsClear(k: EventKind) {
    k.ClearBids? || k.ClearAsks? || k.ClearAll?
  }

  /** An update displays what it says at its own tick and side, and changes nothing else displayed. */
  lemma DisplayAfterUpdate(b: Book, k: EventKind, side: Side, tick: int)
    requires IsDepthUpdate(k)
    ensures Displayed(Apply(b, k), side, tick) ==
            if tick == k.tick && side == (if k.BidDepth? then Buy else Sell) then k.qty else Displayed(b, side, tick)
  {
  }

  lemma AbsorbKeepsQueueWithinDisplay(c: Config, x: Exch, k: EventKind)
    requires FeedRow(k) && !IsClear(k) && Bounded(c.queue) && QueueWithinDisplay(x)
    ensures QueueWithinDisplay(Absorb(c, x, k))
  {
    if IsDepthUpdate(k) {
      var m := Absorb(c, x, k);
      forall id | id in m.orders
        ensures m.orders[id].q.front <= Displayed(m.book, m.orders[id].o.side, m.orders[id].o.tick) as real
      {
        DisplayAfterUpdate(x.book, k, x.orders[id].o.side, x.orders[id].o.tick);
      }
    }
  }

  lemma SweepKeepsQueueWithinDisplay(c: Config, x: Exch, ids: seq<OrderId>, why: Trigger, ts: int)
    requires Stored(x.book) && Bounded(c.queue) && QueueWithinDisplay(x)
    ensures QueueWithinDisplay(Sweep(c, x, ids, why, ts).0)
  {
  }

  /** Rows carry proper ticks and clear nothing. */
  predicate ClearsNothing(i: Input) {
    i.Row? ==> FeedRow(i.k) && !IsClear(i.k)
  }

  lemma StepKeepsQueueWithinDisplay(c: Config, x: Exch, i: Input)
    requires Stored(x.book) && Bounded(c.queue) && QueueWithinDisplay(x) && ClearsNothing(i)
    ensures var y := Step(c, x, i).0; Stored(y.book) && QueueWithinDisplay(y)
  {
    if i.Row? {
      AbsorbKeepsQueueWithinDisplay(c, x, i.k);
      if IsDepthUpdate(i.k) {
        ApplyKeepsStored(x.book, i.k);
      }
      if ScanOf(x, i.k).Scan? {
        SweepKeepsQueueWithinDisplay(c, Absorb(c, x, i.k), i.ids, ScanOf(x, i.k).why, i.ts);
      }
    } else {
      HandleKeepsQueueWithinDisplay(c, x, i.o, i.ts);
    }
  }

  lemma HandleKeepsQueueWithinDisplay(c: Config, x: Exch, request: Order, ts: int)
    requires Bounded(c.queue) && QueueWithinDisplay(x)
    ensures QueueWithinDisplay(Handle(c, x, request, ts).x)
  {
  }

  /** Over every run without clear rows, queue positions stay within the displayed sizes. */
  lemma {:induction false} RunKeepsQueueWithinDisplay(c: Config, x: Exch, run: seq<Input>)
    requires Stored(x.book) && Bounded(c.queue) && QueueWithinDisplay(x) && forall i :: i in run ==> ClearsNothing(i)
    ensures QueueWithinDisplay(Run(c, x, run).0)
    decreases |run|
  {
    if run != [] {
      StepKeepsQueueWithinDisplay(c, x, run[0]);
      RunKeepsQueueWithinDisplay(c, Step(c, x, run[0]).0, run[1..]);
    }
  }

  /**
    * Under the probabilistic model a depth row moves the orders at its price and side by the split of the change from
    * the size displayed before it, and no other order.
    */
  lemma DepthRowSplits(c: Config, prob: (real, real) -> real, x: Exch, k: EventKind, id: OrderId)
    requires IsDepthUpdate(k) && c.queue == ProbQueueModel(prob) && id in x.orders
    ensures var r, m := x.orders[id], Absorb(c, x, k).orders;
            id in m && m[id].o == r.o &&
            if r.o.tick != k.tick || r.o.side != (if k.BidDepth? then Buy else Sell) then m[id].q == r.q
            else m[id].q == PlaceAfter(prob, r.q, At(if k.BidDepth? then x.book.bids else x.book.asks, k.tick), k.qty)
  {
    ProbDepthSplits(prob, x.orders[id].q, Displayed(x.book, x.orders[id].o.side, x.orders[id].o.tick), k.qty);
  }

  /** So under the probabilistic model a depth row never moves any resting order back. */
  lemma DepthRowsNeverPushBack(c: Config, prob: (real, real) -> real, x: Exch, k: EventKind, id: OrderId)
    requires QueueWithinDisplay(x) && IsDepthUpdate(k)
    requires c.queue == ProbQueueModel(prob) && forall f, b :: 0.0 <= prob(f, b) <= 1.0
    requires id in x.orders
    ensures id in Absorb(c, x, k).orders
    ensures Absorb(c, x, k).orders[id].q.front <= x.orders[id].q.front
  {
    var side := if k.BidDepth? then Buy else Sell;
    ProbDepthAdvances(prob, x.orders[id].q, Displayed(x.book, x.orders[id].o.side, x.orders[id].o.tick), k.qty);
  }
}
