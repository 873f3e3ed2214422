/** The exchange matching engine (include/hbt/backtest/exchange.hpp), as functions on values. */
module Exchange {
  import opened Core
  import opened HashMapDepth
  import opened QueueModels

  /** The template parameters of the engine: partial fills or not, queue model, asset and fee model. */
  datatype Config = Config(partial: bool, queue: QueueModel, acct: Accounting)

  datatype Resting = Resting(o: Order, q: QueuePos)

  datatype Exch = Exch(book: Book, sv: StateValues, orders: map<OrderId, Resting>)

  // ---------------------------------------------------------------- one order

  /** Execute `execQty` of an order; an order that is already finished is left alone. */
  function Fill(o: Order, ts: int, maker: bool, execTick: int, execQty: int): Order {
    if o.Terminal() then o
    else
      var leaves := Max(0, o.leaves - execQty);
      o.(maker := maker, execTick := if maker then o.tick else execTick, execQty := execQty, leaves := leaves,
         status := if leaves > 0 then PartiallyFilled else Filled, exchTs := ts)
  }

  /** Why a resting order is looked at: a trade on the opposite side, or the opposite best moving through it. */
  datatype Trigger = TradeAt(tick: int, qty: nat) | BestMoved

  /** What happens to that order: its new record, the execution reports sent, and whether it leaves the book. */
  datatype Outcome = Outcome(r: Resting, reports: seq<Order>, gone: bool)

  function FillMaker(r: Resting, ts: int): Outcome {
    var o := Fill(r.o, ts, true, r.o.tick, r.o.leaves);
    Outcome(r.(o := o), if r.o.Terminal() then [] else [o], true)
  }

  /** `a` is a strictly more aggressive price than `b` for an order on this side. */
  predicate Ahead(side: Side, a: int, b: int) {
    if side == Sell then a < b else a > b
  }

  function Touch(c: Config, r: Resting, why: Trigger, ts: int): Outcome {
    match why
    case BestMoved => FillMaker(r, ts)
    case TradeAt(tick, qty) =>
      if Ahead(r.o.side, r.o.tick, tick) then FillMaker(r, ts)
      else if r.o.tick == tick then
        var (pos, executable) := c.queue.isFilled(c.queue.trade(r.q, qty));
        var r1 := r.(q := pos);
        if executable <= 0 then Outcome(r1, [], false)
        else if c.partial then
          var o := Fill(r1.o, ts, true, r1.o.tick, Min(executable, r1.o.leaves));
          Outcome(r1.(o := o), if r1.o.Terminal() then [] else [o], o.status == Filled)
        else FillMaker(r1, ts)
      else Outcome(r, [], false)
  }

  // ---------------------------------------------------------------- scans

  /** Orders on `side` priced at `limit` or better. */
  function Reach(orders: map<OrderId, Resting>, side: Side, limit: int): set<OrderId> {
    set id | id in orders && orders[id].o.side == side && !Ahead(side, limit, orders[id].o.tick)
  }

  /** The same orders, but only on the ticks strictly beyond `from`: what the tick-range scan visits. */
  function Window(orders: map<OrderId, Resting>, side: Side, limit: int, from: int): set<OrderId> {
    set id | id in Reach(orders, side, limit) && Ahead(side, from, orders[id].o.tick)
  }

  /** The cost rule: scan every order when there is no previous best or the tick range is the longer walk. */
  predicate ScansAll(count: nat, side: Side, limit: int, from: int) {
    if side == Sell then from == INVALID_MIN || count < limit - from
    else from == INVALID_MAX || count < from - limit
  }

  function Visited(orders: map<OrderId, Resting>, side: Side, limit: int, from: int): set<OrderId> {
    if ScansAll(|orders|, side, limit, from) then Reach(orders, side, limit)
    else Window(orders, side, limit, from)
  }

  /** Execution reports in the order the visited ids are processed. */
  function Reports(c: Config, orders: map<OrderId, Resting>, ids: seq<OrderId>, why: Trigger, ts: int): seq<Order> {
    if ids == [] then []
    else
      (if ids[0] in orders then Touch(c, orders[ids[0]], why, ts).reports else [])
      + Reports(c, orders, ids[1..], why, ts)
  }

  /** The order table after the visited orders are touched and the finished ones removed. */
  function Swept(c: Config, orders: map<OrderId, Resting>, ids: seq<OrderId>, why: Trigger, ts: int)
    : map<OrderId, Resting>
  {
    map id | id in orders && !(id in ids && Touch(c, orders[id], why, ts).gone) ::
      if id in ids then Touch(c, orders[id], why, ts).r else orders[id]
  }

  /** Book execution reports one after the other. */
  function ApplyFills(acct: Accounting, sv: StateValues, reports: seq<Order>): StateValues
    decreases |reports|
  {
    if reports == [] then sv
    else ApplyFills(acct, acct.ApplyFill(sv, reports[0]), reports[1..])
  }

  function Sweep(c: Config, x: Exch, ids: seq<OrderId>, why: Trigger, ts: int): (Exch, seq<Order>) {
    var reports := Reports(c, x.orders, ids, why, ts);
    (x.(orders := Swept(c, x.orders, ids, why, ts), sv := ApplyFills(c.acct, x.sv, reports)), reports)
  }

  /** Tell the queue model that the displayed quantity at one price changed. */
  function Requeue(c: Config, orders: map<OrderId, Resting>, side: Side, tick: int, prev: int, now: int)
    : map<OrderId, Resting>
  {
    map id | id in orders ::
      if orders[id].o.side == side && orders[id].o.tick == tick
      then orders[id].(q := c.queue.depth(orders[id].q, prev, now))
      else orders[id]
  }

  // ---------------------------------------------------------------- feed rows

  /** The book and the queue positions after a feed row, before any order is executed. */
  function Absorb(c: Config, x: Exch, k: EventKind): Exch
  {
    match k
    case BidDepth(t, q) =>
      x.(book := UpdateBid(x.book, t, q), orders := Requeue(c, x.orders, Buy, t, At(x.book.bids, t), q))
    case AskDepth(t, q) =>
      x.(book := UpdateAsk(x.book, t, q), orders := Requeue(c, x.orders, Sell, t, At(x.book.asks, t), q))
    case _ => x.(book := Apply(x.book, k))
  }

  /** A scan a feed row starts: which side, up to which price, from which reference, and why. */
  datatype Scan = NoScan | Scan(side: Side, limit: int, from: int, why: Trigger)

  function ScanOf(x: Exch, k: EventKind): Scan
  {
    match k
    case BidDepth(t, q) =>
      var best := UpdateBid(x.book, t, q).bestBid;
      if best > x.book.bestBid then Scan(Sell, best, x.book.bestBid, BestMoved) else NoScan
    case AskDepth(t, q) =>
      var best := UpdateAsk(x.book, t, q).bestAsk;
      if best < x.book.bestAsk then Scan(Buy, best, x.book.bestAsk, BestMoved) else NoScan
    case BuyTrade(t, q) => Scan(Sell, t, x.book.bestBid, TradeAt(t, q))
    case SellTrade(t, q) => Scan(Buy, t, x.book.bestAsk, TradeAt(t, q))
    case _ => NoScan
  }

  /** The orders a feed row's scan looks at, by whichever branch the cost rule picks. */
  function VisitedBy(x: Exch, k: EventKind): set<OrderId>
  {
    match ScanOf(x, k)
    case NoScan => {}
    case Scan(side, limit, from, _) => Visited(x.orders, side, limit, from)
  }

  /** Process one feed row, visiting the scanned orders in the order `ids`. */
  function Feed(c: Config, x: Exch, k: EventKind, ts: int, ids: seq<OrderId>): (Exch, seq<Order>)
  {
    match ScanOf(x, k)
    case NoScan => (Absorb(c, x, k), [])
    case Scan(_, _, _, why) => Sweep(c, Absorb(c, x, k), ids, why, ts)
  }

  // ---------------------------------------------------------------- requests

  datatype Ack = Ack(x: Exch, reply: Order)

  function OppositeBest(b: Book, side: Side): int {
    if side == Buy then b.bestAsk else b.bestBid
  }

  /** An order that would be executed at once against the opposite best. */
  predicate WouldTake(b: Book, o: Order) {
    o.ordType == Market || (!Ahead(o.side, OppositeBest(b, o.side), o.tick) && o.tif != GTX)
  }

  function Displayed(b: Book, side: Side, tick: int): int {
    if side == Buy then At(b.bids, tick) else At(b.asks, tick)
  }

  function TakerFill(c: Config, x: Exch, o: Order, ts: int): Ack {
    var f := Fill(o, ts, false, OppositeBest(x.book, o.side), o.leaves);
    Ack(if o.Terminal() then x else x.(sv := c.acct.ApplyFill(x.sv, f)), f)
  }

  function Expire(x: Exch, o: Order, ts: int): Ack {
    Ack(x, o.(status := Expired, exchTs := ts))
  }

  function Reject(x: Exch, o: Order, ts: int): Ack {
    Ack(x, o.(req := Rejected, exchTs := ts))
  }

  function AckNew(c: Config, x: Exch, request: Order, ts: int): Ack {
    var o := request.(req := NoStatus);
    if o.id in x.orders then Reject(x, request, ts)
    else if o.ordType == Market then TakerFill(c, x, o, ts)
    else if !Ahead(o.side, OppositeBest(x.book, o.side), o.tick) then
      if o.tif == GTX then Expire(x, o, ts) else TakerFill(c, x, o, ts)
    else if o.tif == GTC || o.tif == GTX then
      var r := Resting(o.(status := New, exchTs := ts), c.queue.newOrder(Displayed(x.book, o.side, o.tick)));
      Ack(x.(orders := x.orders[o.id := r]), r.o)
    else Expire(x, o, ts)
  }

  function AckCancel(x: Exch, request: Order, ts: int): Ack {
    if request.id !in x.orders then Reject(x, request, ts)
    else
      Ack(x.(orders := x.orders - {request.id}),
          x.orders[request.id].o.(req := NoStatus, status := Canceled, exchTs := ts))
  }

  /** A modify that moves the price or grows the order loses its place; any other is applied in place. */
  predicate Resubmits(resting: Order, request: Order) {
    resting.tick != request.tick || request.qty > resting.leaves
  }

  function AckModify(c: Config, x: Exch, request: Order, ts: int): Ack {
    if request.id !in x.orders then Reject(x, request, ts)
    else
      var r := x.orders[request.id];
      if Resubmits(r.o, request) then AckNew(c, AckCancel(x, request, ts).x, request, ts)
      else
        Ack(x.(orders := x.orders[request.id :=
                 r.(o := r.o.(qty := request.qty, leaves := request.qty, exchTs := ts, status := New))]),
            request.(leaves := request.qty, exchTs := ts, status := New))
  }

  function Handle(c: Config, x: Exch, request: Order, ts: int): Ack {
    match request.req
    case New => AckNew(c, x, request, ts)
    case Canceled => AckCancel(x, request, ts)
    case Replaced => AckModify(c, x, request, ts)
    case _ => Ack(x, request)
  }
}
