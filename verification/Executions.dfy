/** Which orders are executed, at what price, and what that adds up to in the account. */
module Executions {
  import opened Core
  import opened HashMapDepth
  import opened Exchange
  import opened ExchangeLaws
  import opened ExchangeRuns
  import opened AccountAgreement

  // ---------------------------------------------------------------- which resting orders a row executes

  /**
    * The documented fill conditions of a resting order: a trade through its price, a trade at its price
    * once it is at the front of the queue, or the opposite best reaching its price.
    */
  predicate FillCondition(c: Config, x: Exch, k: EventKind, r: Resting) {
    match k
    case BuyTrade(t, q) =>
      r.o.side == Sell && (r.o.tick < t || (r.o.tick == t && c.queue.isFilled(c.queue.trade(r.q, q)).1 > 0))
    case SellTrade(t, q) =>
      r.o.side == Buy && (r.o.tick > t || (r.o.tick == t && c.queue.isFilled(c.queue.trade(r.q, q)).1 > 0))
    case BidDepth(_, _) => r.o.side == Sell && Apply(x.book, k).bestBid >= r.o.tick
    case AskDepth(_, _) => r.o.side == Buy && Apply(x.book, k).bestAsk <= r.o.tick
    case _ => false
  }

  /** A visited order is reported exactly when it meets the condition. */
  lemma TouchFillsIff(c: Config, x: Exch, k: EventKind, r: Resting, ts: int)
    requires r.o.Active() && r.o.leaves > 0 && ScanOf(x, k).Scan? && Sane(x.book) && FeedRow(k)
    requires var s := ScanOf(x, k); r.o.side == s.side
    ensures var t := Touch(c, r, ScanOf(x, k).why, ts);
            (k.BuyTrade? || k.SellTrade?) ==> (t.reports != [] <==> FillCondition(c, x, k, r))
  {
  }

  /** An order meeting the condition is within reach of the row's scan; nothing is scanned otherwise. */
  lemma FillableIsReached(c: Config, x: Exch, k: EventKind, id: OrderId)
    requires RestingBook(x) && FeedRow(k) && id in x.orders && FillCondition(c, x, k, x.orders[id])
    ensures ScanOf(x, k).Scan? && id in Reach(x.orders, ScanOf(x, k).side, ScanOf(x, k).limit)
  {
  }

  lemma ReachedByDepth(c: Config, x: Exch, k: EventKind, id: OrderId)
    requires IsDepthUpdate(k) && ScanOf(x, k).Scan? && id in x.orders
    ensures id in Reach(x.orders, ScanOf(x, k).side, ScanOf(x, k).limit) <==> FillCondition(c, x, k, x.orders[id])
  {
  }

  /**
    * A feed row executes a resting order if and only if the order meets the documented condition, whatever
    * branch the cost rule picks and whatever the traversal order; any other order keeps its record.
    */
  lemma RowFillsIff(c: Config, x: Exch, k: EventKind, ts: int, ids: seq<OrderId>, id: OrderId)
    requires RestingBook(x) && FeedRow(k) && Enumerates(ids, VisitedBy(x, k)) && id in x.orders
    ensures var (y, out) := Feed(c, x, k, ts, ids);
            && (Executed(out, id) > 0 <==> FillCondition(c, x, k, x.orders[id]))
            && (!FillCondition(c, x, k, x.orders[id]) ==> id in y.orders && y.orders[id].o == x.orders[id].o)
            && (!c.partial ==> (id !in y.orders <==> FillCondition(c, x, k, x.orders[id])))
  {
    var m, s := Absorb(c, x, k), ScanOf(x, k);
    AbsorbKeepsOrders(c, x, k);
    if FillCondition(c, x, k, x.orders[id]) {
      FillableIsReached(c, x, k, id);
    }
    if s.Scan? {
      FeedIsSweep(c, x, k, ts, ids);
      FastScanVisitsAll(x, k);
      assert id in ids <==> id in Reach(x.orders, s.side, s.limit);
      SweptFillsIff(c, x, k, ts, ids, id, m, s);
    }
  }

  lemma SweptFillsIff(
    c: Config, x: Exch, k: EventKind, ts: int, ids: seq<OrderId>, id: OrderId, m: Exch, s: Scan)
    requires RestingBook(x) && FeedRow(k) && id in x.orders && m == Absorb(c, x, k) && s == ScanOf(x, k) && s.Scan?
    requires m.orders.Keys == x.orders.Keys && forall i :: i in m.orders ==> m.orders[i].o == x.orders[i].o
    requires forall i, j :: 0 <= i < j < |ids| ==> ids[i] != ids[j]
    requires id in ids <==> id in Reach(x.orders, s.side, s.limit)
    requires FillCondition(c, x, k, x.orders[id]) ==> id in ids
    ensures var (y, out) := Sweep(c, m, ids, s.why, ts);
            && (Executed(out, id) > 0 <==> FillCondition(c, x, k, x.orders[id]))
            && (!FillCondition(c, x, k, x.orders[id]) ==> id in y.orders && y.orders[id].o == x.orders[id].o)
            && (!c.partial ==> (id !in y.orders <==> FillCondition(c, x, k, x.orders[id])))
  {
    var r := m.orders[id];
    assert RestsWell(x.book, id, x.orders[id].o);
    forall i | i in m.orders ensures m.orders[i].o.id == i && m.orders[i].o.Active() && m.orders[i].o.leaves > 0 {
      assert RestsWell(x.book, i, x.orders[i].o);
    }
    ReportsExecute(c, m.orders, ids, s.why, ts, id);
    TouchKeeps(c, r, s.why, ts);
    var t := Touch(c, r, s.why, ts);
    assert Executed(t.reports, id) == if t.reports == [] then 0 else t.r.o.execQty;
    if id in ids {
      if IsDepthUpdate(k) {
        ReachedByDepth(c, x, k, id);
      } else {
        TouchFillsIff(c, x, k, x.orders[id], ts);
      }
    }
  }

  // ---------------------------------------------------------------- what a message says

  /** The answer to a request that claims a fill of its own which the exchange does not execute but repeats. */
  function Repeated(c: Config, x: Exch, i: Input): seq<Order> {
    if i.Request? && BooksTwice(x, i.o) then Step(c, x, i).1 else []
  }

  /** Every other message. */
  function Genuine(c: Config, x: Exch, i: Input): seq<Order> {
    if i.Request? && BooksTwice(x, i.o) then [] else Step(c, x, i).1
  }

  function RepeatedIn(c: Config, x: Exch, run: seq<Input>): seq<Order>
    decreases |run|
  {
    if run == [] then [] else Repeated(c, x, run[0]) + RepeatedIn(c, Step(c, x, run[0]).0, run[1..])
  }

  function GenuineIn(c: Config, x: Exch, run: seq<Input>): seq<Order>
    decreases |run|
  {
    if run == [] then [] else Genuine(c, x, run[0]) + GenuineIn(c, Step(c, x, run[0]).0, run[1..])
  }

  lemma {:induction false} GenuineOrRepeated(c: Config, x: Exch, run: seq<Input>)
    ensures multiset(Run(c, x, run).1) == multiset(GenuineIn(c, x, run) + RepeatedIn(c, x, run))
    decreases |run|
  {
    if run != [] {
      GenuineOrRepeated(c, Step(c, x, run[0]).0, run[1..]);
    }
  }

  // ---------------------------------------------------------------- prices

  /**
    * A resting order executes at its own price; an incoming one executes at a price no worse than its
    * limit, and never if it is post-only.
    */
  predicate FairlyPriced(o: Order) {
    o.ReportsFill() ==>
      if o.maker then o.execTick == o.tick
      else o.ordType == Market || (o.tif != GTX && !Ahead(o.side, o.execTick, o.tick))
  }

  /** Only limit orders that may wait are ever resting. */
  ghost predicate MayRest(x: Exch) {
    forall id :: id in x.orders ==> x.orders[id].o.ordType != Market && x.orders[id].o.tif in {GTC, GTX}
  }

  lemma {:induction false} ReportsFair(
    c: Config, orders: map<OrderId, Resting>, ids: seq<OrderId>, why: Trigger, ts: int)
    ensures forall o :: o in Reports(c, orders, ids, why, ts) ==> FairlyPriced(o)
  {
    if ids != [] {
      ReportsFair(c, orders, ids[1..], why, ts);
    }
  }

  lemma NewIsFair(c: Config, x: Exch, request: Order, ts: int)
    requires MayRest(x)
    ensures var a := AckNew(c, x, request, ts);
            && MayRest(a.x)
            && (request.id !in x.orders && !(request.status == Filled && WouldTake(x.book, request))
                ==> FairlyPriced(a.reply))
  {
  }

  lemma CancelKeepsMayRest(x: Exch, request: Order, ts: int)
    requires MayRest(x)
    ensures MayRest(AckCancel(x, request, ts).x)
  {
  }

  lemma AnswerIsFair(c: Config, x: Exch, request: Order, ts: int)
    requires MayRest(x)
    ensures var a := Handle(c, x, request, ts);
            MayRest(a.x) && (!BooksTwice(x, request) ==> FairlyPriced(a.reply))
  {
    NewIsFair(c, x, request, ts);
    CancelKeepsMayRest(x, request, ts);
    NewIsFair(c, AckCancel(x, request, ts).x, request, ts);
  }

  lemma StepIsFair(c: Config, x: Exch, i: Input)
    requires MayRest(x)
    ensures MayRest(Step(c, x, i).0) && forall o :: o in Genuine(c, x, i) ==> FairlyPriced(o)
  {
    if i.Request? {
      AnswerIsFair(c, x, i.o, i.ts);
    } else {
      AbsorbKeepsOrders(c, x, i.k);
      var m := Absorb(c, x, i.k);
      if ScanOf(x, i.k).Scan? {
        ReportsFair(c, m.orders, i.ids, ScanOf(x, i.k).why, i.ts);
        forall id | id in m.orders
          ensures var t := Touch(c, m.orders[id], ScanOf(x, i.k).why, i.ts);
                  t.r.o.ordType == m.orders[id].o.ordType && t.r.o.tif == m.orders[id].o.tif
        {
        }
      }
    }
  }

  /**
    * Over every run whatever: each execution the exchange reports is fairly priced, unless the report only repeats
    * what a request claimed; and neither a market order nor an immediate-or-cancel or fill-or-kill order ever comes
    * to rest.
    */
  lemma {:induction false} RunIsFair(c: Config, x: Exch, run: seq<Input>)
    requires MayRest(x)
    ensures MayRest(Run(c, x, run).0) && forall o :: o in GenuineIn(c, x, run) ==> FairlyPriced(o)
    decreases |run|
  {
    if run != [] {
      StepIsFair(c, x, run[0]);
      RunIsFair(c, Step(c, x, run[0]).0, run[1..]);
    }
  }

  // ---------------------------------------------------------------- how much, and at which price

  /** The report of an incoming order: executed whole, at the best price of the other side. */
  predicate TakesWhole(b: Book, request: Order, ts: int, o: Order) {
    o == request.(req := NoStatus, maker := false, execTick := if request.side == Buy then b.bestAsk else b.bestBid,
                  execQty := request.leaves, leaves := 0, status := Filled, exchTs := ts)
  }

  /** A request that is executed at once is executed whole, at that price; it is booked, and rests no longer. */
  lemma RequestTakes(c: Config, x: Exch, request: Order, ts: int)
    requires Executes(x, request)
    ensures var a := Handle(c, x, request, ts);
            && TakesWhole(x.book, request, ts, a.reply) && a.x.sv == x.sv.Plus(c.acct.Contribution(a.reply))
            && a.x.orders == x.orders - {request.id} && a.x.book == x.book
  {
  }

  /** The report of a resting order: `executed` lots at its own price, and nothing else about it changes. */
  predicate Makes(was: Order, executed: int, ts: int, o: Order) {
    && 0 < executed <= was.leaves
    && o == was.(maker := true, execTick := was.tick, execQty := executed, leaves := was.leaves - executed,
                 status := if executed < was.leaves then PartiallyFilled else Filled, exchTs := ts)
  }

  /** What trades leave for an order at the front of its queue, and all that is left of it otherwise. */
  function Due(c: Config, r: Resting, why: Trigger): int {
    if c.partial && why.TradeAt? && why.tick == r.o.tick
    then Min(c.queue.isFilled(c.queue.trade(r.q, why.qty)).1, r.o.leaves)
    else r.o.leaves
  }

  lemma TouchMakes(c: Config, r: Resting, why: Trigger, ts: int)
    requires r.o.Active() && r.o.leaves > 0
    ensures forall o :: o in Touch(c, r, why, ts).reports ==> Makes(r.o, Due(c, r, why), ts, o)
  {
  }

  lemma {:induction false} ReportsMake(
    c: Config, orders: map<OrderId, Resting>, ids: seq<OrderId>, why: Trigger, ts: int)
    requires forall id :: id in orders ==> orders[id].o.Active() && orders[id].o.leaves > 0
    ensures forall o :: o in Reports(c, orders, ids, why, ts) ==>
      exists id :: id in ids && id in orders && Makes(orders[id].o, Due(c, orders[id], why), ts, o)
  {
    if ids != [] {
      ReportsMake(c, orders, ids[1..], why, ts);
      if ids[0] in orders {
        TouchMakes(c, orders[ids[0]], why, ts);
      }
      forall o | o in Reports(c, orders, ids, why, ts)
        ensures exists id :: id in ids && id in orders && Makes(orders[id].o, Due(c, orders[id], why), ts, o)
      {
        if o in Reports(c, orders, ids[1..], why, ts) {
          var id :| id in ids[1..] && id in orders && Makes(orders[id].o, Due(c, orders[id], why), ts, o);
          assert id in ids;
        } else {
          assert ids[0] in ids;
        }
      }
    }
  }

  /** Each message of a row is the execution of some order resting before it. */
  lemma RowMakes(c: Config, x: Exch, k: EventKind, ts: int, ids: seq<OrderId>)
    requires forall id :: id in x.orders ==> Owes(id, x.orders[id].o)
    ensures forall o :: o in Feed(c, x, k, ts, ids).1 ==>
      exists id, executed :: id in ids && id in x.orders && Makes(x.orders[id].o, executed, ts, o)
  {
    var m := Absorb(c, x, k);
    AbsorbKeepsOrders(c, x, k);
    if ScanOf(x, k).Scan? {
      forall id | id in m.orders ensures m.orders[id].o.Active() && m.orders[id].o.leaves > 0 {
        assert Owes(id, x.orders[id].o);
      }
      var why := ScanOf(x, k).why;
      ReportsMake(c, m.orders, ids, why, ts);
      forall o | o in Feed(c, x, k, ts, ids).1
        ensures exists id, executed :: id in ids && id in x.orders && Makes(x.orders[id].o, executed, ts, o)
      {
        var id :| id in ids && id in m.orders && Makes(m.orders[id].o, Due(c, m.orders[id], why), ts, o);
        assert Makes(x.orders[id].o, Due(c, m.orders[id], why), ts, o);
      }
    }
  }

  lemma {:induction false} ReportsAreMakers(
    c: Config, orders: map<OrderId, Resting>, ids: seq<OrderId>, why: Trigger, ts: int)
    ensures forall o :: o in Reports(c, orders, ids, why, ts) ==> o.maker
  {
    if ids != [] {
      ReportsAreMakers(c, orders, ids[1..], why, ts);
    }
  }

  /** Every genuine execution as a taker is the whole execution of the request just handled. */
  lemma StepTakes(c: Config, x: Exch, i: Input)
    requires Filed(x)
    ensures forall o :: o in Genuine(c, x, i) && o.ReportsFill() && !o.maker ==>
      i.Request? && Executes(x, i.o) && TakesWhole(x.book, i.o, i.ts, o)
  {
    if i.Request? {
      HandleBooks(c, x, i.o, i.ts);
      if Executes(x, i.o) {
        RequestTakes(c, x, i.o, i.ts);
      }
    } else if ScanOf(x, i.k).Scan? {
      ReportsAreMakers(c, Absorb(c, x, i.k).orders, i.ids, ScanOf(x, i.k).why, i.ts);
    }
  }

  /** The price is the best there is on the other side, or the sentinel if there is nothing. */
  ghost predicate PaysBest(b: Book, o: Order) {
    if o.side == Buy
    then (o.execTick in b.asks || o.execTick == INVALID_MAX) && forall t :: t in b.asks ==> o.execTick <= t
    else (o.execTick in b.bids || o.execTick == INVALID_MIN) && forall t :: t in b.bids ==> t <= o.execTick
  }

  lemma TakerPaysBest(x: Exch, request: Order, ts: int, o: Order)
    requires Exact(x.book) && TakesWhole(x.book, request, ts, o)
    ensures PaysBest(x.book, o)
  {
  }

  /** Rows carry proper ticks and do not quote at or through the opposite best. */
  predicate Uncrossing(x: Exch, i: Input) {
    i.Row? ==> FeedRow(i.k) && !Crosses(x.book, i.k)
  }

  ghost predicate UncrossingRun(c: Config, x: Exch, run: seq<Input>)
    decreases |run|
  {
    run == [] || (Uncrossing(x, run[0]) && UncrossingRun(c, Step(c, x, run[0]).0, run[1..]))
  }

  ghost predicate TakersPayBest(c: Config, x: Exch, i: Input) {
    forall o :: o in Genuine(c, x, i) && o.ReportsFill() && !o.maker ==> PaysBest(x.book, o)
  }

  ghost predicate TakersPayBestThroughout(c: Config, x: Exch, run: seq<Input>)
    decreases |run|
  {
    run == [] || (TakersPayBest(c, x, run[0]) && TakersPayBestThroughout(c, Step(c, x, run[0]).0, run[1..]))
  }

  lemma StepKeepsFiled(c: Config, x: Exch, i: Input)
    requires Filed(x)
    ensures Filed(Step(c, x, i).0)
  {
    match i
    case Row(k, ts, ids) => RowKeepsFiled(c, x, k, ts, ids);
    case Request(o, ts) => RequestKeepsFiled(c, x, o, ts);
  }

  lemma StepKeepsExact(c: Config, x: Exch, i: Input)
    requires Exact(x.book) && Uncrossing(x, i)
    ensures Exact(Step(c, x, i).0.book)
  {
    if i.Row? {
      assert Step(c, x, i).0.book == Apply(x.book, i.k);
      if IsDepthUpdate(i.k) {
        ExactUpdateIff(x.book, i.k);
      } else if IsDepthEvent(i.k) {
        ExactClear(x.book, i.k);
      }
    } else {
      assert Step(c, x, i).0.book == x.book;
    }
  }

  /**
    * Over every run whose quotes do not cross, each incoming order, market orders included, is executed whole at the
    * lowest ask or the highest bid stored when it arrives.
    */
  lemma {:induction false} RunTakersPayBest(c: Config, x: Exch, run: seq<Input>)
    requires Exact(x.book) && Filed(x) && UncrossingRun(c, x, run)
    ensures TakersPayBestThroughout(c, x, run)
    decreases |run|
  {
    if run != [] {
      StepTakes(c, x, run[0]);
      forall o | o in Genuine(c, x, run[0]) && o.ReportsFill() && !o.maker ensures PaysBest(x.book, o) {
        TakerPaysBest(x, run[0].o, run[0].ts, o);
      }
      StepKeepsExact(c, x, run[0]);
      StepKeepsFiled(c, x, run[0]);
      RunTakersPayBest(c, Step(c, x, run[0]).0, run[1..]);
    }
  }

  // ---------------------------------------------------------------- what the executions add up to

  /** Lots bought less lots sold. */
  function NetLots(msgs: seq<Order>): int {
    if msgs == [] then 0
    else (if !msgs[0].ReportsFill() then 0 else if msgs[0].side == Buy then msgs[0].execQty else -msgs[0].execQty)
         + NetLots(msgs[1..])
  }

  function Fills(msgs: seq<Order>): nat {
    if msgs == [] then 0 else (if msgs[0].ReportsFill() then 1 else 0) + Fills(msgs[1..])
  }

  /** Lots traded, either way. */
  function Volume(msgs: seq<Order>): int {
    if msgs == [] then 0 else (if msgs[0].ReportsFill() then msgs[0].execQty else 0) + Volume(msgs[1..])
  }

  function AmountOf(acct: Accounting, o: Order): real {
    acct.amount(o.execTick, o.execQty)
  }

  /** What was traded is worth, either way. */
  function Worth(acct: Accounting, msgs: seq<Order>): real {
    if msgs == [] then 0.0
    else (if msgs[0].ReportsFill() then AmountOf(acct, msgs[0]) else 0.0) + Worth(acct, msgs[1..])
  }

  /** What was received for sales less what was paid for purchases. */
  function Received(acct: Accounting, msgs: seq<Order>): real {
    if msgs == [] then 0.0
    else (if !msgs[0].ReportsFill() then 0.0
          else if msgs[0].side == Buy then -AmountOf(acct, msgs[0]) else AmountOf(acct, msgs[0]))
         + Received(acct, msgs[1..])
  }

  function Fees(acct: Accounting, msgs: seq<Order>): real {
    if msgs == [] then 0.0
    else (if msgs[0].ReportsFill() then acct.fee(msgs[0], AmountOf(acct, msgs[0])) else 0.0) + Fees(acct, msgs[1..])
  }

  /** Every field of an account, from the executions. */
  function Summed(acct: Accounting, msgs: seq<Order>): StateValues {
    StateValues(NetLots(msgs), Received(acct, msgs), Fees(acct, msgs), Fills(msgs), Volume(msgs), Worth(acct, msgs))
  }

  lemma {:induction false} TotalsCount(acct: Accounting, msgs: seq<Order>)
    ensures acct.Total(msgs).position == NetLots(msgs) && acct.Total(msgs).numTrades == Fills(msgs)
  {
    if msgs != [] {
      TotalsCount(acct, msgs[1..]);
      acct.BookingCounts(msgs[0]);
      PlusCounts(acct.Booking(msgs[0]), acct.Total(msgs[1..]));
    }
  }

  lemma {:induction false} TotalsTurnover(acct: Accounting, msgs: seq<Order>)
    ensures acct.Total(msgs).volume == Volume(msgs) && acct.Total(msgs).value == Worth(acct, msgs)
  {
    if msgs != [] {
      TotalsTurnover(acct, msgs[1..]);
      acct.BookingMoney(msgs[0]);
      PlusMoney(acct.Booking(msgs[0]), acct.Total(msgs[1..]));
    }
  }

  lemma {:induction false} TotalsMoney(acct: Accounting, msgs: seq<Order>)
    ensures acct.Total(msgs).balance == Received(acct, msgs) && acct.Total(msgs).fee == Fees(acct, msgs)
  {
    if msgs != [] {
      TotalsMoney(acct, msgs[1..]);
      acct.BookingMoney(msgs[0]);
      PlusMoney(acct.Booking(msgs[0]), acct.Total(msgs[1..]));
    }
  }

  lemma TotalIsSummed(acct: Accounting, msgs: seq<Order>)
    ensures acct.Total(msgs) == Summed(acct, msgs)
  {
    TotalsCount(acct, msgs);
    TotalsTurnover(acct, msgs);
    TotalsMoney(acct, msgs);
  }

  lemma StepBooksGenuine(c: Config, x: Exch, i: Input)
    requires Filed(x)
    ensures Step(c, x, i).0.sv == x.sv.Plus(c.acct.Total(Genuine(c, x, i)))
    ensures forall o :: o in Repeated(c, x, i) ==> o.ReportsFill()
  {
    if i.Request? {
      HandleBooks(c, x, i.o, i.ts);
      RequestBooksIff(c, x, i.o, i.ts);
      PlusLaws(x.sv, ZERO_VALUES);
    } else {
      RowBooksReports(c, x, i.k, i.ts, i.ids);
    }
  }

  lemma {:induction false} RunBooksGenuine(c: Config, x: Exch, run: seq<Input>)
    requires Filed(x)
    ensures Run(c, x, run).0.sv == x.sv.Plus(c.acct.Total(GenuineIn(c, x, run)))
    ensures forall o :: o in RepeatedIn(c, x, run) ==> o.ReportsFill()
    decreases |run|
  {
    if run == [] {
      PlusLaws(x.sv, ZERO_VALUES);
    } else {
      var y := Step(c, x, run[0]).0;
      var first, rest := Genuine(c, x, run[0]), GenuineIn(c, y, run[1..]);
      StepBooksGenuine(c, x, run[0]);
      StepKeepsFiled(c, x, run[0]);
      RunBooksGenuine(c, y, run[1..]);
      c.acct.TotalConcat(first, rest);
      PlusAssociates(x.sv, c.acct.Total(first), c.acct.Total(rest));
    }
  }

  /**
    * Over every run the exchange's account grows by exactly its genuine messages, no fill lost or booked twice; so
    * it grows by all that it reported if and only if no claim of a request was repeated.
    */
  lemma RunBooksReports(c: Config, x: Exch, run: seq<Input>)
    requires Filed(x)
    ensures var (z, out) := Run(c, x, run);
            && z.sv == x.sv.Plus(c.acct.Total(GenuineIn(c, x, run)))
            && z.sv.Plus(c.acct.Total(RepeatedIn(c, x, run))) == x.sv.Plus(c.acct.Total(out))
            && (z.sv == x.sv.Plus(c.acct.Total(out)) <==> RepeatedIn(c, x, run) == [])
  {
    var out, genuine, repeated := Run(c, x, run).1, GenuineIn(c, x, run), RepeatedIn(c, x, run);
    var z, g, r := Run(c, x, run).0.sv, c.acct.Total(genuine), c.acct.Total(repeated);
    RunBooksGenuine(c, x, run);
    GenuineOrRepeated(c, x, run);
    c.acct.TotalPermutes(out, genuine + repeated);
    c.acct.TotalConcat(genuine, repeated);
    PlusAssociates(x.sv, g, r);
    FillsCount(c.acct, repeated);
    PlusCounts(z, r);
    PlusLaws(z, ZERO_VALUES);
  }

  /**
    * So every field of the account is a sum over the genuine executions: lots bought less lots sold, money received
    * less money paid, fees, number of fills, lots and money traded.
    */
  lemma AccountIsSummed(c: Config, x: Exch, run: seq<Input>)
    requires Filed(x)
    ensures var genuine := GenuineIn(c, x, run);
            && Run(c, x, run).0.sv == x.sv.Plus(Summed(c.acct, genuine))
            && Fills(genuine) == Fills(Run(c, x, run).1) - |RepeatedIn(c, x, run)|
  {
    var out, genuine, repeated := Run(c, x, run).1, GenuineIn(c, x, run), RepeatedIn(c, x, run);
    var z := Run(c, x, run).0.sv;
    RunBooksReports(c, x, run);
    RunBooksGenuine(c, x, run);
    TotalIsSummed(c.acct, genuine);
    TotalIsSummed(c.acct, out);
    FillsCount(c.acct, repeated);
    PlusCounts(x.sv, c.acct.Total(genuine));
    PlusCounts(x.sv, c.acct.Total(out));
    PlusCounts(z, c.acct.Total(repeated));
  }

  // ---------------------------------------------------------------- equity

  datatype AssetType = Linear | Inverse

  type Price = p: real | p > 0.0 witness 1.0

  /** What a price counts for: itself for a linear contract, its reciprocal for an inverse one. */
  function Rate(t: AssetType, price: Price): real {
    if t == Linear then price else 1.0 / price
  }

  function Equity(t: AssetType, unit: real, sv: StateValues, mid: Price): real {
    if t == Linear then sv.balance + unit * sv.position as real * mid - sv.fee
    else -sv.balance - unit * sv.position as real / mid - sv.fee
  }

  /** The account is kept with this asset type: an execution's amount is its size at its price's rate. */
  ghost predicate KeptWith(acct: Accounting, t: AssetType, unit: real, price: int -> Price) {
    forall tick, qty :: acct.amount(tick, qty) == unit * qty as real * Rate(t, price(tick))
  }

  /** Profit of one execution marked at `mid`: its size times the move of the rate in its favour, less its fee. */
  function Profit(acct: Accounting, t: AssetType, unit: real, price: int -> Price, o: Order, mid: Price): real {
    var favour := if (t == Linear) == (o.side == Buy) then 1.0 else -1.0;
    favour * (unit * o.execQty as real) * (Rate(t, mid) - Rate(t, price(o.execTick)))
    - acct.fee(o, acct.amount(o.execTick, o.execQty))
  }

  function Profits(acct: Accounting, t: AssetType, unit: real, price: int -> Price, msgs: seq<Order>,
                   mid: Price): real {
    if msgs == [] then 0.0
    else (if msgs[0].ReportsFill() then Profit(acct, t, unit, price, msgs[0], mid) else 0.0)
         + Profits(acct, t, unit, price, msgs[1..], mid)
  }

  lemma EquityAdds(t: AssetType, unit: real, a: StateValues, b: StateValues, mid: Price)
    ensures Equity(t, unit, a.Plus(b), mid) == Equity(t, unit, a, mid) + Equity(t, unit, b, mid)
  {
  }

  /**
    * The equity an account reports at a mid price is what it started with plus the profit of each execution
    * marked at that price, for linear and inverse contracts and any fee model.
    */
  lemma EquityIsProfits(
    acct: Accounting, t: AssetType, unit: real, price: int -> Price, sv: StateValues, msgs: seq<Order>, mid: Price)
    requires KeptWith(acct, t, unit, price)
    ensures Equity(t, unit, sv.Plus(acct.Total(msgs)), mid)
         == Equity(t, unit, sv, mid) + Profits(acct, t, unit, price, msgs, mid)
  {
    EquityAdds(t, unit, sv, acct.Total(msgs), mid);
    TotalEquity(acct, t, unit, price, msgs, mid);
  }

  lemma BookingEquity(acct: Accounting, t: AssetType, unit: real, price: int -> Price, o: Order, mid: Price)
    requires KeptWith(acct, t, unit, price)
    ensures Equity(t, unit, acct.Booking(o), mid)
         == if o.ReportsFill() then Profit(acct, t, unit, price, o, mid) else 0.0
  {
  }

  lemma TotalStep(acct: Accounting, msgs: seq<Order>, t: AssetType, unit: real, mid: Price)
    requires msgs != []
    ensures Equity(t, unit, acct.Total(msgs), mid)
         == Equity(t, unit, acct.Booking(msgs[0]), mid) + Equity(t, unit, acct.Total(msgs[1..]), mid)
  {
    EquityAdds(t, unit, acct.Booking(msgs[0]), acct.Total(msgs[1..]), mid);
  }

  lemma {:induction false} TotalEquity(
    acct: Accounting, t: AssetType, unit: real, price: int -> Price, msgs: seq<Order>, mid: Price)
    requires KeptWith(acct, t, unit, price)
    ensures Equity(t, unit, acct.Total(msgs), mid) == Profits(acct, t, unit, price, msgs, mid)
  {
    if msgs != [] {
      TotalEquity(acct, t, unit, price, msgs[1..], mid);
      TotalStep(acct, msgs, t, unit, mid);
      BookingEquity(acct, t, unit, price, msgs[0], mid);
    }
  }
}
