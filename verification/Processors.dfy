/** The two processors of one asset in place: `NoPartialFillExchange` and `Local`. */
module Processors {
  import opened Core
  import opened HashMapDepth
  import opened Exchange
  import opened ExchangeLaws
  import opened OrderBus
  import opened LocalSide

  // ---------------------------------------------------------------- values the loops pass through

  /** The order table in the middle of a scan: touched orders updated, finished ones not yet removed. */
  function Touched(c: Config, orders: map<OrderId, Resting>, ids: seq<OrderId>, why: Trigger, ts: int)
    : map<OrderId, Resting>
  {
    map id | id in orders :: if id in ids then Touch(c, orders[id], why, ts).r else orders[id]
  }

  /** The ids of `filled_orders_` in the middle of a scan. */
  function Gone(c: Config, orders: map<OrderId, Resting>, ids: seq<OrderId>, why: Trigger, ts: int): seq<OrderId> {
    if ids == [] then []
    else
      var last := ids[|ids| - 1];
      Gone(c, orders, ids[..|ids| - 1], why, ts)
      + if last in orders && Touch(c, orders[last], why, ts).gone then [last] else []
  }

  lemma {:induction false} GoneExactly(c: Config, orders: map<OrderId, Resting>, ids: seq<OrderId>, why: Trigger,
                                       ts: int)
    ensures forall id :: id in Gone(c, orders, ids, why, ts) <==>
                         id in ids && id in orders && Touch(c, orders[id], why, ts).gone
  {
    if ids != [] {
      GoneExactly(c, orders, ids[..|ids| - 1], why, ts);
      assert ids == ids[..|ids| - 1] + [ids[|ids| - 1]];
    }
  }

  lemma {:induction false} ApplyFillsConcat(acct: Accounting, sv: StateValues, a: seq<Order>, b: seq<Order>)
    ensures ApplyFills(acct, sv, a + b) == ApplyFills(acct, ApplyFills(acct, sv, a), b)
    decreases |a|
  {
    if a == [] {
      assert a + b == b;
    } else {
      assert (a + b)[1..] == a[1..] + b;
      ApplyFillsConcat(acct, acct.ApplyFill(sv, a[0]), a[1..], b);
    }
  }

  lemma {:induction false} RespondAllConcat(lm: Latency, bus: seq<Msg>, a: seq<Order>, b: seq<Order>)
    ensures RespondAll(lm, bus, a + b) == RespondAll(lm, RespondAll(lm, bus, a), b)
    decreases |a|
  {
    if a == [] {
      assert a + b == b;
    } else {
      assert (a + b)[1..] == a[1..] + b;
      RespondAllConcat(lm, Respond(lm, bus, a[0]), a[1..], b);
    }
  }

  /** The id index of one side agrees with the order table, both ways. */
  ghost predicate Indexed(orders: map<OrderId, Resting>, index: map<int, set<OrderId>>, side: Side) {
    forall t: int, id: OrderId ::
      (t in index && id in index[t]) <==> (id in orders && orders[id].o.side == side && orders[id].o.tick == t)
  }

  lemma TouchedOneMore(c: Config, orders: map<OrderId, Resting>, ids: seq<OrderId>, id: OrderId, why: Trigger, ts: int)
    requires id in orders && id !in ids
    ensures Touched(c, orders, ids, why, ts)[id] == orders[id]
    ensures Touched(c, orders, ids + [id], why, ts)
         == Touched(c, orders, ids, why, ts)[id := Touch(c, orders[id], why, ts).r]
  {
  }

  lemma GoneOneMore(c: Config, orders: map<OrderId, Resting>, ids: seq<OrderId>, id: OrderId, why: Trigger, ts: int)
    requires id in orders
    ensures Gone(c, orders, ids + [id], why, ts)
         == Gone(c, orders, ids, why, ts) + if Touch(c, orders[id], why, ts).gone then [id] else []
  {
  }

  /** One more order of a scan. */
  lemma TouchOneMore(c: Config, orders: map<OrderId, Resting>, ids: seq<OrderId>, n: nat, why: Trigger, ts: int)
    requires n < |ids| && ids[n] in orders
    requires forall i, j :: 0 <= i < j < |ids| ==> ids[i] != ids[j]
    ensures var t := Touch(c, orders[ids[n]], why, ts);
            && Touched(c, orders, ids[..n], why, ts)[ids[n]] == orders[ids[n]]
            && Touched(c, orders, ids[..n + 1], why, ts) == Touched(c, orders, ids[..n], why, ts)[ids[n] := t.r]
            && Gone(c, orders, ids[..n + 1], why, ts)
               == Gone(c, orders, ids[..n], why, ts) + (if t.gone then [ids[n]] else [])
            && Reports(c, orders, ids[..n + 1], why, ts) == Reports(c, orders, ids[..n], why, ts) + t.reports
  {
    assert ids[..n + 1] == ids[..n] + [ids[n]];
    assert ids[n] !in ids[..n];
    TouchedOneMore(c, orders, ids[..n], ids[n], why, ts);
    GoneOneMore(c, orders, ids[..n], ids[n], why, ts);
    ReportsConcat(c, orders, ids[..n], [ids[n]], why, ts);
    assert Reports(c, orders, [ids[n]], why, ts) == Touch(c, orders[ids[n]], why, ts).reports;
  }

  /** One message of a batch further. */
  lemma OneFurther(all: seq<Msg>, n: nat, done: nat)
    requires done < n <= |all|
    ensures all[..n][done..] != [] && all[..n][done..][0] == all[done] && all[..n][done..][1..] == all[..n][done + 1..]
    ensures all[done..][1..] == all[done + 1..]
  {
  }

  /** The state of a scan after its first `n` orders. */
  ghost predicate ScannedTo(
    c: Config, lm: Latency, was: Exch, q0: seq<Msg>, ids: seq<OrderId>, n: nat, why: Trigger, ts: int,
    orders: map<OrderId, Resting>, filled: seq<OrderId>, sv: StateValues, q: seq<Msg>)
    requires n <= |ids|
  {
    var reports := Reports(c, was.orders, ids[..n], why, ts);
    && orders == Touched(c, was.orders, ids[..n], why, ts) && filled == Gone(c, was.orders, ids[..n], why, ts)
    && sv == ApplyFills(c.acct, was.sv, reports) && q == RespondAll(lm, q0, reports)
  }

  lemma ScanStarts(c: Config, lm: Latency, was: Exch, q0: seq<Msg>, ids: seq<OrderId>, why: Trigger, ts: int)
    ensures ScannedTo(c, lm, was, q0, ids, 0, why, ts, was.orders, [], was.sv, q0)
  {
    assert Touched(c, was.orders, ids[..0], why, ts) == was.orders;
  }

  lemma ScannedFurther(
    c: Config, lm: Latency, was: Exch, q0: seq<Msg>, ids: seq<OrderId>, n: nat, why: Trigger, ts: int,
    orders: map<OrderId, Resting>, filled: seq<OrderId>, sv: StateValues, q: seq<Msg>)
    requires n < |ids| && ids[n] in was.orders && forall i, j :: 0 <= i < j < |ids| ==> ids[i] != ids[j]
    requires ScannedTo(c, lm, was, q0, ids, n, why, ts, orders, filled, sv, q)
    ensures ids[n] in orders && orders[ids[n]] == was.orders[ids[n]]
    ensures var t := Touch(c, orders[ids[n]], why, ts);
            ScannedTo(c, lm, was, q0, ids, n + 1, why, ts, orders[ids[n] := t.r],
                      filled + (if t.gone then [ids[n]] else []),
                      ApplyFills(c.acct, sv, t.reports), RespondAll(lm, q, t.reports))
  {
    TouchOneMore(c, was.orders, ids, n, why, ts);
    BookOneMore(c, lm, was.orders, was.sv, q0, ids, n, why, ts);
  }

  /** One more order of a scan, as the account and the bus see it. */
  lemma BookOneMore(
    c: Config, lm: Latency, orders: map<OrderId, Resting>, sv: StateValues, q: seq<Msg>, ids: seq<OrderId>, n: nat,
    why: Trigger, ts: int)
    requires n < |ids| && ids[n] in orders
    requires forall i, j :: 0 <= i < j < |ids| ==> ids[i] != ids[j]
    ensures var reports := Touch(c, orders[ids[n]], why, ts).reports;
            && ApplyFills(c.acct, sv, Reports(c, orders, ids[..n + 1], why, ts))
               == ApplyFills(c.acct, ApplyFills(c.acct, sv, Reports(c, orders, ids[..n], why, ts)), reports)
            && RespondAll(lm, q, Reports(c, orders, ids[..n + 1], why, ts))
               == RespondAll(lm, RespondAll(lm, q, Reports(c, orders, ids[..n], why, ts)), reports)
  {
    var so, reports := Reports(c, orders, ids[..n], why, ts), Touch(c, orders[ids[n]], why, ts).reports;
    TouchOneMore(c, orders, ids, n, why, ts);
    ApplyFillsConcat(c.acct, sv, so, reports);
    RespondAllConcat(lm, q, so, reports);
  }

  /** Removing the finished orders of a scan gives its result. */
  lemma SweptFromTouched(c: Config, orders: map<OrderId, Resting>, ids: seq<OrderId>, why: Trigger, ts: int)
    ensures var mid, gone := Touched(c, orders, ids, why, ts), Gone(c, orders, ids, why, ts);
            (map id | id in mid && id !in gone :: mid[id]) == Swept(c, orders, ids, why, ts)
  {
    GoneExactly(c, orders, ids, why, ts);
  }

  /** Touching orders leaves every index in agreement. */
  lemma TouchedKeepsPlace(
    c: Config, orders: map<OrderId, Resting>, index: map<int, set<OrderId>>, side: Side, ids: seq<OrderId>,
    why: Trigger, ts: int)
    requires Indexed(orders, index, side)
    ensures Indexed(Touched(c, orders, ids, why, ts), index, side)
  {
  }

  function RequeueIds(c: Config, orders: map<OrderId, Resting>, ids: set<OrderId>, prev: int, now: int)
    : map<OrderId, Resting>
  {
    map id | id in orders :: if id in ids then orders[id].(q := c.queue.depth(orders[id].q, prev, now)) else orders[id]
  }

  /** The index entry of a tick is exactly the set of orders there. */
  lemma RequeueByIndex(
    c: Config, orders: map<OrderId, Resting>, index: map<int, set<OrderId>>, side: Side, tick: int, prev: int, now: int)
    requires Indexed(orders, index, side)
    ensures var ids := if tick in index then index[tick] else {};
            && ids <= orders.Keys
            && RequeueIds(c, orders, ids, prev, now) == Requeue(c, orders, side, tick, prev, now)
            && Indexed(Requeue(c, orders, side, tick, prev, now), index, side)
  {
  }

  lemma RequeueKeepsPlace(
    c: Config, orders: map<OrderId, Resting>, index: map<int, set<OrderId>>, side: Side, other: Side, tick: int,
    prev: int, now: int)
    requires Indexed(orders, index, other)
    ensures Indexed(Requeue(c, orders, side, tick, prev, now), index, other)
  {
  }

  /** Which orders a scan visits does not depend on queue positions. */
  lemma VisitedIgnoresQueue(
    c: Config, orders: map<OrderId, Resting>, at: Side, tick: int, prev: int, now: int, side: Side, limit: int,
    from: int)
    ensures Visited(Requeue(c, orders, at, tick, prev, now), side, limit, from) == Visited(orders, side, limit, from)
  {
    var after := Requeue(c, orders, at, tick, prev, now);
    assert after.Keys == orders.Keys;
    assert |after| == |after.Keys| && |orders| == |orders.Keys|;
    assert Reach(after, side, limit) == Reach(orders, side, limit);
    assert Window(after, side, limit, from) == Window(orders, side, limit, from);
  }

  /** Orders of one side with ticks in [lo, hi). */
  function Between(orders: map<OrderId, Resting>, side: Side, lo: int, hi: int): set<OrderId> {
    set id | id in orders && orders[id].o.side == side && lo <= orders[id].o.tick < hi
  }

  /** One more tick, at either end of the range, adds exactly that tick's entry of the index. */
  lemma BetweenGrows(
    orders: map<OrderId, Resting>, index: map<int, set<OrderId>>, side: Side, lo: int, hi: int, t: int)
    requires Indexed(orders, index, side) && lo <= hi
    ensures var more := if t in index then index[t] else {};
            && (t == hi ==> Between(orders, side, lo, hi + 1) == Between(orders, side, lo, hi) + more)
            && (t == lo - 1 ==> Between(orders, side, t, hi) == Between(orders, side, lo, hi) + more)
  {
  }

  lemma WindowIsBetween(orders: map<OrderId, Resting>, side: Side, limit: int, from: int)
    ensures side == Sell ==> Window(orders, side, limit, from) == Between(orders, side, from + 1, Max(from, limit) + 1)
    ensures side == Buy ==> Window(orders, side, limit, from) == Between(orders, side, Min(from, limit), from)
  {
  }

  // ---------------------------------------------------------------- the exchange

  class NoPartialFillExchange {
    const c: Config
    const depth: HashMapMarketDepth
    const bus: ExchToLocal
    var sv: StateValues
    var orders: map<OrderId, Resting>
    var buys: map<int, set<OrderId>>
    var sells: map<int, set<OrderId>>
    var filled: seq<OrderId>

    /** Both indexes and the order table agree, so no lookup through an index can miss. */
    ghost predicate Valid()
      reads this
    {
      && Indexed(orders, buys, Buy) && Indexed(orders, sells, Sell)
      && bus.toExch != bus.toLocal
    }

    function View(): Exch
      reads this, depth
    {
      Exch(depth.View(), sv, orders)
    }

    constructor (c: Config, depth: HashMapMarketDepth, bus: ExchToLocal)
      requires bus.toExch != bus.toLocal
      ensures Valid() && this.c == c && this.depth == depth && this.bus == bus
      ensures filled == [] && View() == Exch(depth.View(), ZERO_VALUES, map[])
    {
      this.c, this.depth, this.bus := c, depth, bus;
      sv, orders, buys, sells, filled := ZERO_VALUES, map[], map[], map[], [];
    }

    /** The scan over every order. */
    method ScanAll(side: Side, limit: int) returns (ids: seq<OrderId>)
      requires Valid()
      ensures Enumerates(ids, Reach(orders, side, limit))
    {
      var rest := orders.Keys;
      ids := [];
      while rest != {}
        invariant rest <= orders.Keys
        invariant Enumerates(ids, Reach(orders, side, limit) - rest)
        decreases |rest|
      {
        var id :| id in rest;
        rest := rest - {id};
        if orders[id].o.side == side && !Ahead(side, limit, orders[id].o.tick) {
          ids := ids + [id];
        }
      }
    }

    /** The scan over the ticks strictly beyond the reference, up to the limit. */
    method ScanRange(side: Side, limit: int, from: int) returns (ids: seq<OrderId>)
      requires Valid()
      ensures Enumerates(ids, Window(orders, side, limit, from))
    {
      ids := [];
      if side == Sell {
        var t := from + 1;
        while t <= limit
          invariant from < t <= Max(from, limit) + 1
          invariant Enumerates(ids, Between(orders, Sell, from + 1, t))
          decreases limit - t
        {
          if t in sells {
            var more := Traverse(sells[t]);
            EnumeratesUnion(ids, Between(orders, Sell, from + 1, t), more, sells[t]);
            ids := ids + more;
          }
          BetweenGrows(orders, sells, Sell, from + 1, t, t);
          t := t + 1;
        }
        WindowIsBetween(orders, Sell, limit, from);
      } else {
        var t := from - 1;
        while t >= limit
          invariant Min(from, limit) - 1 <= t < from
          invariant Enumerates(ids, Between(orders, Buy, t + 1, from))
          decreases t - limit
        {
          if t in buys {
            var more := Traverse(buys[t]);
            EnumeratesUnion(ids, Between(orders, Buy, t + 1, from), more, buys[t]);
            ids := ids + more;
          }
          BetweenGrows(orders, buys, Buy, t + 1, from, t);
          t := t - 1;
        }
        WindowIsBetween(orders, Buy, limit, from);
      }
    }

    /** Copy a set in some order. */
    static method Traverse(s: set<OrderId>) returns (ids: seq<OrderId>)
      ensures Enumerates(ids, s)
    {
      var rest := s;
      ids := [];
      while rest != {}
        invariant rest <= s && Enumerates(ids, s - rest)
        decreases |rest|
      {
        var id :| id in rest;
        rest := rest - {id};
        ids := ids + [id];
      }
    }

    /** Pick the cheaper scan. */
    method ScanByCost(side: Side, limit: int, from: int) returns (ids: seq<OrderId>)
      requires Valid()
      ensures Enumerates(ids, Visited(orders, side, limit, from))
    {
      var scanAll := if side == Sell then from == INVALID_MIN || |orders| < limit - from
                     else from == INVALID_MAX || |orders| < from - limit;
      if scanAll {
        ids := ScanAll(side, limit);
      } else {
        ids := ScanRange(side, limit, from);
      }
    }

    /** Execute part of a resting order and report it, unless it is already finished. */
    method FillResting(id: OrderId, ts: int, execQty: int)
      requires id in orders && bus.toExch != bus.toLocal
      modifies this`orders, this`sv, bus.toLocal
      ensures var was := old(orders)[id].o;
              var o := Fill(was, ts, true, was.tick, execQty);
              var reports := if was.Terminal() then [] else [o];
              && orders == old(orders)[id := old(orders)[id].(o := o)]
              && sv == ApplyFills(c.acct, old(sv), reports)
              && bus.toLocal.q == RespondAll(bus.lm, old(bus.toLocal.q), reports)
    {
      var r := orders[id];
      if r.o.Terminal() {
        return;
      }
      var o := r.o.(maker := true, execTick := r.o.tick, execQty := execQty, leaves := Max(0, r.o.leaves - execQty));
      o := o.(status := if o.leaves > 0 then PartiallyFilled else Filled, exchTs := ts);
      sv := c.acct.ApplyFill(sv, o);
      orders := orders[id := r.(o := o)];
      bus.Answer(o);
      assert ApplyFills(c.acct, old(sv), [o]) == ApplyFills(c.acct, c.acct.ApplyFill(old(sv), o), []);
      assert RespondAll(bus.lm, old(bus.toLocal.q), [o])
           == RespondAll(bus.lm, Respond(bus.lm, old(bus.toLocal.q), o), []);
    }

    /** Look at one order of a scan: `check_if_sell_filled`, `check_if_buy_filled`, `fill_maker`. */
    method CheckFilled(id: OrderId, why: Trigger, ts: int)
      requires id in orders && bus.toExch != bus.toLocal
      modifies this`orders, this`sv, this`filled, bus.toLocal
      ensures var t := Touch(c, old(orders)[id], why, ts);
              && orders == old(orders)[id := t.r]
              && filled == old(filled) + (if t.gone then [id] else [])
              && sv == ApplyFills(c.acct, old(sv), t.reports)
              && bus.toLocal.q == RespondAll(bus.lm, old(bus.toLocal.q), t.reports)
    {
      var r := orders[id];
      if why == BestMoved || Ahead(r.o.side, r.o.tick, why.tick) {
        filled := filled + [id];
        FillResting(id, ts, r.o.leaves);
      } else if r.o.tick == why.tick {
        var (pos, executable) := c.queue.isFilled(c.queue.trade(r.q, why.qty));
        orders := orders[id := r.(q := pos)];
        if executable > 0 {
          if c.partial {
            FillResting(id, ts, Min(executable, r.o.leaves));
            if orders[id].o.status == Filled {
              filled := filled + [id];
            }
          } else {
            filled := filled + [id];
            FillResting(id, ts, r.o.leaves);
          }
        }
      }
    }

    /** Process the next scanned order. */
    method TouchNext(
      ghost was: Exch, ghost q0: seq<Msg>, ids: seq<OrderId>, n: nat, why: Trigger, ts: int)
      requires n < |ids| && ids[n] in was.orders && bus.toExch != bus.toLocal
      requires forall i, j :: 0 <= i < j < |ids| ==> ids[i] != ids[j]
      requires ScannedTo(c, bus.lm, was, q0, ids, n, why, ts, orders, filled, sv, bus.toLocal.q)
      modifies this`orders, this`sv, this`filled, bus.toLocal
      ensures ScannedTo(c, bus.lm, was, q0, ids, n + 1, why, ts, orders, filled, sv, bus.toLocal.q)
    {
      ScannedFurther(c, bus.lm, was, q0, ids, n, why, ts, orders, filled, sv, bus.toLocal.q);
      CheckFilled(ids[n], why, ts);
    }

    /** Process the scanned orders one after the other. */
    method TouchAll(ids: seq<OrderId>, why: Trigger, ts: int)
      requires filled == [] && bus.toExch != bus.toLocal
      requires forall i, j :: 0 <= i < j < |ids| ==> ids[i] != ids[j]
      requires forall id :: id in ids ==> id in orders
      modifies this`orders, this`sv, this`filled, bus.toLocal
      ensures orders == Touched(c, old(orders), ids, why, ts)
      ensures filled == Gone(c, old(orders), ids, why, ts)
      ensures sv == ApplyFills(c.acct, old(sv), Reports(c, old(orders), ids, why, ts))
      ensures bus.toLocal.q == RespondAll(bus.lm, old(bus.toLocal.q), Reports(c, old(orders), ids, why, ts))
    {
      ghost var was, q0 := View(), bus.toLocal.q;
      ScanStarts(c, bus.lm, was, q0, ids, why, ts);
      for n := 0 to |ids|
        invariant ScannedTo(c, bus.lm, was, q0, ids, n, why, ts, orders, filled, sv, bus.toLocal.q)
      {
        TouchNext(was, q0, ids, n, why, ts);
      }
      assert ids[..|ids|] == ids;
    }

    /** Process the scanned orders, then remove the finished ones. */
    method SweepOrders(ids: seq<OrderId>, why: Trigger, ts: int)
      requires Valid() && filled == []
      requires forall i, j :: 0 <= i < j < |ids| ==> ids[i] != ids[j]
      requires forall id :: id in ids ==> id in orders
      modifies this, bus.toLocal
      ensures Valid() && filled == []
      ensures orders == Swept(c, old(orders), ids, why, ts)
      ensures sv == ApplyFills(c.acct, old(sv), Reports(c, old(orders), ids, why, ts))
      ensures bus.toLocal.q == RespondAll(bus.lm, old(bus.toLocal.q), Reports(c, old(orders), ids, why, ts))
    {
      TouchAll(ids, why, ts);
      TouchedKeepsPlace(c, old(orders), buys, Buy, ids, why, ts);
      TouchedKeepsPlace(c, old(orders), sells, Sell, ids, why, ts);
      SweptFromTouched(c, old(orders), ids, why, ts);
      RemoveFilledOrders();
    }

    /** Drop the finished orders from the table and from the indexes. */
    method RemoveFilledOrders()
      requires Valid()
      modifies this
      ensures Valid() && filled == [] && sv == old(sv)
      ensures orders == map id | id in old(orders) && id !in old(filled) :: old(orders)[id]
    {
      for n := 0 to |filled|
        invariant Valid() && filled == old(filled) && sv == old(sv)
        invariant orders == map id | id in old(orders) && id !in filled[..n] :: old(orders)[id]
      {
        var id := filled[n];
        assert filled[..n + 1] == filled[..n] + [id];
        if id in orders {
          Unfile(id);
        }
      }
      assert filled[..|filled|] == filled;
      filled := [];
    }

    /** Take one order out of the table and its index. */
    method Unfile(id: OrderId)
      requires Valid() && id in orders
      modifies this`orders, this`buys, this`sells
      ensures Valid() && orders == old(orders) - {id}
    {
      var o := orders[id].o;
      if o.side == Buy {
        buys := buys[o.tick := buys[o.tick] - {id}];
      } else {
        sells := sells[o.tick := sells[o.tick] - {id}];
      }
      orders := orders - {id};
    }

    /** Put one order into the table and its index. */
    method File(r: Resting)
      requires Valid() && r.o.id !in orders
      modifies this`orders, this`buys, this`sells
      ensures Valid() && orders == old(orders)[r.o.id := r]
    {
      var t := r.o.tick;
      if r.o.side == Buy {
        buys := buys[t := (if t in buys then buys[t] else {}) + {r.o.id}];
      } else {
        sells := sells[t := (if t in sells then sells[t] else {}) + {r.o.id}];
      }
      orders := orders[r.o.id := r];
    }

    /** `on_bid_qty_chg`, `on_ask_qty_chg`: every order at the tick hears of the new displayed quantity. */
    method OnQtyChange(side: Side, tick: int, prev: int, now: int)
      requires Valid()
      modifies this`orders
      ensures Valid() && orders == Requeue(c, old(orders), side, tick, prev, now)
    {
      var index := if side == Buy then buys else sells;
      RequeueByIndex(c, orders, index, side, tick, prev, now);
      RequeueKeepsPlace(c, orders, buys, side, Buy, tick, prev, now);
      RequeueKeepsPlace(c, orders, sells, side, Sell, tick, prev, now);
      if tick in index {
        RequeueEach(index[tick], prev, now);
      } else {
        assert RequeueIds(c, orders, {}, prev, now) == orders;
      }
    }

    method RequeueEach(ids: set<OrderId>, prev: int, now: int)
      requires ids <= orders.Keys
      modifies this`orders
      ensures orders == RequeueIds(c, old(orders), ids, prev, now)
    {
      ghost var before := orders;
      var rest := ids;
      assert orders == RequeueIds(c, before, ids - rest, prev, now);
      while rest != {}
        invariant rest <= ids
        invariant orders == RequeueIds(c, before, ids - rest, prev, now)
        decreases |rest|
      {
        var id :| id in rest;
        assert orders[id] == before[id];
        rest := rest - {id};
        orders := orders[id := orders[id].(q := c.queue.depth(orders[id].q, prev, now))];
      }
      assert ids - rest == ids;
    }

    /** `on_best_bid_update`, `on_best_ask_update`: execute the orders the opposite best moved through. */
    method OnBestUpdate(side: Side, prevBest: int, newBest: int, ts: int) returns (ghost ids: seq<OrderId>)
      requires Valid() && filled == []
      modifies this, bus.toLocal
      ensures Valid() && filled == []
      ensures Enumerates(ids, Visited(old(orders), side, newBest, prevBest))
      ensures orders == Swept(c, old(orders), ids, BestMoved, ts)
      ensures sv == ApplyFills(c.acct, old(sv), Reports(c, old(orders), ids, BestMoved, ts))
      ensures bus.toLocal.q == RespondAll(bus.lm, old(bus.toLocal.q), Reports(c, old(orders), ids, BestMoved, ts))
    {
      var toFill := ScanByCost(side, newBest, prevBest);
      ids := toFill;
      SweepOrders(toFill, BestMoved, ts);
    }

    /** A trade against the resting orders of `side`. */
    method OnTrade(side: Side, tick: int, qty: nat, ts: int) returns (ghost ids: seq<OrderId>)
      requires Valid() && filled == []
      modifies this, bus.toLocal
      ensures Valid() && filled == []
      ensures Enumerates(ids, Visited(old(orders), side, tick, OppositeBest(depth.View(), side)))
      ensures orders == Swept(c, old(orders), ids, TradeAt(tick, qty), ts)
      ensures sv == ApplyFills(c.acct, old(sv), Reports(c, old(orders), ids, TradeAt(tick, qty), ts))
      ensures bus.toLocal.q
           == RespondAll(bus.lm, old(bus.toLocal.q), Reports(c, old(orders), ids, TradeAt(tick, qty), ts))
    {
      var hit := ScanByCost(side, tick, if side == Sell then depth.bestBid else depth.bestAsk);
      ids := hit;
      SweepOrders(hit, TradeAt(tick, qty), ts);
    }

    /** Process one feed row. `ids` is the order in which the scanned orders were visited. */
    method Process(k: EventKind, ts: int) returns (ghost ids: seq<OrderId>)
      requires Valid() && filled == [] && FeedRow(k)
      modifies this, depth, bus.toLocal
      ensures Valid() && filled == []
      ensures Enumerates(ids, VisitedBy(old(View()), k))
      ensures (View(), bus.toLocal.q) ==
        var f := Feed(c, old(View()), k, ts, ids); (f.0, RespondAll(bus.lm, old(bus.toLocal.q), f.1))
    {
      ids := [];
      match k {
        case ClearBids(cut) => depth.ClearBidDepth(cut);
        case ClearAsks(cut) => depth.ClearAskDepth(cut);
        case ClearAll => depth.ClearAllDepth();
        case BidDepth(t, q) =>
          var du := depth.UpdateBidDepth(t, q, ts);
          OnQtyChange(Buy, du.tick, du.prevQty, du.newQty);
          if du.newBest > du.prevBest {
            VisitedIgnoresQueue(c, old(orders), Buy, du.tick, du.prevQty, du.newQty, Sell, du.newBest, du.prevBest);
            ids := OnBestUpdate(Sell, du.prevBest, du.newBest, ts);
          }
        case AskDepth(t, q) =>
          var du := depth.UpdateAskDepth(t, q, ts);
          OnQtyChange(Sell, du.tick, du.prevQty, du.newQty);
          if du.newBest < du.prevBest {
            VisitedIgnoresQueue(c, old(orders), Sell, du.tick, du.prevQty, du.newQty, Buy, du.newBest, du.prevBest);
            ids := OnBestUpdate(Buy, du.prevBest, du.newBest, ts);
          }
        case BuyTrade(t, q) => ids := OnTrade(Sell, t, q, ts);
        case SellTrade(t, q) => ids := OnTrade(Buy, t, q, ts);
        case OtherEvent =>
      }
    }

    /** Execute an incoming order against the opposite best; the reply is sent by the caller. */
    method FillIncoming(o: Order, ts: int) returns (reply: Order)
      modifies this`sv
      ensures Ack(View(), reply) == TakerFill(c, old(View()), o, ts)
    {
      if o.Terminal() {
        return o;
      }
      reply := Fill(o, ts, false, if o.side == Buy then depth.bestAsk else depth.bestBid, o.leaves);
      sv := c.acct.ApplyFill(sv, reply);
    }

    method HandleNew(request: Order, ts: int) returns (reply: Order)
      requires Valid()
      modifies this
      ensures Valid() && filled == old(filled) && Ack(View(), reply) == AckNew(c, old(View()), request, ts)
    {
      if request.id in orders {
        return request.(req := Rejected, exchTs := ts);
      }
      var o := request.(req := NoStatus);
      if o.ordType == Market {
        reply := FillIncoming(o, ts);
        return;
      }
      var marketable := if o.side == Buy then o.tick >= depth.bestAsk else o.tick <= depth.bestBid;
      if marketable {
        if o.tif == GTX {
          return o.(status := Expired, exchTs := ts);
        }
        reply := FillIncoming(o, ts);
      } else if o.tif == GTC || o.tif == GTX {
        var pos := c.queue.newOrder(if o.side == Buy then At(depth.bids, o.tick) else At(depth.asks, o.tick));
        reply := o.(status := New, exchTs := ts);
        File(Resting(reply, pos));
      } else {
        reply := o.(status := Expired, exchTs := ts);
      }
    }

    method HandleCancel(request: Order, ts: int) returns (reply: Order)
      requires Valid()
      modifies this
      ensures Valid() && filled == old(filled) && Ack(View(), reply) == AckCancel(old(View()), request, ts)
    {
      if request.id !in orders {
        return request.(req := Rejected, exchTs := ts);
      }
      reply := orders[request.id].o.(req := NoStatus, status := Canceled, exchTs := ts);
      Unfile(request.id);
    }

    method HandleModify(request: Order, ts: int) returns (reply: Order)
      requires Valid()
      modifies this
      ensures Valid() && filled == old(filled) && Ack(View(), reply) == AckModify(c, old(View()), request, ts)
    {
      if request.id !in orders {
        return request.(req := Rejected, exchTs := ts);
      }
      var r := orders[request.id];
      if r.o.tick != request.tick || request.qty > r.o.leaves {
        var canceled := HandleCancel(request, ts);
        reply := HandleNew(request, ts);
      } else {
        orders := orders[request.id :=
          r.(o := r.o.(qty := request.qty, leaves := request.qty, exchTs := ts, status := New))];
        reply := request.(leaves := request.qty, exchTs := ts, status := New);
      }
    }

    /** Handle one request and send its reply. */
    method HandleAndAnswer(o: Order, ts: int)
      requires Valid()
      modifies this, bus.toLocal
      ensures Valid() && filled == old(filled)
      ensures var a := Handle(c, old(View()), o, ts);
              View() == a.x && bus.toLocal.q == Respond(bus.lm, old(bus.toLocal.q), a.reply)
    {
      var reply := o;
      if o.req == New {
        reply := HandleNew(o, ts);
      } else if o.req == Canceled {
        reply := HandleCancel(o, ts);
      } else if o.req == Replaced {
        reply := HandleModify(o, ts);
      }
      assert Ack(View(), reply) == Handle(c, old(View()), o, ts);
      bus.Answer(reply);
    }

    /** Receive and answer every request due exactly now. */
    method ProcessRecvOrder(ts: int)
      requires Valid() && filled == [] && SortedFrom(bus.toExch.q, ts)
      modifies this, bus.toExch, bus.toLocal
      ensures Valid() && filled == []
      ensures bus.toExch.q == old(bus.toExch.q)[Batch(old(bus.toExch.q), ts)..]
      ensures (View(), bus.toLocal.q) ==
        Serve(c, bus.lm, old(View()), old(bus.toLocal.q), old(bus.toExch.q)[..Batch(old(bus.toExch.q), ts)], ts)
    {
      ghost var all, n := bus.toExch.q, Batch(bus.toExch.q, ts);
      ghost var done := 0;
      ghost var served := Serve(c, bus.lm, View(), bus.toLocal.q, all[..n], ts);
      assert all[0..] == all && all[..n][0..] == all[..n];
      while true
        invariant Valid() && filled == [] && SortedFrom(bus.toExch.q, ts)
        invariant done <= n && bus.toExch.q == all[done..] && Batch(bus.toExch.q, ts) == n - done
        invariant Serve(c, bus.lm, View(), bus.toLocal.q, all[..n][done..], ts) == served
        decreases n - done
      {
        var opt := bus.toExch.Receive(ts);
        if opt.None? {
          assert all[..n][done..] == [];
          return;
        }
        OneFurther(all, n, done);
        HandleAndAnswer(opt.value, ts);
        done := done + 1;
      }
    }
  }

  /** Answer a batch of requests in order. */
  function Serve(c: Config, lm: Latency, x: Exch, toLocal: seq<Msg>, msgs: seq<Msg>, ts: int): (Exch, seq<Msg>)
    decreases |msgs|
  {
    if msgs == [] then (x, toLocal)
    else
      var a := Handle(c, x, msgs[0].order, ts);
      Serve(c, lm, a.x, Respond(lm, toLocal, a.reply), msgs[1..], ts)
  }

  /** Take in a batch of replies in order. */
  function TakeIn(acct: Accounting, l: Local, msgs: seq<Msg>): Local
    decreases |msgs|
  {
    if msgs == [] then l else TakeIn(acct, Receive(acct, l, msgs[0].order), msgs[1..])
  }

  lemma TakenFurther(acct: Accounting, l: Local, all: seq<Msg>, n: nat, done: nat)
    requires done < n <= |all|
    ensures TakeIn(acct, l, all[..n][done..]) == TakeIn(acct, Receive(acct, l, all[done].order), all[..n][done + 1..])
  {
    OneFurther(all, n, done);
  }

  /** The awaited order is among the first `n` messages. */
  predicate Among(waitId: Option<OrderId>, all: seq<Msg>, n: nat)
    requires n <= |all|
  {
    waitId.Some? && exists i :: 0 <= i < n && all[i].order.id == waitId.value
  }

  lemma AmongOneMore(waitId: Option<OrderId>, all: seq<Msg>, n: nat)
    requires n < |all|
    ensures Among(waitId, all, n + 1) <==> Among(waitId, all, n) || waitId == Some(all[n].order.id)
  {
  }

  /** The state of a batch of replies after its first `done`. */
  ghost predicate TakenTo(
    acct: Accounting, waitId: Option<OrderId>, all: seq<Msg>, n: nat, ts: int, done: nat, taken: Local,
    l: Local, q: seq<Msg>, got: bool)
  {
    && done <= n <= |all| && q == all[done..] && Batch(q, ts) == n - done
    && TakeIn(acct, l, all[..n][done..]) == taken && (got <==> Among(waitId, all, done))
  }

  // ---------------------------------------------------------------- the local side

  class LocalProcessor {
    const acct: Accounting
    const depth: HashMapMarketDepth
    const bus: LocalToExch
    var sv: StateValues
    var orders: map<OrderId, Order>

    function View(): Local
      reads this, depth
    {
      Local.Local(depth.View(), sv, orders)
    }

    constructor (acct: Accounting, depth: HashMapMarketDepth, bus: LocalToExch)
      ensures this.acct == acct && this.depth == depth && this.bus == bus
      ensures View() == Local.Local(depth.View(), ZERO_VALUES, map[])
    {
      this.acct, this.depth, this.bus := acct, depth, bus;
      sv, orders := ZERO_VALUES, map[];
    }

    /** Submit, modify or cancel; `ok` is false where the source throws, and then nothing changes. */
    method Perform(cmd: Command, now: int) returns (ok: bool)
      requires bus.toExch != bus.toLocal
      modifies this`orders, bus.toExch, bus.toLocal
      ensures match Issue(old(View()), cmd, now)
              case Refused =>
                !ok && View() == old(View()) && bus.toExch.q == old(bus.toExch.q) && bus.toLocal.q == old(bus.toLocal.q)
              case Sent(l, request, rejected) =>
                ok && View() == l
                && Buses(bus.toExch.q, bus.toLocal.q)
                     == Send(bus.lm, old(Buses(bus.toExch.q, bus.toLocal.q)), request, rejected)
    {
      match cmd {
        case Submit(id, side, tick, qty, ordType, tif) =>
          if id in orders {
            return false;
          }
          var o := Order.Order(id, side, ordType, tif, tick, qty, qty, 0, 0, false, 0, now, New, NoStatus);
          orders := orders[id := o];
          bus.Request(o, o.(req := Rejected));
        case Modify(id, tick, qty) =>
          if id !in orders || orders[id].req != NoStatus {
            return false;
          }
          var origTick, origQty := orders[id].tick, orders[id].qty;
          var o := orders[id].(tick := tick, qty := qty, req := Replaced, localTs := now);
          orders := orders[id := o];
          bus.Request(o, o.(req := Rejected, tick := origTick, qty := origQty));
        case Cancel(id) =>
          if id !in orders || orders[id].req != NoStatus {
            return false;
          }
          var o := orders[id].(req := Canceled, localTs := now);
          orders := orders[id := o];
          bus.Request(o, o.(req := Rejected));
      }
      return true;
    }

    /** Walk the table and erase the finished orders. */
    method ClearInactiveOrders()
      modifies this`orders
      ensures View() == ClearInactive(old(View()))
    {
      ghost var before := orders;
      var rest := orders.Keys;
      while rest != {}
        invariant rest <= before.Keys
        invariant orders == map id | id in before && (id in rest || !before[id].Terminal()) :: before[id]
        decreases |rest|
      {
        var id :| id in rest;
        rest := rest - {id};
        if orders[id].Terminal() {
          orders := orders - {id};
        }
      }
    }

    /** Receive every reply due exactly now; says whether the awaited order was among them. */
    method ProcessRecvOrder(ts: int, waitId: Option<OrderId>) returns (got: bool)
      requires SortedFrom(bus.toLocal.q, ts)
      modifies this`sv, this`orders, bus.toLocal
      ensures var n := Batch(old(bus.toLocal.q), ts);
              && bus.toLocal.q == old(bus.toLocal.q)[n..]
              && View() == TakeIn(acct, old(View()), old(bus.toLocal.q)[..n])
              && (got <==> Among(waitId, old(bus.toLocal.q), n))
    {
      ghost var all, n := bus.toLocal.q, Batch(bus.toLocal.q, ts);
      ghost var done, taken := 0, TakeIn(acct, View(), all[..n]);
      got := false;
      assert all[0..] == all && all[..n][0..] == all[..n];
      var more := true;
      while more
        invariant SortedFrom(bus.toLocal.q, ts)
        invariant TakenTo(acct, waitId, all, n, ts, done, taken, View(), bus.toLocal.q, got)
        invariant !more ==> done == n
        decreases n - done, more
      {
        done, more, got := TakeNext(ts, waitId, got, all, n, done, taken);
      }
      assert all[..n][n..] == [];
    }

    /** Receive the next reply if it is due now. */
    method TakeNext(
      ts: int, waitId: Option<OrderId>, before: bool, ghost all: seq<Msg>, ghost n: nat, ghost done: nat,
      ghost taken: Local)
      returns (ghost next: nat, more: bool, got: bool)
      requires SortedFrom(bus.toLocal.q, ts)
      requires TakenTo(acct, waitId, all, n, ts, done, taken, View(), bus.toLocal.q, before)
      modifies this`sv, this`orders, bus.toLocal
      ensures SortedFrom(bus.toLocal.q, ts)
      ensures TakenTo(acct, waitId, all, n, ts, next, taken, View(), bus.toLocal.q, got)
      ensures if more then next == done + 1 else next == done == n
    {
      next, got := done, before;
      if done < n {
        OneFurther(all, n, done);
        AmongOneMore(waitId, all, done);
        TakenFurther(acct, View(), all, n, done);
      }
      var id := ReceiveOne(ts);
      more := id.Some?;
      if more {
        next, got := done + 1, before || waitId == id;
      }
    }

    /** Take in the reply in front if it is due now; says whose it was. */
    method ReceiveOne(ts: int) returns (id: Option<OrderId>)
      requires SortedFrom(bus.toLocal.q, ts)
      modifies this`sv, this`orders, bus.toLocal
      ensures SortedFrom(bus.toLocal.q, ts)
      ensures var q, n := old(bus.toLocal.q), Batch(old(bus.toLocal.q), ts);
              if n == 0 then id == None && bus.toLocal.q == q && View() == old(View())
              else && id == Some(q[0].order.id) && bus.toLocal.q == q[1..] && Batch(bus.toLocal.q, ts) == n - 1
                   && View() == Receive(acct, old(View()), q[0].order)
    {
      var opt := bus.toLocal.Receive(ts);
      if opt.None? {
        return None;
      }
      TakeReply(opt.value);
      return Some(opt.value.id);
    }

    /** Book and record one reply. */
    method TakeReply(o: Order)
      modifies this`sv, this`orders
      ensures View() == Receive(acct, old(View()), o)
    {
      if o.status == Filled || o.status == PartiallyFilled {
        sv := acct.ApplyFill(sv, o);
      }
      if o.id in orders {
        var mine := orders[o.id];
        if o.req == Rejected {
          if o.localTs == mine.localTs {
            if mine.req == New {
              orders := orders[o.id := mine.(req := NoStatus, status := Expired)];
            } else {
              orders := orders[o.id := mine.(req := NoStatus)];
            }
          }
        } else {
          orders := orders[o.id := mine.Update(o)];
        }
      } else if o.req != Rejected {
        orders := orders[o.id := o];
      }
    }
  }
}
