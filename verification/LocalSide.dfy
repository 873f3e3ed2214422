/** The strategy-facing side of one asset (include/hbt/backtest/local.hpp), as functions on values. */
module LocalSide {
  import opened Core
  import opened HashMapDepth

  datatype Local = Local(book: Book, sv: StateValues, orders: map<OrderId, Order>)

  datatype Command =
    | Submit(id: OrderId, side: Side, tick: int, qty: int, ordType: OrdType, tif: TimeInForce)
    | Modify(id: OrderId, tick: int, qty: int)
    | Cancel(id: OrderId)

  /** A command is refused with an exception, or it sends a request; `rejected` is what a refusal en route returns. */
  datatype Issued = Refused | Sent(l: Local, request: Order, rejected: Order)

  function Issue(l: Local, cmd: Command, now: int): Issued {
    match cmd
    case Submit(id, side, tick, qty, ordType, tif) =>
      if id in l.orders then Refused
      else
        var o := Order.Order(id, side, ordType, tif, tick, qty, qty, 0, 0, false, 0, now, New, NoStatus);
        Sent(l.(orders := l.orders[id := o]), o, o.(req := Rejected))
    case Modify(id, tick, qty) =>
      if id !in l.orders || l.orders[id].req != NoStatus then Refused
      else
        var was := l.orders[id];
        var o := was.(tick := tick, qty := qty, req := Replaced, localTs := now);
        Sent(l.(orders := l.orders[id := o]), o, o.(req := Rejected, tick := was.tick, qty := was.qty))
    case Cancel(id) =>
      if id !in l.orders || l.orders[id].req != NoStatus then Refused
      else
        var o := l.orders[id].(req := Canceled, localTs := now);
        Sent(l.(orders := l.orders[id := o]), o, o.(req := Rejected))
  }

  /** Drop the orders that are finished. */
  function ClearInactive(l: Local): Local {
    l.(orders := map id | id in l.orders && !l.orders[id].Terminal() :: l.orders[id])
  }

  /** What a reply does to the local record of its order. */
  function Take(was: Option<Order>, o: Order): Option<Order> {
    if was.None? then if o.req != Rejected then Some(o) else None
    else if o.req != Rejected then Some(was.value.Update(o))
    else if o.localTs != was.value.localTs then was
    else if was.value.req == New then Some(was.value.(req := NoStatus, status := Expired))
    else Some(was.value.(req := NoStatus))
  }

  function Find(orders: map<OrderId, Order>, id: OrderId): Option<Order> {
    if id in orders then Some(orders[id]) else None
  }

  function Receive(acct: Accounting, l: Local, o: Order): Local {
    var sv := if o.ReportsFill() then acct.ApplyFill(l.sv, o) else l.sv;
    var now := Take(Find(l.orders, o.id), o);
    l.(sv := sv, orders := if now.Some? then l.orders[o.id := now.value] else l.orders)
  }

  /**
    * What one reply does at the local side: an execution it reports is booked; it replaces the record of its order but
    * for the time of the local request, and for the exchange's stamp where it has none, and brings a forgotten order
    * back. A rejection only takes the mark off the request it answers, and ends the order if that was its submission.
    */
  lemma ReplyIsRecorded(acct: Accounting, l: Local, o: Order)
    ensures var z := Receive(acct, l, o);
            && z.book == l.book && z.sv == l.sv.Plus(acct.Booking(o))
            && (forall id :: id != o.id ==> (id in z.orders <==> id in l.orders))
            && (forall id :: id != o.id && id in l.orders ==> z.orders[id] == l.orders[id])
            && (o.id in z.orders <==> o.id in l.orders || o.req != Rejected)
            && (o.id in z.orders && o.id !in l.orders ==> z.orders[o.id] == o)
            && (o.id in l.orders && o.req != Rejected ==> IsReply(l.orders[o.id], o, z.orders[o.id]))
            && (o.id in l.orders && o.req == Rejected ==> IsUnmarked(l.orders[o.id], o, z.orders[o.id]))
  {
    PlusLaws(l.sv, ZERO_VALUES);
  }

  predicate IsReply(was: Order, reply: Order, now: Order) {
    && now.localTs == was.localTs && now.exchTs == (if reply.exchTs > 0 then reply.exchTs else was.exchTs)
    && now == reply.(localTs := now.localTs, exchTs := now.exchTs)
  }

  predicate IsUnmarked(was: Order, reply: Order, now: Order) {
    if reply.localTs != was.localTs then now == was
    else
      && now.req == NoStatus && now.status == (if was.req == New then Expired else was.status)
      && now == was.(req := now.req, status := now.status)
  }

  /** Exactly the orders that are not finished are kept, as they are. */
  lemma UnfinishedAreKept(l: Local, id: OrderId)
    ensures var z := ClearInactive(l);
            && z.book == l.book && z.sv == l.sv
            && (id in z.orders <==> id in l.orders && l.orders[id].status !in {Expired, Canceled, Filled})
            && (id in z.orders ==> z.orders[id] == l.orders[id])
  {
  }
}
