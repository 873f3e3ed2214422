/** The two FIFO order buses between the sides, with clamped timestamps (include/hbt/backtest/order_bus.hpp). */
module OrderBus {
  import opened Core

  datatype Msg = Msg(order: Order, due: int)

  /** A latency model: entry latency of a request (negative means rejected), response latency of a reply. */
  datatype Latency = Latency(entry: (int, Order) -> int, response: (int, Order) -> int)

  function Latest(bus: seq<Msg>): int {
    if bus == [] then 0 else bus[|bus| - 1].due
  }

  /** Queue a message, never before the one ahead of it. */
  function Append(bus: seq<Msg>, o: Order, ts: int): seq<Msg> {
    bus + [Msg(o, if ts >= Latest(bus) then ts else Latest(bus))]
  }

  function Respond(lm: Latency, toLocal: seq<Msg>, o: Order): seq<Msg> {
    Append(toLocal, o, o.exchTs + lm.response(o.exchTs, o))
  }

  function RespondAll(lm: Latency, toLocal: seq<Msg>, os: seq<Order>): seq<Msg>
    decreases |os|
  {
    if os == [] then toLocal else RespondAll(lm, Respond(lm, toLocal, os[0]), os[1..])
  }

  /** How many messages at the head of a bus are due exactly at `t`. */
  function Batch(bus: seq<Msg>, t: int): (n: nat)
    ensures n <= |bus|
    ensures forall i :: 0 <= i < n ==> bus[i].due == t
    ensures n < |bus| ==> bus[n].due != t
  {
    if bus != [] && bus[0].due == t then 1 + Batch(bus[1..], t) else 0
  }

  datatype Buses = Buses(toExch: seq<Msg>, toLocal: seq<Msg>)

  /** Send a request; a negative entry latency turns it into `rejected`, delivered back to local. */
  function Send(lm: Latency, b: Buses, o: Order, rejected: Order): Buses {
    var lat := lm.entry(o.localTs, o);
    if lat < 0 then b.(toLocal := Append(b.toLocal, rejected, o.localTs - lat))
    else b.(toExch := Append(b.toExch, o, o.localTs + lat))
  }

  // ---------------------------------------------------------------- order in time

  /** Due times never decrease along the bus, and none is before `now`. */
  ghost predicate SortedFrom(bus: seq<Msg>, now: int) {
    && (forall i :: 0 <= i < |bus| ==> now <= bus[i].due)
    && (forall i, j :: 0 <= i < j < |bus| ==> bus[i].due <= bus[j].due)
  }

  lemma AppendSorted(bus: seq<Msg>, o: Order, ts: int, now: int)
    requires SortedFrom(bus, now) && now <= ts
    ensures SortedFrom(Append(bus, o, ts), now)
    ensures ts <= Latest(Append(bus, o, ts))
  {
  }

  /** A message asked for in the past comes late exactly when no message ahead of it holds it up. */
  lemma AppendSortedIff(bus: seq<Msg>, o: Order, ts: int, now: int)
    requires SortedFrom(bus, now)
    ensures SortedFrom(Append(bus, o, ts), now) <==> bus != [] || now <= ts || now <= 0
  {
    var after := Append(bus, o, ts);
    assert after[|bus|].due == if ts >= Latest(bus) then ts else Latest(bus);
  }

  /** One message more, due when asked for, or else together with the one ahead of it. */
  predicate Queued(was: seq<Msg>, o: Order, ts: int, now: seq<Msg>) {
    && |now| == |was| + 1 && now[..|was|] == was && now[|was|].order == o
    && var due, ahead := now[|was|].due, if was == [] then 0 else was[|was| - 1].due;
    due >= ts && due >= ahead && (due == ts || due == ahead)
  }

  /** An accepted request reaches the exchange after its entry latency, a refused one comes back after as long. */
  lemma SentAfterLatency(lm: Latency, b: Buses, o: Order, rejected: Order)
    ensures var z, lat := Send(lm, b, o, rejected), lm.entry(o.localTs, o);
            && (lat >= 0 ==> z.toLocal == b.toLocal && Queued(b.toExch, o, o.localTs + lat, z.toExch))
            && (lat < 0 ==> z.toExch == b.toExch && Queued(b.toLocal, rejected, o.localTs - lat, z.toLocal))
  {
  }

  /** A reply reaches the local side after its response latency, counted from the exchange's stamp. */
  lemma AnsweredAfterLatency(lm: Latency, toLocal: seq<Msg>, o: Order)
    ensures Queued(toLocal, o, o.exchTs + lm.response(o.exchTs, o), Respond(lm, toLocal, o))
  {
  }

  /** The orders on a bus, oldest first. */
  function Orders(bus: seq<Msg>): seq<Order> {
    seq(|bus|, i requires 0 <= i < |bus| => bus[i].order)
  }

  lemma {:induction false} RespondAllOrders(lm: Latency, toLocal: seq<Msg>, os: seq<Order>)
    ensures Orders(RespondAll(lm, toLocal, os)) == Orders(toLocal) + os
    ensures |RespondAll(lm, toLocal, os)| == |toLocal| + |os|
    decreases |os|
  {
    if os != [] {
      RespondAllOrders(lm, Respond(lm, toLocal, os[0]), os[1..]);
    }
  }

  lemma {:induction false} RespondAllSorted(lm: Latency, toLocal: seq<Msg>, os: seq<Order>, now: int)
    requires SortedFrom(toLocal, now)
    requires forall o :: o in os ==> now <= o.exchTs + lm.response(o.exchTs, o)
    ensures SortedFrom(RespondAll(lm, toLocal, os), now)
    decreases |os|
  {
    if os != [] {
      AppendSorted(toLocal, os[0], os[0].exchTs + lm.response(os[0].exchTs, os[0]), now);
      RespondAllSorted(lm, Respond(lm, toLocal, os[0]), os[1..], now);
    }
  }

  // ---------------------------------------------------------------- in place

  class OrderBus {
    var q: seq<Msg>

    constructor ()
      ensures q == []
    {
      q := [];
    }

    method Push(o: Order, timestamp: int)
      modifies this
      ensures q == Append(old(q), o, timestamp)
    {
      var latest := if q == [] then 0 else q[|q| - 1].due;
      q := q + [Msg(o, if timestamp >= latest then timestamp else latest)];
    }

    method PopFront() returns (o: Option<Order>)
      modifies this
      ensures old(q) == [] ==> o == None && q == []
      ensures old(q) != [] ==> o == Some(old(q)[0].order) && q == old(q)[1..]
    {
      if q == [] {
        return None;
      }
      o := Some(q[0].order);
      q := q[1..];
    }

    /** Pop the front only when it is due exactly now; the bus never holds anything overdue. */
    method Receive(timestamp: int) returns (o: Option<Order>)
      requires SortedFrom(q, timestamp)
      modifies this
      ensures Batch(old(q), timestamp) == 0 ==> o == None && q == old(q)
      ensures Batch(old(q), timestamp) > 0 ==>
        o == Some(old(q)[0].order) && q == old(q)[1..] && Batch(q, timestamp) == Batch(old(q), timestamp) - 1
      ensures SortedFrom(q, timestamp)
    {
      if q == [] {
        return None;
      }
      assert q[0].due >= timestamp;
      if q[0].due == timestamp {
        o := PopFront();
      } else {
        o := None;
      }
    }
  }

  /** The exchange's half of the pair of buses. */
  class ExchToLocal {
    const toExch: OrderBus
    const toLocal: OrderBus
    const lm: Latency

    constructor (toExch: OrderBus, toLocal: OrderBus, lm: Latency)
      ensures this.toExch == toExch && this.toLocal == toLocal && this.lm == lm
    {
      this.toExch, this.toLocal, this.lm := toExch, toLocal, lm;
    }

    method Answer(o: Order)
      modifies toLocal
      ensures toLocal.q == Respond(lm, old(toLocal.q), o)
    {
      var latency := lm.response(o.exchTs, o);
      toLocal.Push(o, o.exchTs + latency);
    }
  }

  /** The local half: the same two buses. */
  class LocalToExch {
    const toExch: OrderBus
    const toLocal: OrderBus
    const lm: Latency

    constructor (toExch: OrderBus, toLocal: OrderBus, lm: Latency)
      ensures this.toExch == toExch && this.toLocal == toLocal && this.lm == lm
    {
      this.toExch, this.toLocal, this.lm := toExch, toLocal, lm;
    }

    method Request(o: Order, rejected: Order)
      requires toExch != toLocal
      modifies toExch, toLocal
      ensures Buses(toExch.q, toLocal.q) == Send(lm, old(Buses(toExch.q, toLocal.q)), o, rejected)
    {
      var latency := lm.entry(o.localTs, o);
      if latency < 0 {
        toLocal.Push(rejected, o.localTs - latency);
      } else {
        toExch.Push(o, o.localTs + latency);
      }
    }
  }
}
