/** Values shared by every component: orders, feed events, and the running account. */
module Core {

  datatype Option<+T> = None | Some(value: T)

  /** Sentinel ticks: "no best bid" and "no best ask". */
  const INVALID_MIN: int := -0x8000_0000_0000_0000
  const INVALID_MAX: int := 0x7fff_ffff_ffff_ffff

  predicate IsTick(t: int) {
    INVALID_MIN < t < INVALID_MAX
  }

  type OrderId = nat

  datatype Side = Buy | Sell
  datatype OrdType = Limit | Market | UnsupportedType
  datatype TimeInForce = GTC | GTX | FOK | IOC | UnsupportedTif
  datatype Status =
    NoStatus | New | Expired | Filled | Canceled | PartiallyFilled | Rejected | Replaced | UnsupportedStatus

  /** An order as it travels on the buses: prices in ticks, quantities in lots. */
  datatype Order = Order(
    id: OrderId, side: Side, ordType: OrdType, tif: TimeInForce,
    tick: int, qty: int, leaves: int,
    execQty: int, execTick: int, maker: bool,
    exchTs: int, localTs: int,
    req: Status, status: Status)
  {
    predicate Active() {
      status == New || status == PartiallyFilled
    }

    predicate Cancellable() {
      Active() && req == NoStatus
    }

    predicate Terminal() {
      status == Expired || status == Canceled || status == Filled
    }

    /** True of a message that the receiving side books as an execution. */
    predicate ReportsFill() {
      status == Filled || status == PartiallyFilled
    }

    /** Overwrite everything but the local timestamp with the exchange's reply. */
    function Update(o: Order): Order {
      o.(localTs := localTs, exchTs := if o.exchTs > 0 then o.exchTs else exchTs)
    }
  }

  /** One feed row, already decoded from its flag mask. */
  datatype EventKind =
    | BidDepth(tick: int, qty: nat) | AskDepth(tick: int, qty: nat)
    | ClearBids(cut: Option<int>) | ClearAsks(cut: Option<int>) | ClearAll
    | BuyTrade(tick: int, qty: nat) | SellTrade(tick: int, qty: nat)
    | OtherEvent

  datatype Event = Event(kind: EventKind, forLocal: bool, forExch: bool, localTs: int, exchTs: int)

  /** The running account of one side of the simulation. */
  datatype StateValues = StateValues(
    position: int, balance: real, fee: real, numTrades: int, volume: int, value: real)
  {
    function Plus(o: StateValues): StateValues {
      StateValues(position + o.position, balance + o.balance, fee + o.fee,
                  numTrades + o.numTrades, volume + o.volume, value + o.value)
    }
  }

  lemma PlusAssociates(a: StateValues, b: StateValues, c: StateValues)
    ensures a.Plus(b).Plus(c) == a.Plus(b.Plus(c))
  {
  }

  lemma PlusSwaps(a: StateValues, b: StateValues, c: StateValues)
    ensures a.Plus(b.Plus(c)) == b.Plus(a.Plus(c))
  {
  }

  lemma PlusLaws(a: StateValues, b: StateValues)
    ensures a.Plus(ZERO_VALUES) == a == ZERO_VALUES.Plus(a) && a.Plus(b) == b.Plus(a)
  {
  }

  lemma PlusCounts(a: StateValues, b: StateValues)
    ensures a.Plus(b).position == a.position + b.position && a.Plus(b).numTrades == a.numTrades + b.numTrades
  {
  }

  lemma PlusMoney(a: StateValues, b: StateValues)
    ensures a.Plus(b).balance == a.balance + b.balance && a.Plus(b).fee == a.fee + b.fee
    ensures a.Plus(b).volume == a.volume + b.volume && a.Plus(b).value == a.value + b.value
  {
  }

  const ZERO_VALUES := StateValues(0, 0.0, 0.0, 0, 0, 0.0)

  /** The asset type and fee model, as the functions the account is computed with. */
  datatype Accounting = Accounting(amount: (int, int) -> real, fee: (Order, real) -> real)
  {
    /** What one execution report adds to the account. */
    function Contribution(o: Order): StateValues {
      var amt := amount(o.execTick, o.execQty);
      if o.side == Buy
      then StateValues(o.execQty, -amt, fee(o, amt), 1, o.execQty, amt)
      else StateValues(-o.execQty, amt, fee(o, amt), 1, o.execQty, amt)
    }

    function ApplyFill(sv: StateValues, o: Order): StateValues {
      sv.Plus(Contribution(o))
    }

    /** What the receiver of a message books for it: nothing unless it reports a fill. */
    function Booking(o: Order): StateValues {
      if o.ReportsFill() then Contribution(o) else ZERO_VALUES
    }

    /** What the messages add to the account together. */
    function Total(msgs: seq<Order>): StateValues {
      if msgs == [] then ZERO_VALUES else Booking(msgs[0]).Plus(Total(msgs[1..]))
    }

    lemma BookingCounts(o: Order)
      ensures var b := Booking(o);
              && b.numTrades == (if o.ReportsFill() then 1 else 0)
              && b.position == if !o.ReportsFill() then 0 else if o.side == Buy then o.execQty else -o.execQty
    {
    }

    lemma BookingMoney(o: Order)
      ensures var b, amt := Booking(o), amount(o.execTick, o.execQty);
              && b.balance == (if !o.ReportsFill() then 0.0 else if o.side == Buy then -amt else amt)
              && b.fee == (if o.ReportsFill() then fee(o, amt) else 0.0)
              && b.volume == (if o.ReportsFill() then o.execQty else 0)
              && b.value == if o.ReportsFill() then amt else 0.0
    {
    }

    lemma TotalOne(o: Order)
      ensures Total([o]) == Booking(o)
    {
      assert [o][1..] == [];
      PlusLaws(Booking(o), ZERO_VALUES);
    }

    lemma {:induction false} TotalConcat(a: seq<Order>, b: seq<Order>)
      ensures Total(a + b) == Total(a).Plus(Total(b))
    {
      if a == [] {
        assert a + b == b;
        PlusLaws(Total(b), ZERO_VALUES);
      } else {
        assert (a + b)[1..] == a[1..] + b;
        TotalConcat(a[1..], b);
        PlusAssociates(Booking(a[0]), Total(a[1..]), Total(b));
      }
    }

    lemma TotalRemove(b: seq<Order>, i: nat)
      requires i < |b|
      ensures Total(b) == Total([b[i]]).Plus(Total(b[..i] + b[i + 1..]))
    {
      assert b == b[..i] + ([b[i]] + b[i + 1..]);
      TotalConcat(b[..i], [b[i]] + b[i + 1..]);
      TotalConcat([b[i]], b[i + 1..]);
      TotalConcat(b[..i], b[i + 1..]);
      PlusSwaps(Total(b[..i]), Total([b[i]]), Total(b[i + 1..]));
    }

    lemma TotalsAgree(a: seq<Order>, b: seq<Order>, i: nat)
      requires a != [] && i < |b| && b[i] == a[0] && Total(a[1..]) == Total(b[..i] + b[i + 1..])
      ensures Total(a) == Total(b)
    {
      TotalRemove(b, i);
      TotalOne(a[0]);
    }

    /** The account does not depend on the order in which executions are booked. */
    lemma {:induction false} TotalPermutes(a: seq<Order>, b: seq<Order>)
      requires multiset(a) == multiset(b)
      ensures Total(a) == Total(b)
    {
      if a == [] {
        assert |multiset(b)| == 0;
      } else {
        var i := RemoveFirst(a, b);
        TotalPermutes(a[1..], b[..i] + b[i + 1..]);
        TotalsAgree(a, b, i);
      }
    }
  }

  lemma MultisetWithout<T>(b: seq<T>, i: nat)
    requires i < |b|
    ensures multiset(b[..i] + b[i + 1..]) == multiset(b) - multiset{b[i]}
  {
    assert b == b[..i] + [b[i]] + b[i + 1..];
    assert multiset(b) == multiset(b[..i] + b[i + 1..]) + multiset{b[i]};
  }

  /** Dropping equal elements from two permutations leaves permutations. */
  lemma RemoveFirst<T>(a: seq<T>, b: seq<T>) returns (i: nat)
    requires a != [] && multiset(a) == multiset(b)
    ensures i < |b| && b[i] == a[0] && multiset(a[1..]) == multiset(b[..i] + b[i + 1..])
  {
    assert a[0] in multiset(b);
    i :| 0 <= i < |b| && b[i] == a[0];
    MultisetWithout(a, 0);
    assert a[..0] + a[1..] == a[1..];
    MultisetWithout(b, i);
  }

  /** `ids` lists the elements of `s`, each once: one possible traversal of an unordered container. */
  ghost predicate Enumerates(ids: seq<OrderId>, s: set<OrderId>) {
    && (forall id :: id in ids <==> id in s)
    && (forall i, j :: 0 <= i < j < |ids| ==> ids[i] != ids[j])
  }

  lemma EnumeratesUnion(a: seq<OrderId>, s: set<OrderId>, b: seq<OrderId>, t: set<OrderId>)
    requires Enumerates(a, s) && Enumerates(b, t) && s !! t
    ensures Enumerates(a + b, s + t)
  {
    forall i, j | 0 <= i < j < |a + b| ensures (a + b)[i] != (a + b)[j] {
      if i < |a| <= j {
        assert (a + b)[i] in s && (a + b)[j] in t;
      }
    }
  }
}
