/** The risk-averse queue inside the matching engine: exactly which trade fills an order. */
module QueueRuns {
  import opened Core
  import opened HashMapDepth
  import opened QueueModels
  import opened Exchange
  import opened ExchangeLaws
  import opened ExchangeRuns

  /** What a feed row does at the price of order `o`, if anything. */
  function AtPrice(i: Input, o: Order): seq<QueueOp> {
    if i.Request? then []
    else
      match i.k
      case BuyTrade(t, n) => if o.side == Sell && t == o.tick then [Traded(n)] else []
      case SellTrade(t, n) => if o.side == Buy && t == o.tick then [Traded(n)] else []
      case BidDepth(t, q) => if o.side == Buy && t == o.tick then [Shown(q)] else []
      case AskDepth(t, q) => if o.side == Sell && t == o.tick then [Shown(q)] else []
      case _ => []
  }

  function AtPriceRun(run: seq<Input>, o: Order): seq<QueueOp> {
    if run == [] then [] else AtPrice(run[0], o) + AtPriceRun(run[1..], o)
  }

  /** The row does not execute `o` other than through its queue: no trade or quote through its price. */
  predicate Spares(i: Input, o: Order) {
    if i.Request? then i.o.id != o.id
    else
      match i.k
      case BuyTrade(t, _) => o.side == Sell ==> t <= o.tick
      case SellTrade(t, _) => o.side == Buy ==> t >= o.tick
      case BidDepth(t, q) => o.side == Sell && q > 0 ==> t < o.tick
      case AskDepth(t, q) => o.side == Buy && q > 0 ==> t > o.tick
      case _ => true
  }

  ghost predicate SparesAll(run: seq<Input>, o: Order) {
    forall i :: i in run ==> Spares(i, o)
  }

  /** The state of order `o` in a book: still resting unfilled with `v` lots ahead, or gone. */
  ghost predicate Waits(x: Exch, o: Order, v: int) {
    o.id in x.orders && x.orders[o.id].o == o && x.orders[o.id].q.front == v as real
  }

  lemma AbsorbWaits(c: Config, x: Exch, k: EventKind, o: Order, v: int)
    requires c.queue == RISK_ADVERSE && Waits(x, o, v)
    ensures var ops := AtPrice(Row(k, 0, []), o);
            Waits(Absorb(c, x, k), o, if ops != [] && ops[0].Shown? then LotsAhead(v, ops) else v)
  {
  }

  lemma LotsAheadOne(v: int, ops: seq<QueueOp>)
    requires |ops| <= 1
    ensures ops != [] ==> LotsAhead(v, ops) == if ops[0].Traded? then v - ops[0].n else Min(v, ops[0].now)
    ensures ops == [] ==> LotsAhead(v, ops) == v
    ensures NeverOverrun(v, ops) <==> (ops != [] && ops[0].Traded? ==> v >= ops[0].n)
  {
  }

  /** A trade at the order's own price under the risk-averse model. */
  lemma TouchAtPrice(c: Config, r: Resting, n: nat, ts: int, v: int)
    requires c.queue == RISK_ADVERSE && !c.partial && r.o.Active() && r.o.leaves > 0 && r.q.front == v as real
    ensures var t := Touch(c, r, TradeAt(r.o.tick, n), ts);
            && (t.gone <==> v < n)
            && (v >= n ==> t.r.o == r.o && t.r.q.front == (v - n) as real)
  {
  }

  lemma SweepWaits(c: Config, x: Exch, m: Exch, k: EventKind, ts: int, ids: seq<OrderId>, o: Order, v: int)
    requires RestingBook(x) && Admissible(x, Row(k, ts, ids)) && ScanOf(x, k).Scan? && Spares(Row(k, ts, ids), o)
    requires m == Absorb(c, x, k) && c.queue == RISK_ADVERSE && !c.partial && Waits(m, o, v)
    requires IsDepthUpdate(k) || k.BuyTrade? || k.SellTrade?
    ensures var y, ops := Feed(c, x, k, ts, ids).0, AtPrice(Row(k, ts, ids), o);
            && (ops == [] || ops[0].Shown? ==> Waits(y, o, v))
            && (ops != [] && ops[0].Traded? ==>
                  if v >= ops[0].n then Waits(y, o, v - ops[0].n) else o.id !in y.orders)
  {
    FastScanVisitsAll(x, k);
    var r := m.orders[o.id];
    assert o.id in ids <==> o.id in Reach(x.orders, ScanOf(x, k).side, ScanOf(x, k).limit);
    if k.BuyTrade? || k.SellTrade? {
      TouchAtPrice(c, r, k.qty, ts, v);
    } else {
      SaneUpdate(x.book, k);
      assert o.id !in ids;
    }
  }

  /** One input: the queue moves as the closed form says, and overrunning it is exactly what removes the order. */
  lemma QueueStep(c: Config, x: Exch, i: Input, o: Order, v: int)
    requires RestingBook(x) && Admissible(x, i) && Spares(i, o)
    requires c.queue == RISK_ADVERSE && !c.partial && Waits(x, o, v)
    ensures var y, ops := Step(c, x, i).0, AtPrice(i, o);
            && |ops| <= 1
            && (NeverOverrun(v, ops) ==> Waits(y, o, LotsAhead(v, ops)))
            && (!NeverOverrun(v, ops) ==> o.id !in y.orders)
  {
    var ops := AtPrice(i, o);
    LotsAheadOne(v, ops);
    if i.Request? {
      RestsFiled(x);
      OthersUntouched(c, x, i.o, i.ts, o.id);
    } else {
      AbsorbWaits(c, x, i.k, o, v);
      if ScanOf(x, i.k).Scan? {
        var m := Absorb(c, x, i.k);
        SweepWaits(c, x, m, i.k, i.ts, i.ids, o, if ops != [] && ops[0].Shown? then LotsAhead(v, ops) else v);
      }
    }
  }

  lemma GoneStaysGone(c: Config, x: Exch, i: Input, o: Order)
    requires RestingBook(x) && Admissible(x, i) && Spares(i, o) && o.id !in x.orders
    ensures o.id !in Step(c, x, i).0.orders
  {
    if i.Request? {
      RestsFiled(x);
      OthersUntouched(c, x, i.o, i.ts, o.id);
    }
  }

  lemma OverrunConcat(v: int, ops: seq<QueueOp>, more: seq<QueueOp>)
    requires |more| <= 1
    ensures NeverOverrun(v, ops + more) <==> NeverOverrun(v, ops) && NeverOverrun(LotsAhead(v, ops), more)
    ensures LotsAhead(v, ops + more) == LotsAhead(LotsAhead(v, ops), more)
  {
    LotsAheadOne(LotsAhead(v, ops), more);
    if more != [] {
      assert more == [more[0]];
      NeverOverrunSnoc(v, ops, more[0]);
    } else {
      assert ops + more == ops;
    }
  }

  /** The order still rests, at its closed-form position, if and only if no trade at its price overran the queue. */
  ghost predicate Tracks(y: Exch, o: Order, v: int, ops: seq<QueueOp>) {
    if NeverOverrun(v, ops) then Waits(y, o, LotsAhead(v, ops)) else o.id !in y.orders
  }

  lemma OneMoreInput(c: Config, y: Exch, i: Input, o: Order, v: int, ops: seq<QueueOp>)
    requires RestingBook(y) && Admissible(y, i) && Spares(i, o) && c.queue == RISK_ADVERSE && !c.partial
    requires Tracks(y, o, v, ops)
    ensures Tracks(Step(c, y, i).0, o, v, ops + AtPrice(i, o))
  {
    OverrunConcat(v, ops, AtPrice(i, o));
    if NeverOverrun(v, ops) {
      QueueStep(c, y, i, o, LotsAhead(v, ops));
    } else {
      GoneStaysGone(c, y, i, o);
    }
  }

  lemma FirstInput(c: Config, x: Exch, run: seq<Input>, o: Order, v: int, met: seq<QueueOp>, y: Exch)
    requires run != [] && RestingBook(x) && AdmissibleRun(c, x, run) && SparesAll(run, o) && y == Step(c, x, run[0]).0
    requires c.queue == RISK_ADVERSE && !c.partial && Tracks(x, o, v, met)
    ensures RestingBook(y) && AdmissibleRun(c, y, run[1..]) && Tracks(y, o, v, met + AtPrice(run[0], o))
  {
    assert run[0] in run;
    StepKeepsRestingBook(c, x, run[0]);
    OneMoreInput(c, x, run[0], o, v, met);
  }

  lemma RunUnfolds(c: Config, x: Exch, run: seq<Input>, o: Order, met: seq<QueueOp>)
    requires run != []
    ensures Run(c, x, run).0 == Run(c, Step(c, x, run[0]).0, run[1..]).0
    ensures met + AtPrice(run[0], o) + AtPriceRun(run[1..], o) == met + AtPriceRun(run, o)
  {
  }

  /** From a state in which the order has already met some of this. */
  lemma {:induction false} TracksOn(c: Config, x: Exch, run: seq<Input>, o: Order, v: int, met: seq<QueueOp>)
    requires RestingBook(x) && AdmissibleRun(c, x, run) && SparesAll(run, o)
    requires c.queue == RISK_ADVERSE && !c.partial && Tracks(x, o, v, met)
    ensures Tracks(Run(c, x, run).0, o, v, met + AtPriceRun(run, o))
    decreases |run|
  {
    if run == [] {
      assert met + [] == met;
    } else {
      var y := Step(c, x, run[0]).0;
      FirstInput(c, x, run, o, v, met, y);
      TracksOn(c, y, run[1..], o, v, met + AtPrice(run[0], o));
      RunUnfolds(c, x, run, o, met);
    }
  }

  /**
    * Under the risk-averse model without partial fills, an order that no row executes otherwise still
    * rests after a run exactly when no trade at its price made its queue position negative; until then
    * its position is the closed form. As this holds of every prefix of a run, the order fills on exactly
    * the first trade that makes the closed form negative.
    */
  lemma FillsOnFirstOverrun(c: Config, x: Exch, run: seq<Input>, o: Order, v: int)
    requires RestingBook(x) && AdmissibleRun(c, x, run) && SparesAll(run, o)
    requires c.queue == RISK_ADVERSE && !c.partial && Waits(x, o, v)
    ensures Tracks(Run(c, x, run).0, o, v, AtPriceRun(run, o))
  {
    TracksOn(c, x, run, o, v, []);
    assert [] + AtPriceRun(run, o) == AtPriceRun(run, o);
  }

  // ---------------------------------------------------------------- partial fills

  /** A whole number of lots, not negative. */
  predicate OnLots(q: QueuePos) {
    q.front >= 0.0 && q.front == q.front.Floor as real
  }

  ghost predicate QueueOnLots(x: Exch) {
    forall id :: id in x.orders ==> OnLots(x.orders[id].q)
  }

  /**
    * With `v` lots ahead a trade of `n` at the order's own price executes it exactly when `n` exceeds `v`: under
    * partial fills by the lots in excess, so never by more than was traded, and otherwise entirely.
    */
  lemma ExecutionWithinTrade(c: Config, r: Resting, n: nat, ts: int, v: nat)
    requires c.queue == RISK_ADVERSE && r.o.Active() && r.o.leaves > 0 && r.q.front == v as real
    ensures var t := Touch(c, r, TradeAt(r.o.tick, n), ts);
            && (t.reports != [] <==> n > v)
            && (n > v ==> t.reports[0].execQty == if c.partial then Min(n - v, r.o.leaves) else r.o.leaves)
            && t.r.q.front == (if n > v then 0 else v - n) as real
  {
    RiskAdverseOnLots(r.q, v, n, 0);
    RiskAdverseOnLots(c.queue.trade(r.q, n), v - n, 0, 0);
  }

  lemma AbsorbKeepsQueueOnLots(c: Config, x: Exch, k: EventKind)
    requires c.queue == RISK_ADVERSE && QueueOnLots(x)
    ensures QueueOnLots(Absorb(c, x, k))
  {
  }

  /** A fill test after a trade on a whole number of lots leaves a whole, non-negative number. */
  lemma TradeKeepsOnLots(q: QueuePos, v: int, n: nat)
    requires q.front == v as real
    ensures OnLots(RISK_ADVERSE.isFilled(RISK_ADVERSE.trade(q, n)).0)
  {
    RiskAdverseOnLots(q, v, n, 0);
    RiskAdverseOnLots(RISK_ADVERSE.trade(q, n), v - n, 0, 0);
  }

  /** Being looked at moves a queue position at most as one trade and fill test do. */
  lemma TouchMovesQueue(c: Config, r: Resting, why: Trigger, ts: int)
    ensures var q := Touch(c, r, why, ts).r.q;
            q == r.q || (why.TradeAt? && q == c.queue.isFilled(c.queue.trade(r.q, why.qty)).0)
  {
  }

  lemma SweepKeepsQueueOnLots(c: Config, x: Exch, ids: seq<OrderId>, why: Trigger, ts: int)
    requires c.queue == RISK_ADVERSE && QueueOnLots(x)
    ensures QueueOnLots(Sweep(c, x, ids, why, ts).0)
  {
    var y := Sweep(c, x, ids, why, ts).0;
    forall id | id in y.orders ensures OnLots(y.orders[id].q) {
      TouchMovesQueue(c, x.orders[id], why, ts);
      if why.TradeAt? {
        TradeKeepsOnLots(x.orders[id].q, x.orders[id].q.front.Floor, why.qty);
      }
    }
  }

  lemma HandleKeepsQueueOnLots(c: Config, x: Exch, request: Order, ts: int)
    requires Stored(x.book) && c.queue == RISK_ADVERSE && QueueOnLots(x)
    ensures QueueOnLots(Handle(c, x, request, ts).x)
  {
  }

  lemma StepKeepsQueueOnLots(c: Config, x: Exch, i: Input)
    requires Stored(x.book) && (i.Row? ==> FeedRow(i.k)) && c.queue == RISK_ADVERSE && QueueOnLots(x)
    ensures var y := Step(c, x, i).0; Stored(y.book) && QueueOnLots(y)
  {
    if i.Request? {
      HandleKeepsQueueOnLots(c, x, i.o, i.ts);
    } else {
      AbsorbKeepsQueueOnLots(c, x, i.k);
      if IsDepthEvent(i.k) {
        ApplyKeepsStored(x.book, i.k);
      }
      if ScanOf(x, i.k).Scan? {
        SweepKeepsQueueOnLots(c, Absorb(c, x, i.k), i.ids, ScanOf(x, i.k).why, i.ts);
      }
    }
  }

  /** Whole, non-negative positions persist over every run, with or without partial fills, clears included. */
  lemma {:induction false} RunKeepsQueueOnLots(c: Config, x: Exch, run: seq<Input>)
    requires Stored(x.book) && (forall i :: i in run && i.Row? ==> FeedRow(i.k))
    requires c.queue == RISK_ADVERSE && QueueOnLots(x)
    ensures QueueOnLots(Run(c, x, run).0)
    decreases |run|
  {
    if run != [] {
      StepKeepsQueueOnLots(c, x, run[0]);
      RunKeepsQueueOnLots(c, Step(c, x, run[0]).0, run[1..]);
    }
  }
}
