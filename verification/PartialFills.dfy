/** With partial fills a disciplined strategy still makes the two accounts differ: one short run. */
module PartialFills {
  import opened Core
  import opened HashMapDepth
  import opened QueueModels
  import opened Exchange
  import opened OrderBus
  import opened LocalSide
  import opened Protocol
  import opened AccountAgreement

  const SENT := Order.Order(1, Buy, Limit, GTC, 5, 2, 2, 0, 0, false, 0, 10, New, NoStatus)
  const RESTED := SENT.(req := NoStatus, status := New, exchTs := 13)
  const HALF := RESTED.(maker := true, execTick := 5, execQty := 1, leaves := 1, status := PartiallyFilled,
                        exchTs := 20)
  const CANCEL := HALF.(req := Canceled, localTs := 25)
  const WHOLE := HALF.(leaves := 0, status := Filled, exchTs := 30)
  const BOUNCED := CANCEL.(req := Rejected, exchTs := 35)

  /** Two lots are submitted and rest; one is executed; a cancel is sent; the other is executed before it arrives. */
  const MOVES := [
    Move.Command(Submit(1, Buy, 5, 2, Limit, GTC), 10), ExchReceive(13), LocalReceive,
    ExchRow(SellTrade(5, 1), 20, [1]), LocalReceive,
    Move.Command(Cancel(1), 25), ExchRow(SellTrade(5, 1), 30, [1]), ExchReceive(35)]

  /** Partial fills, the risk-averse queue model, and every request accepted. */
  ghost predicate Partial(s: Setup) {
    s.c.partial && s.c.queue == RISK_ADVERSE && forall ts, o :: s.lm.entry(ts, o) >= 0
  }

  /** All that matters of the system but its accounts and due times. */
  ghost predicate Stage(y: Sys, l: Option<Order>, x: Option<Order>, requests: seq<Order>, replies: seq<Order>) {
    && y.local.orders == (if l.None? then map[] else map[1 := l.value])
    && y.exch.book == EMPTY
    && y.exch.orders == (if x.None? then map[] else map[1 := Resting(x.value, QueuePos(0.0, 0))])
    && Orders(y.buses.toExch) == requests && Orders(y.buses.toLocal) == replies
  }

  lemma Submits(s: Setup, y: Sys)
    requires Partial(s) && Stage(y, None, None, [], [])
    ensures Stage(Next(s, y, MOVES[0]), Some(SENT), None, [SENT], [])
    ensures Disciplined(y, {}, MOVES[0]) && Spurious(s, y, MOVES[0]).None?
  {
    assert map[][1 := SENT] == map[1 := SENT];
  }

  lemma Rests(s: Setup, y: Sys)
    requires Partial(s) && Stage(y, Some(SENT), None, [SENT], [])
    ensures Stage(Next(s, y, MOVES[1]), Some(SENT), Some(RESTED), [], [RESTED])
    ensures Spurious(s, y, MOVES[1]).None?
  {
    assert Orders(y.buses.toExch)[0] == SENT;
    assert map[][1 := Resting(RESTED, QueuePos(0.0, 0))] == map[1 := Resting(RESTED, QueuePos(0.0, 0))];
  }

  lemma Learns(s: Setup, y: Sys, was: Order, now: Order, x: Option<Order>)
    requires Stage(y, Some(was), x, [], [now])
    requires now.req == NoStatus && now.id == 1 && now.localTs == was.localTs && now.exchTs > 0
    ensures Stage(Next(s, y, LocalReceive), Some(now), x, [], [])
    ensures Spurious(s, y, LocalReceive).None?
  {
    assert Orders(y.buses.toLocal)[0] == now;
    assert map[1 := was][1 := now] == map[1 := now];
  }

  lemma OneVisited(y: Sys, l: Option<Order>, x: Order, requests: seq<Order>)
    requires Stage(y, l, Some(x), requests, []) && x.side == Buy && x.tick == 5
    ensures Enumerates([1], VisitedBy(y.exch, SellTrade(5, 1)))
    ensures ScanOf(y.exch, SellTrade(5, 1)) == Scan(Buy, 5, INVALID_MAX, TradeAt(5, 1))
  {
    assert VisitedBy(y.exch, SellTrade(5, 1)) == {1};
  }

  /** A trade of one lot executes one lot of the order at the front of the queue. */
  lemma OneLotTrades(c: Config, x: Order, ts: int)
    requires c.partial && c.queue == RISK_ADVERSE && !x.Terminal() && x.side == Buy && x.tick == 5 && x.leaves > 0
    ensures var o := Fill(x, ts, true, 5, 1);
            Touch(c, Resting(x, QueuePos(0.0, 0)), TradeAt(5, 1), ts)
            == Outcome(Resting(o, QueuePos(0.0, 0)), [o], o.status == Filled)
  {
  }

  lemma OneLotFeeds(c: Config, e: Exch, x: Order, ts: int, o: Order)
    requires c.partial && c.queue == RISK_ADVERSE && x.leaves > 0 && !x.Terminal() && x.side == Buy && x.tick == 5
    requires e.book == EMPTY && e.orders == map[1 := Resting(x, QueuePos(0.0, 0))] && o == Fill(x, ts, true, 5, 1)
    requires ScanOf(e, SellTrade(5, 1)) == Scan(Buy, 5, INVALID_MAX, TradeAt(5, 1))
    ensures var (z, out) := Feed(c, e, SellTrade(5, 1), ts, [1]);
            && z.book == EMPTY && out == [o]
            && z.orders == if o.status == Filled then map[] else map[1 := Resting(o, QueuePos(0.0, 0))]
  {
    OneLotTrades(c, x, ts);
    var m := Absorb(c, e, SellTrade(5, 1));
    assert m.orders == e.orders;
    assert Reports(c, m.orders, [1], TradeAt(5, 1), ts) == [o] + Reports(c, m.orders, [], TradeAt(5, 1), ts);
  }

  lemma OneLotExecutes(s: Setup, y: Sys, l: Order, x: Order, ts: int, o: Order, requests: seq<Order>)
    requires Partial(s) && Stage(y, Some(l), Some(x), requests, []) && x.leaves > 0 && !x.Terminal()
    requires x.side == Buy && x.tick == 5 && o == Fill(x, ts, true, 5, 1)
    ensures var m := ExchRow(SellTrade(5, 1), ts, [1]);
            && Stage(Next(s, y, m), Some(l), if o.status == Filled then None else Some(o), requests, [o])
            && Disciplined(y, {1}, m) && Spurious(s, y, m).None?
  {
    OneVisited(y, Some(l), x, requests);
    OneLotFeeds(s.c, y.exch, x, ts, o);
    RespondAllOrders(s.lm, y.buses.toLocal, [o]);
  }

  lemma AsksCancel(s: Setup, y: Sys)
    requires Partial(s) && Stage(y, Some(HALF), Some(HALF), [], [])
    ensures Stage(Next(s, y, MOVES[5]), Some(CANCEL), Some(HALF), [CANCEL], [])
    ensures Disciplined(y, {1}, MOVES[5]) && Spurious(s, y, MOVES[5]).None?
  {
    assert map[1 := HALF][1 := CANCEL] == map[1 := CANCEL];
  }

  lemma CancelBounces(s: Setup, y: Sys)
    requires Partial(s) && Stage(y, Some(CANCEL), None, [CANCEL], [WHOLE])
    ensures Spurious(s, y, MOVES[7]) == Some(BOUNCED)
  {
    assert Orders(y.buses.toExch)[0] == CANCEL;
  }

  /** The system before the `n`-th move. */
  ghost predicate StageAt(y: Sys, n: nat) {
    if n == 0 then Stage(y, None, None, [], [])
    else if n == 1 then Stage(y, Some(SENT), None, [SENT], [])
    else if n == 2 then Stage(y, Some(SENT), Some(RESTED), [], [RESTED])
    else if n == 3 then Stage(y, Some(RESTED), Some(RESTED), [], [])
    else if n == 4 then Stage(y, Some(RESTED), Some(HALF), [], [HALF])
    else if n == 5 then Stage(y, Some(HALF), Some(HALF), [], [])
    else if n == 6 then Stage(y, Some(CANCEL), Some(HALF), [CANCEL], [])
    else Stage(y, Some(CANCEL), None, [CANCEL], [WHOLE])
  }

  lemma OneStage(s: Setup, y: Sys, n: nat)
    requires Partial(s) && n < 7 && StageAt(y, n)
    ensures StageAt(Next(s, y, MOVES[n]), n + 1) && Spurious(s, y, MOVES[n]).None?
    ensures Disciplined(y, if n == 0 then {} else {1}, MOVES[n])
  {
    if n == 0 {
      Submits(s, y);
    } else if n == 1 {
      Rests(s, y);
    } else if n == 2 {
      Learns(s, y, SENT, RESTED, Some(RESTED));
    } else if n == 3 {
      OneLotExecutes(s, y, RESTED, RESTED, 20, HALF, []);
    } else if n == 4 {
      Learns(s, y, RESTED, HALF, Some(HALF));
    } else if n == 5 {
      AsksCancel(s, y);
    } else {
      OneLotExecutes(s, y, CANCEL, HALF, 30, WHOLE, [CANCEL]);
    }
  }

  lemma LastStage(s: Setup, y: Sys)
    requires Partial(s) && StageAt(y, 7)
    ensures SpuriousIn(s, y, MOVES[7..]) == [BOUNCED] && DisciplinedRun(s, y, {1}, MOVES[7..])
  {
    CancelBounces(s, y);
    assert MOVES[7..][1..] == [];
  }

  lemma IdsUsed(n: nat)
    requires n < 7
    ensures Used(if n == 0 then {} else {1}, MOVES[n]) == {1}
  {
  }

  lemma MoveThenRest(s: Setup, y: Sys, used: set<OrderId>, ms: seq<Move>, n: nat)
    requires n < |ms| && Spurious(s, y, ms[n]).None? && Disciplined(y, used, ms[n])
    ensures SpuriousIn(s, y, ms[n..]) == SpuriousIn(s, Next(s, y, ms[n]), ms[n + 1..])
    ensures DisciplinedRun(s, y, used, ms[n..]) <==>
            DisciplinedRun(s, Next(s, y, ms[n]), Used(used, ms[n]), ms[n + 1..])
  {
    assert ms[n..][0] == ms[n] && ms[n..][1..] == ms[n + 1..];
  }

  /** The rest of the run, from its `n`-th move on. */
  lemma {:induction false} RestOfRun(s: Setup, y: Sys, n: nat)
    requires Partial(s) && n <= 7 && StageAt(y, n)
    ensures SpuriousIn(s, y, MOVES[n..]) == [BOUNCED]
    ensures DisciplinedRun(s, y, if n == 0 then {} else {1}, MOVES[n..])
    decreases 7 - n
  {
    if n == 7 {
      LastStage(s, y);
    } else {
      OneStage(s, y, n);
      RestOfRun(s, Next(s, y, MOVES[n]), n + 1);
      MoveThenRest(s, y, if n == 0 then {} else {1}, MOVES, n);
      IdsUsed(n);
    }
  }

  /**
    * The strategy submits one order and cancels it while it is cancellable, and yet at the end the local side has
    * booked, or will book, one execution more than the exchange: the bounced cancel reports the earlier one again.
    */
  lemma DisciplineIsNotEnough(s: Setup, y: Sys)
    requires Partial(s) && Initial(y) && y.exch.book == EMPTY && y.local.sv == y.exch.sv
    ensures DisciplinedRun(s, y, {}, MOVES)
    ensures var z := RunMoves(s, y, MOVES);
            Settled(s, z) == z.exch.sv.Plus(s.c.acct.Booking(BOUNCED)) && Settled(s, z) != z.exch.sv
  {
    assert Orders(y.buses.toLocal) == [];
    PlusLaws(y.local.sv, ZERO_VALUES);
    RestOfRun(s, y, 0);
    assert MOVES[0..] == MOVES;
    AccountsDiffer(s, y, MOVES);
    s.c.acct.TotalOne(BOUNCED);
  }
}
