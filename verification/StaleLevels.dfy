/** How a clear that revives a stale level breaks the resting book, and what the scan by tick range then misses. */
module StaleLevels {
  import opened Core
  import opened HashMapDepth
  import opened Exchange
  import opened ExchangeLaws
  import opened ExchangeRuns

  /** Bids at 6 and 8 and an ask at 9; an ask at 7 crosses the bid at 8, which stays stored, and goes away again. */
  const ROWS := [BidDepth(6, 1), BidDepth(8, 1), AskDepth(9, 1), AskDepth(7, 1), AskDepth(7, 0)]

  const STALE := Book(map[6 := 1, 8 := 1], map[9 := 1], 6, 9, 6, 9)

  const REVIVING := ClearBids(Some(9))
  const TRADE := BuyTrade(9, 1)

  function Sell(id: OrderId, tick: int): Order {
    Order.Order(id, Side.Sell, Limit, GTC, tick, 1, 1, 0, 0, false, 0, 0, New, NoStatus)
  }

  function Empty(b: Book, sv: StateValues): Exch {
    Exch(b, sv, map[])
  }

  /** With no orders a row changes only the book. */
  lemma RowOnNoOrders(c: Config, b: Book, sv: StateValues, k: EventKind)
    requires IsDepthUpdate(k)
    ensures Step(c, Empty(b, sv), Row(k, 0, [])) == (Empty(Apply(b, k), sv), [])
    ensures VisitedBy(Empty(b, sv), k) == {}
  {
    assert Absorb(c, Empty(b, sv), k).orders == map[];
  }

  function Inputs(ks: seq<EventKind>): seq<Input> {
    seq(|ks|, i requires 0 <= i < |ks| => Row(ks[i], 0, []))
  }

  function Books(b: Book, ks: seq<EventKind>): Book
    decreases |ks|
  {
    if ks == [] then b else Books(Apply(b, ks[0]), ks[1..])
  }

  lemma {:induction false} RowsOnNoOrders(c: Config, b: Book, sv: StateValues, ks: seq<EventKind>, after: seq<Input>)
    requires forall k :: k in ks ==> IsDepthUpdate(k)
    ensures Run(c, Empty(b, sv), Inputs(ks) + after).0 == Run(c, Empty(Books(b, ks), sv), after).0
    ensures AdmissibleRun(c, Empty(Books(b, ks), sv), after) ==> AdmissibleRun(c, Empty(b, sv), Inputs(ks) + after)
    decreases |ks|
  {
    if ks == [] {
      assert Inputs(ks) + after == after;
    } else {
      assert ks[0] in ks;
      RowOnNoOrders(c, b, sv, ks[0]);
      assert (Inputs(ks) + after)[1..] == Inputs(ks[1..]) + after;
      RowsOnNoOrders(c, Apply(b, ks[0]), sv, ks[1..], after);
    }
  }

  lemma RowsLeaveStale()
    ensures Books(EMPTY, ROWS) == STALE
  {
    var b1 := Apply(EMPTY, ROWS[0]);
    var b2 := Apply(b1, ROWS[1]);
    var b3 := Apply(b2, ROWS[2]);
    var b4 := Apply(b3, ROWS[3]);
    assert b1 == Book(map[6 := 1], map[], 6, INVALID_MAX, 6, INVALID_MIN);
    assert b2 == Book(map[6 := 1, 8 := 1], map[], 8, INVALID_MAX, 6, INVALID_MIN);
    assert b3 == Book(map[6 := 1, 8 := 1], map[9 := 1], 8, 9, 6, 9);
    assert b4 == Book(map[6 := 1, 8 := 1], map[9 := 1, 7 := 1], 6, 7, 6, 9);
    assert b4.asks - {7} == map[9 := 1];
    assert Apply(b4, ROWS[4]) == STALE;
  }

  /** Then two sells come to rest, at 7 and at 30. */
  const SELLS := [Request(Sell(1, 7), 0), Request(Sell(2, 30), 0)]

  function Rested(c: Config, id: OrderId, tick: int): Resting {
    Resting(Sell(id, tick).(req := NoStatus, status := New), c.queue.newOrder(0))
  }

  function Selling(c: Config, b: Book, sv: StateValues): Exch {
    Exch(b, sv, map[1 := Rested(c, 1, 7), 2 := Rested(c, 2, 30)])
  }

  lemma SellsRest(c: Config, sv: StateValues)
    ensures Run(c, Empty(STALE, sv), SELLS).0 == Selling(c, STALE, sv) && AdmissibleRun(c, Empty(STALE, sv), SELLS)
  {
    var x := Exch(STALE, sv, map[1 := Rested(c, 1, 7)]);
    assert map[][1 := Rested(c, 1, 7)] == map[1 := Rested(c, 1, 7)];
    assert Step(c, Empty(STALE, sv), SELLS[0]).0 == x;
    assert map[1 := Rested(c, 1, 7)][2 := Rested(c, 2, 30)] == map[1 := Rested(c, 1, 7), 2 := Rested(c, 2, 30)];
    assert Step(c, x, SELLS[1]).0 == Selling(c, STALE, sv);
    assert SELLS[1..] == [SELLS[1]] && SELLS[1..][1..] == [];
    assert Run(c, x, SELLS[1..]).0 == Selling(c, STALE, sv);
  }

  const REVIVED := STALE.(bestBid := 8)

  lemma StaleSellsRest(c: Config, sv: StateValues)
    ensures var x := Selling(c, STALE, sv); RestingBook(x) && !ClearsSafely(x, REVIVING)
  {
    var x := Selling(c, STALE, sv);
    assert 8 in x.book.bids && !FreeForBid(x, 8) by {
      assert 1 in x.orders;
    }
  }

  lemma ClearRevives(c: Config, sv: StateValues)
    ensures Feed(c, Selling(c, STALE, sv), REVIVING, 0, []).0 == Selling(c, REVIVED, sv)
    ensures Sane(REVIVED) && !RestingBook(Selling(c, REVIVED, sv))
  {
    assert Without(STALE.bids, 9, 6) == STALE.bids;
    assert !RestsWell(REVIVED, 1, Selling(c, REVIVED, sv).orders[1].o);
  }

  lemma TradeVisitsNothing(c: Config, sv: StateValues, ts: int)
    ensures var y := Selling(c, REVIVED, sv);
            && VisitedBy(y, TRADE) == {} && Reach(y.orders, Side.Sell, 9) == {1}
            && Feed(c, y, TRADE, ts, []) == (y, [])
  {
    var y := Selling(c, REVIVED, sv);
    assert Window(y.orders, Side.Sell, 9, 8) == {};
    assert |y.orders| == 2;
    assert Swept(c, y.orders, [], TradeAt(9, 1), ts) == y.orders;
  }

  lemma FullScanExecutes(c: Config, sv: StateValues, ts: int)
    ensures var (z, out) := Feed(c, Selling(c, REVIVED, sv), TRADE, ts, [1]);
            1 !in z.orders && Executed(out, 1) == 1
  {
    var y := Selling(c, REVIVED, sv);
    var t := Touch(c, y.orders[1], TradeAt(9, 1), ts);
    assert Reports(c, y.orders, [1], TradeAt(9, 1), ts) == t.reports + Reports(c, y.orders, [], TradeAt(9, 1), ts);
    assert t.reports == [t.r.o] && t.gone;
    assert Executed([t.r.o], 1) == 1 + Executed([], 1);
  }

  /** From an empty exchange, five rows and two orders lead to a stale bid at 8 above the best bid at 6. */
  lemma StaleBookIsReached(c: Config, sv: StateValues)
    ensures Run(c, Empty(EMPTY, sv), Inputs(ROWS) + SELLS).0 == Selling(c, STALE, sv)
    ensures AdmissibleRun(c, Empty(EMPTY, sv), Inputs(ROWS) + SELLS)
  {
    RowsLeaveStale();
    SellsRest(c, sv);
    RowsOnNoOrders(c, EMPTY, sv, ROWS, SELLS);
  }

  /** A clear above the best bid finds it again and leaves the sell at 7 crossed, though the book itself stays sane. */
  lemma RevivedLevelCrosses(c: Config, sv: StateValues)
    ensures var x, y := Selling(c, STALE, sv), Selling(c, REVIVED, sv);
            && RestingBook(x) && !ClearsSafely(x, REVIVING) && Feed(c, x, REVIVING, 0, []).0 == y
            && Sane(y.book) && !RestingBook(y)
  {
    StaleSellsRest(c, sv);
    ClearRevives(c, sv);
  }

  /**
    * A trade at 9, through that sell, is then scanned by tick range from the best bid on and visits nothing; the full
    * scan would have executed the sell.
    */
  lemma TradeIsMissed(c: Config, sv: StateValues, ts: int)
    ensures var y := Selling(c, REVIVED, sv);
            && VisitedBy(y, TRADE) == {} && Reach(y.orders, Side.Sell, 9) == {1}
            && Feed(c, y, TRADE, ts, []) == (y, [])
            && 1 !in Feed(c, y, TRADE, ts, [1]).0.orders && Executed(Feed(c, y, TRADE, ts, [1]).1, 1) == 1
  {
    TradeVisitsNothing(c, sv, ts);
    FullScanExecutes(c, sv, ts);
  }
}
