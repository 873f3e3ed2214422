/** What the matching engine guarantees, whatever order its containers are traversed in. */
module ExchangeLaws {
  import opened Core
  import opened HashMapDepth
  import opened Exchange

  // ---------------------------------------------------------------- traversal order

  lemma EnumerationsPermute(a: seq<OrderId>, b: seq<OrderId>, s: set<OrderId>)
    requires Enumerates(a, s) && Enumerates(b, s)
    ensures multiset(a) == multiset(b)
  {
    OnceEach(a, s);
    OnceEach(b, s);
  }

  lemma {:induction false} OnceEach(a: seq<OrderId>, s: set<OrderId>)
    requires Enumerates(a, s)
    ensures multiset(a) == multiset(s)
  {
    if a == [] {
      assert s == {};
    } else {
      var last := |a| - 1;
      assert Enumerates(a[..last], s - {a[last]}) by {
        assert forall id :: id in a <==> id in a[..last] || id == a[last];
      }
      OnceEach(a[..last], s - {a[last]});
      assert a == a[..last] + [a[last]];
    }
  }

  lemma {:induction false} ReportsConcat(
    c: Config, orders: map<OrderId, Resting>, a: seq<OrderId>, b: seq<OrderId>, why: Trigger, ts: int)
    ensures Reports(c, orders, a + b, why, ts) == Reports(c, orders, a, why, ts) + Reports(c, orders, b, why, ts)
  {
    if a == [] {
      assert a + b == b;
    } else {
      assert (a + b)[1..] == a[1..] + b;
      ReportsConcat(c, orders, a[1..], b, why, ts);
    }
  }

  lemma ReportsRemove(
    c: Config, orders: map<OrderId, Resting>, b: seq<OrderId>, i: nat, why: Trigger, ts: int)
    requires i < |b|
    ensures multiset(Reports(c, orders, b, why, ts))
         == multiset(Reports(c, orders, [b[i]], why, ts)) + multiset(Reports(c, orders, b[..i] + b[i + 1..], why, ts))
  {
    assert b == b[..i] + ([b[i]] + b[i + 1..]);
    ReportsConcat(c, orders, b[..i], [b[i]] + b[i + 1..], why, ts);
    ReportsConcat(c, orders, [b[i]], b[i + 1..], why, ts);
    ReportsConcat(c, orders, b[..i], b[i + 1..], why, ts);
  }

  lemma {:induction false} ReportsPermute(
    c: Config, orders: map<OrderId, Resting>, a: seq<OrderId>, b: seq<OrderId>, why: Trigger, ts: int)
    requires multiset(a) == multiset(b)
    ensures multiset(Reports(c, orders, a, why, ts)) == multiset(Reports(c, orders, b, why, ts))
  {
    if a == [] {
      assert |multiset(b)| == 0;
    } else {
      var i := RemoveFirst(a, b);
      ReportsPermute(c, orders, a[1..], b[..i] + b[i + 1..], why, ts);
      ReportsRemove(c, orders, b, i, why, ts);
      ReportsRemove(c, orders, a, 0, why, ts);
      assert a[..0] + a[1..] == a[1..];
    }
  }

  lemma {:induction false} ReportsFillsOnly(
    c: Config, orders: map<OrderId, Resting>, ids: seq<OrderId>, why: Trigger, ts: int)
    ensures forall o :: o in Reports(c, orders, ids, why, ts) ==> o.ReportsFill()
  {
    if ids != [] {
      ReportsFillsOnly(c, orders, ids[1..], why, ts);
    }
  }

  lemma {:induction false} ApplyFillsTotal(acct: Accounting, sv: StateValues, reports: seq<Order>)
    requires forall o :: o in reports ==> o.ReportsFill()
    ensures ApplyFills(acct, sv, reports) == sv.Plus(acct.Total(reports))
    decreases |reports|
  {
    if reports == [] {
      PlusLaws(sv, ZERO_VALUES);
    } else {
      ApplyFillsTotal(acct, acct.ApplyFill(sv, reports[0]), reports[1..]);
      assert reports[0] in reports;
      PlusAssociates(sv, acct.Booking(reports[0]), acct.Total(reports[1..]));
    }
  }

  /** The traversal order of a scan shows only in the order of the reports it sends. */
  lemma SweepOrderFree(c: Config, x: Exch, a: seq<OrderId>, b: seq<OrderId>, s: set<OrderId>, why: Trigger, ts: int)
    requires Enumerates(a, s) && Enumerates(b, s)
    ensures Sweep(c, x, a, why, ts).0 == Sweep(c, x, b, why, ts).0
    ensures multiset(Sweep(c, x, a, why, ts).1) == multiset(Sweep(c, x, b, why, ts).1)
  {
    EnumerationsPermute(a, b, s);
    ReportsPermute(c, x.orders, a, b, why, ts);
    var ra, rb := Reports(c, x.orders, a, why, ts), Reports(c, x.orders, b, why, ts);
    ReportsFillsOnly(c, x.orders, a, why, ts);
    ReportsFillsOnly(c, x.orders, b, why, ts);
    ApplyFillsTotal(c.acct, x.sv, ra);
    ApplyFillsTotal(c.acct, x.sv, rb);
    c.acct.TotalPermutes(ra, rb);
    assert Swept(c, x.orders, a, why, ts) == Swept(c, x.orders, b, why, ts);
  }

  // ---------------------------------------------------------------- the resting book

  /** Filed under its own id, live, and with something left to execute. */
  predicate Owes(id: OrderId, o: Order) {
    o.id == id && o.Active() && o.leaves > 0
  }

  /** Every resting order owes something and does not cross the opposite best. */
  ghost predicate RestsWell(b: Book, id: OrderId, o: Order) {
    Owes(id, o) && Uncrossed(b, o)
  }

  ghost predicate RestingBook(x: Exch) {
    && Sane(x.book)
    && forall id :: id in x.orders ==> RestsWell(x.book, id, x.orders[id].o)
  }

  /** A bid at this tick would cross neither the best ask nor a resting sell. */
  ghost predicate FreeForBid(x: Exch, t: int) {
    t < x.book.bestAsk && forall id :: id in x.orders && x.orders[id].o.side == Sell ==> t < x.orders[id].o.tick
  }

  ghost predicate FreeForAsk(x: Exch, t: int) {
    t > x.book.bestBid && forall id :: id in x.orders && x.orders[id].o.side == Buy ==> t > x.orders[id].o.tick
  }

  /** Every level that a partial clear leaves for its search to find would cross nothing as the new best. */
  ghost predicate ClearsSafely(x: Exch, k: EventKind) {
    match k
    case ClearBids(cut) =>
      cut.Some? ==> forall t :: t in x.book.bids && x.book.lowBid <= t < cut.value ==> FreeForBid(x, t)
    case ClearAsks(cut) =>
      cut.Some? ==> forall t :: t in x.book.asks && cut.value < t <= x.book.highAsk ==> FreeForAsk(x, t)
    case _ => true
  }

  predicate FeedRow(k: EventKind) {
    (k.BidDepth? || k.AskDepth?) ==> IsTick(k.tick)
  }

  /** On a resting book the branch chosen by cost never changes the set of orders looked at. */
  lemma FastScanVisitsAll(x: Exch, k: EventKind)
    requires RestingBook(x) && ScanOf(x, k).Scan?
    ensures var s := ScanOf(x, k);
            VisitedBy(x, k) == Reach(x.orders, s.side, s.limit) == Window(x.orders, s.side, s.limit, s.from)
  {
  }

  /** The tick-range scan refines the full scan: same book, account and reports, in any traversal order. */
  lemma FastScanRefinesFull(c: Config, x: Exch, k: EventKind, ts: int, full: seq<OrderId>, fast: seq<OrderId>)
    requires RestingBook(x) && ScanOf(x, k).Scan?
    requires var s := ScanOf(x, k); Enumerates(full, Reach(x.orders, s.side, s.limit))
    requires var s := ScanOf(x, k); Enumerates(fast, Window(x.orders, s.side, s.limit, s.from))
    ensures Feed(c, x, k, ts, full).0 == Feed(c, x, k, ts, fast).0
    ensures multiset(Feed(c, x, k, ts, full).1) == multiset(Feed(c, x, k, ts, fast).1)
  {
    FastScanVisitsAll(x, k);
    var s := ScanOf(x, k);
    SweepOrderFree(c, Absorb(c, x, k), full, fast, Reach(x.orders, s.side, s.limit), s.why, ts);
  }

  /** How many ticks lie beyond the reference up to the limit. */
  function TickRange(side: Side, limit: int, from: int): nat {
    var n := if side == Sell then limit - from else from - limit;
    if n > 0 then n else 0
  }

  /**
    * With a reference, the branch chosen looks at as few orders or ticks as either would, and ticks are preferred;
    * without one all orders are looked at.
    */
  lemma ScanIsCheapest(count: nat, side: Side, limit: int, from: int)
    ensures var n, all := TickRange(side, limit, from), ScansAll(count, side, limit, from);
            if from == (if side == Sell then INVALID_MIN else INVALID_MAX) then all
            else (if all then count else n) == Min(count, n) && (count == n ==> !all)
  {
  }

  // ---------------------------------------------------------------- the two branches on any table

  /** Looking at the order changes nothing and reports nothing. */
  predicate Untouched(c: Config, r: Resting, why: Trigger, ts: int) {
    Touch(c, r, why, ts) == Outcome(r, [], false)
  }

  lemma {:induction false} Listing(s: set<OrderId>) returns (ids: seq<OrderId>)
    ensures Enumerates(ids, s)
    decreases |s|
  {
    if s == {} {
      ids := [];
    } else {
      var id :| id in s;
      var rest := Listing(s - {id});
      ids := rest + [id];
    }
  }

  lemma {:induction false} SilentReports(
    c: Config, orders: map<OrderId, Resting>, ids: seq<OrderId>, why: Trigger, ts: int)
    ensures Reports(c, orders, ids, why, ts) == [] <==>
            forall id :: id in ids && id in orders ==> Touch(c, orders[id], why, ts).reports == []
  {
    if ids != [] {
      SilentReports(c, orders, ids[1..], why, ts);
      assert ids == [ids[0]] + ids[1..];
    }
  }

  lemma MoreVisitedTableIff(
    c: Config, orders: map<OrderId, Resting>, fast: seq<OrderId>, extra: seq<OrderId>, why: Trigger, ts: int)
    requires forall id :: id in extra ==> id in orders && id !in fast
    ensures Swept(c, orders, fast + extra, why, ts) == Swept(c, orders, fast, why, ts) <==>
            forall id :: id in extra ==>
                    !Touch(c, orders[id], why, ts).gone && Touch(c, orders[id], why, ts).r == orders[id]
  {
    var more, less := Swept(c, orders, fast + extra, why, ts), Swept(c, orders, fast, why, ts);
    if more == less {
      forall id | id in extra
        ensures !Touch(c, orders[id], why, ts).gone && Touch(c, orders[id], why, ts).r == orders[id]
      {
        assert id in less && id in more;
      }
    }
  }

  lemma MoreReportsIff(a: seq<Order>, b: seq<Order>)
    ensures multiset(a + b) == multiset(a) <==> b == []
  {
    assert multiset(a + b) == multiset(a) + multiset(b);
    if b == [] {
      assert a + b == a;
    } else {
      assert |multiset(b)| > 0;
      assert |multiset(a + b)| == |multiset(a)| + |multiset(b)|;
    }
  }

  /** Visiting more orders makes no difference exactly when each of them is left untouched. */
  lemma MoreVisitedIff(
    c: Config, x: Exch, fast: seq<OrderId>, extra: seq<OrderId>, why: Trigger, ts: int)
    requires forall id :: id in extra ==> id in x.orders && id !in fast
    ensures var more, less := Sweep(c, x, fast + extra, why, ts), Sweep(c, x, fast, why, ts);
            more.0 == less.0 && multiset(more.1) == multiset(less.1)
            <==> forall id :: id in extra ==> Untouched(c, x.orders[id], why, ts)
  {
    var base, added := Reports(c, x.orders, fast, why, ts), Reports(c, x.orders, extra, why, ts);
    ReportsConcat(c, x.orders, fast, extra, why, ts);
    SilentReports(c, x.orders, extra, why, ts);
    MoreReportsIff(base, added);
    MoreVisitedTableIff(c, x.orders, fast, extra, why, ts);
    if added == [] {
      assert base + added == base;
    }
  }

  /**
    * On any table at all, the tick-range scan gives the same book, account and replies as the full scan if and
    * only if every order within the limit that it passes over, being at or behind the reference, would have
    * been left untouched.
    */
  lemma BranchesAgreeIff(c: Config, x: Exch, k: EventKind, ts: int, full: seq<OrderId>, fast: seq<OrderId>)
    requires ScanOf(x, k).Scan?
    requires var s := ScanOf(x, k); Enumerates(full, Reach(x.orders, s.side, s.limit))
    requires var s := ScanOf(x, k); Enumerates(fast, Window(x.orders, s.side, s.limit, s.from))
    ensures var s, m := ScanOf(x, k), Absorb(c, x, k).orders;
            Feed(c, x, k, ts, full).0 == Feed(c, x, k, ts, fast).0
            && multiset(Feed(c, x, k, ts, full).1) == multiset(Feed(c, x, k, ts, fast).1)
            <==> forall id :: id in Reach(x.orders, s.side, s.limit) && !Ahead(s.side, s.from, x.orders[id].o.tick)
                   ==> id in m && Untouched(c, m[id], s.why, ts)
  {
    var s, m := ScanOf(x, k), Absorb(c, x, k);
    AbsorbKeepsOrders(c, x, k);
    var reach, window := Reach(x.orders, s.side, s.limit), Window(x.orders, s.side, s.limit, s.from);
    var extra := Listing(reach - window);
    EnumeratesUnion(fast, window, extra, reach - window);
    assert window + (reach - window) == reach;
    FeedIsSweep(c, x, k, ts, full);
    FeedIsSweep(c, x, k, ts, fast);
    SweepOrderFree(c, m, full, fast + extra, reach, s.why, ts);
    MoreVisitedIff(c, m, fast, extra, s.why, ts);
  }

  /**
    * When the best price moved every visited order is executed, so there the branches agree if and only if no
    * order rests within the limit at or behind the reference.
    */
  lemma BestMovedBranchesAgreeIff(c: Config, x: Exch, k: EventKind, ts: int, full: seq<OrderId>, fast: seq<OrderId>)
    requires ScanOf(x, k).Scan? && ScanOf(x, k).why == BestMoved
    requires var s := ScanOf(x, k); Enumerates(full, Reach(x.orders, s.side, s.limit))
    requires var s := ScanOf(x, k); Enumerates(fast, Window(x.orders, s.side, s.limit, s.from))
    ensures var s := ScanOf(x, k);
            Feed(c, x, k, ts, full).0 == Feed(c, x, k, ts, fast).0
            && multiset(Feed(c, x, k, ts, full).1) == multiset(Feed(c, x, k, ts, fast).1)
            <==> forall id :: id in Reach(x.orders, s.side, s.limit) ==> Ahead(s.side, s.from, x.orders[id].o.tick)
  {
    AbsorbKeepsOrders(c, x, k);
    BranchesAgreeIff(c, x, k, ts, full, fast);
  }

  /** A surviving order keeps its identity and price, stays live, and owes something. */
  lemma TouchKeeps(c: Config, r: Resting, why: Trigger, ts: int)
    requires r.o.Active() && r.o.leaves > 0
    ensures var t := Touch(c, r, why, ts);
            && t.r.o.id == r.o.id && t.r.o.side == r.o.side && t.r.o.tick == r.o.tick
            && (!t.gone ==> t.r.o.Active() && 0 < t.r.o.leaves <= r.o.leaves)
            && (t.gone <==> t.reports != [] && t.r.o.status == Filled)
            && (t.gone ==> t.r.o.leaves == 0)
            && |t.reports| <= 1 && (t.reports != [] ==> t.reports == [t.r.o] && t.r.o.req == r.o.req)
            && (t.reports != [] ==> t.r.o.execQty + t.r.o.leaves == r.o.leaves && t.r.o.execQty > 0)
            && (t.reports == [] ==> t.r.o == r.o)
            && (why == BestMoved ==> t.gone)
            && (why.TradeAt? && Ahead(r.o.side, r.o.tick, why.tick) ==> t.gone)
            && (!c.partial && t.reports != [] ==> t.gone)
  {
  }

  /** Taking in a feed row moves queue positions only. */
  lemma AbsorbKeepsOrders(c: Config, x: Exch, k: EventKind)
    ensures var m := Absorb(c, x, k);
            m.orders.Keys == x.orders.Keys && forall i :: i in m.orders ==> m.orders[i].o == x.orders[i].o
  {
  }

  /** A scan that reaches every order the best price moved through leaves an orderly book. */
  lemma SweepKeepsRestingBook(
    c: Config, m: Exch, ids: seq<OrderId>, side: Side, limit: int, why: Trigger, ts: int, was: Book)
    requires Sane(m.book) && (why.TradeAt? ==> why.tick == limit)
    requires forall id :: id in m.orders ==> RestsWell(was, id, m.orders[id].o)
    requires forall id :: id in Reach(m.orders, side, limit) ==> id in ids
    requires forall id :: id in m.orders ==>
      Uncrossed(m.book, m.orders[id].o) || (why == BestMoved && id in Reach(m.orders, side, limit))
    ensures var y := Sweep(c, m, ids, why, ts).0;
            && RestingBook(y)
            && (why.TradeAt? ==> forall id :: id in y.orders && y.orders[id].o.side == side ==>
                  !Ahead(side, y.orders[id].o.tick, limit))
  {
    var y := Sweep(c, m, ids, why, ts).0;
    forall id | id in y.orders
      ensures RestsWell(m.book, id, y.orders[id].o)
      ensures why.TradeAt? && y.orders[id].o.side == side ==> !Ahead(side, y.orders[id].o.tick, limit)
    {
      assert RestsWell(was, id, m.orders[id].o);
      TouchKeeps(c, m.orders[id], why, ts);
      assert id in Reach(m.orders, side, limit) ==> id in ids;
    }
  }

  predicate Uncrossed(b: Book, o: Order) {
    Ahead(o.side, OppositeBest(b, o.side), o.tick)
  }

  predicate WithinReach(x: Exch, scan: Scan, id: OrderId) {
    scan.Scan? && scan.why == BestMoved && id in Reach(x.orders, scan.side, scan.limit)
  }

  lemma BidClearIff(c: Config, x: Exch, cut: int)
    requires RestingBook(x)
    ensures RestingBook(Absorb(c, x, ClearBids(Some(cut)))) <==> ClearsSafely(x, ClearBids(Some(cut)))
  {
    var b, m := x.book, Absorb(c, x, ClearBids(Some(cut)));
    ClearBidsSaneIff(b, Some(cut));
    assert forall t :: b.lowBid <= t < cut ==> At(m.book.bids, t) == At(b.bids, t);
    if RestingBook(m) {
      forall t | t in b.bids && b.lowBid <= t < cut ensures FreeForBid(x, t) {
        assert At(m.book.bids, t) > 0;
        forall id | id in x.orders && x.orders[id].o.side == Sell ensures t < x.orders[id].o.tick {
          assert RestsWell(m.book, id, m.orders[id].o);
        }
      }
    }
    if ClearsSafely(x, ClearBids(Some(cut))) {
      assert m.book.bestBid == INVALID_MIN || FreeForBid(x, m.book.bestBid);
      forall id | id in m.orders ensures RestsWell(m.book, id, m.orders[id].o) {
        assert RestsWell(b, id, x.orders[id].o);
      }
    }
  }

  lemma AskClearIff(c: Config, x: Exch, cut: int)
    requires RestingBook(x)
    ensures RestingBook(Absorb(c, x, ClearAsks(Some(cut)))) <==> ClearsSafely(x, ClearAsks(Some(cut)))
  {
    var b, m := x.book, Absorb(c, x, ClearAsks(Some(cut)));
    ClearAsksSaneIff(b, Some(cut));
    assert forall t :: cut < t <= b.highAsk ==> At(m.book.asks, t) == At(b.asks, t);
    if RestingBook(m) {
      forall t | t in b.asks && cut < t <= b.highAsk ensures FreeForAsk(x, t) {
        assert At(m.book.asks, t) > 0;
        forall id | id in x.orders && x.orders[id].o.side == Buy ensures t > x.orders[id].o.tick {
          assert RestsWell(m.book, id, m.orders[id].o);
        }
      }
    }
    if ClearsSafely(x, ClearAsks(Some(cut))) {
      assert m.book.bestAsk == INVALID_MAX || FreeForAsk(x, m.book.bestAsk);
      forall id | id in m.orders ensures RestsWell(m.book, id, m.orders[id].o) {
        assert RestsWell(b, id, x.orders[id].o);
      }
    }
  }

  /** Exactly when a clear keeps the resting book: no level it leaves to be found again crosses anything. */
  lemma ClearKeepsRestingBookIff(c: Config, x: Exch, k: EventKind)
    requires RestingBook(x) && (k.ClearBids? || k.ClearAsks? || k.ClearAll?)
    ensures RestingBook(Absorb(c, x, k)) <==> ClearsSafely(x, k)
  {
    if k.ClearBids? && k.cut.Some? {
      BidClearIff(c, x, k.cut.value);
    } else if k.ClearAsks? && k.cut.Some? {
      AskClearIff(c, x, k.cut.value);
    } else {
      assert forall id :: id in x.orders ==> RestsWell(x.book, id, x.orders[id].o);
    }
  }

  /** After a depth row or trade any order the book now crosses is within reach of the row's scan. */
  lemma CrossedWithinReach(c: Config, x: Exch, k: EventKind, id: OrderId)
    requires RestingBook(x) && FeedRow(k) && !k.ClearBids? && !k.ClearAsks? && !k.ClearAll? && id in x.orders
    ensures Uncrossed(Absorb(c, x, k).book, x.orders[id].o) || WithinReach(x, ScanOf(x, k), id)
  {
  }

  lemma AbsorbsSanely(c: Config, x: Exch, k: EventKind)
    requires RestingBook(x) && FeedRow(k) && !k.ClearBids? && !k.ClearAsks? && !k.ClearAll?
    ensures var m := Absorb(c, x, k);
            Sane(m.book) && forall id :: id in x.orders ==>
              Uncrossed(m.book, x.orders[id].o) || WithinReach(x, ScanOf(x, k), id)
  {
    if IsDepthUpdate(k) {
      SaneUpdate(x.book, k);
    }
    forall id | id in x.orders
      ensures Uncrossed(Absorb(c, x, k).book, x.orders[id].o) || WithinReach(x, ScanOf(x, k), id)
    {
      CrossedWithinReach(c, x, k, id);
    }
  }

  lemma TradeOrDepthKeepsRestingBook(c: Config, x: Exch, k: EventKind, ts: int, ids: seq<OrderId>)
    requires RestingBook(x) && FeedRow(k) && !k.ClearBids? && !k.ClearAsks? && !k.ClearAll?
    requires Enumerates(ids, VisitedBy(x, k))
    ensures RestingBook(Feed(c, x, k, ts, ids).0)
    ensures var y := Feed(c, x, k, ts, ids).0;
            forall id :: id in y.orders ==>
              && (k.BuyTrade? && y.orders[id].o.side == Sell ==> y.orders[id].o.tick >= k.tick)
              && (k.SellTrade? && y.orders[id].o.side == Buy ==> y.orders[id].o.tick <= k.tick)
  {
    var m, scan := Absorb(c, x, k), ScanOf(x, k);
    AbsorbKeepsOrders(c, x, k);
    AbsorbsSanely(c, x, k);
    if scan.Scan? {
      FastScanVisitsAll(x, k);
      FeedIsSweep(c, x, k, ts, ids);
      SameReach(x.orders, m.orders, scan.side, scan.limit);
      SweepKeepsRestingBook(c, m, ids, scan.side, scan.limit, scan.why, ts, x.book);
    }
  }

  /**
    * A feed row keeps the resting book unless it is a clear that revives a level crossing something; and after a
    * trade nothing rests strictly through its price.
    */
  lemma FeedKeepsRestingBook(c: Config, x: Exch, k: EventKind, ts: int, ids: seq<OrderId>)
    requires RestingBook(x) && FeedRow(k) && Enumerates(ids, VisitedBy(x, k))
    ensures RestingBook(Feed(c, x, k, ts, ids).0) <==> ClearsSafely(x, k)
    ensures var y := Feed(c, x, k, ts, ids).0;
            forall id :: id in y.orders ==>
              && (k.BuyTrade? && y.orders[id].o.side == Sell ==> y.orders[id].o.tick >= k.tick)
              && (k.SellTrade? && y.orders[id].o.side == Buy ==> y.orders[id].o.tick <= k.tick)
  {
    if k.ClearBids? || k.ClearAsks? || k.ClearAll? {
      ClearKeepsRestingBookIff(c, x, k);
    } else {
      TradeOrDepthKeepsRestingBook(c, x, k, ts, ids);
    }
  }

  lemma SameReach(a: map<OrderId, Resting>, b: map<OrderId, Resting>, side: Side, limit: int)
    requires a.Keys == b.Keys && forall i :: i in b ==> b[i].o == a[i].o
    ensures Reach(a, side, limit) == Reach(b, side, limit)
  {
  }

  lemma FeedIsSweep(c: Config, x: Exch, k: EventKind, ts: int, ids: seq<OrderId>)
    requires ScanOf(x, k).Scan?
    ensures Feed(c, x, k, ts, ids) == Sweep(c, Absorb(c, x, k), ids, ScanOf(x, k).why, ts)
    ensures k.BuyTrade? || k.SellTrade? ==> ScanOf(x, k).why == TradeAt(k.tick, k.qty) && ScanOf(x, k).limit == k.tick
    ensures ScanOf(x, k).why.TradeAt? ==> (k.BuyTrade? || k.SellTrade?)
    ensures ScanOf(x, k).side == if k.BidDepth? || k.BuyTrade? then Sell else Buy
  {
  }

  ghost predicate Filed(x: Exch) {
    forall id :: id in x.orders ==> x.orders[id].o.id == id
  }

  lemma RestsFiled(x: Exch)
    requires RestingBook(x)
    ensures Filed(x)
  {
    assert forall id :: id in x.orders ==> RestsWell(x.book, id, x.orders[id].o);
  }

  lemma RequestKeepsFiled(c: Config, x: Exch, request: Order, ts: int)
    requires Filed(x)
    ensures Filed(Handle(c, x, request, ts).x)
  {
  }

  lemma RowKeepsFiled(c: Config, x: Exch, k: EventKind, ts: int, ids: seq<OrderId>)
    requires Filed(x)
    ensures Filed(Feed(c, x, k, ts, ids).0)
  {
    AbsorbKeepsOrders(c, x, k);
  }

  /** A new order that neither executes nor expires at once. */
  predicate ComesToRest(b: Book, o: Order) {
    o.ordType != Market && Uncrossed(b, o) && (o.tif == GTC || o.tif == GTX)
  }

  /** An order this request puts, or leaves, in the book has something left to execute. */
  predicate Placeable(x: Exch, request: Order) {
    && (request.req == New && request.id !in x.orders && ComesToRest(x.book, request) ==> request.leaves > 0)
    && (request.req == Replaced && request.id in x.orders ==>
          if Resubmits(x.orders[request.id].o, request)
          then ComesToRest(x.book, request) ==> request.leaves > 0
          else request.qty > 0)
  }

  /** A request keeps the resting book if and only if it leaves no empty order in it. */
  lemma HandleKeepsRestingBook(c: Config, x: Exch, request: Order, ts: int)
    requires RestingBook(x)
    ensures RestingBook(Handle(c, x, request, ts).x) <==> Placeable(x, request)
  {
    var y := Handle(c, x, request, ts).x;
    if !Placeable(x, request) {
      assert request.id in y.orders && y.orders[request.id].o.leaves <= 0;
    }
  }
}
