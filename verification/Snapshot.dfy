/** Snapshots of the hash-map book and their round trip (include/hbt/depth/hashmap_depth.hpp, ApplySnapshotMixin). */
module Snapshot {
  import opened Core
  import opened HashMapDepth

  /** One snapshot event. */
  datatype Level = Level(side: Side, tick: int, qty: int)

  predicate IsMax(s: set<int>, m: int) {
    m in s && forall t :: t in s ==> t <= m
  }

  predicate IsMin(s: set<int>, m: int) {
    m in s && forall t :: t in s ==> m <= t
  }

  lemma EmptyOrNot(s: set<int>)
    ensures s == {} || exists t :: t in s
  {
    if forall t :: t !in s {
      assert s == {};
    }
  }

  lemma HasMax(s: set<int>) returns (m: int)
    requires s != {}
    ensures IsMax(s, m)
    decreases |s|
  {
    EmptyOrNot(s);
    var first :| first in s;
    m := first;
    if s != {m} {
      var rest := s - {m};
      var r := HasMax(rest);
      m := Max(m, r);
      assert forall t :: t in s ==> t in rest || t == m || t <= m;
    }
  }

  lemma HasMin(s: set<int>) returns (m: int)
    requires s != {}
    ensures IsMin(s, m)
    decreases |s|
  {
    EmptyOrNot(s);
    var first :| first in s;
    m := first;
    if s != {m} {
      var rest := s - {m};
      var r := HasMin(rest);
      m := Min(m, r);
      assert forall t :: t in s ==> t in rest || t == m || m <= t;
    }
  }

  ghost function MaxOf(s: set<int>): (m: int)
    requires s != {}
    ensures IsMax(s, m)
  {
    assert exists m :: IsMax(s, m) by { var m := HasMax(s); }
    var m :| IsMax(s, m); m
  }

  ghost function MinOf(s: set<int>): (m: int)
    requires s != {}
    ensures IsMin(s, m)
  {
    assert exists m :: IsMin(s, m) by { var m := HasMin(s); }
    var m :| IsMin(s, m); m
  }

  /** The one strictly decreasing listing of a set. */
  ghost function Descending(s: set<int>): (ts: seq<int>)
    ensures forall t :: t in ts <==> t in s
    ensures forall i, j :: 0 <= i < j < |ts| ==> ts[i] > ts[j]
    decreases |s|
  {
    if s == {} then []
    else var m := MaxOf(s); [m] + Descending(s - {m})
  }

  ghost function Ascending(s: set<int>): (ts: seq<int>)
    ensures forall t :: t in ts <==> t in s
    ensures forall i, j :: 0 <= i < j < |ts| ==> ts[i] < ts[j]
    decreases |s|
  {
    if s == {} then []
    else var m := MinOf(s); [m] + Ascending(s - {m})
  }

  function Levels(side: Side, ts: seq<int>, depth: map<int, int>): seq<Level> {
    seq(|ts|, i requires 0 <= i < |ts| => Level(side, ts[i], At(depth, ts[i])))
  }

  function BehindBid(b: Book): set<int> { set t | t in b.bids && t <= b.bestBid }
  function BehindAsk(b: Book): set<int> { set t | t in b.asks && t >= b.bestAsk }

  /** Bids at or behind the best, descending, then asks at or behind the best, ascending. */
  ghost function SnapshotOf(b: Book): seq<Level> {
    Levels(Buy, Descending(BehindBid(b)), b.bids) + Levels(Sell, Ascending(BehindAsk(b)), b.asks)
  }

  function ApplyLevel(b: Book, l: Level): Book {
    if l.side == Buy then
      b.(bestBid := Max(b.bestBid, l.tick), lowBid := Min(b.lowBid, l.tick), bids := b.bids[l.tick := l.qty])
    else
      b.(bestAsk := Min(b.bestAsk, l.tick), highAsk := Max(b.highAsk, l.tick), asks := b.asks[l.tick := l.qty])
  }

  function ApplyLevels(b: Book, ls: seq<Level>): Book {
    if ls == [] then b else ApplyLevel(ApplyLevels(b, ls[..|ls| - 1]), ls[|ls| - 1])
  }

  lemma {:induction false} ApplyConcat(b: Book, a: seq<Level>, c: seq<Level>)
    ensures ApplyLevels(b, a + c) == ApplyLevels(ApplyLevels(b, a), c)
  {
    if c == [] {
      assert a + c == a;
    } else {
      assert (a + c)[..|a + c| - 1] == a + c[..|c| - 1];
      ApplyConcat(b, a, c[..|c| - 1]);
    }
  }

  /** `r` is `b` with the bids at `ts` taken from `depth`. */
  ghost predicate BidsApplied(b: Book, r: Book, ts: seq<int>, depth: map<int, int>) {
    && (forall t :: t in r.bids <==> t in b.bids || t in ts)
    && (forall t :: t in r.bids ==> r.bids[t] == if t in ts then At(depth, t) else b.bids[t])
    && (r.bestBid == b.bestBid || r.bestBid in ts) && b.bestBid <= r.bestBid
    && (forall t :: t in ts ==> r.lowBid <= t <= r.bestBid)
    && (r.lowBid == b.lowBid || r.lowBid in ts)
  }

  ghost predicate AsksApplied(b: Book, r: Book, ts: seq<int>, depth: map<int, int>) {
    && (forall t :: t in r.asks <==> t in b.asks || t in ts)
    && (forall t :: t in r.asks ==> r.asks[t] == if t in ts then At(depth, t) else b.asks[t])
    && (r.bestAsk == b.bestAsk || r.bestAsk in ts) && r.bestAsk <= b.bestAsk
    && (forall t :: t in ts ==> r.bestAsk <= t <= r.highAsk)
    && (r.highAsk == b.highAsk || r.highAsk in ts)
  }

  lemma AppliedOne(b: Book, r: Book, ts: seq<int>, t: int, depth: map<int, int>)
    ensures BidsApplied(b, r, ts, depth) ==>
      BidsApplied(b, ApplyLevel(r, Level(Buy, t, At(depth, t))), ts + [t], depth)
    ensures AsksApplied(b, r, ts, depth) ==>
      AsksApplied(b, ApplyLevel(r, Level(Sell, t, At(depth, t))), ts + [t], depth)
  {
    assert forall u :: u in ts + [t] <==> u in ts || u == t;
  }

  lemma {:induction false} ApplyBids(b: Book, ts: seq<int>, depth: map<int, int>)
    ensures BidsApplied(b, ApplyLevels(b, Levels(Buy, ts, depth)), ts, depth)
  {
    if ts != [] {
      var init, last := ts[..|ts| - 1], ts[|ts| - 1];
      ApplyBids(b, init, depth);
      AppliedOne(b, ApplyLevels(b, Levels(Buy, init, depth)), init, last, depth);
      assert ts == init + [last];
      assert Levels(Buy, ts, depth)[..|ts| - 1] == Levels(Buy, init, depth);
    }
  }

  lemma {:induction false} ApplyAsks(b: Book, ts: seq<int>, depth: map<int, int>)
    ensures AsksApplied(b, ApplyLevels(b, Levels(Sell, ts, depth)), ts, depth)
  {
    if ts != [] {
      var init, last := ts[..|ts| - 1], ts[|ts| - 1];
      ApplyAsks(b, init, depth);
      AppliedOne(b, ApplyLevels(b, Levels(Sell, init, depth)), init, last, depth);
      assert ts == init + [last];
      assert Levels(Sell, ts, depth)[..|ts| - 1] == Levels(Sell, init, depth);
    }
  }

  /** The levels of `b` that are not stale: at or behind the best of their side. */
  function Fresh(b: Book): (map<int, int>, map<int, int>) {
    (map t | t in b.bids && t <= b.bestBid :: b.bids[t], map t | t in b.asks && t >= b.bestAsk :: b.asks[t])
  }

  lemma SnapshotSides(b: Book)
    ensures var r := ApplyLevels(EMPTY, SnapshotOf(b));
            var bids := ApplyLevels(EMPTY, Levels(Buy, Descending(BehindBid(b)), b.bids));
            var asks := ApplyLevels(EMPTY, Levels(Sell, Ascending(BehindAsk(b)), b.asks));
            r == Book(bids.bids, asks.asks, bids.bestBid, asks.bestAsk, bids.lowBid, asks.highAsk)
  {
    var bs, os := Levels(Buy, Descending(BehindBid(b)), b.bids), Levels(Sell, Ascending(BehindAsk(b)), b.asks);
    ApplyConcat(EMPTY, bs, os);
    BidsLeaveAsks(EMPTY, bs);
    SidesIndependent(EMPTY, ApplyLevels(EMPTY, bs), os);
  }

  lemma {:induction false} SidesIndependent(a: Book, b: Book, os: seq<Level>)
    requires a.asks == b.asks && a.bestAsk == b.bestAsk && a.highAsk == b.highAsk
    requires forall l :: l in os ==> l.side == Sell
    ensures var x, y := ApplyLevels(a, os), ApplyLevels(b, os);
            && x.asks == y.asks && x.bestAsk == y.bestAsk && x.highAsk == y.highAsk
            && y.bids == b.bids && y.bestBid == b.bestBid && y.lowBid == b.lowBid
  {
    if os != [] {
      assert os[|os| - 1] in os;
      SidesIndependent(a, b, os[..|os| - 1]);
    }
  }

  lemma {:induction false} BidsLeaveAsks(a: Book, bs: seq<Level>)
    requires forall l :: l in bs ==> l.side == Buy
    ensures var x := ApplyLevels(a, bs); x.asks == a.asks && x.bestAsk == a.bestAsk && x.highAsk == a.highAsk
  {
    if bs != [] {
      assert bs[|bs| - 1] in bs;
      BidsLeaveAsks(a, bs[..|bs| - 1]);
    }
  }

  /** A book holding just the unstale bids of a book, with some listed tick or the sentinel as best. */
  lemma FreshBids(b: Book, r: Book, ts: seq<int>)
    requires Stored(b) && forall t :: t in ts <==> t in BehindBid(b)
    requires forall t :: t in r.bids <==> t in ts
    requires forall t :: t in r.bids ==> r.bids[t] == At(b.bids, t)
    requires r.bestBid == INVALID_MIN || r.bestBid in ts
    requires INVALID_MIN <= r.bestBid && forall t :: t in ts ==> t <= r.bestBid
    ensures r.bids == Fresh(b).0 && r.bestBid == b.bestBid
  {
    assert b.bestBid != INVALID_MIN ==> b.bestBid in ts;
    forall t ensures t in r.bids <==> t in Fresh(b).0 {
      assert t in BehindBid(b) <==> t in b.bids && t <= b.bestBid;
    }
  }

  lemma FreshAsks(b: Book, r: Book, ts: seq<int>)
    requires Stored(b) && forall t :: t in ts <==> t in BehindAsk(b)
    requires forall t :: t in r.asks <==> t in ts
    requires forall t :: t in r.asks ==> r.asks[t] == At(b.asks, t)
    requires r.bestAsk == INVALID_MAX || r.bestAsk in ts
    requires r.bestAsk <= INVALID_MAX && forall t :: t in ts ==> r.bestAsk <= t
    ensures r.asks == Fresh(b).1 && r.bestAsk == b.bestAsk
  {
    assert b.bestAsk != INVALID_MAX ==> b.bestAsk in ts;
    forall t ensures t in r.asks <==> t in Fresh(b).1 {
      assert t in BehindAsk(b) <==> t in b.asks && t >= b.bestAsk;
    }
  }

  lemma BidsRoundTrip(b: Book)
    requires Stored(b)
    ensures var r := ApplyLevels(EMPTY, Levels(Buy, Descending(BehindBid(b)), b.bids));
            && r.bids == Fresh(b).0 && r.bestBid == b.bestBid && INVALID_MIN < r.lowBid
            && forall t :: t in r.bids ==> r.lowBid <= t <= r.bestBid
  {
    var ts := Descending(BehindBid(b));
    ApplyBids(EMPTY, ts, b.bids);
    FreshBids(b, ApplyLevels(EMPTY, Levels(Buy, ts, b.bids)), ts);
  }

  lemma AsksRoundTrip(b: Book)
    requires Stored(b)
    ensures var r := ApplyLevels(EMPTY, Levels(Sell, Ascending(BehindAsk(b)), b.asks));
            && r.asks == Fresh(b).1 && r.bestAsk == b.bestAsk && r.highAsk < INVALID_MAX
            && forall t :: t in r.asks ==> r.bestAsk <= t <= r.highAsk
  {
    var ts := Ascending(BehindAsk(b));
    ApplyAsks(EMPTY, ts, b.asks);
    FreshAsks(b, ApplyLevels(EMPTY, Levels(Sell, ts, b.asks)), ts);
  }

  lemma RestoredIsExact(b: Book, r: Book)
    requires Stored(b) && (r.bids, r.asks) == Fresh(b) && r.bestBid == b.bestBid && r.bestAsk == b.bestAsk
    requires INVALID_MIN < r.lowBid && forall t :: t in r.bids ==> r.lowBid <= t <= r.bestBid
    requires r.highAsk < INVALID_MAX && forall t :: t in r.asks ==> r.bestAsk <= t <= r.highAsk
    ensures Exact(r) <==> b.bestBid < b.bestAsk
  {
    assert b.bestBid != INVALID_MIN ==> r.bestBid in r.bids;
    assert b.bestAsk != INVALID_MAX ==> r.bestAsk in r.asks;
  }

  /**
    * Applying a book's snapshot to an empty book keeps both best ticks and exactly the levels at or
    * behind them; stale crossed levels are dropped. The book comes out exact unless its best ticks crossed.
    */
  lemma SnapshotRoundTrip(b: Book)
    requires Stored(b)
    ensures var r := ApplyLevels(EMPTY, SnapshotOf(b));
            && (r.bids, r.asks) == Fresh(b)
            && r.bestBid == b.bestBid && r.bestAsk == b.bestAsk
            && (Exact(r) <==> b.bestBid < b.bestAsk)
  {
    SnapshotSides(b);
    BidsRoundTrip(b);
    AsksRoundTrip(b);
    RestoredIsExact(b, ApplyLevels(EMPTY, SnapshotOf(b)));
  }

  /** Snapshotting again gives the same events. */
  lemma SnapshotIdempotent(b: Book)
    requires Stored(b)
    ensures SnapshotOf(ApplyLevels(EMPTY, SnapshotOf(b))) == SnapshotOf(b)
  {
    SnapshotRoundTrip(b);
    SnapshotOfFresh(b, ApplyLevels(EMPTY, SnapshotOf(b)));
  }

  /** So for every book that any history of updates and clears, crossing or not, can lead to. */
  lemma HistoryRoundTrip(ks: seq<EventKind>)
    requires forall k :: k in ks ==> IsDepthEvent(k)
    ensures var b := RunRows(EMPTY, ks);
            var r := ApplyLevels(EMPTY, SnapshotOf(b));
            && (r.bids, r.asks) == Fresh(b) && r.bestBid == b.bestBid && r.bestAsk == b.bestAsk
            && SnapshotOf(r) == SnapshotOf(b)
  {
    var b := RunRows(EMPTY, ks);
    SnapshotRoundTrip(b);
    SnapshotIdempotent(b);
  }

  /** A snapshot depends only on the best ticks and the levels at or behind them. */
  lemma SnapshotOfFresh(b: Book, r: Book)
    requires (r.bids, r.asks) == Fresh(b) && r.bestBid == b.bestBid && r.bestAsk == b.bestAsk
    ensures SnapshotOf(r) == SnapshotOf(b)
  {
    assert BehindBid(r) == BehindBid(b);
    assert BehindAsk(r) == BehindAsk(b);
    SameLevels(Buy, Descending(BehindBid(b)), r.bids, b.bids);
    SameLevels(Sell, Ascending(BehindAsk(b)), r.asks, b.asks);
  }

  lemma SameLevels(side: Side, ts: seq<int>, a: map<int, int>, b: map<int, int>)
    requires forall t :: t in ts ==> At(a, t) == At(b, t)
    ensures Levels(side, ts, a) == Levels(side, ts, b)
  {
  }

  // ---------------------------------------------------------------- in place

  lemma DescendingFrom(s: set<int>, m: int, before: seq<int>)
    requires IsMax(s, m)
    ensures before + Descending(s) == before + [m] + Descending(s - {m})
  {
  }

  lemma AscendingFrom(s: set<int>, m: int, before: seq<int>)
    requires IsMin(s, m)
    ensures before + Ascending(s) == before + [m] + Ascending(s - {m})
  {
  }

  /** Collect one side in order, as the source does by sorting the filtered container. */
  method SortDescending(s: set<int>) returns (ts: seq<int>)
    ensures ts == Descending(s)
  {
    var rest := s;
    ts := [];
    while rest != {}
      invariant ts + Descending(rest) == Descending(s)
      decreases rest
    {
      var best := Extreme(rest, true);
      DescendingFrom(rest, best, ts);
      ts := ts + [best];
      rest := rest - {best};
    }
  }

  method SortAscending(s: set<int>) returns (ts: seq<int>)
    ensures ts == Ascending(s)
  {
    var rest := s;
    ts := [];
    while rest != {}
      invariant ts + Ascending(rest) == Ascending(s)
      decreases rest
    {
      var best := Extreme(rest, false);
      AscendingFrom(rest, best, ts);
      ts := ts + [best];
      rest := rest - {best};
    }
  }

  method Extreme(s: set<int>, high: bool) returns (m: int)
    requires s != {}
    ensures if high then IsMax(s, m) else IsMin(s, m)
  {
    EmptyOrNot(s);
    var first :| first in s;
    m := first;
    var rest := s - {m};
    while rest != {}
      invariant rest <= s && m in s
      invariant forall t :: t in s && t !in rest ==> if high then t <= m else m <= t
      decreases rest
    {
      EmptyOrNot(rest);
      var t :| t in rest;
      if (high && t > m) || (!high && t < m) {
        m := t;
      }
      rest := rest - {t};
    }
  }

  method TakeSnapshot(d: HashMapMarketDepth) returns (events: seq<Level>)
    ensures events == SnapshotOf(d.View())
  {
    var bids := SortDescending(BehindBid(d.View()));
    var asks := SortAscending(BehindAsk(d.View()));
    events := Levels(Buy, bids, d.bids) + Levels(Sell, asks, d.asks);
  }

  method ApplySnapshot(d: HashMapMarketDepth, events: seq<Level>)
    modifies d
    ensures d.View() == ApplyLevels(EMPTY, events)
  {
    d.ClearAllDepth();
    for i := 0 to |events|
      invariant d.View() == ApplyLevels(EMPTY, events[..i])
    {
      var l := events[i];
      assert events[..i + 1][..i] == events[..i];
      if l.side == Buy {
        d.bestBid := Max(d.bestBid, l.tick);
        d.lowBid := Min(d.lowBid, l.tick);
        d.bids := d.bids[l.tick := l.qty];
      } else {
        d.bestAsk := Min(d.bestAsk, l.tick);
        d.highAsk := Max(d.highAsk, l.tick);
        d.asks := d.asks[l.tick := l.qty];
      }
    }
    assert events[..|events|] == events;
  }
}
