/** The hash-map order book: levels, best ticks and watermarks (include/hbt/depth/hashmap_depth.hpp). */
module HashMapDepth {
  import opened Core

  datatype Book = Book(
    bids: map<int, int>, asks: map<int, int>,
    bestBid: int, bestAsk: int, lowBid: int, highAsk: int)
  {
    /** The watermarks never reach the opposite sentinel. */
    predicate Ready() {
      INVALID_MIN < lowBid && highAsk < INVALID_MAX
    }
  }

  const EMPTY := Book(map[], map[], INVALID_MIN, INVALID_MAX, INVALID_MAX, INVALID_MIN)

  datatype DepthUpdate = DepthUpdate(
    tick: int, prevBest: int, newBest: int, prevQty: int, newQty: int, timestamp: int)

  function Min(a: int, b: int): int { if a <= b then a else b }
  function Max(a: int, b: int): int { if a >= b then a else b }

  /** Displayed quantity at a tick. */
  function At(levels: map<int, int>, t: int): int {
    if t in levels then levels[t] else 0
  }

  function Put(levels: map<int, int>, t: int, q: nat): map<int, int> {
    if q > 0 then levels[t := q] else levels - {t}
  }

  /** The highest level with quantity in [end, start), or INVALID_MIN. */
  function DepthBelow(levels: map<int, int>, start: int, end: int): (best: int)
    ensures best == INVALID_MIN || (end <= best < start && At(levels, best) > 0)
    ensures forall t :: Max(best + 1, end) <= t < start ==> At(levels, t) <= 0
    decreases start - end
  {
    if start - 1 < end then INVALID_MIN
    else if At(levels, start - 1) > 0 then start - 1
    else DepthBelow(levels, start - 1, end)
  }

  /** The lowest level with quantity in (start, end], or INVALID_MAX. */
  function DepthAbove(levels: map<int, int>, start: int, end: int): (best: int)
    ensures best == INVALID_MAX || (start < best <= end && At(levels, best) > 0)
    ensures forall t :: start < t <= Min(best - 1, end) ==> At(levels, t) <= 0
    decreases end - start
  {
    if start + 1 > end then INVALID_MAX
    else if At(levels, start + 1) > 0 then start + 1
    else DepthAbove(levels, start + 1, end)
  }

  /** What every reachable book satisfies, whatever the feed: see `ApplyKeepsStored`. */
  ghost predicate Stored(b: Book) {
    && (forall t :: t in b.bids ==> IsTick(t) && b.bids[t] > 0)
    && (forall t :: t in b.asks ==> IsTick(t) && b.asks[t] > 0)
    && b.Ready()
    && (b.bestBid == INVALID_MIN || b.bestBid in b.bids)
    && (b.bestAsk == INVALID_MAX || b.bestAsk in b.asks)
  }

  /** What every book satisfies that was built by updates alone: see `RunUpdates`. */
  ghost predicate Sane(b: Book) {
    && Stored(b)
    && (b.bestBid == INVALID_MIN || b.lowBid <= b.bestBid)
    && (b.bestAsk == INVALID_MAX || b.bestAsk <= b.highAsk)
    && b.bestBid < b.bestAsk
  }

  /** The best ticks are the true extremes of the stored levels, and the watermarks bound them. */
  ghost predicate Exact(b: Book) {
    && Sane(b)
    && (forall t :: t in b.bids ==> b.lowBid <= t <= b.bestBid)
    && (forall t :: t in b.asks ==> b.bestAsk <= t <= b.highAsk)
  }

  function UpdateBid(b: Book, t: int, q: nat): Book
  {
    var bids := Put(b.bids, t, q);
    if q == 0 then
      if t == b.bestBid then
        var best := DepthBelow(bids, b.bestBid, b.lowBid);
        b.(bids := bids, bestBid := best, lowBid := if best == INVALID_MIN then INVALID_MAX else b.lowBid)
      else b.(bids := bids)
    else
      var ask := if t > b.bestBid && t >= b.bestAsk then DepthAbove(b.asks, t, b.highAsk) else b.bestAsk;
      b.(bids := bids, bestBid := Max(b.bestBid, t), bestAsk := ask, lowBid := Min(b.lowBid, t))
  }

  function UpdateAsk(b: Book, t: int, q: nat): Book
  {
    var asks := Put(b.asks, t, q);
    if q == 0 then
      if t == b.bestAsk then
        var best := DepthAbove(asks, b.bestAsk, b.highAsk);
        b.(asks := asks, bestAsk := best, highAsk := if best == INVALID_MAX then INVALID_MIN else b.highAsk)
      else b.(asks := asks)
    else
      var bid := if t < b.bestAsk && b.bestBid >= t then DepthBelow(b.bids, t, b.lowBid) else b.bestBid;
      b.(asks := asks, bestAsk := Min(b.bestAsk, t), bestBid := bid, highAsk := Max(b.highAsk, t))
  }

  /** Levels without those in [lo, hi]. */
  function Without(levels: map<int, int>, lo: int, hi: int): map<int, int> {
    map t | t in levels && !(lo <= t <= hi) :: levels[t]
  }

  /** Clear the bid side from a cut price up; `None` stands for a non-finite price. */
  function BidsCleared(b: Book, cut: Option<int>): Book
  {
    var bids := if cut.None? then map[]
                else if b.bestBid == INVALID_MIN then b.bids
                else Without(b.bids, cut.value, b.bestBid);
    var best := if cut.None? then INVALID_MIN else DepthBelow(bids, cut.value, b.lowBid);
    b.(bids := bids, bestBid := best, lowBid := if best == INVALID_MIN then INVALID_MAX else b.lowBid)
  }

  function AsksCleared(b: Book, cut: Option<int>): Book
  {
    var asks := if cut.None? then map[]
                else if b.bestAsk == INVALID_MAX then b.asks
                else Without(b.asks, b.bestAsk, cut.value);
    var best := if cut.None? then INVALID_MAX else DepthAbove(asks, cut.value, b.highAsk);
    b.(asks := asks, bestAsk := best, highAsk := if best == INVALID_MAX then INVALID_MIN else b.highAsk)
  }

  /** Depth operations are the depth rows of the feed. */
  predicate IsDepthUpdate(k: EventKind) {
    (k.BidDepth? || k.AskDepth?) && IsTick(k.tick)
  }

  predicate IsDepthEvent(k: EventKind) {
    IsDepthUpdate(k) || k.ClearBids? || k.ClearAsks? || k.ClearAll?
  }

  function Apply(b: Book, k: EventKind): Book
  {
    match k
    case BidDepth(t, q) => UpdateBid(b, t, q)
    case AskDepth(t, q) => UpdateAsk(b, t, q)
    case ClearBids(cut) => BidsCleared(b, cut)
    case ClearAsks(cut) => AsksCleared(b, cut)
    case ClearAll => EMPTY
    case _ => b
  }

  // ---------------------------------------------------------------- crossing feeds

  /** Any update, crossing or not, keeps the book sane and moves each side's best only its own way. */
  lemma SaneUpdate(b: Book, k: EventKind)
    requires Sane(b) && IsDepthUpdate(k)
    ensures Sane(Apply(b, k))
    ensures k.BidDepth? ==> Apply(b, k).bestAsk >= b.bestAsk
    ensures k.AskDepth? ==> Apply(b, k).bestBid <= b.bestBid
    ensures k.BidDepth? && k.qty > 0 ==> Apply(b, k).bestBid == Max(b.bestBid, k.tick)
    ensures k.AskDepth? && k.qty > 0 ==> Apply(b, k).bestAsk == Min(b.bestAsk, k.tick)
  {
  }

  lemma BidKeepsStored(b: Book, t: int, q: nat)
    requires Stored(b) && IsTick(t)
    ensures Stored(UpdateBid(b, t, q))
  {
  }

  lemma AskKeepsStored(b: Book, t: int, q: nat)
    requires Stored(b) && IsTick(t)
    ensures Stored(UpdateAsk(b, t, q))
  {
  }

  lemma ClearKeepsStored(b: Book, cut: Option<int>)
    requires Stored(b)
    ensures Stored(BidsCleared(b, cut)) && Stored(AsksCleared(b, cut))
  {
  }

  /** Every depth row, clears included, keeps stored levels positive and each best a stored level or absent. */
  lemma ApplyKeepsStored(b: Book, k: EventKind)
    requires Stored(b) && IsDepthEvent(k)
    ensures Stored(Apply(b, k))
  {
    match k
    case BidDepth(t, q) => BidKeepsStored(b, t, q);
    case AskDepth(t, q) => AskKeepsStored(b, t, q);
    case ClearBids(cut) => ClearKeepsStored(b, cut);
    case ClearAsks(cut) => ClearKeepsStored(b, cut);
    case _ =>
  }

  /** The book after any history of depth rows. */
  ghost function RunRows(b: Book, ks: seq<EventKind>): Book
    requires Stored(b) && forall k :: k in ks ==> IsDepthEvent(k)
    ensures Stored(RunRows(b, ks))
    decreases |ks|
  {
    if ks == [] then b
    else
      ApplyKeepsStored(b, ks[0]);
      RunRows(Apply(b, ks[0]), ks[1..])
  }

  ghost function RunUpdates(b: Book, ks: seq<EventKind>): Book
    requires Sane(b) && forall k :: k in ks ==> IsDepthUpdate(k)
    ensures Sane(RunUpdates(b, ks))
    decreases |ks|
  {
    if ks == [] then b
    else
      SaneUpdate(b, ks[0]);
      RunUpdates(Apply(b, ks[0]), ks[1..])
  }

  /** A clear of the bid side keeps the book sane exactly when it cannot re-select a stale level at or above the ask. */
  lemma ClearBidsSaneIff(b: Book, cut: Option<int>)
    requires Sane(b)
    ensures Sane(BidsCleared(b, cut)) <==>
            (cut.Some? ==> forall t :: t in b.bids && b.lowBid <= t < cut.value ==> t < b.bestAsk)
  {
    var c := BidsCleared(b, cut);
    if cut.Some? {
      assert forall t :: b.lowBid <= t < cut.value ==> At(c.bids, t) == At(b.bids, t);
      if Sane(c) {
        forall t | t in b.bids && b.lowBid <= t < cut.value ensures t < b.bestAsk {
          assert At(c.bids, t) > 0;
        }
      } else {
        assert At(c.bids, c.bestBid) == At(b.bids, c.bestBid);
      }
    }
  }

  lemma ClearAsksSaneIff(b: Book, cut: Option<int>)
    requires Sane(b)
    ensures Sane(AsksCleared(b, cut)) <==>
            (cut.Some? ==> forall t :: t in b.asks && cut.value < t <= b.highAsk ==> t > b.bestBid)
  {
    var c := AsksCleared(b, cut);
    if cut.Some? {
      assert forall t :: cut.value < t <= b.highAsk ==> At(c.asks, t) == At(b.asks, t);
      if Sane(c) {
        forall t | t in b.asks && cut.value < t <= b.highAsk ensures t > b.bestBid {
          assert At(c.asks, t) > 0;
        }
      } else {
        assert At(c.asks, c.bestAsk) == At(b.asks, c.bestAsk);
      }
    }
  }

  /** The row takes bids away, the best one included, and no other is found. */
  predicate EmptiesBids(b: Book, k: EventKind) {
    && (k.ClearBids? || k.ClearAll? || (k.BidDepth? && k.qty == 0 && k.tick == b.bestBid))
    && Apply(b, k).bestBid == INVALID_MIN
  }

  predicate EmptiesAsks(b: Book, k: EventKind) {
    && (k.ClearAsks? || k.ClearAll? || (k.AskDepth? && k.qty == 0 && k.tick == b.bestAsk))
    && Apply(b, k).bestAsk == INVALID_MAX
  }

  /** The lowest bid quoted by a history since the last row that emptied the side. */
  ghost function LowestQuoted(b: Book, ks: seq<EventKind>, low: int): int
    decreases |ks|
  {
    if ks == [] then low
    else
      LowestQuoted(Apply(b, ks[0]), ks[1..],
                   if ks[0].BidDepth? && ks[0].qty > 0 then Min(low, ks[0].tick)
                   else if EmptiesBids(b, ks[0]) then INVALID_MAX else low)
  }

  ghost function HighestQuoted(b: Book, ks: seq<EventKind>, high: int): int
    decreases |ks|
  {
    if ks == [] then high
    else
      HighestQuoted(Apply(b, ks[0]), ks[1..],
                    if ks[0].AskDepth? && ks[0].qty > 0 then Max(high, ks[0].tick)
                    else if EmptiesAsks(b, ks[0]) then INVALID_MIN else high)
  }

  /** The watermarks are the lowest bid and the highest ask quoted since their side was last emptied. */
  lemma {:induction false} WatermarksAreQuoted(b: Book, ks: seq<EventKind>)
    requires Stored(b) && forall k :: k in ks ==> IsDepthEvent(k)
    ensures RunRows(b, ks).lowBid == LowestQuoted(b, ks, b.lowBid)
    ensures RunRows(b, ks).highAsk == HighestQuoted(b, ks, b.highAsk)
    decreases |ks|
  {
    if ks != [] {
      assert ks[0] in ks;
      ApplyKeepsStored(b, ks[0]);
      WatermarksAreQuoted(Apply(b, ks[0]), ks[1..]);
    }
  }

  /** An update keeps the best ticks exact if and only if it does not quote at or through the opposite best. */
  lemma ExactUpdateIff(b: Book, k: EventKind)
    requires Exact(b) && IsDepthUpdate(k)
    ensures Exact(Apply(b, k)) <==> !Crosses(b, k)
  {
    SaneUpdate(b, k);
    var c := Apply(b, k);
    if k.BidDepth? && Crosses(b, k) {
      assert b.bestAsk in c.asks;
    } else if k.AskDepth? && Crosses(b, k) {
      assert b.bestBid in c.bids;
    } else if k.BidDepth? {
      forall t | t in c.bids ensures c.lowBid <= t <= c.bestBid {
        assert At(c.bids, t) > 0;
      }
    } else {
      forall t | t in c.asks ensures c.bestAsk <= t <= c.highAsk {
        assert At(c.asks, t) > 0;
      }
    }
  }

  /** The row quotes at or through the opposite best. */
  predicate Crosses(b: Book, k: EventKind) {
    match k
    case BidDepth(t, q) => q > 0 && t >= b.bestAsk
    case AskDepth(t, q) => q > 0 && t <= b.bestBid
    case _ => false
  }

  /** On an exact book a clear removes exactly the levels from the cut outward-in and stays exact. */
  lemma ExactClear(b: Book, k: EventKind)
    requires Exact(b) && IsDepthEvent(k) && !IsDepthUpdate(k)
    ensures Exact(Apply(b, k))
    ensures k.ClearBids? ==> Apply(b, k).asks == b.asks && forall t :: t in Apply(b, k).bids <==>
      t in b.bids && k.cut.Some? && t < k.cut.value
    ensures k.ClearAsks? ==> Apply(b, k).bids == b.bids && forall t :: t in Apply(b, k).asks <==>
      t in b.asks && k.cut.Some? && t > k.cut.value
  {
    var c := Apply(b, k);
    match k
    case ClearBids(cut) =>
      ClearBidsSaneIff(b, cut);
      forall t | t in c.bids ensures c.lowBid <= t <= c.bestBid {
        assert At(c.bids, t) > 0;
      }
    case ClearAsks(cut) =>
      ClearAsksSaneIff(b, cut);
      forall t | t in c.asks ensures c.bestAsk <= t <= c.highAsk {
        assert At(c.asks, t) > 0;
      }
    case _ =>
  }

  // ---------------------------------------------------------------- the book in place

  class HashMapMarketDepth {
    var bids: map<int, int>
    var asks: map<int, int>
    var bestBid: int
    var bestAsk: int
    var lowBid: int
    var highAsk: int

    function View(): Book
      reads this
    {
      Book(bids, asks, bestBid, bestAsk, lowBid, highAsk)
    }

    constructor ()
      ensures View() == EMPTY
    {
      bids, asks := map[], map[];
      bestBid, bestAsk, lowBid, highAsk := INVALID_MIN, INVALID_MAX, INVALID_MAX, INVALID_MIN;
    }

    static method ScanBelow(levels: map<int, int>, start: int, end: int) returns (best: int)
      ensures best == DepthBelow(levels, start, end)
    {
      var t := start - 1;
      while t >= end
        invariant DepthBelow(levels, start, end) == DepthBelow(levels, t + 1, end)
        decreases t - end
      {
        if t in levels && levels[t] > 0 {
          return t;
        }
        t := t - 1;
      }
      return INVALID_MIN;
    }

    static method ScanAbove(levels: map<int, int>, start: int, end: int) returns (best: int)
      ensures best == DepthAbove(levels, start, end)
    {
      var t := start + 1;
      while t <= end
        invariant DepthAbove(levels, start, end) == DepthAbove(levels, t - 1, end)
        decreases end - t
      {
        if t in levels && levels[t] > 0 {
          return t;
        }
        t := t + 1;
      }
      return INVALID_MAX;
    }

    method UpdateBidDepth(t: int, q: nat, timestamp: int) returns (du: DepthUpdate)
      requires IsTick(t)
      modifies this
      ensures View() == UpdateBid(old(View()), t, q)
      ensures du == DepthUpdate(t, old(bestBid), bestBid, At(old(bids), t), q, timestamp)
    {
      var prevBest, prevQty := bestBid, 0;
      if t in bids {
        prevQty := bids[t];
        if q > 0 {
          bids := bids[t := q];
        } else {
          bids := bids - {t};
        }
      } else if q > 0 {
        bids := bids[t := q];
      }
      if q == 0 {
        if t == bestBid {
          bestBid := ScanBelow(bids, bestBid, lowBid);
          if bestBid == INVALID_MIN {
            lowBid := INVALID_MAX;
          }
        }
      } else {
        if t > bestBid {
          bestBid := t;
          if bestBid >= bestAsk {
            bestAsk := ScanAbove(asks, bestBid, highAsk);
          }
        }
        lowBid := Min(lowBid, t);
      }
      assert bids == Put(old(bids), t, q);
      return DepthUpdate(t, prevBest, bestBid, prevQty, q, timestamp);
    }

    method UpdateAskDepth(t: int, q: nat, timestamp: int) returns (du: DepthUpdate)
      requires IsTick(t)
      modifies this
      ensures View() == UpdateAsk(old(View()), t, q)
      ensures du == DepthUpdate(t, old(bestAsk), bestAsk, At(old(asks), t), q, timestamp)
    {
      var prevBest, prevQty := bestAsk, 0;
      if t in asks {
        prevQty := asks[t];
        if q > 0 {
          asks := asks[t := q];
        } else {
          asks := asks - {t};
        }
      } else if q > 0 {
        asks := asks[t := q];
      }
      if q == 0 {
        if t == bestAsk {
          bestAsk := ScanAbove(asks, bestAsk, highAsk);
          if bestAsk == INVALID_MAX {
            highAsk := INVALID_MIN;
          }
        }
      } else {
        if t < bestAsk {
          bestAsk := t;
          if bestBid >= bestAsk {
            bestBid := ScanBelow(bids, bestAsk, lowBid);
          }
        }
        highAsk := Max(highAsk, t);
      }
      assert asks == Put(old(asks), t, q);
      return DepthUpdate(t, prevBest, bestAsk, prevQty, q, timestamp);
    }

    method ClearBidDepth(cut: Option<int>)
      modifies this
      ensures View() == BidsCleared(old(View()), cut)
    {
      if cut.Some? {
        if bestBid != INVALID_MIN {
          var t := cut.value;
          while t <= bestBid
            invariant cut.value <= t
            invariant t <= Max(bestBid + 1, cut.value)
            invariant bids == Without(old(bids), cut.value, t - 1)
            invariant View() == old(View()).(bids := bids)
            decreases bestBid - t
          {
            bids := bids - {t};
            t := t + 1;
          }
          assert bids == Without(old(bids), cut.value, bestBid);
        }
        bestBid := ScanBelow(bids, cut.value, lowBid);
      } else {
        bids := map[];
        bestBid := INVALID_MIN;
      }
      if bestBid == INVALID_MIN {
        lowBid := INVALID_MAX;
      }
    }

    method ClearAskDepth(cut: Option<int>)
      modifies this
      ensures View() == AsksCleared(old(View()), cut)
    {
      if cut.Some? {
        if bestAsk != INVALID_MAX {
          var t := bestAsk;
          while t <= cut.value
            invariant bestAsk <= t
            invariant t <= Max(cut.value + 1, bestAsk)
            invariant asks == Without(old(asks), bestAsk, t - 1)
            invariant View() == old(View()).(asks := asks)
            decreases cut.value - t
          {
            asks := asks - {t};
            t := t + 1;
          }
          assert asks == Without(old(asks), bestAsk, cut.value);
        }
        bestAsk := ScanAbove(asks, cut.value, highAsk);
      } else {
        asks := map[];
        bestAsk := INVALID_MAX;
      }
      if bestAsk == INVALID_MAX {
        highAsk := INVALID_MIN;
      }
    }

    method ClearAllDepth()
      modifies this
      ensures View() == EMPTY
    {
      bids, asks := map[], map[];
      bestBid, bestAsk, lowBid, highAsk := INVALID_MIN, INVALID_MAX, INVALID_MAX, INVALID_MIN;
    }
  }
}
