/** The bounded array order book (include/hbt/depth/roi_vector_depth.hpp) and its agreement with the hash-map book. */
module RoiDepth {
  import opened Core
  import opened HashMapDepth

  /** The book as a value: one cell per tick of [lb, ub] and side. */
  datatype Roi = Roi(
    lb: int, ub: int, bids: seq<int>, asks: seq<int>,
    bestBid: int, bestAsk: int, lowBid: int, highAsk: int)
  {
    predicate Shaped() {
      lb <= ub && |bids| == ub - lb + 1 == |asks|
    }

    predicate InRange(t: int) {
      lb <= t <= ub
    }
  }

  /** Quantity in the cell of a tick; nothing is stored outside the range. */
  function Cell(cells: seq<int>, lb: int, t: int): int {
    if lb <= t < lb + |cells| then cells[t - lb] else 0
  }

  /** Highest tick below `start` with quantity, or INVALID_MIN. */
  function ScanBelow(cells: seq<int>, lb: int, start: int): (best: int)
    ensures best == INVALID_MIN || (lb <= best < start && Cell(cells, lb, best) > 0)
    ensures forall t :: Max(best + 1, lb) <= t < start ==> Cell(cells, lb, t) <= 0
    decreases start - lb
  {
    if start - 1 < lb then INVALID_MIN
    else if Cell(cells, lb, start - 1) > 0 then start - 1
    else ScanBelow(cells, lb, start - 1)
  }

  /** Lowest tick above `start` with quantity, or INVALID_MAX. */
  function ScanAbove(cells: seq<int>, lb: int, start: int): (best: int)
    ensures best == INVALID_MAX || (start < best < lb + |cells| && Cell(cells, lb, best) > 0)
    ensures forall t :: start < t <= Min(best - 1, lb + |cells| - 1) ==> Cell(cells, lb, t) <= 0
    decreases lb + |cells| - start
  {
    if start + 1 >= lb + |cells| then INVALID_MAX
    else if Cell(cells, lb, start + 1) > 0 then start + 1
    else ScanAbove(cells, lb, start + 1)
  }

  function RoiUpdateBid(r: Roi, t: int, q: nat): Roi
    requires r.Shaped()
  {
    if !r.InRange(t) then r
    else
      var bids := r.bids[t - r.lb := q];
      var best := if q == 0 then (if t == r.bestBid then ScanBelow(bids, r.lb, t) else r.bestBid)
              else Max(r.bestBid, t);
      var ask := if q > 0 && t > r.bestBid && t >= r.bestAsk then ScanAbove(r.asks, r.lb, t) else r.bestAsk;
      var low := if q > 0 then Min(r.lowBid, t) else r.lowBid;
      r.(bids := bids, bestBid := best, bestAsk := ask, lowBid := if best == INVALID_MIN then INVALID_MAX else low)
  }

  function RoiUpdateAsk(r: Roi, t: int, q: nat): Roi
    requires r.Shaped()
  {
    if !r.InRange(t) then r
    else
      var asks := r.asks[t - r.lb := q];
      var best := if q == 0 then (if t == r.bestAsk then ScanAbove(asks, r.lb, t) else r.bestAsk)
              else Min(r.bestAsk, t);
      var bid := if q > 0 && t < r.bestAsk && r.bestBid >= t then ScanBelow(r.bids, r.lb, t) else r.bestBid;
      var high := if q > 0 then Max(r.highAsk, t) else r.highAsk;
      r.(asks := asks, bestAsk := best, bestBid := bid, highAsk := if best == INVALID_MAX then INVALID_MIN else high)
  }

  /** Zero the cells at ticks the cut covers. */
  function Zeroed(cells: seq<int>, lb: int, cut: Option<int>, up: bool): seq<int> {
    seq(|cells|, i requires 0 <= i < |cells| =>
      if CutCovers(cut, lb + i, up) then 0 else cells[i])
  }

  /** Recompute both ends of a side from its cells. */
  function LowestCell(cells: seq<int>, lb: int): int { ScanAbove(cells, lb, lb - 1) }
  function HighestCell(cells: seq<int>, lb: int): int { ScanBelow(cells, lb, lb + |cells|) }

  function BidsRecomputed(r: Roi, bids: seq<int>): Roi {
    var low := LowestCell(bids, r.lb);
    r.(bids := bids, bestBid := HighestCell(bids, r.lb), lowBid := low)
  }

  function AsksRecomputed(r: Roi, asks: seq<int>): Roi {
    var high := HighestCell(asks, r.lb);
    r.(asks := asks, bestAsk := LowestCell(asks, r.lb), highAsk := high)
  }

  function Empty(lb: int, ub: int): Roi
    requires lb <= ub
  {
    Roi(lb, ub, seq(ub - lb + 1, _ => 0), seq(ub - lb + 1, _ => 0), INVALID_MIN, INVALID_MAX, INVALID_MAX, INVALID_MIN)
  }

  function RoiApply(r: Roi, k: EventKind): Roi
    requires r.Shaped()
  {
    match k
    case BidDepth(t, q) => RoiUpdateBid(r, t, q)
    case AskDepth(t, q) => RoiUpdateAsk(r, t, q)
    case ClearBids(cut) => BidsRecomputed(r, Zeroed(r.bids, r.lb, cut, true))
    case ClearAsks(cut) => AsksRecomputed(r, Zeroed(r.asks, r.lb, cut, false))
    case ClearAll => Empty(r.lb, r.ub)
    case _ => r
  }

  // ---------------------------------------------------------------- agreement with the hash-map book

  /** The array's cells hold exactly these levels, all of them positive; so none lies outside the range. */
  ghost predicate Holds(cells: seq<int>, lb: int, levels: map<int, int>) {
    && INVALID_MIN < lb && lb + |cells| <= INVALID_MAX
    && (forall t :: t in levels ==> levels[t] > 0)
    && forall t :: Cell(cells, lb, t) == At(levels, t)
  }

  /** Same levels and same best ticks. */
  ghost predicate Agree(b: Book, r: Roi) {
    && r.Shaped() && Holds(r.bids, r.lb, b.bids) && Holds(r.asks, r.lb, b.asks)
    && b.bestBid == r.bestBid && b.bestAsk == r.bestAsk
  }

  /** What a depth row reports to the caller. */
  function HashReport(b: Book, k: EventKind): Option<DepthUpdate> {
    match k
    case BidDepth(t, q) => Some(DepthUpdate(t, b.bestBid, Apply(b, k).bestBid, At(b.bids, t), q, 0))
    case AskDepth(t, q) => Some(DepthUpdate(t, b.bestAsk, Apply(b, k).bestAsk, At(b.asks, t), q, 0))
    case _ => None
  }

  function RoiReport(r: Roi, k: EventKind): Option<DepthUpdate>
    requires r.Shaped()
  {
    match k
    case BidDepth(t, q) => Some(DepthUpdate(t, r.bestBid, RoiApply(r, k).bestBid, Cell(r.bids, r.lb, t), q, 0))
    case AskDepth(t, q) => Some(DepthUpdate(t, r.bestAsk, RoiApply(r, k).bestAsk, Cell(r.asks, r.lb, t), q, 0))
    case _ => None
  }

  lemma CellUpdate(cells: seq<int>, lb: int, t: int, q: int, u: int)
    requires lb <= t < lb + |cells|
    ensures Cell(cells[t - lb := q], lb, u) == if u == t then q else Cell(cells, lb, u)
  {
  }

  predicate CutCovers(cut: Option<int>, t: int, up: bool) {
    cut.None? || (if up then t >= cut.value else t <= cut.value)
  }

  lemma ZeroedCells(cells: seq<int>, lb: int, cut: Option<int>, up: bool, t: int)
    ensures Cell(Zeroed(cells, lb, cut, up), lb, t) == if CutCovers(cut, t, up) then 0 else Cell(cells, lb, t)
  {
  }

  /** Some level lies below `start`, and every such level is out of the scan's reach. */
  ghost predicate HiddenBelow(levels: map<int, int>, start: int, end: int) {
    (exists u :: u in levels && u < start) && forall u :: u in levels && u < start ==> u < end
  }

  ghost predicate HiddenAbove(levels: map<int, int>, start: int, end: int) {
    (exists u :: u in levels && u > start) && forall u :: u in levels && u > start ==> u > end
  }

  /**
    * The hash-map book is about to lose sight of stale levels that the array still finds: the row makes it
    * search for a best tick and only levels beyond its watermark are left to find, or the row clears a
    * side down to a cut and stale levels beyond that side's best are left behind.
    */
  ghost predicate LosesStale(b: Book, k: EventKind) {
    match k
    case BidDepth(t, q) =>
      if q == 0 then t == b.bestBid && HiddenBelow(b.bids, t, b.lowBid)
      else t > b.bestBid && t >= b.bestAsk && HiddenAbove(b.asks, t, b.highAsk)
    case AskDepth(t, q) =>
      if q == 0 then t == b.bestAsk && HiddenAbove(b.asks, t, b.highAsk)
      else t < b.bestAsk && t <= b.bestBid && HiddenBelow(b.bids, t, b.lowBid)
    case ClearBids(cut) =>
      cut.Some? && (|| (exists u :: u in b.bids && cut.value <= u && b.bestBid < u)
                    || HiddenBelow(b.bids, cut.value, b.lowBid))
    case ClearAsks(cut) =>
      cut.Some? && (|| (exists u :: u in b.asks && u <= cut.value && u < b.bestAsk)
                    || HiddenAbove(b.asks, cut.value, b.highAsk))
    case _ => false
  }

  /** The bounded scan and the array's scan find the same level exactly when none is hidden. */
  lemma ScansBelowAgreeIff(cells: seq<int>, lb: int, levels: map<int, int>, start: int, end: int)
    requires Holds(cells, lb, levels)
    ensures DepthBelow(levels, start, end) == ScanBelow(cells, lb, start) <==> !HiddenBelow(levels, start, end)
  {
    var d, r := DepthBelow(levels, start, end), ScanBelow(cells, lb, start);
    assert At(levels, d) == Cell(cells, lb, d) && At(levels, r) == Cell(cells, lb, r);
    forall u | u in levels && u < start ensures r != INVALID_MIN && u <= r {
      assert Cell(cells, lb, u) == At(levels, u);
    }
    if r != INVALID_MIN {
      assert r in levels && r < start;
    }
  }

  lemma ScansAboveAgreeIff(cells: seq<int>, lb: int, levels: map<int, int>, start: int, end: int)
    requires Holds(cells, lb, levels)
    ensures DepthAbove(levels, start, end) == ScanAbove(cells, lb, start) <==> !HiddenAbove(levels, start, end)
  {
    var d, r := DepthAbove(levels, start, end), ScanAbove(cells, lb, start);
    assert At(levels, d) == Cell(cells, lb, d) && At(levels, r) == Cell(cells, lb, r);
    forall u | u in levels && u > start ensures r != INVALID_MAX && r <= u {
      assert Cell(cells, lb, u) == At(levels, u);
    }
    if r != INVALID_MAX {
      assert r in levels && r > start;
    }
  }

  /** Recomputing a side whose cells are empty from `start` on is scanning from `start`. */
  lemma ExtremeIsScan(cells: seq<int>, lb: int, start: int)
    requires INVALID_MIN < lb && lb + |cells| <= INVALID_MAX
    ensures (forall t :: t >= start ==> Cell(cells, lb, t) <= 0) ==>
            ScanBelow(cells, lb, start) == HighestCell(cells, lb)
    ensures (forall t :: t <= start ==> Cell(cells, lb, t) <= 0) ==>
            ScanAbove(cells, lb, start) == LowestCell(cells, lb)
  {
  }

  // ---------------------------------------------------------------- one row

  lemma UpdateHolds(cells: seq<int>, lb: int, levels: map<int, int>, t: int, q: nat)
    requires Holds(cells, lb, levels) && lb <= t < lb + |cells|
    ensures Holds(cells[t - lb := q], lb, Put(levels, t, q))
  {
    forall u ensures Cell(cells[t - lb := q], lb, u) == At(Put(levels, t, q), u) {
      CellUpdate(cells, lb, t, q, u);
    }
  }

  /** What is hidden below a tick depends only on the levels below it. */
  lemma HiddenAlike(a: map<int, int>, b: map<int, int>, t: int, end: int)
    ensures (forall u :: u < t ==> (u in a <==> u in b)) ==> (HiddenBelow(a, t, end) <==> HiddenBelow(b, t, end))
    ensures (forall u :: u > t ==> (u in a <==> u in b)) ==> (HiddenAbove(a, t, end) <==> HiddenAbove(b, t, end))
  {
  }

  lemma EmptiedScansAgreeIff(cells: seq<int>, lb: int, levels: map<int, int>, t: int, end: int)
    requires Holds(cells, lb, levels) && lb <= t < lb + |cells|
    ensures var c, m := cells[t - lb := 0], Put(levels, t, 0);
            && Holds(c, lb, m)
            && (DepthBelow(m, t, end) == ScanBelow(c, lb, t) <==> !HiddenBelow(levels, t, end))
            && (DepthAbove(m, t, end) == ScanAbove(c, lb, t) <==> !HiddenAbove(levels, t, end))
  {
    var c, m := cells[t - lb := 0], Put(levels, t, 0);
    UpdateHolds(cells, lb, levels, t, 0);
    HiddenAlike(levels, m, t, end);
    ScansBelowAgreeIff(c, lb, m, t, end);
    ScansAboveAgreeIff(c, lb, m, t, end);
  }

  lemma BidEmptiedAgreesIff(b: Book, r: Roi, t: int)
    requires Agree(b, r) && r.InRange(t)
    ensures Agree(UpdateBid(b, t, 0), RoiUpdateBid(r, t, 0)) <==> !LosesStale(b, BidDepth(t, 0))
  {
    if t == b.bestBid {
      EmptiedScansAgreeIff(r.bids, r.lb, b.bids, t, b.lowBid);
    } else {
      UpdateHolds(r.bids, r.lb, b.bids, t, 0);
    }
  }

  lemma AskEmptiedAgreesIff(b: Book, r: Roi, t: int)
    requires Agree(b, r) && r.InRange(t)
    ensures Agree(UpdateAsk(b, t, 0), RoiUpdateAsk(r, t, 0)) <==> !LosesStale(b, AskDepth(t, 0))
  {
    if t == b.bestAsk {
      EmptiedScansAgreeIff(r.asks, r.lb, b.asks, t, b.highAsk);
    } else {
      UpdateHolds(r.asks, r.lb, b.asks, t, 0);
    }
  }

  lemma BidQuotedAgreesIff(b: Book, r: Roi, t: int, q: nat)
    requires Agree(b, r) && r.InRange(t) && q > 0
    ensures Agree(UpdateBid(b, t, q), RoiUpdateBid(r, t, q)) <==> !LosesStale(b, BidDepth(t, q))
  {
    UpdateHolds(r.bids, r.lb, b.bids, t, q);
    ScansAboveAgreeIff(r.asks, r.lb, b.asks, t, b.highAsk);
  }

  lemma AskQuotedAgreesIff(b: Book, r: Roi, t: int, q: nat)
    requires Agree(b, r) && r.InRange(t) && q > 0
    ensures Agree(UpdateAsk(b, t, q), RoiUpdateAsk(r, t, q)) <==> !LosesStale(b, AskDepth(t, q))
  {
    UpdateHolds(r.asks, r.lb, b.asks, t, q);
    ScansBelowAgreeIff(r.bids, r.lb, b.bids, t, b.lowBid);
  }

  /** What a clear to a cut leaves on the bid side of each book. */
  lemma ClearedBids(b: Book, r: Roi, cut: int, t: int)
    requires Agree(b, r)
    ensures At(BidsCleared(b, Some(cut)).bids, t) == if cut <= t <= b.bestBid then 0 else At(b.bids, t)
    ensures Cell(Zeroed(r.bids, r.lb, Some(cut), true), r.lb, t) == if cut <= t then 0 else At(b.bids, t)
  {
    assert Cell(r.bids, r.lb, t) == At(b.bids, t);
    ZeroedCells(r.bids, r.lb, Some(cut), true, t);
  }

  lemma ClearedAsks(b: Book, r: Roi, cut: int, t: int)
    requires Agree(b, r)
    ensures At(AsksCleared(b, Some(cut)).asks, t) == if b.bestAsk <= t <= cut then 0 else At(b.asks, t)
    ensures Cell(Zeroed(r.asks, r.lb, Some(cut), false), r.lb, t) == if t <= cut then 0 else At(b.asks, t)
  {
    assert Cell(r.asks, r.lb, t) == At(b.asks, t);
    ZeroedCells(r.asks, r.lb, Some(cut), false, t);
  }

  lemma UnstaleBidsCleared(b: Book, r: Roi, cut: int)
    requires Agree(b, r) && forall u :: u in b.bids && cut <= u ==> u <= b.bestBid
    ensures var c, cells := BidsCleared(b, Some(cut)), Zeroed(r.bids, r.lb, Some(cut), true);
            && Holds(cells, r.lb, c.bids)
            && (c.bestBid == HighestCell(cells, r.lb) <==> !HiddenBelow(b.bids, cut, b.lowBid))
  {
    var c, cells := BidsCleared(b, Some(cut)), Zeroed(r.bids, r.lb, Some(cut), true);
    forall t ensures Cell(cells, r.lb, t) == At(c.bids, t) == if cut <= t then 0 else At(b.bids, t) {
      ClearedBids(b, r, cut, t);
    }
    ExtremeIsScan(cells, r.lb, cut);
    ScansBelowAgreeIff(cells, r.lb, c.bids, cut, b.lowBid);
    HiddenAlike(b.bids, c.bids, cut, b.lowBid);
  }

  lemma UnstaleAsksCleared(b: Book, r: Roi, cut: int)
    requires Agree(b, r) && forall u :: u in b.asks && u <= cut ==> b.bestAsk <= u
    ensures var c, cells := AsksCleared(b, Some(cut)), Zeroed(r.asks, r.lb, Some(cut), false);
            && Holds(cells, r.lb, c.asks)
            && (c.bestAsk == LowestCell(cells, r.lb) <==> !HiddenAbove(b.asks, cut, b.highAsk))
  {
    var c, cells := AsksCleared(b, Some(cut)), Zeroed(r.asks, r.lb, Some(cut), false);
    forall t ensures Cell(cells, r.lb, t) == At(c.asks, t) == if t <= cut then 0 else At(b.asks, t) {
      ClearedAsks(b, r, cut, t);
    }
    ExtremeIsScan(cells, r.lb, cut);
    ScansAboveAgreeIff(cells, r.lb, c.asks, cut, b.highAsk);
    HiddenAlike(b.asks, c.asks, cut, b.highAsk);
  }

  lemma ClearBidsAgreesIff(b: Book, r: Roi, cut: int)
    requires Agree(b, r)
    ensures Agree(Apply(b, ClearBids(Some(cut))), RoiApply(r, ClearBids(Some(cut)))) <==>
            !LosesStale(b, ClearBids(Some(cut)))
  {
    if exists u :: u in b.bids && cut <= u && b.bestBid < u {
      var u :| u in b.bids && cut <= u && b.bestBid < u;
      ClearedBids(b, r, cut, u);
    } else {
      UnstaleBidsCleared(b, r, cut);
    }
  }

  lemma ClearAsksAgreesIff(b: Book, r: Roi, cut: int)
    requires Agree(b, r)
    ensures Agree(Apply(b, ClearAsks(Some(cut))), RoiApply(r, ClearAsks(Some(cut)))) <==>
            !LosesStale(b, ClearAsks(Some(cut)))
  {
    if exists u :: u in b.asks && u <= cut && u < b.bestAsk {
      var u :| u in b.asks && u <= cut && u < b.bestAsk;
      ClearedAsks(b, r, cut, u);
    } else {
      UnstaleAsksCleared(b, r, cut);
    }
  }

  /** A side cleared entirely holds nothing in either book. */
  lemma ClearedSideAgrees(cells: seq<int>, lb: int, up: bool)
    requires INVALID_MIN < lb && lb + |cells| <= INVALID_MAX
    ensures var z := Zeroed(cells, lb, None, up);
            Holds(z, lb, map[]) && HighestCell(z, lb) == INVALID_MIN && LowestCell(z, lb) == INVALID_MAX
  {
    forall t ensures Cell(Zeroed(cells, lb, None, up), lb, t) == 0 {
      ZeroedCells(cells, lb, None, up, t);
    }
  }

  lemma EmptyAgree(lb: int, ub: int)
    requires INVALID_MIN < lb <= ub < INVALID_MAX
    ensures Exact(EMPTY) && Agree(EMPTY, Empty(lb, ub))
  {
  }

  lemma KeepsShape(r: Roi, k: EventKind)
    requires r.Shaped()
    ensures RoiApply(r, k).Shaped() && RoiApply(r, k).lb == r.lb && RoiApply(r, k).ub == r.ub
  {
  }

  /** Rows a book of this range can take. */
  ghost predicate Fits(r: Roi, k: EventKind) {
    IsDepthEvent(k) && ((k.BidDepth? || k.AskDepth?) ==> r.InRange(k.tick))
  }

  /** While the books agree they report the same. */
  lemma ReportsAgree(b: Book, r: Roi, k: EventKind)
    requires Agree(b, r) && Agree(Apply(b, k), RoiApply(r, k))
    ensures HashReport(b, k) == RoiReport(r, k)
  {
  }

  /**
    * One row, crossing or not, takes agreeing books to agreeing books if and only if the hash-map book does not
    * lose sight of a stale level.
    */
  lemma StepAgreesIff(b: Book, r: Roi, k: EventKind)
    requires Agree(b, r) && Fits(r, k)
    ensures RoiApply(r, k).Shaped()
    ensures Agree(Apply(b, k), RoiApply(r, k)) <==> !LosesStale(b, k)
  {
    KeepsShape(r, k);
    match k
    case BidDepth(t, q) => if q == 0 { BidEmptiedAgreesIff(b, r, t); } else { BidQuotedAgreesIff(b, r, t, q); }
    case AskDepth(t, q) => if q == 0 { AskEmptiedAgreesIff(b, r, t); } else { AskQuotedAgreesIff(b, r, t, q); }
    case ClearBids(Some(cut)) => ClearBidsAgreesIff(b, r, cut);
    case ClearAsks(Some(cut)) => ClearAsksAgreesIff(b, r, cut);
    case ClearBids(None) => ClearedSideAgrees(r.bids, r.lb, true);
    case ClearAsks(None) => ClearedSideAgrees(r.asks, r.lb, false);
    case _ => EmptyAgree(r.lb, r.ub);
  }

  // ---------------------------------------------------------------- whole histories

  /** Depth rows inside the range, none of which crosses the hash-map book it meets. */
  ghost predicate Uncrossed(b: Book, ks: seq<EventKind>)
    decreases |ks|
  {
    ks == [] || (!Crosses(b, ks[0]) && Uncrossed(Apply(b, ks[0]), ks[1..]))
  }

  /** No row of the history makes the hash-map book lose sight of a stale level. */
  ghost predicate LosesNothing(b: Book, ks: seq<EventKind>)
    decreases |ks|
  {
    ks == [] || (!LosesStale(b, ks[0]) && LosesNothing(Apply(b, ks[0]), ks[1..]))
  }

  /** The books agree now and after every row. */
  ghost predicate AlwaysAgree(b: Book, r: Roi, ks: seq<EventKind>)
    decreases |ks|
  {
    Agree(b, r) && (ks == [] || AlwaysAgree(Apply(b, ks[0]), RoiApply(r, ks[0]), ks[1..]))
  }

  function HashRun(b: Book, ks: seq<EventKind>): (Book, seq<Option<DepthUpdate>>)
    decreases |ks|
  {
    if ks == [] then (b, [])
    else
      var (c, reports) := HashRun(Apply(b, ks[0]), ks[1..]);
      (c, [HashReport(b, ks[0])] + reports)
  }

  function RoiRun(r: Roi, ks: seq<EventKind>): (Roi, seq<Option<DepthUpdate>>)
    requires r.Shaped()
    decreases |ks|
  {
    if ks == [] then (r, [])
    else
      KeepsShape(r, ks[0]);
      var (s, reports) := RoiRun(RoiApply(r, ks[0]), ks[1..]);
      (s, [RoiReport(r, ks[0])] + reports)
  }

  /**
    * Over every history of in-range updates and clears, crossing or not, the two books agree after every row if
    * and only if the hash-map book never loses sight of a stale level; and then all their reports agree too.
    */
  lemma {:induction false} BooksAgreeIff(b: Book, r: Roi, ks: seq<EventKind>)
    requires Agree(b, r) && forall k :: k in ks ==> Fits(r, k)
    ensures AlwaysAgree(b, r, ks) <==> LosesNothing(b, ks)
    ensures LosesNothing(b, ks) ==>
            HashRun(b, ks).1 == RoiRun(r, ks).1 && Agree(HashRun(b, ks).0, RoiRun(r, ks).0)
    decreases |ks|
  {
    if ks != [] {
      StepAgreesIff(b, r, ks[0]);
      KeepsShape(r, ks[0]);
      if !LosesStale(b, ks[0]) {
        ReportsAgree(b, r, ks[0]);
        assert forall k :: k in ks[1..] ==> Fits(r, k);
        BooksAgreeIff(Apply(b, ks[0]), RoiApply(r, ks[0]), ks[1..]);
      }
    }
  }

  /** An exact book has no stale level to lose, and stays exact as long as nothing crosses. */
  lemma {:induction false} UncrossedLosesNothing(b: Book, ks: seq<EventKind>)
    requires Exact(b) && Uncrossed(b, ks) && forall k :: k in ks ==> IsDepthEvent(k)
    ensures LosesNothing(b, ks) && Exact(HashRun(b, ks).0)
    decreases |ks|
  {
    if ks != [] {
      if IsDepthUpdate(ks[0]) {
        ExactUpdateIff(b, ks[0]);
      } else {
        ExactClear(b, ks[0]);
      }
      UncrossedLosesNothing(Apply(b, ks[0]), ks[1..]);
    }
  }

  /**
    * From empty books, for every history of in-range updates and clears that never crosses, the two books give
    * the same reports, the same quantities and the same best ticks, and those are the extremes of the levels.
    */
  lemma BooksAgree(lb: int, ub: int, ks: seq<EventKind>)
    requires INVALID_MIN < lb <= ub < INVALID_MAX
    requires Uncrossed(EMPTY, ks) && forall k :: k in ks ==> Fits(Empty(lb, ub), k)
    ensures HashRun(EMPTY, ks).1 == RoiRun(Empty(lb, ub), ks).1
    ensures Exact(HashRun(EMPTY, ks).0) && Agree(HashRun(EMPTY, ks).0, RoiRun(Empty(lb, ub), ks).0)
  {
    EmptyAgree(lb, ub);
    UncrossedLosesNothing(EMPTY, ks);
    BooksAgreeIff(EMPTY, Empty(lb, ub), ks);
  }

  /** Each best is occupied or absent, and every occupied tick lies between the best and the far bound of its side. */
  ghost predicate Bounded(r: Roi) {
    && r.Shaped() && INVALID_MIN < r.lb && r.ub < INVALID_MAX
    && (r.bestBid == INVALID_MIN || Cell(r.bids, r.lb, r.bestBid) > 0)
    && (r.bestAsk == INVALID_MAX || Cell(r.asks, r.lb, r.bestAsk) > 0)
    && (forall t :: Cell(r.bids, r.lb, t) > 0 ==> r.lowBid <= t <= r.bestBid)
    && (forall t :: Cell(r.asks, r.lb, t) > 0 ==> r.bestAsk <= t <= r.highAsk)
  }

  /** The row quotes short of the opposite best. */
  predicate Short(r: Roi, k: EventKind) {
    match k
    case BidDepth(t, q) => q > 0 ==> t < r.bestAsk
    case AskDepth(t, q) => q > 0 ==> r.bestBid < t
    case _ => true
  }

  lemma BidBounded(r: Roi, t: int, q: nat)
    requires Bounded(r) && Short(r, BidDepth(t, q)) && r.InRange(t)
    ensures var z := RoiUpdateBid(r, t, q); Bounded(z) && (q > 0 ==> z.lowBid == Min(r.lowBid, t))
  {
    var z := RoiUpdateBid(r, t, q);
    assert z.Shaped();
    forall u | Cell(z.bids, r.lb, u) > 0 ensures z.lowBid <= u <= z.bestBid {
      CellUpdate(r.bids, r.lb, t, q, u);
    }
  }

  lemma AskBounded(r: Roi, t: int, q: nat)
    requires Bounded(r) && Short(r, AskDepth(t, q)) && r.InRange(t)
    ensures var z := RoiUpdateAsk(r, t, q); Bounded(z) && (q > 0 ==> z.highAsk == Max(r.highAsk, t))
  {
    var z := RoiUpdateAsk(r, t, q);
    assert z.Shaped();
    forall u | Cell(z.asks, r.lb, u) > 0 ensures z.bestAsk <= u <= z.highAsk {
      CellUpdate(r.asks, r.lb, t, q, u);
    }
  }

  lemma ClearBounded(r: Roi, cut: Option<int>)
    requires Bounded(r)
    ensures var z := RoiApply(r, ClearBids(cut));
            Bounded(z) && (z.lowBid == INVALID_MAX || Cell(z.bids, r.lb, z.lowBid) > 0)
    ensures var z := RoiApply(r, ClearAsks(cut));
            Bounded(z) && (z.highAsk == INVALID_MIN || Cell(z.asks, r.lb, z.highAsk) > 0)
  {
    var bids, asks := Zeroed(r.bids, r.lb, cut, true), Zeroed(r.asks, r.lb, cut, false);
    assert |bids| == |r.bids| && |asks| == |r.asks|;
  }

  /** Quotes short of the opposite best keep the array's four bounds true; a clear makes those of its side exact. */
  lemma RowKeepsBounded(r: Roi, k: EventKind)
    requires Bounded(r) && Short(r, k)
    ensures var z := RoiApply(r, k);
            && Bounded(z)
            && (k.ClearBids? ==> z.lowBid == INVALID_MAX || Cell(z.bids, r.lb, z.lowBid) > 0)
            && (k.ClearAsks? ==> z.highAsk == INVALID_MIN || Cell(z.asks, r.lb, z.highAsk) > 0)
            && (k.BidDepth? && k.qty > 0 && r.InRange(k.tick) ==> z.lowBid == Min(r.lowBid, k.tick))
            && (k.AskDepth? && k.qty > 0 && r.InRange(k.tick) ==> z.highAsk == Max(r.highAsk, k.tick))
            && ((k.BidDepth? || k.AskDepth?) && !r.InRange(k.tick) ==> z == r)
  {
    match k
    case BidDepth(t, q) => if r.InRange(t) { BidBounded(r, t, q); }
    case AskDepth(t, q) => if r.InRange(t) { AskBounded(r, t, q); }
    case ClearBids(cut) => ClearBounded(r, cut);
    case ClearAsks(cut) => ClearBounded(r, cut);
    case _ =>
  }

  lemma {:induction false} HashRunSnoc(b: Book, ks: seq<EventKind>, k: EventKind)
    ensures HashRun(b, ks + [k]).0 == Apply(HashRun(b, ks).0, k)
    decreases |ks|
  {
    if ks == [] {
      assert ([] + [k])[1..] == [];
    } else {
      assert (ks + [k])[1..] == ks[1..] + [k];
      HashRunSnoc(Apply(b, ks[0]), ks[1..], k);
    }
  }

  lemma {:induction false} RoiRunSnoc(r: Roi, ks: seq<EventKind>, k: EventKind)
    requires r.Shaped()
    ensures RoiRun(r, ks).0.Shaped() && RoiRun(r, ks + [k]).0 == RoiApply(RoiRun(r, ks).0, k)
    decreases |ks|
  {
    if ks == [] {
      assert ([] + [k])[1..] == [];
    } else {
      assert (ks + [k])[1..] == ks[1..] + [k];
      KeepsShape(r, ks[0]);
      RoiRunSnoc(RoiApply(r, ks[0]), ks[1..], k);
    }
  }

  /** Asks at 5 and 7, then a bid through the one at 5, which stays stored. */
  const CROSSED := [AskDepth(5, 1)] + [AskDepth(7, 1)] + [BidDepth(6, 1)]

  /** The ask at 7 is withdrawn, and then a clear falls short of 5. */
  const PARTING := CROSSED + [AskDepth(7, 0)] + [ClearAsks(Some(3))]

  lemma CrossedHash()
    ensures HashRun(EMPTY, CROSSED).0 == Book(map[6 := 1], map[5 := 1, 7 := 1], 6, 7, 6, 7)
  {
    HashRunSnoc(EMPTY, [], AskDepth(5, 1));
    HashRunSnoc(EMPTY, [AskDepth(5, 1)], AskDepth(7, 1));
    HashRunSnoc(EMPTY, [AskDepth(5, 1)] + [AskDepth(7, 1)], BidDepth(6, 1));
    assert [] + [AskDepth(5, 1)] == [AskDepth(5, 1)];
    assert map[5 := 1][7 := 1] == map[5 := 1, 7 := 1];
  }

  lemma PartedHash()
    ensures HashRun(EMPTY, PARTING).0 == Book(map[6 := 1], map[5 := 1], 6, INVALID_MAX, 6, INVALID_MIN)
  {
    CrossedHash();
    HashRunSnoc(EMPTY, CROSSED, AskDepth(7, 0));
    HashRunSnoc(EMPTY, CROSSED + [AskDepth(7, 0)], ClearAsks(Some(3)));
    var b := Apply(Book(map[6 := 1], map[5 := 1, 7 := 1], 6, 7, 6, 7), AskDepth(7, 0));
    assert b.asks == map[5 := 1] && b.bestAsk == INVALID_MAX;
  }

  lemma CrossedRoi()
    ensures var r := RoiRun(Empty(0, 10), CROSSED).0;
            && r.Shaped() && r.lb == 0 && r.ub == 10 && r.bestBid == 6 && r.bestAsk == 7
            && forall t :: Cell(r.asks, 0, t) == if t == 5 || t == 7 then 1 else 0
  {
    var e := Empty(0, 10);
    RoiRunSnoc(e, [], AskDepth(5, 1));
    RoiRunSnoc(e, [AskDepth(5, 1)], AskDepth(7, 1));
    RoiRunSnoc(e, [AskDepth(5, 1)] + [AskDepth(7, 1)], BidDepth(6, 1));
    assert [] + [AskDepth(5, 1)] == [AskDepth(5, 1)];
  }

  lemma PartedRoi()
    ensures RoiRun(Empty(0, 10), PARTING).0.bestAsk == 5
  {
    CrossedRoi();
    var e, r := Empty(0, 10), RoiRun(Empty(0, 10), CROSSED).0;
    RoiRunSnoc(e, CROSSED, AskDepth(7, 0));
    RoiRunSnoc(e, CROSSED + [AskDepth(7, 0)], ClearAsks(Some(3)));
    var s := RoiApply(r, AskDepth(7, 0));
    forall t ensures Cell(Zeroed(s.asks, 0, Some(3), false), 0, t) == if t == 5 then 1 else 0 {
      CellUpdate(r.asks, 0, 7, 0, t);
      ZeroedCells(s.asks, 0, Some(3), false, t);
    }
    LowestUnique(Zeroed(s.asks, 0, Some(3), false), 0, 5);
  }

  /**
    * Once a row has crossed the books can part: the array's best ask is the stale level, which the hash map has lost.
    */
  lemma CrossedBooksPart()
    ensures var b, r := HashRun(EMPTY, PARTING).0, RoiRun(Empty(0, 10), PARTING).0;
            At(b.asks, 5) == 1 && b.bestAsk == INVALID_MAX && r.bestAsk == 5
  {
    PartedHash();
    PartedRoi();
  }
  // ---------------------------------------------------------------- the book in place

  class ROIVectorMarketDepth {
    const lb: int
    const ub: int
    const bids: array<int>
    const asks: array<int>
    var bestBid: int
    var bestAsk: int
    var lowBid: int
    var highAsk: int

    ghost predicate Valid() {
      INVALID_MIN < lb <= ub < INVALID_MAX && bids.Length == ub - lb + 1 == asks.Length && bids != asks
    }

    function View(): Roi
      reads this, bids, asks
    {
      Roi(lb, ub, bids[..], asks[..], bestBid, bestAsk, lowBid, highAsk)
    }

    constructor (lb: int, ub: int)
      requires INVALID_MIN < lb <= ub < INVALID_MAX
      ensures Valid() && fresh(bids) && fresh(asks) && View() == Empty(lb, ub)
    {
      this.lb, this.ub := lb, ub;
      bids := new int[ub - lb + 1](_ => 0);
      asks := new int[ub - lb + 1](_ => 0);
      bestBid, bestAsk, lowBid, highAsk := INVALID_MIN, INVALID_MAX, INVALID_MAX, INVALID_MIN;
    }

    lemma AboveStep(cells: seq<int>, lb: int, t: int)
      requires lb <= t < lb + |cells|
      ensures ScanAbove(cells, lb, t - 1) == if cells[t - lb] > 0 then t else ScanAbove(cells, lb, t)
    {
    }

    method ScanBidBelow(start: int) returns (best: int)
      requires Valid()
      ensures best == ScanBelow(bids[..], lb, start)
    {
      var t := Min(start - 1, ub);
      SkipAbove(bids[..], lb, start);
      while t >= lb
        invariant t <= ub
        invariant ScanBelow(bids[..], lb, start) == ScanBelow(bids[..], lb, t + 1)
        decreases t - lb
      {
        assert bids[t - lb] == Cell(bids[..], lb, t);
        if bids[t - lb] > 0 {
          return t;
        }
        t := t - 1;
      }
      return INVALID_MIN;
    }

    method ScanAskAbove(start: int) returns (best: int)
      requires Valid()
      ensures best == ScanAbove(asks[..], lb, start)
    {
      var t := Max(start + 1, lb);
      ghost var cells := asks[..];
      SkipBelow(cells, lb, start);
      while t <= ub
        invariant lb <= t
        invariant ScanAbove(cells, lb, start) == ScanAbove(cells, lb, t - 1)
        decreases ub - t
      {
        AboveStep(cells, lb, t);
        if asks[t - lb] > 0 {
          return t;
        }
        t := t + 1;
      }
      return INVALID_MAX;
    }

    /** Raise the best bid to a quoted tick; a crossed best ask moves up past it. */
    method RaiseBestBid(t: int)
      requires Valid()
      modifies this`bestBid, this`bestAsk
      ensures bestBid == Max(old(bestBid), t)
      ensures bestAsk == if t > old(bestBid) && t >= old(bestAsk) then ScanAbove(asks[..], lb, t) else old(bestAsk)
    {
      if t > bestBid {
        bestBid := t;
        if bestBid >= bestAsk {
          bestAsk := ScanAskAbove(bestBid);
        }
      }
    }

    method LowerBestAsk(t: int)
      requires Valid()
      modifies this`bestBid, this`bestAsk
      ensures bestAsk == Min(old(bestAsk), t)
      ensures bestBid == if t < old(bestAsk) && old(bestBid) >= t then ScanBelow(bids[..], lb, t) else old(bestBid)
    {
      if t < bestAsk {
        bestAsk := t;
        if bestBid >= bestAsk {
          bestBid := ScanBidBelow(bestAsk);
        }
      }
    }

    method UpdateBidDepth(t: int, q: nat, timestamp: int) returns (du: DepthUpdate)
      requires Valid()
      modifies this, bids
      ensures View() == RoiUpdateBid(old(View()), t, q)
      ensures du == DepthUpdate(t, old(bestBid), bestBid, Cell(old(bids[..]), lb, t), q, timestamp)
    {
      var prevBest := bestBid;
      if !(lb <= t <= ub) {
        return DepthUpdate(t, prevBest, bestBid, 0, q, timestamp);
      }
      var prevQty := bids[t - lb];
      bids[t - lb] := q;
      assert bids[..] == old(bids[..])[t - lb := q];
      if q == 0 {
        if t == bestBid {
          bestBid := ScanBidBelow(t);
        }
      } else {
        RaiseBestBid(t);
        lowBid := Min(lowBid, t);
      }
      if bestBid == INVALID_MIN {
        lowBid := INVALID_MAX;
      }
      return DepthUpdate(t, prevBest, bestBid, prevQty, q, timestamp);
    }

    method UpdateAskDepth(t: int, q: nat, timestamp: int) returns (du: DepthUpdate)
      requires Valid()
      modifies this, asks
      ensures View() == RoiUpdateAsk(old(View()), t, q)
      ensures du == DepthUpdate(t, old(bestAsk), bestAsk, Cell(old(asks[..]), lb, t), q, timestamp)
    {
      var prevBest := bestAsk;
      if !(lb <= t <= ub) {
        return DepthUpdate(t, prevBest, bestAsk, 0, q, timestamp);
      }
      var prevQty := asks[t - lb];
      asks[t - lb] := q;
      assert asks[..] == old(asks[..])[t - lb := q];
      if q == 0 {
        if t == bestAsk {
          bestAsk := ScanAskAbove(t);
        }
      } else {
        LowerBestAsk(t);
        highAsk := Max(highAsk, t);
      }
      if bestAsk == INVALID_MAX {
        highAsk := INVALID_MIN;
      }
      return DepthUpdate(t, prevBest, bestAsk, prevQty, q, timestamp);
    }

    static method Zero(cells: array<int>, lb: int, cut: Option<int>, up: bool)
      modifies cells
      ensures cells[..] == Zeroed(old(cells[..]), lb, cut, up)
    {
      for i := 0 to cells.Length
        invariant forall j :: 0 <= j < i ==> cells[j] == Zeroed(old(cells[..]), lb, cut, up)[j]
        invariant forall j :: i <= j < cells.Length ==> cells[j] == old(cells[j])
      {
        if CutCovers(cut, lb + i, up) {
          cells[i] := 0;
        }
      }
    }

    /** One upward pass finds both ends of a side. */
    static method Ends(cells: array<int>, lb: int, ub: int) returns (low: int, high: int)
      requires cells.Length == ub - lb + 1 && INVALID_MIN < lb && ub < INVALID_MAX
      ensures low == LowestCell(cells[..], lb) && high == HighestCell(cells[..], lb)
    {
      low, high := INVALID_MAX, INVALID_MIN;
      for t := lb to ub + 1
        invariant low == INVALID_MAX || (lb <= low < t && Cell(cells[..], lb, low) > 0)
        invariant forall u :: lb <= u < t && u < low ==> Cell(cells[..], lb, u) <= 0
        invariant high == ScanBelow(cells[..], lb, t)
      {
        assert Cell(cells[..], lb, t) == cells[t - lb];
        if cells[t - lb] > 0 {
          high := t;
          low := Min(low, t);
        }
      }
      LowestUnique(cells[..], lb, low);
    }

    method ClearDepth(k: EventKind)
      requires Valid() && (k.ClearBids? || k.ClearAsks? || k.ClearAll?)
      modifies this, bids, asks
      ensures View() == RoiApply(old(View()), k)
    {
      if k.ClearBids? {
        Zero(bids, lb, k.cut, true);
        lowBid, bestBid := Ends(bids, lb, ub);
      } else if k.ClearAsks? {
        Zero(asks, lb, k.cut, false);
        bestAsk, highAsk := Ends(asks, lb, ub);
      } else {
        ZeroedAll(bids[..], lb);
        ZeroedAll(asks[..], lb);
        Zero(bids, lb, None, true);
        Zero(asks, lb, None, true);
        bestBid, bestAsk, lowBid, highAsk := INVALID_MIN, INVALID_MAX, INVALID_MAX, INVALID_MIN;
      }
    }
  }

  lemma ZeroedAll(cells: seq<int>, lb: int)
    ensures Zeroed(cells, lb, None, true) == seq(|cells|, _ => 0)
  {
    forall i | 0 <= i < |cells| ensures Zeroed(cells, lb, None, true)[i] == seq(|cells|, _ => 0)[i] {
      assert CutCovers(None, lb + i, true);
    }
  }

  lemma LowestUnique(cells: seq<int>, lb: int, low: int)
    requires lb + |cells| <= INVALID_MAX
    requires low == INVALID_MAX || (lb <= low < lb + |cells| && Cell(cells, lb, low) > 0)
    requires forall u :: lb <= u < lb + |cells| && u < low ==> Cell(cells, lb, u) <= 0
    ensures low == LowestCell(cells, lb)
  {
  }

  /** Ticks beyond the range hold nothing, so a scan may start at its edge. */
  lemma {:induction false} SkipAbove(cells: seq<int>, lb: int, start: int)
    ensures ScanBelow(cells, lb, start) == ScanBelow(cells, lb, Min(start, lb + |cells|))
    decreases start - lb
  {
    if start > lb + |cells| {
      SkipAbove(cells, lb, start - 1);
    }
  }

  lemma {:induction false} SkipBelow(cells: seq<int>, lb: int, start: int)
    ensures ScanAbove(cells, lb, start) == ScanAbove(cells, lb, Max(start, lb - 1))
    decreases lb - start
  {
    if start < lb - 1 {
      SkipBelow(cells, lb, start + 1);
    }
  }
}
