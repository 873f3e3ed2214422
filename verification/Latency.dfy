/** Interpolated order latency (include/hbt/models/latency.hpp) on exact numbers. */
module Latency {
  import opened Core

  datatype Row = Row(reqTs: int, exchTs: int, respTs: int)

  /** Division truncated toward zero, as the source's cast to an integer does. */
  function Trunc(a: int, n: int): int
    requires n > 0
  {
    if a >= 0 then a / n else -((-a) / n)
  }

  /** `y1 + (y2 - y1) / (x2 - x1) * (x - x1)`, the product truncated. */
  function Interpolate(x: int, x1: int, y1: int, x2: int, y2: int): int
    requires x1 <= x2
  {
    if x1 == x2 then y1 else Trunc((y2 - y1) * (x - x1), x2 - x1) + y1
  }

  // ---------------------------------------------------------------- one segment

  lemma DivMonotone(a: int, b: int, n: int)
    requires n > 0 && a <= b
    ensures a / n <= b / n
  {
    var q, p := a / n, b / n;
    if q > p {
      MulAtLeast(n, q - p);
      assert false;
    }
  }

  lemma DivShift(a: int, k: int, n: int)
    requires n > 0
    ensures (a + n * k) / n == a / n + k
  {
    var q := a / n;
    var r := a % n;
    assert a + n * k == n * (q + k) + r by {
      assert a == n * q + r;
      assert n * (q + k) == n * q + n * k;
    }
    DivUnique(a + n * k, q + k, r, n);
  }

  lemma DivUnique(a: int, q: int, r: int, n: int)
    requires n > 0 && 0 <= r < n && a == n * q + r
    ensures a / n == q
  {
    var q' := a / n;
    var r' := a % n;
    assert a == n * q' + r';
    if q' > q {
      assert n * (q' - q) >= n by { MulAtLeast(n, q' - q); }
      assert false;
    } else if q' < q {
      assert n * (q - q') >= n by { MulAtLeast(n, q - q'); }
      assert false;
    }
  }

  lemma MulAtLeast(n: int, k: int)
    requires n > 0 && k >= 1
    ensures n * k >= n
  {
  }

  lemma Scaled(e: int, n: int, k: int)
    requires 0 <= e <= n && k >= 0
    ensures 0 <= e * k <= n * k
  {
  }

  /** Along a segment of slope at least -1 the arrival time never decreases, truncation included. */
  lemma SegmentMonotone(d: int, n: int, m: int, m': int)
    requires n > 0 && 0 <= m <= m' <= n && d >= -n
    ensures m + Trunc(d * m, n) <= m' + Trunc(d * m', n)
  {
    if d >= 0 {
      Scaled(m, m', d);
      DivMonotone(d * m, d * m', n);
    } else {
      FallingSegment(-d, n, m, m');
      assert d * m == -((-d) * m) && d * m' == -((-d) * m');
    }
  }

  lemma FallingSegment(e: int, n: int, m: int, m': int)
    requires n > 0 && 0 <= m <= m' <= n && 0 < e <= n
    ensures 0 <= e * m && 0 <= e * m' && m - (e * m) / n <= m' - (e * m') / n
  {
    Scaled(0, e, m);
    Scaled(0, e, m');
    Scaled(e, n, m' - m);
    assert e * (m' - m) == e * m' - e * m;
    DivMonotone(e * m', e * m + n * (m' - m), n);
    DivShift(e * m, m' - m, n);
  }

  lemma TruncEnds(d: int, n: int)
    requires n > 0
    ensures Trunc(d * 0, n) == 0 && Trunc(d * n, n) == d
  {
    assert d * 0 == 0;
    if d >= 0 {
      assert d * n >= 0;
      DivUnique(d * n, d, 0, n);
    } else {
      assert (-d) * n == -(d * n);
      assert (-d) * n > 0;
      DivUnique((-d) * n, -d, 0, n);
    }
  }

  lemma TruncRising(d: int, n: int, m: int)
    requires n > 0 && 0 <= m <= n && d >= 0
    ensures 0 <= d * m && 0 <= (d * m) / n <= d
  {
    Scaled(m, n, d);
    TruncEnds(d, n);
    DivMonotone(0, m * d, n);
    DivMonotone(m * d, n * d, n);
    assert d * m == m * d && d * n == n * d;
  }

  lemma TruncMonotone(d: int, n: int, m: int)
    requires n > 0 && 0 <= m <= n
    ensures d >= 0 ==> 0 <= Trunc(d * m, n) <= d
    ensures d <= 0 ==> d <= Trunc(d * m, n) <= 0
  {
    if d >= 0 {
      TruncRising(d, n, m);
    } else {
      TruncRising(-d, n, m);
      assert d * m == -((-d) * m);
    }
  }

  /** An interpolated value lies between its two end values. */
  lemma InterpolateBetween(x: int, x1: int, y1: int, x2: int, y2: int)
    requires x1 <= x <= x2
    ensures y1 <= y2 ==> y1 <= Interpolate(x, x1, y1, x2, y2) <= y2
    ensures y2 <= y1 ==> y2 <= Interpolate(x, x1, y1, x2, y2) <= y1
  {
    if x1 < x2 {
      TruncMonotone(y2 - y1, x2 - x1, x - x1);
    }
  }

  function Abs(a: int): int { if a >= 0 then a else -a }

  /** At `x`, `y` is the height of the line through the two points, the rise from the first truncated. */
  predicate OnLine(x: int, x1: int, y1: int, x2: int, y2: int, y: int) {
    var n, rise := x2 - x1, (y2 - y1) * (x - x1);
    && (rise >= 0 ==> y >= y1) && (rise <= 0 ==> y <= y1)
    && Abs(y - y1) * n <= Abs(rise) < (Abs(y - y1) + 1) * n
  }

  lemma TruncCuts(a: int, n: int)
    requires n > 0
    ensures (a >= 0 ==> Trunc(a, n) >= 0) && (a <= 0 ==> Trunc(a, n) <= 0)
    ensures Abs(Trunc(a, n)) * n <= Abs(a) < (Abs(Trunc(a, n)) + 1) * n
  {
    DivCuts(Abs(a), n);
  }

  lemma DivCuts(m: nat, n: int)
    requires n > 0
    ensures 0 <= m / n && (m / n) * n <= m < (m / n + 1) * n
  {
    var q := m / n;
    DivMonotone(0, m, n);
    assert m == n * q + m % n && q * n == n * q;
    assert (q + 1) * n == q * n + n;
  }

  lemma InterpolateOnLine(x: int, x1: int, y1: int, x2: int, y2: int)
    requires x1 < x2
    ensures OnLine(x, x1, y1, x2, y2, Interpolate(x, x1, y1, x2, y2))
  {
    TruncCuts((y2 - y1) * (x - x1), x2 - x1);
  }

  lemma InterpolateMonotone(x: int, x': int, x1: int, y1: int, x2: int, y2: int)
    requires x1 <= x <= x' <= x2 && x1 < x2 && x1 + y1 <= x2 + y2
    ensures x + Interpolate(x, x1, y1, x2, y2) <= x' + Interpolate(x', x1, y1, x2, y2)
    ensures Interpolate(x1, x1, y1, x2, y2) == y1 && Interpolate(x2, x1, y1, x2, y2) == y2
  {
    SegmentMonotone(y2 - y1, x2 - x1, x - x1, x' - x1);
    TruncEnds(y2 - y1, x2 - x1);
  }

  /** Along a segment of slope -1 or less the arrival time never increases. */
  lemma SegmentFalls(d: int, n: int, m: int, m': int)
    requires n > 0 && 0 <= m <= m' && d <= -n
    ensures m' + Trunc(d * m', n) <= m + Trunc(d * m, n)
  {
    SteepSegment(-d, n, m, m');
    assert d * m == -((-d) * m) && d * m' == -((-d) * m');
  }

  lemma SteepSegment(e: int, n: int, m: int, m': int)
    requires 0 < n <= e && 0 <= m <= m'
    ensures 0 <= e * m && 0 <= e * m' && m' - (e * m') / n <= m - (e * m) / n
  {
    Scaled(0, e, m);
    Scaled(0, e, m');
    Scaled(n, e, m' - m);
    assert e * (m' - m) == e * m' - e * m;
    DivMonotone(e * m + n * (m' - m), e * m', n);
    DivShift(e * m, m' - m, n);
  }

  lemma InterpolateFalls(x: int, x': int, x1: int, y1: int, x2: int, y2: int)
    requires x1 <= x <= x' <= x2 && x1 < x2 && x1 + y1 >= x2 + y2
    ensures x + Interpolate(x, x1, y1, x2, y2) >= x' + Interpolate(x', x1, y1, x2, y2)
  {
    SegmentFalls(y2 - y1, x2 - x1, x - x1, x' - x1);
  }

  // ---------------------------------------------------------------- piecewise latency

  /** A latency observed at a time. */
  datatype Knot = Knot(x: int, y: int)

  /** The first knot strictly after `t`, or the number of knots. */
  function UpperBound(ks: seq<Knot>, t: int): (n: nat)
    ensures n <= |ks|
    ensures forall i :: 0 <= i < n ==> ks[i].x <= t
    ensures n < |ks| ==> t < ks[n].x
  {
    if ks == [] || t < ks[0].x then 0 else 1 + UpperBound(ks[1..], t)
  }

  /** Constant before the first and from the last knot on, interpolated between. */
  function LatencyAt(ks: seq<Knot>, t: int): int
    requires ks != []
  {
    if t <= ks[0].x then ks[0].y else SegmentAt(ks, t)
  }

  function SegmentAt(ks: seq<Knot>, t: int): int
    requires ks != [] && ks[0].x <= t
  {
    var n := UpperBound(ks, t);
    if n == |ks| then ks[n - 1].y
    else Interpolate(t, ks[n - 1].x, ks[n - 1].y, ks[n].x, ks[n].y)
  }

  /** Requests and arrivals are both in order at the knots. */
  ghost predicate Ordered(ks: seq<Knot>) {
    forall i, j :: 0 <= i <= j < |ks| ==> ks[i].x <= ks[j].x && ks[i].x + ks[i].y <= ks[j].x + ks[j].y
  }

  /** Between two knots the arrival lies between their arrivals, and the latency between their latencies. */
  lemma WithinSegment(ks: seq<Knot>, t: int)
    requires ks != [] && Ordered(ks) && ks[0].x < t
    ensures var n := UpperBound(ks, t);
            && n > 0 && ks[n - 1].x + ks[n - 1].y <= t + LatencyAt(ks, t)
            && (n < |ks| ==> t + LatencyAt(ks, t) <= ks[n].x + ks[n].y)
            && (n < |ks| ==> (ks[n - 1].y <= LatencyAt(ks, t) <= ks[n].y || ks[n].y <= LatencyAt(ks, t) <= ks[n - 1].y))
  {
    var n := UpperBound(ks, t);
    assert n > 0;
    if n < |ks| {
      var a, b := ks[n - 1], ks[n];
      InterpolateMonotone(a.x, t, a.x, a.y, b.x, b.y);
      InterpolateMonotone(t, b.x, a.x, a.y, b.x, b.y);
      InterpolateBetween(t, a.x, a.y, b.x, b.y);
    }
  }

  /** Monotone arrival: a later departure never arrives earlier, across all segments, ends and duplicate knots. */
  lemma ArrivalMonotone(ks: seq<Knot>, t: int, t': int)
    requires ks != [] && Ordered(ks) && t <= t'
    ensures t + LatencyAt(ks, t) <= t' + LatencyAt(ks, t')
  {
    if ks[0].x < t' {
      WithinSegment(ks, t');
      var n' := UpperBound(ks, t');
      assert ks[0].x + ks[0].y <= ks[n' - 1].x + ks[n' - 1].y;
      if ks[0].x < t {
        WithinSegment(ks, t);
        var n := UpperBound(ks, t);
        assert n <= n';
        if n < n' {
          assert ks[n].x + ks[n].y <= ks[n' - 1].x + ks[n' - 1].y;
        } else if n < |ks| {
          InterpolateMonotone(t, t', ks[n - 1].x, ks[n - 1].y, ks[n].x, ks[n].y);
        }
      }
    }
  }

  // ---------------------------------------------------------------- the model

  /** The constructor's rows: shifted by the offset, or refused when empty or out of order. */
  function Shift(row: Row, offset: int): Row {
    Row(row.reqTs + offset, if row.exchTs > 0 then row.exchTs + offset else row.exchTs, row.respTs + offset)
  }

  function ShiftAll(rows: seq<Row>, offset: int): seq<Row> {
    seq(|rows|, i requires 0 <= i < |rows| => Shift(rows[i], offset))
  }

  ghost predicate Accepts(rows: seq<Row>) {
    rows != [] && forall i, j :: 0 <= i < j < |rows| ==> rows[i].reqTs <= rows[j].reqTs
  }

  function EntryLatency(row: Row): int {
    if row.exchTs <= 0 then -(row.respTs - row.reqTs) else row.exchTs - row.reqTs
  }

  function UpperRow(rows: seq<Row>, t: int): (n: nat)
    ensures n <= |rows| && (forall i :: 0 <= i < n ==> rows[i].reqTs <= t) && (n < |rows| ==> t < rows[n].reqTs)
  {
    if rows == [] || t < rows[0].reqTs then 0 else 1 + UpperRow(rows[1..], t)
  }

  function EntryBetween(a: Row, b: Row, t: int): int
    requires a.reqTs <= b.reqTs
  {
    if a.exchTs <= 0 || b.exchTs <= 0
    then -Interpolate(t, a.reqTs, a.respTs - a.reqTs, b.reqTs, b.respTs - b.reqTs)
    else Interpolate(t, a.reqTs, a.exchTs - a.reqTs, b.reqTs, b.exchTs - b.reqTs)
  }

  function Entry(rows: seq<Row>, t: int): int
    requires rows != []
  {
    if t <= rows[0].reqTs then EntryLatency(rows[0])
    else
      var n := UpperRow(rows, t);
      if n == |rows| then EntryLatency(rows[n - 1])
      else EntryBetween(rows[n - 1], rows[n], t)
  }

  /** The accepted rows as response knots: exchange time, and response latency. */
  function ResponseKnots(rows: seq<Row>): seq<Knot> {
    if rows == [] then []
    else (if rows[0].exchTs > 0 then [Knot(rows[0].exchTs, rows[0].respTs - rows[0].exchTs)] else [])
         + ResponseKnots(rows[1..])
  }

  function EntryKnots(rows: seq<Row>): seq<Knot> {
    seq(|rows|, i requires 0 <= i < |rows| => Knot(rows[i].reqTs, rows[i].exchTs - rows[i].reqTs))
  }

  /** Zero without accepted rows; otherwise the piecewise response latency. */
  function Response(rows: seq<Row>, t: int): int {
    var ks := ResponseKnots(rows);
    if ks == [] then 0 else LatencyAt(ks, t)
  }

  ghost predicate AllAccepted(rows: seq<Row>) {
    forall i :: 0 <= i < |rows| ==> rows[i].exchTs > 0
  }

  lemma {:induction false} UpperRowKnots(rows: seq<Row>, t: int)
    ensures UpperRow(rows, t) == UpperBound(EntryKnots(rows), t)
  {
    if rows != [] {
      UpperRowKnots(rows[1..], t);
      assert EntryKnots(rows)[1..] == EntryKnots(rows[1..]);
    }
  }

  /** When every row is accepted, entry is the piecewise latency through the rows. */
  lemma EntryIsPiecewise(rows: seq<Row>, t: int)
    requires rows != [] && AllAccepted(rows)
    ensures Entry(rows, t) == LatencyAt(EntryKnots(rows), t)
  {
    UpperRowKnots(rows, t);
  }

  function Arrival(rows: seq<Row>, t: int): int
    requires rows != []
  {
    t + Entry(rows, t)
  }

  ghost predicate InOrder(rows: seq<Row>) {
    forall i, j :: 0 <= i <= j < |rows| ==> rows[i].exchTs <= rows[j].exchTs
  }

  /** With accepted, ordered rows no request overtakes an earlier one on its way to the exchange. */
  lemma EntryArrivalMonotone(rows: seq<Row>, t: int, t': int)
    requires Accepts(rows) && AllAccepted(rows) && InOrder(rows) && t <= t'
    ensures Arrival(rows, t) <= Arrival(rows, t')
  {
    EntryIsPiecewise(rows, t);
    EntryIsPiecewise(rows, t');
    ArrivalMonotone(EntryKnots(rows), t, t');
  }

  // ---------------------------------------------------------------- accepted and rejected rows mixed

  /** The request at `t` is interpolated between this row and the one before, or is past one end (0 or the length). */
  function Bracket(rows: seq<Row>, t: int): (n: nat)
    requires rows != []
    ensures n <= |rows|
  {
    if t <= rows[0].reqTs then 0 else UpperRow(rows, t)
  }

  /** The rows that decide about the request at `t` are accepted ones. */
  predicate Forwarded(rows: seq<Row>, t: int)
    requires rows != []
  {
    var n := Bracket(rows, t);
    (n < |rows| ==> rows[n].exchTs > 0) && (n > 0 ==> rows[n - 1].exchTs > 0)
  }

  /**
    * What a request waits, for every table the constructor accepts: before the first and from the last row on what
    * that row says; between two rows the height of the line through them, of the entry latencies if both are
    * accepted, and otherwise of the round trips, counted negative.
    */
  lemma EntryOnLine(rows: seq<Row>, t: int)
    requires Accepts(rows)
    ensures var n := Bracket(rows, t);
            if 0 < n < |rows| then
              var a, b := rows[n - 1], rows[n];
              if a.exchTs > 0 && b.exchTs > 0
              then OnLine(t, a.reqTs, a.exchTs - a.reqTs, b.reqTs, b.exchTs - b.reqTs, Entry(rows, t))
              else OnLine(t, a.reqTs, a.respTs - a.reqTs, b.reqTs, b.respTs - b.reqTs, -Entry(rows, t))
            else
              var a := if n == 0 then rows[0] else rows[|rows| - 1];
              Entry(rows, t) == if a.exchTs > 0 then a.exchTs - a.reqTs else a.reqTs - a.respTs
  {
    var n := Bracket(rows, t);
    if 0 < n < |rows| {
      var a, b := rows[n - 1], rows[n];
      InterpolateOnLine(t, a.reqTs, a.exchTs - a.reqTs, b.reqTs, b.exchTs - b.reqTs);
      InterpolateOnLine(t, a.reqTs, a.respTs - a.reqTs, b.reqTs, b.respTs - b.reqTs);
    }
  }

  /** Responses come after their requests. */
  predicate Timely(rows: seq<Row>) {
    forall i :: 0 <= i < |rows| ==> rows[i].reqTs < rows[i].respTs
  }

  /** And so do arrivals, or at the same time. */
  predicate Causal(rows: seq<Row>) {
    Timely(rows) && forall i :: 0 <= i < |rows| && rows[i].exchTs > 0 ==> rows[i].reqTs <= rows[i].exchTs
  }

  /** A request with a non-negative latency gets to the exchange: accepted rows decide about it, and conversely. */
  lemma AcceptedIffForwarded(rows: seq<Row>, t: int)
    requires Accepts(rows) && Timely(rows)
    ensures Entry(rows, t) >= 0 ==> Forwarded(rows, t)
    ensures Causal(rows) && Forwarded(rows, t) ==> Entry(rows, t) >= 0
  {
    var n := Bracket(rows, t);
    if 0 < n < |rows| {
      var a, b := rows[n - 1], rows[n];
      InterpolateBetween(t, a.reqTs, a.respTs - a.reqTs, b.reqTs, b.respTs - b.reqTs);
      InterpolateBetween(t, a.reqTs, a.exchTs - a.reqTs, b.reqTs, b.exchTs - b.reqTs);
    }
  }

  lemma BracketAt(rows: seq<Row>, t: int, n: nat)
    requires Accepts(rows) && 0 < n <= |rows| && rows[0].reqTs < t
    requires rows[n - 1].reqTs <= t && (n < |rows| ==> t < rows[n].reqTs)
    ensures Bracket(rows, t) == n
  {
  }

  lemma BracketMonotone(rows: seq<Row>, t: int, t': int)
    requires rows != [] && t <= t'
    ensures Bracket(rows, t) <= Bracket(rows, t')
  {
  }

  /** The accepted rows around the `n`-th bracket are in order, so arrivals within it are. */
  predicate Rising(rows: seq<Row>, n: nat) {
    0 < n < |rows| ==> rows[n - 1].exchTs <= rows[n].exchTs
  }

  /** Within one bracket arrivals only rise or only fall. */
  lemma WithinBracket(rows: seq<Row>, n: nat, t: int, t': int)
    requires Accepts(rows) && t <= t' && n == Bracket(rows, t) == Bracket(rows, t') && Forwarded(rows, t)
    ensures if Rising(rows, n) then Arrival(rows, t) <= Arrival(rows, t') else Arrival(rows, t) >= Arrival(rows, t')
    ensures 0 < n < |rows| && Rising(rows, n) ==> rows[n - 1].exchTs <= Arrival(rows, t) <= rows[n].exchTs
  {
    if 0 < n < |rows| {
      var a, b := rows[n - 1], rows[n];
      if Rising(rows, n) {
        InterpolateMonotone(t, t', a.reqTs, a.exchTs - a.reqTs, b.reqTs, b.exchTs - b.reqTs);
        InterpolateMonotone(a.reqTs, t, a.reqTs, a.exchTs - a.reqTs, b.reqTs, b.exchTs - b.reqTs);
        InterpolateMonotone(t, b.reqTs, a.reqTs, a.exchTs - a.reqTs, b.reqTs, b.exchTs - b.reqTs);
      } else {
        InterpolateFalls(t, t', a.reqTs, a.exchTs - a.reqTs, b.reqTs, b.exchTs - b.reqTs);
      }
    }
  }

  /** An accepted row at an end of the table or next to another accepted one: the rest decide about no request. */
  predicate Reached(rows: seq<Row>, i: int) {
    && 0 <= i < |rows| && rows[i].exchTs > 0
    && (i == 0 || i == |rows| - 1 || rows[i - 1].exchTs > 0 || rows[i + 1].exchTs > 0)
  }

  ghost predicate ReachedInOrder(rows: seq<Row>) {
    forall i, j :: i <= j && Reached(rows, i) && Reached(rows, j) ==> rows[i].exchTs <= rows[j].exchTs
  }

  /** A request that accepted rows decide about is bracketed by reached rows, and arrives between them. */
  lemma ForwardedWithin(rows: seq<Row>, t: int)
    requires Accepts(rows) && ReachedInOrder(rows) && Forwarded(rows, t)
    ensures var n := Bracket(rows, t);
            && (n < |rows| ==> Reached(rows, n) && Arrival(rows, t) <= rows[n].exchTs)
            && (n > 0 ==> Reached(rows, n - 1) && rows[n - 1].exchTs <= Arrival(rows, t))
            && Rising(rows, n)
  {
    var n := Bracket(rows, t);
    assert n < |rows| ==> Reached(rows, n);
    assert n > 0 ==> Reached(rows, n - 1);
    WithinBracket(rows, n, t, t);
  }

  /**
    * Of two requests that accepted rows decide about the later never arrives earlier, if the accepted rows that
    * decide about any request at all are in order.
    */
  lemma ForwardedArrivalMonotone(rows: seq<Row>, t: int, t': int)
    requires Accepts(rows) && ReachedInOrder(rows) && t <= t' && Forwarded(rows, t) && Forwarded(rows, t')
    ensures Arrival(rows, t) <= Arrival(rows, t')
  {
    var n, n' := Bracket(rows, t), Bracket(rows, t');
    ForwardedWithin(rows, t);
    ForwardedWithin(rows, t');
    BracketMonotone(rows, t, t');
    if n == n' {
      WithinBracket(rows, n, t, t');
    }
  }

  /** So it is for two requests that are both accepted. */
  lemma AcceptedArrivalMonotone(rows: seq<Row>, t: int, t': int)
    requires Accepts(rows) && Timely(rows) && ReachedInOrder(rows)
    requires t <= t' && Entry(rows, t) >= 0 && Entry(rows, t') >= 0
    ensures Arrival(rows, t) <= Arrival(rows, t')
  {
    AcceptedIffForwarded(rows, t);
    AcceptedIffForwarded(rows, t');
    ForwardedArrivalMonotone(rows, t, t');
  }

  // ---------------------------------------------------------------- exactly when arrivals are in order

  /** No request overtakes an earlier one. */
  ghost predicate NoOvertaking(rows: seq<Row>)
    requires rows != []
  {
    forall t, t' :: t <= t' && Forwarded(rows, t) && Forwarded(rows, t') ==> Arrival(rows, t) <= Arrival(rows, t')
  }

  /** Sent within one tick of a row's request time. */
  predicate Near(rows: seq<Row>, t: int) {
    exists i :: 0 <= i < |rows| && rows[i].reqTs - 1 <= t <= rows[i].reqTs + 1
  }

  /** No request sent near a row overtakes an earlier one sent near a row. */
  ghost predicate NoOvertakingNearRows(rows: seq<Row>)
    requires rows != []
  {
    forall t, t' :: t <= t' && Near(rows, t) && Near(rows, t') && Forwarded(rows, t) && Forwarded(rows, t') ==>
      Arrival(rows, t) <= Arrival(rows, t')
  }

  /** The first request time of a bracket but the lowest. */
  lemma FirstOfBracket(rows: seq<Row>, t: int) returns (low: int)
    requires Accepts(rows) && Bracket(rows, t) > 0
    ensures low <= t && Near(rows, low) && Bracket(rows, low) == Bracket(rows, t)
  {
    var n := Bracket(rows, t);
    low := if rows[n - 1].reqTs == rows[0].reqTs then rows[0].reqTs + 1 else rows[n - 1].reqTs;
    assert rows[n - 1].reqTs - 1 <= low <= rows[n - 1].reqTs + 1;
    BracketAt(rows, low, n);
  }

  /** The last request time of a bracket but the highest. */
  lemma LastOfBracket(rows: seq<Row>, t: int) returns (high: int)
    requires Accepts(rows) && Bracket(rows, t) < |rows|
    ensures t <= high && Near(rows, high) && Bracket(rows, high) == Bracket(rows, t)
  {
    var n := Bracket(rows, t);
    high := if n == 0 then rows[0].reqTs else rows[n].reqTs - 1;
    assert rows[n].reqTs - 1 <= high <= rows[n].reqTs + 1;
    if n > 0 {
      BracketAt(rows, high, n);
    }
  }

  lemma SameBracketInOrder(rows: seq<Row>, t: int, t': int)
    requires Accepts(rows) && NoOvertakingNearRows(rows) && t <= t' && Bracket(rows, t) == Bracket(rows, t')
    requires Forwarded(rows, t)
    ensures Arrival(rows, t) <= Arrival(rows, t')
  {
    var n := Bracket(rows, t);
    WithinBracket(rows, n, t, t');
    if !Rising(rows, n) {
      var low := FirstOfBracket(rows, t);
      var high := LastOfBracket(rows, t');
      WithinBracket(rows, n, low, t);
      WithinBracket(rows, n, t', high);
    }
  }

  /** Some request near a row, in the same bracket, arrives no earlier. */
  lemma NoEarlierNearRow(rows: seq<Row>, t: int) returns (p: int)
    requires Accepts(rows) && Forwarded(rows, t) && Bracket(rows, t) < |rows|
    ensures Near(rows, p) && Bracket(rows, p) == Bracket(rows, t) && Arrival(rows, t) <= Arrival(rows, p)
  {
    var n := Bracket(rows, t);
    if Rising(rows, n) {
      p := LastOfBracket(rows, t);
      WithinBracket(rows, n, t, p);
    } else {
      p := FirstOfBracket(rows, t);
      WithinBracket(rows, n, p, t);
    }
  }

  lemma NoLaterNearRow(rows: seq<Row>, t: int) returns (p: int)
    requires Accepts(rows) && Forwarded(rows, t) && Bracket(rows, t) > 0
    ensures Near(rows, p) && Bracket(rows, p) == Bracket(rows, t) && Arrival(rows, p) <= Arrival(rows, t)
  {
    var n := Bracket(rows, t);
    if Rising(rows, n) {
      p := FirstOfBracket(rows, t);
      WithinBracket(rows, n, p, t);
    } else {
      p := LastOfBracket(rows, t);
      WithinBracket(rows, n, t, p);
    }
  }

  /**
    * For every table the constructor accepts, rejected rows, repeated request times and rows out of order included:
    * some request overtakes an earlier one if and only if that happens between two of the finitely many requests
    * sent within one tick of a row.
    */
  lemma OvertakingIsNearRows(rows: seq<Row>)
    requires Accepts(rows)
    ensures NoOvertaking(rows) <==> NoOvertakingNearRows(rows)
  {
    if NoOvertakingNearRows(rows) {
      forall t, t' | t <= t' && Forwarded(rows, t) && Forwarded(rows, t')
        ensures Arrival(rows, t) <= Arrival(rows, t')
      {
        BracketMonotone(rows, t, t');
        if Bracket(rows, t) == Bracket(rows, t') {
          SameBracketInOrder(rows, t, t');
        } else {
          var p := NoEarlierNearRow(rows, t);
          var p' := NoLaterNearRow(rows, t');
          if p' < p {
            BracketMonotone(rows, p', p);
            assert false;
          }
        }
      }
    }
  }

  lemma ArrivalAtRow(rows: seq<Row>, i: nat)
    requires Accepts(rows) && AllAccepted(rows) && i < |rows|
    requires forall a, b :: 0 <= a < b < |rows| ==> rows[a].reqTs < rows[b].reqTs
    ensures Arrival(rows, rows[i].reqTs) == rows[i].exchTs && Forwarded(rows, rows[i].reqTs)
  {
    if i > 0 {
      BracketAt(rows, rows[i].reqTs, i + 1);
      if i + 1 < |rows| {
        TruncEnds(rows[i + 1].exchTs - rows[i + 1].reqTs - (rows[i].exchTs - rows[i].reqTs),
                  rows[i + 1].reqTs - rows[i].reqTs);
      }
    }
  }

  /** With accepted rows at distinct request times only, that is so if and only if the rows are in order. */
  lemma NoOvertakingIff(rows: seq<Row>)
    requires Accepts(rows) && AllAccepted(rows)
    requires forall a, b :: 0 <= a < b < |rows| ==> rows[a].reqTs < rows[b].reqTs
    ensures NoOvertaking(rows) <==> InOrder(rows)
  {
    if NoOvertaking(rows) {
      forall i, j | 0 <= i <= j < |rows| ensures rows[i].exchTs <= rows[j].exchTs {
        ArrivalAtRow(rows, i);
        ArrivalAtRow(rows, j);
      }
    } else if InOrder(rows) {
      var t, t' :| t <= t' && Forwarded(rows, t) && Forwarded(rows, t') && Arrival(rows, t) > Arrival(rows, t');
      EntryArrivalMonotone(rows, t, t');
      assert false;
    }
  }

  /** Rows whose accepted ones are out of order, with a rejected one in between, let a later request overtake. */
  lemma OutOfOrderOvertakes(rows: seq<Row>)
    requires rows == [Row(0, 100, 200), Row(10, 0, 20), Row(20, 30, 40)]
    ensures Accepts(rows) && Causal(rows) && !NoOvertaking(rows)
  {
    BracketAt(rows, 20, 3);
    assert Arrival(rows, 0) == 100 && Arrival(rows, 20) == 30 && Forwarded(rows, 0) && Forwarded(rows, 20);
  }

  /** Out of order too, but the early row lies between rejected ones and decides about no request. */
  lemma UnreachedRowIsHarmless(rows: seq<Row>)
    requires rows == [Row(0, 0, 5), Row(10, 100, 110), Row(20, 0, 25), Row(30, 31, 40)]
    ensures Accepts(rows) && Causal(rows) && rows[1].exchTs > rows[3].exchTs > 0 && NoOvertaking(rows)
  {
    assert forall i :: Reached(rows, i) ==> i == 3;
    forall t, t' | t <= t' && Forwarded(rows, t) && Forwarded(rows, t')
      ensures Arrival(rows, t) <= Arrival(rows, t')
    {
      ForwardedArrivalMonotone(rows, t, t');
    }
  }

  lemma {:induction false} ResponseKnotsOrdered(rows: seq<Row>)
    requires forall i, j :: 0 <= i <= j < |rows| && rows[i].exchTs > 0 && rows[j].exchTs > 0 ==>
      rows[i].exchTs <= rows[j].exchTs && rows[i].respTs <= rows[j].respTs
    ensures Ordered(ResponseKnots(rows))
    ensures forall k :: k in ResponseKnots(rows) ==>
      exists i :: 0 <= i < |rows| && rows[i].exchTs > 0 && k == Knot(rows[i].exchTs, rows[i].respTs - rows[i].exchTs)
  {
    if rows != [] {
      ResponseKnotsOrdered(rows[1..]);
      var rest, ks := ResponseKnots(rows[1..]), ResponseKnots(rows);
      forall k | k in ks
        ensures exists i :: 0 <= i < |rows| && rows[i].exchTs > 0
                            && k == Knot(rows[i].exchTs, rows[i].respTs - rows[i].exchTs)
      {
        if k in rest {
          var i :| 0 <= i < |rows[1..]| && rows[1..][i].exchTs > 0
                   && k == Knot(rows[1..][i].exchTs, rows[1..][i].respTs - rows[1..][i].exchTs);
          assert rows[i + 1] == rows[1..][i];
        } else {
          assert k == ks[0] && rows[0].exchTs > 0;
        }
      }
      if rows[0].exchTs > 0 {
        forall j | 0 <= j < |rest| ensures ks[0].x <= rest[j].x && ks[0].x + ks[0].y <= rest[j].x + rest[j].y {
          assert rest[j] in rest;
        }
        assert ks == [ks[0]] + rest;
      } else {
        assert ks == rest;
      }
    }
  }

  /** With the accepted rows in order no reply overtakes an earlier one; rejected rows in between do not matter. */
  lemma ResponseArrivalMonotone(rows: seq<Row>, t: int, t': int)
    requires t <= t'
    requires forall i, j :: 0 <= i <= j < |rows| && rows[i].exchTs > 0 && rows[j].exchTs > 0 ==>
      rows[i].exchTs <= rows[j].exchTs && rows[i].respTs <= rows[j].respTs
    ensures t + Response(rows, t) <= t' + Response(rows, t')
  {
    ResponseKnotsOrdered(rows);
    if ResponseKnots(rows) != [] {
      ArrivalMonotone(ResponseKnots(rows), t, t');
    }
  }

  // ---------------------------------------------------------------- shifting the table

  function ShiftKnots(ks: seq<Knot>, offset: int): seq<Knot> {
    seq(|ks|, i requires 0 <= i < |ks| => Knot(ks[i].x + offset, ks[i].y))
  }

  lemma {:induction false} UpperRowShifts(rows: seq<Row>, offset: int, t: int)
    ensures UpperRow(ShiftAll(rows, offset), t + offset) == UpperRow(rows, t)
  {
    if rows != [] {
      UpperRowShifts(rows[1..], offset, t);
      assert ShiftAll(rows, offset)[1..] == ShiftAll(rows[1..], offset);
    }
  }

  lemma {:induction false} UpperBoundShifts(ks: seq<Knot>, offset: int, t: int)
    ensures UpperBound(ShiftKnots(ks, offset), t + offset) == UpperBound(ks, t)
  {
    if ks != [] {
      UpperBoundShifts(ks[1..], offset, t);
      assert ShiftKnots(ks, offset)[1..] == ShiftKnots(ks[1..], offset);
    }
  }

  /** No accepted row is shifted to a time that reads as a rejection. */
  predicate StaysAccepted(rows: seq<Row>, offset: int) {
    forall i :: 0 <= i < |rows| && rows[i].exchTs > 0 ==> rows[i].exchTs + offset > 0
  }

  lemma {:induction false} KnotsShift(rows: seq<Row>, offset: int)
    requires StaysAccepted(rows, offset)
    ensures ResponseKnots(ShiftAll(rows, offset)) == ShiftKnots(ResponseKnots(rows), offset)
  {
    if rows != [] {
      KnotsShift(rows[1..], offset);
      assert ShiftAll(rows, offset)[1..] == ShiftAll(rows[1..], offset);
    }
  }

  lemma InterpolateShifts(x: int, x1: int, y1: int, x2: int, y2: int, offset: int)
    requires x1 <= x2
    ensures Interpolate(x + offset, x1 + offset, y1, x2 + offset, y2) == Interpolate(x, x1, y1, x2, y2)
  {
    assert x + offset - (x1 + offset) == x - x1 && x2 + offset - (x1 + offset) == x2 - x1;
  }

  lemma BetweenShifts(a: Row, b: Row, t: int, offset: int)
    requires a.reqTs <= b.reqTs && (a.exchTs > 0 ==> a.exchTs + offset > 0) && (b.exchTs > 0 ==> b.exchTs + offset > 0)
    ensures EntryBetween(Shift(a, offset), Shift(b, offset), t + offset) == EntryBetween(a, b, t)
  {
    InterpolateShifts(t, a.reqTs, a.exchTs - a.reqTs, b.reqTs, b.exchTs - b.reqTs, offset);
    InterpolateShifts(t, a.reqTs, a.respTs - a.reqTs, b.reqTs, b.respTs - b.reqTs, offset);
  }

  lemma EntryShifts(rows: seq<Row>, offset: int, t: int)
    requires Accepts(rows) && StaysAccepted(rows, offset)
    ensures Entry(ShiftAll(rows, offset), t + offset) == Entry(rows, t)
  {
    UpperRowShifts(rows, offset, t);
    var n := Bracket(rows, t);
    if 0 < n < |rows| {
      BetweenShifts(rows[n - 1], rows[n], t, offset);
    }
  }

  lemma SegmentShifts(ks: seq<Knot>, offset: int, t: int)
    requires ks != [] && ks[0].x <= t
    ensures SegmentAt(ShiftKnots(ks, offset), t + offset) == SegmentAt(ks, t)
  {
    var all, n := ShiftKnots(ks, offset), UpperBound(ks, t);
    UpperBoundShifts(ks, offset, t);
    assert n > 0 && all[n - 1] == Knot(ks[n - 1].x + offset, ks[n - 1].y);
    if n < |ks| {
      assert all[n] == Knot(ks[n].x + offset, ks[n].y);
      InterpolateShifts(t, ks[n - 1].x, ks[n - 1].y, ks[n].x, ks[n].y, offset);
    }
  }

  lemma LatencyShifts(ks: seq<Knot>, offset: int, t: int)
    requires ks != []
    ensures LatencyAt(ShiftKnots(ks, offset), t + offset) == LatencyAt(ks, t)
  {
    if ks[0].x < t {
      SegmentShifts(ks, offset, t);
    }
  }

  /** Shifting a table shifts what it says: the same latencies, `offset` later. */
  lemma ShiftedSaysTheSame(rows: seq<Row>, offset: int, t: int)
    requires Accepts(rows) && StaysAccepted(rows, offset)
    ensures Entry(ShiftAll(rows, offset), t + offset) == Entry(rows, t)
    ensures Response(ShiftAll(rows, offset), t + offset) == Response(rows, t)
  {
    EntryShifts(rows, offset, t);
    KnotsShift(rows, offset);
    if ResponseKnots(rows) != [] {
      LatencyShifts(ResponseKnots(rows), offset, t);
    }
  }

  // ---------------------------------------------------------------- in place

  /** The constructor: shift every row, then insist on rows ordered by request time. */
  method Build(rows: seq<Row>, offset: int) returns (r: Option<seq<Row>>)
    ensures r == if Accepts(ShiftAll(rows, offset)) then Some(ShiftAll(rows, offset)) else None
  {
    if rows == [] {
      return None;
    }
    var own := new Row[|rows|](i requires 0 <= i < |rows| => rows[i]);
    for i := 0 to own.Length
      invariant forall j :: 0 <= j < i ==> own[j] == Shift(rows[j], offset)
      invariant forall j :: i <= j < own.Length ==> own[j] == rows[j]
    {
      own[i] := Shift(own[i], offset);
    }
    assert own[..] == ShiftAll(rows, offset);
    for i := 1 to own.Length
      invariant forall a, b :: 0 <= a < b < i ==> own[a].reqTs <= own[b].reqTs
    {
      if own[i].reqTs < own[i - 1].reqTs {
        assert own[..][i].reqTs < own[..][i - 1].reqTs;
        return None;
      }
    }
    return Some(own[..]);
  }

  function KnotOf(row: Row): Knot {
    Knot(row.exchTs, row.respTs - row.exchTs)
  }

  lemma NextKnot(rows: seq<Row>, i: nat)
    requires i < |rows|
    ensures ResponseKnots(rows[i..]) ==
            (if rows[i].exchTs > 0 then [KnotOf(rows[i])] else []) + ResponseKnots(rows[i + 1..])
  {
  }

  /** Find the first accepted row, then walk on to the segment that holds `t`. */
  method WalkResponse(rows: seq<Row>, t: int) returns (lat: int)
    ensures lat == Response(rows, t)
  {
    var i := 0;
    while i < |rows| && rows[i].exchTs <= 0
      invariant i <= |rows| && ResponseKnots(rows) == ResponseKnots(rows[i..])
    {
      NextKnot(rows, i);
      i := i + 1;
    }
    if i == |rows| {
      return 0;
    }
    NextKnot(rows, i);
    if t <= rows[i].exchTs {
      return rows[i].respTs - rows[i].exchTs;
    }
    lat := WalkOn(rows, i, t);
  }

  /** Walk on from row `prev`, whose exchange time `t` has reached. */
  function Walk(prev: Row, rest: seq<Row>, t: int): int
    requires prev.exchTs <= t
    decreases |rest|
  {
    if rest == [] then prev.respTs - prev.exchTs
    else if rest[0].exchTs <= 0 then Walk(prev, rest[1..], t)
    else if t < rest[0].exchTs then
      Interpolate(t, prev.exchTs, prev.respTs - prev.exchTs, rest[0].exchTs, rest[0].respTs - rest[0].exchTs)
    else Walk(rest[0], rest[1..], t)
  }

  /** One row further along the table. */
  lemma WalkStep(rows: seq<Row>, prev: Row, cur: nat, t: int)
    requires cur < |rows| && prev.exchTs <= t
    ensures var next := rows[cur];
            Walk(prev, rows[cur..], t) ==
            if next.exchTs <= 0 then Walk(prev, rows[cur + 1..], t)
            else if t < next.exchTs
            then Interpolate(t, prev.exchTs, prev.respTs - prev.exchTs, next.exchTs, next.respTs - next.exchTs)
            else Walk(next, rows[cur + 1..], t)
  {
    assert rows[cur..][0] == rows[cur] && rows[cur..][1..] == rows[cur + 1..];
  }

  lemma SegmentStep(k: Knot, ks: seq<Knot>, t: int)
    requires k.x <= t
    ensures ks == [] ==> SegmentAt([k] + ks, t) == k.y
    ensures ks != [] && t < ks[0].x ==> SegmentAt([k] + ks, t) == Interpolate(t, k.x, k.y, ks[0].x, ks[0].y)
    ensures ks != [] && ks[0].x <= t ==> SegmentAt([k] + ks, t) == SegmentAt(ks, t)
  {
  }

  lemma {:induction false} WalkFindsSegment(prev: Row, rest: seq<Row>, t: int)
    requires prev.exchTs <= t
    ensures Walk(prev, rest, t) == SegmentAt([KnotOf(prev)] + ResponseKnots(rest), t)
    decreases |rest|
  {
    SegmentStep(KnotOf(prev), ResponseKnots(rest), t);
    if rest != [] {
      if rest[0].exchTs <= 0 {
        assert ResponseKnots(rest) == ResponseKnots(rest[1..]);
        WalkFindsSegment(prev, rest[1..], t);
      } else {
        assert ResponseKnots(rest) == [KnotOf(rest[0])] + ResponseKnots(rest[1..]);
        if rest[0].exchTs <= t {
          WalkFindsSegment(rest[0], rest[1..], t);
        }
      }
    }
  }

  ghost predicate NoneAccepted(rows: seq<Row>) {
    forall i :: 0 <= i < |rows| ==> rows[i].exchTs <= 0
  }

  /** Accepted rows all reached by `t`. */
  ghost predicate ReachedBy(rows: seq<Row>, t: int) {
    forall i :: 0 <= i < |rows| && rows[i].exchTs > 0 ==> rows[i].exchTs <= t
  }

  /** Rows that are not accepted do not matter to the walk, and from the last row on nothing does. */
  lemma {:induction false} WalkPast(prev: Row, rest: seq<Row>, t: int)
    requires prev.exchTs <= t && NoneAccepted(rest)
    ensures Walk(prev, rest, t) == prev.respTs - prev.exchTs
    decreases |rest|
  {
    if rest != [] {
      WalkPast(prev, rest[1..], t);
    }
  }

  /** The walk goes on to the last accepted row reached by `t`. */
  lemma {:induction false} WalkReaches(prev: Row, pre: seq<Row>, a: Row, rest: seq<Row>, t: int)
    requires prev.exchTs <= t && ReachedBy(pre, t) && 0 < a.exchTs <= t
    ensures Walk(prev, pre + [a] + rest, t) == Walk(a, rest, t)
    decreases |pre|
  {
    var all := pre + [a] + rest;
    if pre == [] {
      assert all[0] == a && all[1..] == rest;
    } else {
      assert all[0] == pre[0] && all[1..] == pre[1..] + [a] + rest;
      WalkReaches(if pre[0].exchTs > 0 then pre[0] else prev, pre[1..], a, rest, t);
    }
  }

  lemma {:induction false} WalkBetween(a: Row, pre: seq<Row>, b: Row, rest: seq<Row>, t: int)
    requires a.exchTs <= t < b.exchTs && NoneAccepted(pre) && b.exchTs > 0
    ensures Walk(a, pre + [b] + rest, t)
         == Interpolate(t, a.exchTs, a.respTs - a.exchTs, b.exchTs, b.respTs - b.exchTs)
    decreases |pre|
  {
    var all := pre + [b] + rest;
    if pre == [] {
      assert all[0] == b;
    } else {
      assert all[0] == pre[0] && all[1..] == pre[1..] + [b] + rest;
      WalkBetween(a, pre[1..], b, rest, t);
    }
  }

  lemma {:induction false} SkipRejected(rows: seq<Row>, k: nat)
    requires k <= |rows| && NoneAccepted(rows[..k])
    ensures ResponseKnots(rows) == ResponseKnots(rows[k..])
    decreases k
  {
    if k == 0 {
      assert rows[0..] == rows;
    } else {
      assert rows[..k][0] == rows[0] && rows[1..][..k - 1] == rows[..k][1..] && rows[1..][k - 1..] == rows[k..];
      SkipRejected(rows[1..], k - 1);
    }
  }

  /** Once past the first accepted row, the response latency is what the walk finds. */
  lemma ResponseIsWalk(rows: seq<Row>, k: nat, t: int)
    requires k < |rows| && NoneAccepted(rows[..k]) && 0 < rows[k].exchTs
    ensures t <= rows[k].exchTs ==> Response(rows, t) == rows[k].respTs - rows[k].exchTs
    ensures rows[k].exchTs < t ==> Response(rows, t) == Walk(rows[k], rows[k + 1..], t)
  {
    SkipRejected(rows, k);
    NextKnot(rows, k);
    if rows[k].exchTs < t {
      WalkFindsSegment(rows[k], rows[k + 1..], t);
    }
  }

  /** Before anything is accepted a response waits nothing, or what the first accepted row says. */
  lemma ResponseBefore(rows: seq<Row>, k: nat, t: int)
    requires k <= |rows| && NoneAccepted(rows[..k]) && (k < |rows| ==> 0 < rows[k].exchTs && t <= rows[k].exchTs)
    ensures Response(rows, t) == if k == |rows| then 0 else rows[k].respTs - rows[k].exchTs
  {
    SkipRejected(rows, k);
    if k < |rows| {
      ResponseIsWalk(rows, k, t);
    }
  }

  /** The walk has got to accepted row `i`, the last one reached by `t`. */
  ghost predicate WalkedTo(rows: seq<Row>, k: nat, i: nat, t: int) {
    && k <= i < |rows| && NoneAccepted(rows[..k]) && 0 < rows[k].exchTs < t
    && 0 < rows[i].exchTs <= t && ReachedBy(rows[..i], t)
  }

  lemma ResponseFrom(rows: seq<Row>, k: nat, i: nat, t: int)
    requires WalkedTo(rows, k, i, t)
    ensures Response(rows, t) == Walk(rows[i], rows[i + 1..], t)
  {
    ResponseIsWalk(rows, k, t);
    if k < i {
      var pre := rows[k + 1..i];
      assert rows[k + 1..] == pre + [rows[i]] + rows[i + 1..];
      assert forall j :: 0 <= j < |pre| ==> pre[j] == rows[..i][k + 1 + j];
      WalkReaches(rows[k], pre, rows[i], rows[i + 1..], t);
    }
  }

  /** Between two accepted rows, with only rejected ones in between, a response waits the height of their line. */
  lemma ResponseOnLine(rows: seq<Row>, k: nat, i: nat, j: nat, t: int)
    requires WalkedTo(rows, k, i, t) && i < j < |rows| && NoneAccepted(rows[i + 1..j]) && t < rows[j].exchTs
    ensures OnLine(t, rows[i].exchTs, rows[i].respTs - rows[i].exchTs,
                   rows[j].exchTs, rows[j].respTs - rows[j].exchTs, Response(rows, t))
  {
    ResponseFrom(rows, k, i, t);
    assert rows[i + 1..] == rows[i + 1..j] + [rows[j]] + rows[j + 1..];
    WalkBetween(rows[i], rows[i + 1..j], rows[j], rows[j + 1..], t);
    InterpolateOnLine(t, rows[i].exchTs, rows[i].respTs - rows[i].exchTs,
                      rows[j].exchTs, rows[j].respTs - rows[j].exchTs);
  }

  /** From the last accepted row on a response waits what that row says. */
  lemma ResponseAfter(rows: seq<Row>, k: nat, i: nat, t: int)
    requires WalkedTo(rows, k, i, t) && NoneAccepted(rows[i + 1..])
    ensures Response(rows, t) == rows[i].respTs - rows[i].exchTs
  {
    ResponseFrom(rows, k, i, t);
    WalkPast(rows[i], rows[i + 1..], t);
  }

  method WalkOn(rows: seq<Row>, first: nat, t: int) returns (lat: int)
    requires first < |rows| && 0 < rows[first].exchTs < t
    ensures lat == LatencyAt(ResponseKnots(rows[first..]), t)
  {
    NextKnot(rows, first);
    WalkFindsSegment(rows[first], rows[first + 1..], t);
    ghost var want := Walk(rows[first], rows[first + 1..], t);
    var prev, cur := first, first + 1;
    while cur < |rows|
      invariant prev < cur <= |rows| && rows[prev].exchTs <= t
      invariant Walk(rows[prev], rows[cur..], t) == want
    {
      WalkStep(rows, rows[prev], cur, t);
      if rows[cur].exchTs > 0 {
        if t < rows[cur].exchTs {
          return Interpolate(t, rows[prev].exchTs, rows[prev].respTs - rows[prev].exchTs,
                             rows[cur].exchTs, rows[cur].respTs - rows[cur].exchTs);
        }
        prev := cur;
      }
      cur := cur + 1;
    }
    return rows[prev].respTs - rows[prev].exchTs;
  }
}
