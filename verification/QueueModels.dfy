/** Queue-position models: how many lots stand ahead of a resting order (include/hbt/models/queue.hpp). */
module QueueModels {

  /** Lots ahead of the order, and lots traded at its price since the last depth change. */
  datatype QueuePos = QueuePos(front: real, cumTrade: int)

  /** A queue model is the four operations the exchange calls; `isFilled` also returns the executable lots. */
  datatype QueueModel = QueueModel(
    newOrder: int -> QueuePos,
    trade: (QueuePos, int) -> QueuePos,
    depth: (QueuePos, int, int) -> QueuePos,
    isFilled: QueuePos -> (QueuePos, int))

  function MinReal(a: real, b: real): real { if a <= b then a else b }

  /** Round half away from zero, as std::round does. */
  function Round(x: real): int {
    if x >= 0.0 then (x + 0.5).Floor else -((-x + 0.5).Floor)
  }

  function NewOrder(displayed: int): QueuePos {
    QueuePos(displayed as real, 0)
  }

  /** Both models test for a fill alike: the lots by which trades overran the queue, rounded. */
  function IsFilled(pos: QueuePos): (QueuePos, int) {
    var exec := Round(-pos.front);
    if exec > 0 then (pos.(front := 0.0), exec) else (pos, 0)
  }

  // ---------------------------------------------------------------- risk-averse model

  function RiskAdverseTrade(pos: QueuePos, qty: int): QueuePos {
    pos.(front := pos.front - qty as real)
  }

  function RiskAdverseDepth(pos: QueuePos, prev: int, now: int): QueuePos {
    pos.(front := MinReal(pos.front, now as real))
  }

  const RISK_ADVERSE := QueueModel(
    d => NewOrder(d), (pos, n) => RiskAdverseTrade(pos, n),
    (pos, prev, now) => RiskAdverseDepth(pos, prev, now), pos => IsFilled(pos))

  // ---------------------------------------------------------------- probabilistic model

  function ProbTrade(pos: QueuePos, qty: int): QueuePos {
    QueuePos(pos.front - qty as real, pos.cumTrade + qty)
  }

  function ProbDepth(prob: (real, real) -> real, pos: QueuePos, prev: int, now: int): QueuePos {
    var chg := prev - now - pos.cumTrade;
    if chg < 0 then QueuePos(MinReal(pos.front, now as real), 0)
    else
      var back := prev as real - pos.front;
      var p := prob(pos.front, back);
      QueuePos(MinReal(EstimatedFront(pos.front, back, p, chg as real), now as real), 0)
  }

  /** Split a shrinkage between the front and the back of the queue. */
  function EstimatedFront(front: real, back: real, p: real, chg: real): real {
    var backAfter := back - p * chg;
    front - (1.0 - p) * chg + MinReal(backAfter, 0.0)
  }

  function ProbQueueModel(prob: (real, real) -> real): QueueModel {
    QueueModel(d => NewOrder(d), (pos, n) => ProbTrade(pos, n),
               (pos, prev, now) => ProbDepth(prob, pos, prev, now), pos => IsFilled(pos))
  }

  // ---------------------------------------------------------------- laws

  /** A model that never places an order behind the displayed quantity. */
  ghost predicate Bounded(m: QueueModel) {
    && (forall d: int :: m.newOrder(d).front <= d as real)
    && (forall pos, n: nat :: m.trade(pos, n).front <= pos.front)
    && (forall pos, prev, now: int :: m.depth(pos, prev, now).front <= now as real)
    && (forall pos :: m.isFilled(pos).0.front <= pos.front || m.isFilled(pos).0.front <= 0.0)
  }

  lemma RiskAdverseBounded()
    ensures Bounded(RISK_ADVERSE)
  {
  }

  lemma ProbBounded(prob: (real, real) -> real)
    ensures Bounded(ProbQueueModel(prob))
  {
  }

  /**
    * With a probability in [0,1] and the order no further back than the displayed size, a depth
    * change never pushes it back, and moves it up by at most the shrinkage that trades do not
    * explain, unless the new size caps it.
    */
  lemma ProbDepthAdvances(prob: (real, real) -> real, pos: QueuePos, prev: int, now: int)
    requires pos.front <= prev as real
    requires 0.0 <= prob(pos.front, prev as real - pos.front) <= 1.0
    ensures var next := ProbDepth(prob, pos, prev, now);
            var unexplained := prev - now - pos.cumTrade;
            && next.cumTrade == 0
            && next.front <= pos.front
            && next.front <= now as real
            && (next.front == now as real
                || next.front >= pos.front - (if unexplained > 0 then unexplained as real else 0.0))
  {
    var chg := prev - now - pos.cumTrade;
    if chg >= 0 {
      var back := prev as real - pos.front;
      EstimateWithin(pos.front, back, prob(pos.front, back), chg as real);
    }
  }

  function MaxReal(a: real, b: real): real { if a >= b then a else b }

  /** Nobody is lost in the split of a shrinkage: who is left in front and who is left behind add up to what is left. */
  lemma ShrinkageConserved(front: real, back: real, p: real, chg: real)
    ensures EstimatedFront(front, back, p, chg) + MaxReal(0.0, back - p * chg) == front + back - chg
  {
    assert (1.0 - p) * chg == chg - p * chg;
  }

  /**
    * Where a depth change leaves an order: after a growth where it was; after a shrinkage behind the displayed size,
    * plus what trades explain of the shrinkage, less those still behind the order, who lose the share `p` of the rest.
    * The new displayed size caps both, and the trade count starts anew.
    */
  function PlaceAfter(prob: (real, real) -> real, pos: QueuePos, prev: int, now: int): QueuePos {
    var chg, back := prev - now - pos.cumTrade, prev as real - pos.front;
    var behind := MaxReal(0.0, back - prob(pos.front, back) * chg as real);
    QueuePos(MinReal(now as real, if chg < 0 then pos.front else (now + pos.cumTrade) as real - behind), 0)
  }

  lemma ProbDepthSplits(prob: (real, real) -> real, pos: QueuePos, prev: int, now: int)
    ensures ProbQueueModel(prob).depth(pos, prev, now) == PlaceAfter(prob, pos, prev, now)
  {
    var chg, back := prev - now - pos.cumTrade, prev as real - pos.front;
    if chg >= 0 {
      ShrinkageConserved(pos.front, back, prob(pos.front, back), chg as real);
    }
  }

  /** A shrinkage certain to come from the front moves it up by all of it, one certain to come from behind not. */
  lemma ShrinkageEnds(front: real, back: real, chg: real)
    requires back >= 0.0
    ensures EstimatedFront(front, back, 0.0, chg) == front - chg
    ensures chg <= back ==> EstimatedFront(front, back, 1.0, chg) == front
  {
    assert 0.0 * chg == 0.0 && 1.0 * chg == chg;
  }

  /** The likelier a shrinkage is to come from behind, the less it moves the order up. */
  lemma ShrinkageMonotone(front: real, back: real, p: real, p': real, chg: real)
    requires p <= p' && chg >= 0.0
    ensures EstimatedFront(front, back, p, chg) <= EstimatedFront(front, back, p', chg)
  {
    ShrinkageConserved(front, back, p, chg);
    ShrinkageConserved(front, back, p', chg);
    assert p' * chg == p * chg + (p' - p) * chg;
    ProductPositive(p' - p, chg);
  }

  lemma ProductPositive(a: real, b: real)
    requires a >= 0.0 && b >= 0.0
    ensures a * b >= 0.0
  {
  }

  /** Trades at the order's price, one after the other. */
  function TradedAll(m: QueueModel, pos: QueuePos, ns: seq<nat>): QueuePos
    decreases |ns|
  {
    if ns == [] then pos else TradedAll(m, m.trade(pos, ns[0]), ns[1..])
  }

  function Sum(ns: seq<nat>): nat {
    if ns == [] then 0 else ns[0] + Sum(ns[1..])
  }

  lemma {:induction false} TradesAdvance(prob: (real, real) -> real, pos: QueuePos, ns: seq<nat>)
    ensures TradedAll(ProbQueueModel(prob), pos, ns)
         == QueuePos(pos.front - Sum(ns) as real, pos.cumTrade + Sum(ns))
    decreases |ns|
  {
    if ns != [] {
      TradesAdvance(prob, ProbQueueModel(prob).trade(pos, ns[0]), ns[1..]);
    }
  }

  /**
    * Nothing is counted twice: when the displayed size shrinks by just what traded since it last changed, the order
    * has moved up by just that, whatever the probability.
    */
  lemma TradesExplainShrinkage(prob: (real, real) -> real, pos: QueuePos, ns: seq<nat>, prev: int)
    requires pos.cumTrade == 0 && pos.front <= prev as real
    ensures var now := prev - Sum(ns);
            ProbQueueModel(prob).depth(TradedAll(ProbQueueModel(prob), pos, ns), prev, now)
            == QueuePos(pos.front - Sum(ns) as real, 0)
  {
    TradesAdvance(prob, pos, ns);
    AllExplained(prob, QueuePos(pos.front - Sum(ns) as real, Sum(ns)), prev);
  }

  /** A shrinkage that trades explain altogether leaves the order where the trades did. */
  lemma AllExplained(prob: (real, real) -> real, pos: QueuePos, prev: int)
    requires pos.cumTrade >= 0 && pos.front <= (prev - pos.cumTrade) as real
    ensures ProbQueueModel(prob).depth(pos, prev, prev - pos.cumTrade) == QueuePos(pos.front, 0)
  {
    var back := prev as real - pos.front;
    ShrinkageConserved(pos.front, back, prob(pos.front, back), 0.0);
    NothingOf(prob(pos.front, back));
  }

  lemma NothingOf(p: real)
    ensures p * 0.0 == 0.0
  {
  }

  /** An order joins behind all that is displayed, and as that trades away it has just the rest ahead of it. */
  lemma NewcomerAdvances(prob: (real, real) -> real, displayed: int, ns: seq<nat>)
    ensures var m := ProbQueueModel(prob);
            m.depth(TradedAll(m, m.newOrder(displayed), ns), displayed, displayed - Sum(ns))
            == QueuePos((displayed - Sum(ns)) as real, 0)
    ensures RISK_ADVERSE.newOrder(displayed) == ProbQueueModel(prob).newOrder(displayed)
  {
    TradesExplainShrinkage(prob, ProbQueueModel(prob).newOrder(displayed), ns, displayed);
  }

  /** A fill is reported once trades overran the order by half a lot, by the nearest number of lots. */
  lemma FillTest(pos: QueuePos)
    ensures var (after, exec) := IsFilled(pos);
            && (exec > 0 <==> -pos.front >= 0.5)
            && (exec > 0 ==> exec as real - 0.5 <= -pos.front < exec as real + 0.5 && after == pos.(front := 0.0))
            && (exec <= 0 ==> exec == 0 && after == pos)
  {
  }

  lemma EstimateWithin(front: real, back: real, p: real, chg: real)
    requires 0.0 <= p <= 1.0 && chg >= 0.0 && back >= 0.0
    ensures front - chg <= EstimatedFront(front, back, p, chg) <= front
  {
    ScaledWithin(p, chg);
  }

  lemma ScaledWithin(p: real, x: real)
    requires 0.0 <= p <= 1.0 && x >= 0.0
    ensures 0.0 <= p * x <= x && (1.0 - p) * x == x - p * x
  {
  }

  // ---------------------------------------------------------------- risk-averse closed form

  /** What happens at an order's own price: lots trade there, or the displayed size changes. */
  datatype QueueOp = Traded(n: nat) | Shown(now: int)

  /** The risk-averse queue position in lots, step by step. */
  function LotsAhead(v: int, ops: seq<QueueOp>): int {
    if ops == [] then v
    else
      match ops[|ops| - 1]
      case Traded(n) => LotsAhead(v, ops[..|ops| - 1]) - n
      case Shown(now) => var a := LotsAhead(v, ops[..|ops| - 1]); if a <= now then a else now
  }

  function TotalTraded(ops: seq<QueueOp>): nat {
    if ops == [] then 0
    else (if ops[|ops| - 1].Traded? then ops[|ops| - 1].n else 0) + TotalTraded(ops[..|ops| - 1])
  }

  /** `cap` is the least of the initial size and, for every displayed size, that size plus what traded before it. */
  ghost predicate IsQueueCap(v: int, ops: seq<QueueOp>, cap: int) {
    && cap <= v
    && (forall i :: 0 <= i < |ops| && ops[i].Shown? ==> cap <= ops[i].now + TotalTraded(ops[..i]))
    && (cap == v || exists i :: 0 <= i < |ops| && ops[i].Shown? && cap == ops[i].now + TotalTraded(ops[..i]))
  }

  /** Closed form: the position is that least size less everything traded. */
  lemma {:induction false} LotsAheadClosedForm(v: int, ops: seq<QueueOp>)
    ensures IsQueueCap(v, ops, LotsAhead(v, ops) + TotalTraded(ops))
  {
    if ops != [] {
      var last := |ops| - 1;
      var pre := ops[..last];
      LotsAheadClosedForm(v, pre);
      assert forall i :: 0 <= i < last ==> pre[..i] == ops[..i];
      var cap := LotsAhead(v, pre) + TotalTraded(pre);
      var cap' := LotsAhead(v, ops) + TotalTraded(ops);
      if cap' == cap && cap != v {
        var i :| 0 <= i < last && pre[i].Shown? && cap == pre[i].now + TotalTraded(pre[..i]);
        assert ops[i].Shown? && cap' == ops[i].now + TotalTraded(ops[..i]);
      }
    }
  }

  /** No at-price trade so far overran the queue. */
  ghost predicate NeverOverrun(v: int, ops: seq<QueueOp>) {
    forall i :: 0 <= i < |ops| && ops[i].Traded? ==> LotsAhead(v, ops[..i + 1]) >= 0
  }

  lemma NeverOverrunSnoc(v: int, ops: seq<QueueOp>, op: QueueOp)
    ensures NeverOverrun(v, ops + [op]) <==>
            NeverOverrun(v, ops) && (op.Traded? ==> LotsAhead(v, ops) - op.n >= 0)
    ensures LotsAhead(v, ops + [op]) == if op.Traded? then LotsAhead(v, ops) - op.n
                                    else if LotsAhead(v, ops) <= op.now then LotsAhead(v, ops) else op.now
  {
    var all := ops + [op];
    assert all[..|ops|] == ops;
    assert all[..|ops| + 1] == all;
    forall i | 0 <= i < |ops|
      ensures all[i] == ops[i] && LotsAhead(v, all[..i + 1]) == LotsAhead(v, ops[..i + 1])
    {
      assert all[..i + 1] == ops[..i + 1];
    }
    assert all[|ops|] == op;
  }

  /** The model on whole lots: a trade fills exactly when it overruns the queue, by the lots overrun. */
  lemma RiskAdverseOnLots(pos: QueuePos, v: int, n: int, now: int)
    requires pos.front == v as real
    ensures RISK_ADVERSE.trade(pos, n).front == (v - n) as real
    ensures RISK_ADVERSE.depth(pos, 0, now).front == (if v <= now then v else now) as real
    ensures var (after, exec) := RISK_ADVERSE.isFilled(pos);
            && (exec > 0 <==> v < 0) && (v < 0 ==> exec == -v && after.front == 0.0) && (v >= 0 ==> after == pos)
  {
  }
}
