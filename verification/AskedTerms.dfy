/** Everything that travels, rests or is executed carries terms that the strategy asked for. */
module AskedTerms {
  import opened Core
  import opened HashMapDepth
  import opened Exchange
  import opened ExchangeLaws
  import opened ExchangeRuns
  import opened OrderBus
  import opened LocalSide
  import opened Protocol
  import opened FreshIds

  // ---------------------------------------------------------------- one command

  /** A new order with everything the strategy asked for, and nothing executed. */
  predicate IsSubmission(cmd: Command, now: int, o: Order) {
    && cmd.Submit? && o.id == cmd.id && o.side == cmd.side && o.ordType == cmd.ordType && o.tif == cmd.tif
    && o.tick == cmd.tick && o.qty == cmd.qty && o.leaves == cmd.qty && o.execQty == 0
    && o.req == New && o.status == NoStatus && o.localTs == now
  }

  /** The order as recorded but for the change asked for and the marks of the request. */
  predicate IsChange(cmd: Command, now: int, was: Order, o: Order) {
    match cmd
    case Submit(_, _, _, _, _, _) => false
    case Modify(_, tick, qty) => o == was.(tick := tick, qty := qty, req := Replaced, localTs := now)
    case Cancel(_) => o == was.(req := Canceled, localTs := now)
  }

  /**
    * What a command sends: a submission of just what was asked, or the recorded order with just the change asked for.
    * It is also what is recorded locally; what comes back of a refused one is the same with the former terms.
    */
  lemma CommandCarries(l: Local, cmd: Command, now: int)
    ensures var i, known := Issue(l, cmd, now), cmd.id in l.orders;
            && (i.Sent? <==> if cmd.Submit? then !known else known && l.orders[cmd.id].req == NoStatus)
            && (i.Sent? ==>
                  && (cmd.Submit? ==> IsSubmission(cmd, now, i.request) && i.rejected == i.request.(req := Rejected))
                  && (!cmd.Submit? ==>
                        var was := l.orders[cmd.id];
                        && IsChange(cmd, now, was, i.request)
                        && i.rejected == i.request.(req := Rejected, tick := was.tick, qty := was.qty))
                  && i.l == l.(orders := l.orders[cmd.id := i.request]))
  {
  }

  // ---------------------------------------------------------------- what was asked so far

  /** A submission of this id with this side, type and time in force, and a submission or modify with these terms. */
  ghost predicate WasAsked(past: seq<Move>, o: Order) {
    && (exists i :: 0 <= i < |past| && SubmitsLike(past[i], o))
    && (exists i :: 0 <= i < |past| && NamesTerms(past[i], o))
  }

  predicate SubmitsLike(m: Move, o: Order) {
    m.Command? && m.cmd.Submit? && m.cmd.id == o.id
    && m.cmd.side == o.side && m.cmd.ordType == o.ordType && m.cmd.tif == o.tif
  }

  predicate NamesTerms(m: Move, o: Order) {
    m.Command? && !m.cmd.Cancel? && m.cmd.id == o.id && m.cmd.tick == o.tick && m.cmd.qty == o.qty
  }

  /** The two orders are the same to the strategy. */
  predicate SameAsked(a: Order, b: Order) {
    a.id == b.id && a.side == b.side && a.ordType == b.ordType && a.tif == b.tif && a.tick == b.tick && a.qty == b.qty
  }

  lemma AskedLike(past: seq<Move>, a: Order, b: Order)
    requires WasAsked(past, a) && SameAsked(a, b)
    ensures WasAsked(past, b)
  {
    var i :| 0 <= i < |past| && SubmitsLike(past[i], a);
    var j :| 0 <= j < |past| && NamesTerms(past[j], a);
    assert SubmitsLike(past[i], b) && NamesTerms(past[j], b);
  }

  lemma AskedLonger(past: seq<Move>, m: Move, o: Order)
    requires WasAsked(past, o)
    ensures WasAsked(past + [m], o)
  {
    var i :| 0 <= i < |past| && SubmitsLike(past[i], o);
    var j :| 0 <= j < |past| && NamesTerms(past[j], o);
    assert (past + [m])[i] == past[i] && (past + [m])[j] == past[j];
  }

  /** The side, type and time in force of one order with the terms of another, all of one id. */
  predicate Mixes(a: Order, b: Order, o: Order) {
    && a.id == b.id == o.id && a.side == o.side && a.ordType == o.ordType && a.tif == o.tif
    && b.tick == o.tick && b.qty == o.qty
  }

  lemma AskedMixed(past: seq<Move>, a: Order, b: Order, o: Order)
    requires WasAsked(past, a) && WasAsked(past, b) && Mixes(a, b, o)
    ensures WasAsked(past, o)
  {
    var i :| 0 <= i < |past| && SubmitsLike(past[i], a);
    var j :| 0 <= j < |past| && NamesTerms(past[j], b);
    assert SubmitsLike(past[i], o) && NamesTerms(past[j], o);
  }

  ghost predicate AllAsked(past: seq<Move>, os: seq<Order>) {
    forall o :: o in os ==> WasAsked(past, o)
  }

  ghost predicate LocalAsked(past: seq<Move>, l: Local) {
    forall id :: id in l.orders ==> l.orders[id].id == id && WasAsked(past, l.orders[id])
  }

  ghost predicate ExchAsked(past: seq<Move>, x: Exch) {
    forall id :: id in x.orders ==> x.orders[id].o.id == id && WasAsked(past, x.orders[id].o)
  }

  /** Every order anywhere in the system. */
  ghost predicate SysAsked(past: seq<Move>, y: Sys) {
    && LocalAsked(past, y.local) && ExchAsked(past, y.exch)
    && AllAsked(past, Orders(y.buses.toExch)) && AllAsked(past, Orders(y.buses.toLocal))
  }

  lemma SysAskedLonger(past: seq<Move>, m: Move, y: Sys)
    requires SysAsked(past, y)
    ensures SysAsked(past + [m], y)
  {
    forall o | WasAsked(past, o) ensures WasAsked(past + [m], o) {
      AskedLonger(past, m, o);
    }
  }

  // ---------------------------------------------------------------- each step

  lemma SendAsked(past: seq<Move>, lm: Latency, b: Buses, request: Order, rejected: Order)
    requires AllAsked(past, Orders(b.toExch)) && AllAsked(past, Orders(b.toLocal))
    requires WasAsked(past, request) && WasAsked(past, rejected)
    ensures var z := Send(lm, b, request, rejected);
            AllAsked(past, Orders(z.toExch)) && AllAsked(past, Orders(z.toLocal))
  {
    var lat := lm.entry(request.localTs, request);
    assert Orders(Append(b.toLocal, rejected, request.localTs - lat)) == Orders(b.toLocal) + [rejected];
    assert Orders(Append(b.toExch, request, request.localTs + lat)) == Orders(b.toExch) + [request];
  }

  lemma CommandAsked(s: Setup, past: seq<Move>, y: Sys, m: Move)
    requires SysAsked(past, y) && m.Command? && Issue(y.local, m.cmd, m.now).Sent?
    ensures SysAsked(past + [m], Next(s, y, m))
  {
    var now, i := past + [m], Issue(y.local, m.cmd, m.now);
    SysAskedLonger(past, m, y);
    CommandCarries(y.local, m.cmd, m.now);
    if i.Sent? {
      assert now[|past|] == m;
      if m.cmd.Submit? {
        assert SubmitsLike(m, i.request) && NamesTerms(m, i.request);
        AskedLike(now, i.request, i.rejected);
      } else {
        var was := y.local.orders[m.cmd.id];
        ChangeAsked(past, m, was, i.request);
        AskedLike(now, was, i.rejected);
      }
      SendAsked(now, s.lm, y.buses, i.request, i.rejected);
    }
  }

  lemma ChangeAsked(past: seq<Move>, m: Move, was: Order, o: Order)
    requires m.Command? && WasAsked(past + [m], was) && was.id == m.cmd.id && IsChange(m.cmd, m.now, was, o)
    ensures WasAsked(past + [m], o)
  {
    var now := past + [m];
    if m.cmd.Modify? {
      var i :| 0 <= i < |now| && SubmitsLike(now[i], was);
      assert SubmitsLike(now[i], o);
      assert now[|past|] == m && NamesTerms(m, o);
    } else {
      AskedLike(now, was, o);
    }
  }

  lemma ReceiveAsked(past: seq<Move>, acct: Accounting, l: Local, o: Order)
    requires LocalAsked(past, l) && WasAsked(past, o)
    ensures LocalAsked(past, Receive(acct, l, o))
  {
    var now := Take(Find(l.orders, o.id), o);
    if now.Some? {
      AskedLike(past, if o.req != Rejected then o else l.orders[o.id], now.value);
    }
  }

  lemma TouchSameAsked(c: Config, r: Resting, why: Trigger, ts: int)
    ensures var t := Touch(c, r, why, ts);
            SameAsked(r.o, t.r.o) && forall o :: o in t.reports ==> SameAsked(r.o, o)
  {
  }

  lemma {:induction false} ReportsAsked(
    past: seq<Move>, c: Config, orders: map<OrderId, Resting>, ids: seq<OrderId>, why: Trigger, ts: int)
    requires forall id :: id in orders ==> WasAsked(past, orders[id].o)
    ensures AllAsked(past, Reports(c, orders, ids, why, ts))
  {
    if ids != [] {
      ReportsAsked(past, c, orders, ids[1..], why, ts);
      if ids[0] in orders {
        var r := orders[ids[0]];
        TouchSameAsked(c, r, why, ts);
        forall o | o in Touch(c, r, why, ts).reports ensures WasAsked(past, o) {
          AskedLike(past, r.o, o);
        }
      }
    }
  }

  lemma SweepAsked(past: seq<Move>, c: Config, x: Exch, ids: seq<OrderId>, why: Trigger, ts: int)
    requires ExchAsked(past, x)
    ensures var (z, out) := Sweep(c, x, ids, why, ts); ExchAsked(past, z) && AllAsked(past, out)
  {
    ReportsAsked(past, c, x.orders, ids, why, ts);
    var z := Swept(c, x.orders, ids, why, ts);
    forall id | id in z ensures z[id].o.id == id && WasAsked(past, z[id].o) {
      TouchSameAsked(c, x.orders[id], why, ts);
      AskedLike(past, x.orders[id].o, z[id].o);
    }
  }

  lemma FeedAsked(past: seq<Move>, c: Config, x: Exch, k: EventKind, ts: int, ids: seq<OrderId>)
    requires ExchAsked(past, x)
    ensures var (z, out) := Feed(c, x, k, ts, ids); ExchAsked(past, z) && AllAsked(past, out)
  {
    AbsorbKeepsOrders(c, x, k);
    if ScanOf(x, k).Scan? {
      SweepAsked(past, c, Absorb(c, x, k), ids, ScanOf(x, k).why, ts);
    }
  }

  /** The answer to a request carries its terms or those of the order that rested. */
  lemma AnswerTells(c: Config, x: Exch, request: Order, ts: int)
    ensures var reply, id := Handle(c, x, request, ts).reply, request.id;
            SameAsked(request, reply) || (id in x.orders && SameAsked(x.orders[id].o, reply))
  {
  }

  /** What rests after a request, under its id, rested before, is the request, or is what rested with its terms. */
  lemma AnswerRests(c: Config, x: Exch, request: Order, ts: int)
    requires Filed(x) && request.id in Handle(c, x, request, ts).x.orders
    ensures var id, r := request.id, Handle(c, x, request, ts).x.orders[request.id];
            || SameAsked(request, r.o)
            || (id in x.orders && (r == x.orders[id] || Mixes(x.orders[id].o, request, r.o)))
  {
  }

  lemma HandleAsked(past: seq<Move>, c: Config, x: Exch, request: Order, ts: int)
    requires ExchAsked(past, x) && WasAsked(past, request)
    ensures var a := Handle(c, x, request, ts); ExchAsked(past, a.x) && WasAsked(past, a.reply)
  {
    var a, id := Handle(c, x, request, ts), request.id;
    AnswerTells(c, x, request, ts);
    AskedLike(past, if SameAsked(request, a.reply) then request else x.orders[id].o, a.reply);
    RequestKeepsFiled(c, x, request, ts);
    forall i | i in a.x.orders ensures a.x.orders[i].o.id == i && WasAsked(past, a.x.orders[i].o) {
      if i == id {
        RestsAsked(past, c, x, request, ts);
      } else {
        OthersUntouched(c, x, request, ts, i);
      }
    }
  }

  lemma RestsAsked(past: seq<Move>, c: Config, x: Exch, request: Order, ts: int)
    requires ExchAsked(past, x) && WasAsked(past, request) && request.id in Handle(c, x, request, ts).x.orders
    ensures WasAsked(past, Handle(c, x, request, ts).x.orders[request.id].o)
  {
    var r := Handle(c, x, request, ts).x.orders[request.id];
    AnswerRests(c, x, request, ts);
    if SameAsked(request, r.o) {
      AskedLike(past, request, r.o);
    } else if r != x.orders[request.id] {
      AskedMixed(past, x.orders[request.id].o, request, r.o);
    }
  }

  lemma ExchReceiveAsked(s: Setup, past: seq<Move>, y: Sys, ts: int)
    requires SysAsked(past, y)
    ensures SysAsked(past, Next(s, y, ExchReceive(ts)))
  {
    if y.buses.toExch != [] {
      var o := y.buses.toExch[0].order;
      var a := Handle(s.c, y.exch, o, ts);
      assert Orders(y.buses.toExch)[0] == o && Orders(y.buses.toExch)[1..] == Orders(y.buses.toExch[1..]);
      HandleAsked(past, s.c, y.exch, o, ts);
      assert Orders(Respond(s.lm, y.buses.toLocal, a.reply)) == Orders(y.buses.toLocal) + [a.reply];
    }
  }

  lemma LocalReceiveAsked(s: Setup, past: seq<Move>, y: Sys)
    requires SysAsked(past, y)
    ensures SysAsked(past, Next(s, y, LocalReceive))
  {
    if y.buses.toLocal != [] {
      var o := y.buses.toLocal[0].order;
      assert Orders(y.buses.toLocal)[0] == o && Orders(y.buses.toLocal)[1..] == Orders(y.buses.toLocal[1..]);
      ReceiveAsked(past, s.c.acct, y.local, o);
    }
  }

  lemma ExchRowAsked(s: Setup, past: seq<Move>, y: Sys, k: EventKind, ts: int, ids: seq<OrderId>)
    requires SysAsked(past, y)
    ensures SysAsked(past, Next(s, y, ExchRow(k, ts, ids)))
  {
    FeedAsked(past, s.c, y.exch, k, ts, ids);
    RespondAllOrders(s.lm, y.buses.toLocal, Feed(s.c, y.exch, k, ts, ids).1);
  }

  /** The command, if it is not refused. */
  function SentBy(y: Sys, m: Move): seq<Move> {
    if m.Command? && Issue(y.local, m.cmd, m.now).Sent? then [m] else []
  }

  lemma StepAsked(s: Setup, past: seq<Move>, y: Sys, m: Move)
    requires SysAsked(past, y)
    ensures SysAsked(past + SentBy(y, m), Next(s, y, m))
  {
    assert past + [] == past;
    match m
    case Command(cmd, now) => if SentBy(y, m) != [] { CommandAsked(s, past, y, m); }
    case ExchRow(k, ts, ids) => ExchRowAsked(s, past, y, k, ts, ids);
    case LocalReceive => LocalReceiveAsked(s, past, y);
    case ExchReceive(ts) => ExchReceiveAsked(s, past, y, ts);
    case _ =>
  }

  // ---------------------------------------------------------------- whole runs

  /** The commands of a run that are not refused, in order. */
  function SentIn(s: Setup, y: Sys, ms: seq<Move>): seq<Move>
    decreases |ms|
  {
    if ms == [] then [] else SentBy(y, ms[0]) + SentIn(s, Next(s, y, ms[0]), ms[1..])
  }

  lemma {:induction false} RunAsked(s: Setup, past: seq<Move>, y: Sys, ms: seq<Move>)
    requires SysAsked(past, y)
    ensures SysAsked(past + SentIn(s, y, ms), RunMoves(s, y, ms))
    decreases |ms|
  {
    if ms == [] {
      assert past + [] == past;
    } else {
      var sent, rest := SentBy(y, ms[0]), SentIn(s, Next(s, y, ms[0]), ms[1..]);
      StepAsked(s, past, y, ms[0]);
      RunAsked(s, past + sent, Next(s, y, ms[0]), ms[1..]);
      assert past + sent + rest == past + (sent + rest);
    }
  }

  /**
    * Over every run at all, reused ids, refusals and partial fills included: every order the local side records, every
    * order resting, and every request, reply and execution report under way has the side, type and time in force of an
    * accepted submission of its id in the run, and the price and quantity of an accepted submission or modify of it.
    */
  lemma EverythingIsAsked(s: Setup, y: Sys, ms: seq<Move>)
    requires Initial(y)
    ensures SysAsked(SentIn(s, y, ms), RunMoves(s, y, ms))
  {
    assert Orders(y.buses.toExch) == [] && Orders(y.buses.toLocal) == [];
    RunAsked(s, [], y, ms);
    assert [] + SentIn(s, y, ms) == SentIn(s, y, ms);
  }

  lemma {:induction false} SentAreMoves(s: Setup, y: Sys, ms: seq<Move>)
    ensures forall m :: m in SentIn(s, y, ms) ==> m in ms
    decreases |ms|
  {
    if ms != [] {
      SentAreMoves(s, Next(s, y, ms[0]), ms[1..]);
    }
  }

  lemma {:induction false} FreshSubmits(s: Setup, y: Sys, used: set<OrderId>, ms: seq<Move>, i: nat)
    requires FreshRun(s, y, used, ms) && i < |ms| && ms[i].Command? && ms[i].cmd.Submit?
    ensures ms[i].cmd.id !in used
    decreases |ms|
  {
    if i > 0 {
      FreshSubmits(s, Next(s, y, ms[0]), Used(used, ms[0]), ms[1..], i - 1);
    }
  }

  lemma {:induction false} SubmittedOnce(s: Setup, y: Sys, used: set<OrderId>, ms: seq<Move>, i: nat, j: nat)
    requires FreshRun(s, y, used, ms) && i < j < |ms|
    requires ms[i].Command? && ms[i].cmd.Submit? && ms[j].Command? && ms[j].cmd.Submit?
    ensures ms[i].cmd.id != ms[j].cmd.id
    decreases |ms|
  {
    if i == 0 {
      FreshSubmits(s, Next(s, y, ms[0]), Used(used, ms[0]), ms[1..], j - 1);
    } else {
      SubmittedOnce(s, Next(s, y, ms[0]), Used(used, ms[0]), ms[1..], i - 1, j - 1);
    }
  }

  /** With fresh ids there is one submission of the id, and all that ever becomes of it is like it. */
  lemma LikeItsSubmission(s: Setup, y: Sys, ms: seq<Move>, i: nat, o: Order)
    requires FreshRun(s, y, {}, ms) && WasAsked(SentIn(s, y, ms), o)
    requires i < |ms| && ms[i].Command? && ms[i].cmd.Submit? && ms[i].cmd.id == o.id
    ensures SubmitsLike(ms[i], o)
  {
    var sent := SentIn(s, y, ms);
    var k :| 0 <= k < |sent| && SubmitsLike(sent[k], o);
    SentAreMoves(s, y, ms);
    assert sent[k] in sent;
    var j :| 0 <= j < |ms| && ms[j] == sent[k];
    if i < j {
      SubmittedOnce(s, y, {}, ms, i, j);
    } else if j < i {
      SubmittedOnce(s, y, {}, ms, j, i);
    }
  }
}
