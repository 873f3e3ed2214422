/** Both sides keep their own account of the fills; this is why they agree. */
module AccountAgreement {
  import opened Core
  import opened Exchange
  import opened ExchangeLaws
  import opened OrderBus
  import opened LocalSide
  import opened Protocol

  // ---------------------------------------------------------------- one request

  /** The exchange will answer without executing, handing the request's own status back. */
  predicate Bounces(x: Exch, request: Order) {
    match request.req
    case New => request.id in x.orders
    case Canceled => request.id !in x.orders
    case Replaced => request.id !in x.orders
    case _ => true
  }

  /**
    * A request that already claims a fill is booked once too often by the reply: when it bounces, or
    * when it claims to be completely filled and reaches the matching step.
    */
  predicate BooksTwice(x: Exch, request: Order) {
    && request.ReportsFill()
    && (|| Bounces(x, request)
        || (request.status == Filled && WouldTake(x.book, request)
            && (request.req == New
                || (request.req == Replaced && Resubmits(x.orders[request.id].o, request)))))
  }

  /** The request reaches the matching step and is executed there. */
  predicate Executes(x: Exch, request: Order) {
    && !request.Terminal() && WouldTake(x.book, request)
    && (|| (request.req == New && request.id !in x.orders)
        || (request.req == Replaced && request.id in x.orders && Resubmits(x.orders[request.id].o, request)))
  }

  lemma NewBooks(c: Config, x: Exch, request: Order, ts: int)
    requires request.id !in x.orders
    ensures var a := AckNew(c, x, request, ts);
            if WouldTake(x.book, request) && !request.Terminal()
            then a.x.sv == c.acct.ApplyFill(x.sv, a.reply) && a.reply.ReportsFill()
            else a.x.sv == x.sv && (a.reply.ReportsFill() <==> request.status == Filled && WouldTake(x.book, request))
  {
  }

  /** What a request does to the exchange's account, and whether its reply reports a fill. */
  lemma HandleBooks(c: Config, x: Exch, request: Order, ts: int)
    requires request.id in x.orders ==> x.orders[request.id].o.id == request.id
    ensures var a := Handle(c, x, request, ts);
            if Executes(x, request) then a.x.sv == c.acct.ApplyFill(x.sv, a.reply) && a.reply.ReportsFill()
            else a.x.sv == x.sv && (a.reply.ReportsFill() <==> BooksTwice(x, request))
  {
    if request.id !in x.orders {
      NewBooks(c, x, request, ts);
    } else {
      NewBooks(c, AckCancel(x, request, ts).x, request, ts);
    }
  }

  lemma BookingMoves(acct: Accounting, sv: StateValues, o: Order)
    ensures sv.Plus(acct.Booking(o)) == (if o.ReportsFill() then acct.ApplyFill(sv, o) else sv)
    ensures sv.Plus(acct.Booking(o)) == sv <==> !o.ReportsFill()
  {
  }

  /** Answering a request books the same on both sides if and only if the request is not of that kind. */
  lemma RequestBooksIff(c: Config, x: Exch, request: Order, ts: int)
    requires request.id in x.orders ==> x.orders[request.id].o.id == request.id
    ensures var a := Handle(c, x, request, ts);
            a.x.sv == x.sv.Plus(c.acct.Total([a.reply])) <==> !BooksTwice(x, request)
  {
    var reply := Handle(c, x, request, ts).reply;
    c.acct.TotalOne(reply);
    HandleBooks(c, x, request, ts);
    BookingMoves(c.acct, x.sv, reply);
  }

  // ---------------------------------------------------------------- the difference between the accounts

  /** The local account once it has taken in everything on its way. */
  function Settled(s: Setup, y: Sys): StateValues {
    y.local.sv.Plus(s.c.acct.Total(Orders(y.buses.toLocal)))
  }

  /** The message this move puts on the reply bus although the exchange has not executed what it reports, if any. */
  function Spurious(s: Setup, y: Sys, m: Move): Option<Order> {
    if m.Command? && Issue(y.local, m.cmd, m.now).Sent? then
      var i := Issue(y.local, m.cmd, m.now);
      if s.lm.entry(i.request.localTs, i.request) < 0 && i.rejected.ReportsFill() then Some(i.rejected) else None
    else if m.ExchReceive? && y.buses.toExch != [] && BooksTwice(y.exch, y.buses.toExch[0].order) then
      Some(Handle(s.c, y.exch, y.buses.toExch[0].order, m.ts).reply)
    else None
  }

  function Extra(s: Setup, y: Sys, m: Move): seq<Order> {
    if Spurious(s, y, m).Some? then [Spurious(s, y, m).value] else []
  }

  /** The spurious messages of a run, in order. */
  function SpuriousIn(s: Setup, y: Sys, ms: seq<Move>): seq<Order>
    decreases |ms|
  {
    if ms == [] then []
    else Extra(s, y, ms[0]) + SpuriousIn(s, Next(s, y, ms[0]), ms[1..])
  }

  lemma RowBooksReports(c: Config, x: Exch, k: EventKind, ts: int, ids: seq<OrderId>)
    ensures var (y, out) := Feed(c, x, k, ts, ids); y.sv == x.sv.Plus(c.acct.Total(out))
  {
    var m, s := Absorb(c, x, k), ScanOf(x, k);
    if s.Scan? {
      ReportsFillsOnly(c, m.orders, ids, s.why, ts);
      ApplyFillsTotal(c.acct, m.sv, Reports(c, m.orders, ids, s.why, ts));
    } else {
      PlusLaws(x.sv, ZERO_VALUES);
    }
  }

  /** Queueing messages adds their bookings to what the local account will settle at. */
  lemma QueuedSettles(acct: Accounting, local: StateValues, bus: seq<Order>, more: seq<Order>, after: seq<Order>)
    requires after == bus + more
    ensures local.Plus(acct.Total(after)) == local.Plus(acct.Total(bus)).Plus(acct.Total(more))
  {
    var b, m := acct.Total(bus), acct.Total(more);
    acct.TotalConcat(bus, more);
    assert acct.Total(after) == b.Plus(m);
    PlusAssociates(local, b, m);
  }

  /** Taking in the oldest message does not change what the local account will settle at. */
  lemma TakenSettles(acct: Accounting, local: StateValues, bus: seq<Order>)
    requires bus != []
    ensures local.Plus(acct.Booking(bus[0])).Plus(acct.Total(bus[1..])) == local.Plus(acct.Total(bus))
  {
    var b, t := acct.Booking(bus[0]), acct.Total(bus[1..]);
    assert acct.Total(bus) == b.Plus(t);
    PlusAssociates(local, b, t);
  }

  /** Both sides take on `t`, or only the settled account takes on `e`. */
  lemma ApartAfter(exch: StateValues, apart: StateValues, t: StateValues)
    ensures exch.Plus(apart).Plus(t) == exch.Plus(t).Plus(apart.Plus(ZERO_VALUES))
    ensures exch.Plus(apart).Plus(t) == exch.Plus(apart.Plus(t))
  {
  }

  /** Where the settled account stands after a move: it has taken on the move's messages. */
  lemma MoveSettles(s: Setup, y: Sys, m: Move) returns (sent: seq<Order>)
    ensures Settled(s, Next(s, y, m)) == Settled(s, y).Plus(s.c.acct.Total(sent))
    ensures m.ExchRow? ==> sent == Feed(s.c, y.exch, m.k, m.ts, m.ids).1
    ensures m.ExchReceive? && y.buses.toExch != [] ==>
            sent == [Handle(s.c, y.exch, y.buses.toExch[0].order, m.ts).reply]
    ensures m.ExchReceive? && y.buses.toExch == [] ==> sent == []
    ensures !m.ExchRow? && !m.ExchReceive? ==> sent == Extra(s, y, m)
  {
    PlusLaws(Settled(s, y), ZERO_VALUES);
    sent := [];
    match m
    case Command(cmd, now) =>
      sent := Extra(s, y, m);
      CommandSettles(s, y, cmd, now);
    case LocalReceive => ReceiveSettles(s, y);
    case ExchRow(k, ts, ids) =>
      sent := Feed(s.c, y.exch, k, ts, ids).1;
      RespondAllOrders(s.lm, y.buses.toLocal, sent);
      QueuedSettles(s.c.acct, y.local.sv, Orders(y.buses.toLocal), sent,
                    Orders(RespondAll(s.lm, y.buses.toLocal, sent)));
    case ExchReceive(ts) =>
      if y.buses.toExch != [] {
        var reply := Handle(s.c, y.exch, y.buses.toExch[0].order, ts).reply;
        sent := [reply];
        var after := Orders(Respond(s.lm, y.buses.toLocal, reply));
        assert after == Orders(y.buses.toLocal) + sent;
        QueuedSettles(s.c.acct, y.local.sv, Orders(y.buses.toLocal), sent, after);
      }
    case _ =>
  }

  lemma RejectionSettles(s: Setup, y: Sys, rejected: Order, due: int)
    ensures y.local.sv.Plus(s.c.acct.Total(Orders(Append(y.buses.toLocal, rejected, due))))
         == Settled(s, y).Plus(s.c.acct.Total([rejected]))
  {
    var after := Orders(Append(y.buses.toLocal, rejected, due));
    assert after == Orders(y.buses.toLocal) + [rejected];
    QueuedSettles(s.c.acct, y.local.sv, Orders(y.buses.toLocal), [rejected], after);
  }

  /** A command puts at most its own rejection on the reply bus. */
  lemma CommandQueues(s: Setup, y: Sys, cmd: Command, now: int) returns (due: int)
    ensures var z, i := Next(s, y, Command(cmd, now)), Issue(y.local, cmd, now);
            var extra := Extra(s, y, Command(cmd, now));
            && z.local.sv == y.local.sv
            && if i.Sent? && s.lm.entry(i.request.localTs, i.request) < 0
               then z.buses.toLocal == Append(y.buses.toLocal, i.rejected, due)
                    && extra == if i.rejected.ReportsFill() then [i.rejected] else []
               else z.buses.toLocal == y.buses.toLocal && extra == []
  {
    var i := Issue(y.local, cmd, now);
    due := if i.Sent? then i.request.localTs - s.lm.entry(i.request.localTs, i.request) else 0;
  }

  lemma CommandSettles(s: Setup, y: Sys, cmd: Command, now: int)
    ensures var m := Command(cmd, now);
            Settled(s, Next(s, y, m)) == Settled(s, y).Plus(s.c.acct.Total(Extra(s, y, m)))
  {
    var i := Issue(y.local, cmd, now);
    var due := CommandQueues(s, y, cmd, now);
    if i.Sent? && s.lm.entry(i.request.localTs, i.request) < 0 {
      RejectionSettles(s, y, i.rejected, due);
      UnfilledBooksNothing(s.c.acct, i.rejected);
    } else {
      PlusLaws(Settled(s, y), ZERO_VALUES);
    }
  }

  lemma UnfilledBooksNothing(acct: Accounting, o: Order)
    ensures !o.ReportsFill() ==> acct.Total([o]) == acct.Total([])
  {
    acct.TotalOne(o);
  }

  lemma ReceiveSettles(s: Setup, y: Sys)
    ensures Settled(s, Next(s, y, LocalReceive)) == Settled(s, y)
  {
    if y.buses.toLocal != [] {
      var bus := Orders(y.buses.toLocal);
      assert bus[1..] == Orders(y.buses.toLocal[1..]);
      PlusLaws(y.local.sv, ZERO_VALUES);
      TakenSettles(s.c.acct, y.local.sv, bus);
    }
  }

  /** What the exchange books on a move: all that it sends, or nothing where that is spurious. */
  lemma ExchangeBooks(s: Setup, y: Sys, m: Move, sent: seq<Order>)
    requires Filed(y.exch)
    requires m.ExchRow? ==> sent == Feed(s.c, y.exch, m.k, m.ts, m.ids).1
    requires m.ExchReceive? && y.buses.toExch != [] ==>
            sent == [Handle(s.c, y.exch, y.buses.toExch[0].order, m.ts).reply]
    requires m.ExchReceive? && y.buses.toExch == [] ==> sent == []
    requires !m.ExchRow? && !m.ExchReceive? ==> sent == Extra(s, y, m)
    ensures var z := Next(s, y, m);
            || (Extra(s, y, m) == [] && z.exch.sv == y.exch.sv.Plus(s.c.acct.Total(sent)))
            || (Extra(s, y, m) == sent && z.exch.sv == y.exch.sv)
  {
    PlusLaws(y.exch.sv, ZERO_VALUES);
    if m.ExchRow? {
      RowBooksReports(s.c, y.exch, m.k, m.ts, m.ids);
    } else if m.ExchReceive? && y.buses.toExch != [] {
      var request := y.buses.toExch[0].order;
      HandleBooks(s.c, y.exch, request, m.ts);
      RequestBooksIff(s.c, y.exch, request, m.ts);
    }
  }

  lemma MoveKeepsFiled(s: Setup, y: Sys, m: Move)
    requires Filed(y.exch)
    ensures Filed(Next(s, y, m).exch)
  {
    if m.ExchRow? {
      RowKeepsFiled(s.c, y.exch, m.k, m.ts, m.ids);
    } else if m.ExchReceive? && y.buses.toExch != [] {
      RequestKeepsFiled(s.c, y.exch, y.buses.toExch[0].order, m.ts);
    }
  }

  /** One move: the exchange books what the move sends, except a spurious message. */
  lemma MoveBooks(s: Setup, y: Sys, m: Move, apart: StateValues)
    requires Filed(y.exch) && Settled(s, y) == y.exch.sv.Plus(apart)
    ensures var z := Next(s, y, m);
            Settled(s, z) == z.exch.sv.Plus(apart.Plus(s.c.acct.Total(Extra(s, y, m))))
  {
    var sent := MoveSettles(s, y, m);
    ExchangeBooks(s, y, m, sent);
    ApartAfter(y.exch.sv, apart, s.c.acct.Total(sent));
    assert s.c.acct.Total([]) == ZERO_VALUES;
  }

  lemma {:induction false} RunBooks(s: Setup, y: Sys, ms: seq<Move>, apart: StateValues)
    requires Filed(y.exch) && Settled(s, y) == y.exch.sv.Plus(apart)
    ensures var z := RunMoves(s, y, ms);
            Settled(s, z) == z.exch.sv.Plus(apart.Plus(s.c.acct.Total(SpuriousIn(s, y, ms))))
    decreases |ms|
  {
    if ms == [] {
      PlusLaws(apart, ZERO_VALUES);
    } else {
      var extra := Extra(s, y, ms[0]);
      var rest := SpuriousIn(s, Next(s, y, ms[0]), ms[1..]);
      var e, r := s.c.acct.Total(extra), s.c.acct.Total(rest);
      MoveBooks(s, y, ms[0], apart);
      MoveKeepsFiled(s, y, ms[0]);
      RunBooks(s, Next(s, y, ms[0]), ms[1..], apart.Plus(e));
      s.c.acct.TotalConcat(extra, rest);
      PlusAssociates(apart, e, r);
    }
  }

  lemma SpuriousReportsFill(s: Setup, y: Sys, m: Move)
    requires Spurious(s, y, m).Some?
    ensures Spurious(s, y, m).value.ReportsFill()
  {
  }

  lemma {:induction false} SpuriousInReportFills(s: Setup, y: Sys, ms: seq<Move>)
    ensures forall o :: o in SpuriousIn(s, y, ms) ==> o.ReportsFill()
    decreases |ms|
  {
    if ms != [] {
      SpuriousInReportFills(s, Next(s, y, ms[0]), ms[1..]);
      if Spurious(s, y, ms[0]).Some? {
        SpuriousReportsFill(s, y, ms[0]);
      }
    }
  }

  lemma {:induction false} FillsCount(acct: Accounting, msgs: seq<Order>)
    requires forall o :: o in msgs ==> o.ReportsFill()
    ensures acct.Total(msgs).numTrades == |msgs|
  {
    if msgs != [] {
      assert msgs[0] in msgs;
      FillsCount(acct, msgs[1..]);
      acct.BookingCounts(msgs[0]);
      PlusCounts(acct.Booking(msgs[0]), acct.Total(msgs[1..]));
    }
  }

  /**
    * Over every run at all, partial fills and rejections included, the local account plus the messages on their
    * way to it is the exchange's account plus the bookings of the spurious messages; so the accounts agree if
    * and only if there was none.
    */
  lemma AccountsDiffer(s: Setup, y: Sys, ms: seq<Move>)
    requires Filed(y.exch) && Settled(s, y) == y.exch.sv
    ensures var z, extra := RunMoves(s, y, ms), SpuriousIn(s, y, ms);
            && Settled(s, z) == z.exch.sv.Plus(s.c.acct.Total(extra))
            && (Settled(s, z) == z.exch.sv <==> extra == [])
  {
    var z, extra := RunMoves(s, y, ms), SpuriousIn(s, y, ms);
    var e := s.c.acct.Total(extra);
    PlusLaws(y.exch.sv, ZERO_VALUES);
    RunBooks(s, y, ms, ZERO_VALUES);
    PlusLaws(e, ZERO_VALUES);
    SpuriousInReportFills(s, y, ms);
    FillsCount(s.c.acct, extra);
    PlusCounts(z.exch.sv, e);
    PlusLaws(z.exch.sv, ZERO_VALUES);
  }

  // ---------------------------------------------------------------- runs that agree

  predicate Unfilled(o: Order) {
    o.status == NoStatus || o.status == New
  }

  /** Filed under their ids, and none partially filled. */
  ghost predicate NewOnly(orders: map<OrderId, Resting>) {
    forall id :: id in orders ==> orders[id].o.status == New && orders[id].o.id == id
  }

  /** No request claims a fill, and nothing anywhere is partially filled. */
  ghost predicate Clean(y: Sys) {
    && (forall m :: m in y.buses.toExch ==> Unfilled(m.order))
    && (forall m :: m in y.buses.toLocal ==> m.order.status != PartiallyFilled)
    && (forall id :: id in y.local.orders ==> y.local.orders[id].status != PartiallyFilled)
    && NewOnly(y.exch.orders)
  }

  /** The strategy asks to change only cancellable orders. Ids may be reused and requests may be rejected en route. */
  ghost predicate Careful(y: Sys, m: Move) {
    match m
    case Command(cmd, _) => !cmd.Submit? && cmd.id in y.local.orders ==> y.local.orders[cmd.id].Cancellable()
    case _ => true
  }

  /** The request and its possible rejection are fresh or were live: neither reports a fill. */
  lemma CarefulRequests(y: Sys, cmd: Command, now: int)
    requires Clean(y) && Careful(y, Command(cmd, now)) && Issue(y.local, cmd, now).Sent?
    ensures var i := Issue(y.local, cmd, now);
            && Unfilled(i.request) && Unfilled(i.rejected)
            && forall id :: id in i.l.orders ==> i.l.orders[id].status != PartiallyFilled
  {
  }

  lemma SentIsClean(lm: Latency, b: Buses, request: Order, rejected: Order)
    requires Unfilled(request) && Unfilled(rejected)
    requires forall m :: m in b.toExch ==> Unfilled(m.order)
    requires forall m :: m in b.toLocal ==> m.order.status != PartiallyFilled
    ensures var z := Send(lm, b, request, rejected);
            && (forall m :: m in z.toExch ==> Unfilled(m.order))
            && (forall m :: m in z.toLocal ==> m.order.status != PartiallyFilled)
  {
  }

  lemma ReceiveUnpartial(acct: Accounting, l: Local, o: Order)
    requires o.status != PartiallyFilled
    requires forall id :: id in l.orders ==> l.orders[id].status != PartiallyFilled
    ensures var z := Receive(acct, l, o);
            forall id :: id in z.orders ==> z.orders[id].status != PartiallyFilled
  {
  }

  lemma AckNewUnfilled(c: Config, x: Exch, request: Order, ts: int)
    requires Unfilled(request) && NewOnly(x.orders)
    ensures var a := AckNew(c, x, request, ts); a.reply.status != PartiallyFilled && NewOnly(a.x.orders)
  {
  }

  lemma AckCancelUnfilled(x: Exch, request: Order, ts: int)
    requires Unfilled(request) && NewOnly(x.orders)
    ensures var a := AckCancel(x, request, ts); a.reply.status != PartiallyFilled && NewOnly(a.x.orders)
  {
  }

  /** Handling an unfilled request without partial fills: no partial execution anywhere. */
  lemma HandleUnfilled(c: Config, x: Exch, request: Order, ts: int)
    requires Unfilled(request) && NewOnly(x.orders)
    ensures var a := Handle(c, x, request, ts); a.reply.status != PartiallyFilled && NewOnly(a.x.orders)
  {
    AckNewUnfilled(c, x, request, ts);
    AckCancelUnfilled(x, request, ts);
    AckNewUnfilled(c, AckCancel(x, request, ts).x, request, ts);
  }

  lemma FeedReportsFilled(c: Config, x: Exch, k: EventKind, ts: int, ids: seq<OrderId>)
    requires !c.partial && NewOnly(x.orders)
    ensures var (z, out) := Feed(c, x, k, ts, ids); (forall o :: o in out ==> o.status == Filled) && NewOnly(z.orders)
  {
    AbsorbKeepsOrders(c, x, k);
    var m := Absorb(c, x, k);
    match ScanOf(x, k)
    case NoScan =>
    case Scan(_, _, _, why) => ReportsFilledOnly(c, m.orders, ids, why, ts);
  }

  lemma {:induction false} ReportsFilledOnly(
    c: Config, orders: map<OrderId, Resting>, ids: seq<OrderId>, why: Trigger, ts: int)
    requires !c.partial && forall id :: id in orders ==> orders[id].o.status == New
    ensures forall o :: o in Reports(c, orders, ids, why, ts) ==> o.status == Filled
  {
    if ids != [] {
      ReportsFilledOnly(c, orders, ids[1..], why, ts);
    }
  }

  lemma ReportedIsUnpartial(lm: Latency, bus: seq<Msg>, os: seq<Order>)
    requires forall m :: m in bus ==> m.order.status != PartiallyFilled
    requires forall o :: o in os ==> o.status != PartiallyFilled
    ensures forall m :: m in RespondAll(lm, bus, os) ==> m.order.status != PartiallyFilled
  {
    var after := RespondAll(lm, bus, os);
    RespondAllOrders(lm, bus, os);
    forall m | m in after ensures m.order.status != PartiallyFilled {
      var i :| 0 <= i < |after| && after[i] == m;
      assert m.order == Orders(after)[i];
    }
  }

  /** A careful move keeps the system clean and sends nothing spurious. */
  lemma StepKeepsClean(s: Setup, y: Sys, m: Move)
    requires Clean(y) && Careful(y, m) && !s.c.partial
    ensures Clean(Next(s, y, m)) && Spurious(s, y, m).None?
  {
    match m
    case Command(cmd, now) =>
      var i := Issue(y.local, cmd, now);
      if i.Sent? {
        CarefulRequests(y, cmd, now);
        SentIsClean(s.lm, y.buses, i.request, i.rejected);
      }
    case LocalReceive =>
      if y.buses.toLocal != [] {
        assert y.buses.toLocal[0] in y.buses.toLocal;
        ReceiveUnpartial(s.c.acct, y.local, y.buses.toLocal[0].order);
      }
    case ExchReceive(ts) =>
      if y.buses.toExch != [] {
        assert y.buses.toExch[0] in y.buses.toExch;
        HandleUnfilled(s.c, y.exch, y.buses.toExch[0].order, ts);
      }
    case ExchRow(k, ts, ids) =>
      FeedReportsFilled(s.c, y.exch, k, ts, ids);
      ReportedIsUnpartial(s.lm, y.buses.toLocal, Feed(s.c, y.exch, k, ts, ids).1);
    case LocalRow(k) =>
    case ClearInactiveOrders =>
  }

  ghost predicate CarefulRun(s: Setup, y: Sys, ms: seq<Move>)
    decreases |ms|
  {
    ms == [] || (Careful(y, ms[0]) && CarefulRun(s, Next(s, y, ms[0]), ms[1..]))
  }

  lemma {:induction false} RunKeepsClean(s: Setup, y: Sys, ms: seq<Move>)
    requires Clean(y) && CarefulRun(s, y, ms) && !s.c.partial
    ensures SpuriousIn(s, y, ms) == []
    decreases |ms|
  {
    if ms != [] {
      StepKeepsClean(s, y, ms[0]);
      RunKeepsClean(s, Next(s, y, ms[0]), ms[1..]);
    }
  }

  /**
    * Accounting agreement. Without partial fills and with requests only on cancellable orders, in every
    * reachable state the local account plus the fills still on the reply bus is the exchange's account;
    * so the two are equal whenever that bus is empty.
    */
  lemma AccountsAgree(s: Setup, y: Sys, ms: seq<Move>)
    requires Initial(y) && y.local.sv == y.exch.sv && CarefulRun(s, y, ms) && !s.c.partial
    ensures var z := RunMoves(s, y, ms);
            && z.exch.sv == z.local.sv.Plus(s.c.acct.Total(Orders(z.buses.toLocal)))
            && (z.buses.toLocal == [] ==> z.local.sv == z.exch.sv)
  {
    assert Orders(y.buses.toLocal) == [];
    PlusLaws(y.local.sv, ZERO_VALUES);
    RunKeepsClean(s, y, ms);
    AccountsDiffer(s, y, ms);
    var z := RunMoves(s, y, ms);
    PlusLaws(z.local.sv, ZERO_VALUES);
  }

  lemma FillCountsOnce(acct: Accounting, o: Order)
    requires o.ReportsFill()
    ensures acct.Total([o]).numTrades == 1
  {
  }

  /** With partial fills the agreement is lost: a late cancel of a partially filled order is booked again. */
  lemma PartialFillsBookTwice(c: Config, x: Exch, o: Order, ts: int)
    requires o.status == PartiallyFilled && o.req == Canceled && o.id !in x.orders
    ensures var a := Handle(c, x, o, ts);
            a.x.sv == x.sv && c.acct.Total([a.reply]).numTrades == 1
  {
    FillCountsOnce(c.acct, Handle(c, x, o, ts).reply);
  }
}
