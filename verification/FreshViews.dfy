/** With fresh ids the messages on their way tell the local side what rests, partial fills and all. */
module FreshViews {
  import opened Core
  import opened Exchange
  import opened OrderBus
  import opened LocalSide
  import opened Protocol
  import opened FreshIds

  // ---------------------------------------------------------------- folding replies

  lemma {:induction false} FoldSnoc(l: Option<Order>, p: seq<Order>, o: Order)
    ensures Fold(l, p + [o]) == Take(Fold(l, p), o)
    decreases |p|
  {
    if p == [] {
      assert [o][1..] == [];
      assert Fold(Take(l, o), []) == Take(l, o);
      assert [] + [o] == [o];
    } else {
      assert (p + [o])[1..] == p[1..] + [o];
      FoldSnoc(Take(l, p[0]), p[1..], o);
    }
  }

  predicate NotAsking(l: Option<Order>) {
    l.Some? ==> l.value.req != New
  }

  /** The same standing, and the same terms where `l'` starts with those of `l`. */
  predicate Alike(l: Option<Order>, l': Option<Order>, terms: bool) {
    l.Some? && l'.Some? && l.value.status == l'.value.status && (terms ==> SameTerms(l.value, l'.value))
  }

  lemma {:induction false} FoldAlike(l: Option<Order>, l': Option<Order>, p: seq<Order>, terms: bool)
    requires Alike(l, l', terms) && NotAsking(l) && NotAsking(l') && forall o :: o in p ==> o.req != New
    ensures Alike(Fold(l, p), Fold(l', p), terms) && NotAsking(Fold(l, p)) && NotAsking(Fold(l', p))
    decreases |p|
  {
    if p != [] {
      assert p[0] in p;
      FoldAlike(Take(l, p[0]), Take(l', p[0]), p[1..], terms);
    }
  }

  /** Forgetting an order does not change how the replies on their way leave it. */
  lemma {:induction false} FoldForgotten(l: Option<Order>, p: seq<Order>)
    requires l.Some? && NotAsking(l) && forall o :: o in p ==> o.req != New
    ensures Fold(None, p).Some? ==> Alike(Fold(l, p), Fold(None, p), false)
    decreases |p|
  {
    if p != [] {
      assert p[0] in p;
      if p[0].req == Rejected {
        FoldForgotten(Take(l, p[0]), p[1..]);
      } else {
        FoldAlike(Take(l, p[0]), Take(None, p[0]), p[1..], false);
      }
    }
  }

  /** Some reply under way will tell the local side the terms anew. */
  predicate HasNews(p: seq<Order>) {
    exists o :: o in p && o.req != Rejected
  }

  /** After news it does not matter which terms the local side started with. */
  lemma {:induction false} FoldNews(l: Option<Order>, l': Option<Order>, p: seq<Order>)
    requires Alike(l, l', false) && NotAsking(l) && NotAsking(l') && (forall o :: o in p ==> o.req != New) && HasNews(p)
    ensures Alike(Fold(l, p), Fold(l', p), true)
    decreases |p|
  {
    assert p[0] in p;
    if p[0].req != Rejected {
      FoldAlike(Take(l, p[0]), Take(l', p[0]), p[1..], true);
    } else {
      assert p == [p[0]] + p[1..];
      FoldNews(Take(l, p[0]), Take(l', p[0]), p[1..]);
    }
  }

  /** Without news the terms stay. */
  lemma {:induction false} FoldNoNews(l: Option<Order>, p: seq<Order>)
    requires l.Some? && !HasNews(p)
    ensures Fold(l, p).Some? && SameTerms(Fold(l, p).value, l.value)
    decreases |p|
  {
    if p != [] {
      assert p[0] in p;
      assert forall o :: o in p[1..] ==> o in p;
      FoldNoNews(Take(l, p[0]), p[1..]);
    }
  }

  // ---------------------------------------------------------------- one id

  /** Everything about a resting order is on its side of the market. */
  predicate OneSided(v: IdView) {
    v.x.Some? ==>
      && (v.l.Some? ==> v.l.value.side == v.x.value.side)
      && (forall o :: o in v.r ==> o.side == v.x.value.side)
      && (forall o :: o in v.p ==> o.side == v.x.value.side)
  }

  /** When nothing rests, or nothing is asked, the replies on their way tell the truth. */
  ghost predicate Informed(v: IdView) {
    && (v.x.None? || v.r == [] ==> Agrees(v))
    && OneSided(v)
    && (v.l.Some? && v.l.value.req == New ==> v.l.value.status == NoStatus)
  }

  lemma SubmitInforms(v: IdView, o: Order, rejected: Order)
    requires Unused(v) && o.req == New && o.status == NoStatus && rejected == o.(req := Rejected)
    ensures Informed(v.(l := Some(o), r := v.r + [o]))
    ensures Informed(v.(l := Some(o), p := v.p + [rejected]))
  {
    assert v.p + [rejected] == [rejected] && [rejected][1..] == [];
    assert Fold(Some(o), [rejected]) == Take(Some(o), rejected);
  }

  /** A request on the order of this id, whose own record it becomes. */
  predicate Asks(v: IdView, o: Order, rejected: Order) {
    && v.l.Some? && v.l.value.req == NoStatus && (o.req == Canceled || o.req == Replaced)
    && o.status == v.l.value.status && o.side == v.l.value.side
    && rejected.req == Rejected && rejected.side == o.side
  }

  lemma RequestInforms(id: OrderId, v: IdView, o: Order, rejected: Order)
    requires OnceOnly(id, v) && Informed(v) && Asks(v, o, rejected)
    ensures Informed(v.(l := Some(o), r := v.r + [o]))
  {
    FoldAlike(v.l, Some(o), v.p, false);
  }

  /** A request refused on its way would mislead nobody: it keeps the terms, or they will be told anew. */
  predicate Harmless(v: IdView, o: Order) {
    v.x.None? || v.r != [] || HasNews(v.p) || (v.l.Some? && SameTerms(v.l.value, o))
  }

  lemma RefusalInformsIff(id: OrderId, v: IdView, o: Order, rejected: Order)
    requires OnceOnly(id, v) && Informed(v) && Asks(v, o, rejected)
    ensures Informed(v.(l := Some(o), p := v.p + [rejected])) <==> Harmless(v, o)
  {
    FoldAlike(v.l, Some(o), v.p, false);
    FoldSnoc(Some(o), v.p, rejected);
    if HasNews(v.p) {
      FoldNews(v.l, Some(o), v.p);
    } else if v.x.Some? && v.r == [] {
      FoldNoNews(v.l, v.p);
      FoldNoNews(Some(o), v.p);
    }
  }

  lemma TakeInforms(id: OrderId, v: IdView)
    requires OnceOnly(id, v) && Informed(v) && v.p != []
    ensures Informed(v.(l := Take(v.l, v.p[0]), p := v.p[1..]))
  {
    assert v.p[0] in v.p;
  }

  lemma ClearInforms(id: OrderId, v: IdView)
    requires OnceOnly(id, v) && Informed(v)
    ensures Informed(v.(l := if v.l.Some? && v.l.value.Terminal() then None else v.l))
  {
    if v.l.Some? && v.l.value.Terminal() {
      FoldForgotten(v.l, v.p);
    }
  }

  lemma RowInforms(id: OrderId, v: IdView, x: Option<Order>, out: seq<Order>)
    requires OnceOnly(id, v) && Informed(v) && Fed(v.x, x, out)
    ensures Informed(v.(x := x, p := v.p + out))
  {
    if out == [] {
      assert v.p + out == v.p;
    } else {
      assert out == [out[0]];
      FoldSnoc(v.l, v.p, out[0]);
    }
  }

  lemma AskedInforms(c: Config, x: Exch, id: OrderId, v: IdView, ts: int)
    requires OnceOnly(id, v) && Asked(v) && v.x == RestingOrder(x, id)
    ensures Informed(Answered(v, id, AckNew(c, x, v.r[0], ts)))
  {
    FoldSnoc(v.l, v.p, AckNew(c, x, v.r[0], ts).reply);
  }

  lemma BounceInforms(x: Exch, id: OrderId, v: IdView, ts: int)
    requires OnceOnly(id, v) && Informed(v) && Seen(v) && v.r != [] && v.x == RestingOrder(x, id) == None
    ensures Informed(Answered(v, id, Reject(x, v.r[0], ts)))
  {
    FoldSnoc(v.l, v.p, Reject(x, v.r[0], ts).reply);
  }

  lemma CanceledInforms(x: Exch, id: OrderId, v: IdView, ts: int)
    requires OnceOnly(id, v) && Informed(v) && Seen(v) && v.r != [] && v.x == RestingOrder(x, id) && v.x.Some?
    ensures Informed(Answered(v, id, AckCancel(x, v.r[0], ts)))
  {
    assert v.r[0] in v.r;
    FoldSnoc(v.l, v.p, AckCancel(x, v.r[0], ts).reply);
  }

  /** The reply to a modify of a resting order carries what rests afterwards, or its end. */
  lemma ModifyTells(c: Config, x: Exch, request: Order, ts: int)
    requires request.id in x.orders && x.orders[request.id].o.id == request.id && request.req == Replaced
    requires request.side == x.orders[request.id].o.side && !request.Terminal()
    ensures var a := AckModify(c, x, request, ts);
            && a.reply.req != Rejected && a.reply.req != New
            && if request.id in a.x.orders
               then a.reply.Active() && SameTerms(a.reply, a.x.orders[request.id].o) && a.reply.side == request.side
               else !a.reply.Active()
  {
  }

  lemma ModifiedInforms(c: Config, x: Exch, id: OrderId, v: IdView, ts: int)
    requires OnceOnly(id, v) && Informed(v) && Seen(v) && v.r != [] && v.x == RestingOrder(x, id) && v.x.Some?
    requires v.r[0].req == Replaced
    ensures Informed(Answered(v, id, AckModify(c, x, v.r[0], ts)))
  {
    assert v.r[0] in v.r;
    ModifyTells(c, x, v.r[0], ts);
    FoldSnoc(v.l, v.p, AckModify(c, x, v.r[0], ts).reply);
  }

  lemma HandleInforms(c: Config, x: Exch, id: OrderId, v: IdView, ts: int)
    requires OnceOnly(id, v) && Informed(v) && v.r != [] && v.x == RestingOrder(x, id)
    ensures Informed(Answered(v, id, Handle(c, x, v.r[0], ts)))
  {
    assert v.r[0] in v.r;
    if Asked(v) {
      AskedInforms(c, x, id, v, ts);
    } else if v.x.None? {
      BounceInforms(x, id, v, ts);
    } else if v.r[0].req == Canceled {
      CanceledInforms(x, id, v, ts);
    } else {
      ModifiedInforms(c, x, id, v, ts);
    }
  }

  // ---------------------------------------------------------------- the system

  ghost predicate AllInformed(y: Sys) {
    forall id: OrderId :: Informed(View(y, id))
  }

  /**
    * A request refused on its way keeps the terms of its order, or comes when the order does not rest or the terms
    * are told anew by a reply under way or by the answer to an earlier request.
    */
  predicate Heard(s: Setup, y: Sys, m: Move) {
    m.Command? && !m.cmd.Submit? && Issue(y.local, m.cmd, m.now).Sent? ==>
      var request := Issue(y.local, m.cmd, m.now).request;
      s.lm.entry(m.now, request) >= 0 || Harmless(View(y, m.cmd.id), request)
  }

  lemma CommandKeepsInformed(s: Setup, y: Sys, used: set<OrderId>, m: Move, id: OrderId)
    requires AllOnce(y, used) && AllInformed(y) && m.Command? && UsesFreshIds(y, used, m)
    ensures Informed(View(Next(s, y, m), id)) <==> id != m.cmd.id || Heard(s, y, m)
  {
    var v, i := View(y, id), Issue(y.local, m.cmd, m.now);
    assert OnceOnly(id, v) && Informed(v);
    assert OnceOnly(m.cmd.id, View(y, m.cmd.id));
    CommandView(s, y, m.cmd, m.now, id);
    if i.Sent? && id == m.cmd.id {
      if m.cmd.Submit? {
        SubmitInforms(v, i.request, i.rejected);
      } else {
        RequestInforms(id, v, i.request, i.rejected);
        RefusalInformsIff(id, v, i.request, i.rejected);
      }
    }
  }

  lemma MoveKeepsInformed(s: Setup, y: Sys, used: set<OrderId>, m: Move, id: OrderId)
    requires AllOnce(y, used) && AllInformed(y) && !m.Command? && UsesFreshIds(y, used, m)
    ensures Informed(View(Next(s, y, m), id))
  {
    var v := View(y, id);
    assert OnceOnly(id, v) && Informed(v);
    RestsUnfinished(y, used);
    match m
    case ExchRow(k, ts, ids) =>
      ExchRowView(s, y, m, id);
      FeedOnOneId(s.c, y.exch, k, ts, ids, id);
      RowInforms(id, v, RestingOrder(Feed(s.c, y.exch, k, ts, ids).0, id), Mine(Feed(s.c, y.exch, k, ts, ids).1, id));
    case LocalReceive =>
      if y.buses.toLocal != [] {
        LocalReceiveView(s, y, id);
        if y.buses.toLocal[0].order.id == id {
          TakeInforms(id, v);
        }
      }
    case ExchReceive(ts) =>
      if y.buses.toExch != [] {
        ExchReceiveView(s, y, ts, id);
        if y.buses.toExch[0].order.id == id {
          HandleInforms(s.c, y.exch, id, v, ts);
        }
      }
    case ClearInactiveOrders => ClearInforms(id, v);
    case LocalRow(_) =>
  }

  /** Every move keeps the local side informed, but for a refused request of the kind named. */
  lemma StepKeepsInformedIff(s: Setup, y: Sys, used: set<OrderId>, m: Move)
    requires AllOnce(y, used) && AllInformed(y) && UsesFreshIds(y, used, m)
    ensures AllInformed(Next(s, y, m)) <==> Heard(s, y, m)
  {
    var z := Next(s, y, m);
    forall id: OrderId ensures Informed(View(z, id)) <==> !m.Command? || id != m.cmd.id || Heard(s, y, m) {
      if m.Command? {
        CommandKeepsInformed(s, y, used, m, id);
      } else {
        MoveKeepsInformed(s, y, used, m, id);
      }
    }
    if m.Command? && AllInformed(z) {
      assert Informed(View(z, m.cmd.id));
    }
  }

  ghost predicate HeardRun(s: Setup, y: Sys, ms: seq<Move>)
    decreases |ms|
  {
    ms == [] || (Heard(s, y, ms[0]) && HeardRun(s, Next(s, y, ms[0]), ms[1..]))
  }

  /** The local side is informed at the start and after every move. */
  ghost predicate InformedRun(s: Setup, y: Sys, ms: seq<Move>)
    decreases |ms|
  {
    AllInformed(y) && (ms == [] || InformedRun(s, Next(s, y, ms[0]), ms[1..]))
  }

  lemma {:induction false} RunInformedIff(s: Setup, y: Sys, used: set<OrderId>, ms: seq<Move>)
    requires AllOnce(y, used) && AllInformed(y) && FreshRun(s, y, used, ms)
    ensures InformedRun(s, y, ms) <==> HeardRun(s, y, ms)
    ensures HeardRun(s, y, ms) ==> AllInformed(RunMoves(s, y, ms))
    decreases |ms|
  {
    if ms != [] {
      var z := Next(s, y, ms[0]);
      StepKeepsInformedIff(s, y, used, ms[0]);
      StepKeepsOnce(s, y, used, ms[0]);
      if AllInformed(z) {
        RunInformedIff(s, z, Used(used, ms[0]), ms[1..]);
      }
    }
  }

  lemma {:induction false} AcceptedIsHeard(s: Setup, y: Sys, ms: seq<Move>)
    requires forall ts, o :: s.lm.entry(ts, o) >= 0
    ensures HeardRun(s, y, ms)
    decreases |ms|
  {
    if ms != [] {
      AcceptedIsHeard(s, Next(s, y, ms[0]), ms[1..]);
    }
  }

  /**
    * Over every run that reuses no id and in which no change of terms is refused unheard, with partial fills and
    * requests on orders in any state: whenever the exchange rests no order of an id, or no request for it is under
    * way, the replies under way bring the local order to exactly what the exchange rests.
    */
  lemma ViewsAgree(s: Setup, y: Sys, ms: seq<Move>, id: OrderId)
    requires Initial(y) && FreshRun(s, y, {}, ms) && HeardRun(s, y, ms)
    ensures var v := View(RunMoves(s, y, ms), id);
            v.x.None? || v.r == [] ==> Agrees(v)
  {
    assert AllOnce(y, {});
    assert AllInformed(y);
    RunInformedIff(s, y, {}, ms);
    assert Informed(View(RunMoves(s, y, ms), id));
  }
}
