/** What the replay loop guarantees for every pair of processors and every number of assets. */
module SchedulerLaws {
  import opened Core
  import opened OrderBus
  import opened EventSet
  import opened Scheduler

  // ---------------------------------------------------------------- the next intent

  lemma SlotOf<L, X>(assets: seq<Asset<L, X>>, n: nat, kind: nat)
    requires n < |assets| && kind < 4
    ensures 4 * n + kind < |Slots(assets)| && Slots(assets)[4 * n + kind] == Due(assets[n], kind)
  {
  }

  /** Nothing anywhere is due before the next intent, and nothing at all is due when there is none. */
  lemma NextIsEarliest<L, X>(assets: seq<Asset<L, X>>, n: nat, kind: nat)
    requires n < |assets| && kind < 4
    ensures Next(assets).None? ==> Due(assets[n], kind) == Never
    ensures Next(assets).Some? ==> !Earlier(Due(assets[n], kind), At(Next(assets).value.timestamp))
  {
    SlotOf(assets, n, kind);
    FirstMinIsFirst(Slots(assets));
  }

  /** The first minimum of the whole is the first minimum of any part that holds it. */
  lemma FirstMinOfPart(ts: seq<Time>, i: nat, part: seq<Time>, lo: nat)
    requires IsFirstMin(ts, i) && lo <= i < lo + |part| <= |ts|
    requires forall j :: 0 <= j < |part| ==> part[j] == ts[lo + j]
    ensures IsFirstMin(part, i - lo)
  {
  }

  /** The four slots of the asset whose turn it is give the same turn on their own. */
  lemma NextOfPart(all: seq<Time>, one: seq<Time>, i: Intent)
    requires i.kind < 4 == |one| && 4 * i.asset + 4 <= |all| && all[4 * i.asset + i.kind] == At(i.timestamp)
    requires forall k :: 0 <= k < 4 ==> one[k] == all[4 * i.asset + k]
    requires NextIntent(all) == Some(i)
    ensures NextIntent(one) == Some(i.(asset := 0))
  {
    var n := 4 * i.asset + i.kind;
    assert n / 4 == i.asset && n % 4 == i.kind;
    NextIsFirst(all, n);
    FirstMinOfPart(all, n, one, 4 * i.asset);
    NextIsFirst(one, i.kind);
  }

  lemma SlotsAlone<L, X>(assets: seq<Asset<L, X>>, n: nat)
    requires n < |assets|
    ensures 4 * n + 4 <= |Slots(assets)| && |Slots([assets[n]])| == 4
    ensures forall k :: 0 <= k < 4 ==> Slots([assets[n]])[k] == Slots(assets)[4 * n + k]
  {
    forall k | 0 <= k < 4 ensures Slots([assets[n]])[k] == Slots(assets)[4 * n + k] {
      SlotOf(assets, n, k);
      SlotOf([assets[n]], 0, k);
    }
  }

  /** An asset's part of the schedule is the schedule it would have alone. */
  lemma NextAlone<L, X>(assets: seq<Asset<L, X>>)
    requires Next(assets).Some?
    ensures var i := Next(assets).value; Next([assets[i.asset]]) == Some(i.(asset := 0))
  {
    var i := Next(assets).value;
    SlotsAlone(assets, i.asset);
    SlotOf(assets, i.asset, i.kind);
    assert Slots(assets)[4 * i.asset + i.kind] == At(i.timestamp);
    NextOfPart(Slots(assets), Slots([assets[i.asset]]), i);
  }

  /** No slot of an asset is due by `target`. */
  ghost predicate Quiet<L, X>(a: Asset<L, X>, target: int) {
    forall k: nat :: k < 4 ==> Earlier(At(target), Due(a, k))
  }

  lemma QuietAlone<L, X>(v: Venue<L, X>, a: Asset<L, X>, now: int, target: int)
    requires Quiet(a, target)
    ensures Elapse(v, [a], now, target).assets == [a]
  {
  }

  lemma {:induction false} GotoKeepsCount<L, X>(v: Venue<L, X>, assets: seq<Asset<L, X>>, now: int, goal: Goal,
                                                result: Result)
    ensures |Goto(v, assets, now, goal, result).assets| == |assets|
    decreases Rows(assets), Requests(assets), Replies(assets)
  {
    if Next(assets).Some? && !Earlier(goal.target, At(Next(assets).value.timestamp)) {
      var i := Next(assets).value;
      var (goal', result') := Retarget(goal, assets[i.asset], i, result);
      DispatchProgress(v, assets);
      GotoKeepsCount(v, assets[i.asset := Dispatch(v, assets[i.asset], i.kind, i.timestamp)], i.timestamp, goal',
                     result');
    }
  }

  // ---------------------------------------------------------------- multi-asset projection

  /**
    * Running any number of assets to a target leaves each exactly as if it had run alone to that
    * target. The processors are arbitrary and may log their inputs, so ties between assets never
    * reorder, add or drop what one asset sees.
    */
  lemma {:induction false} AssetsRunIndependently<L, X>(
    v: Venue<L, X>, assets: seq<Asset<L, X>>, now: int, alone: int, target: int, j: nat)
    requires j < |assets|
    ensures |Elapse(v, assets, now, target).assets| == |assets|
    ensures Elapse(v, [assets[j]], alone, target).assets == [Elapse(v, assets, now, target).assets[j]]
    decreases Rows(assets), Requests(assets), Replies(assets)
  {
    var next := Next(assets);
    if next.None? || next.value.timestamp > target {
      forall k: nat | k < 4 ensures Earlier(At(target), Due(assets[j], k)) {
        NextIsEarliest(assets, j, k);
      }
      QuietAlone(v, assets[j], alone, target);
    } else {
      var i := next.value;
      var a := Dispatch(v, assets[i.asset], i.kind, i.timestamp);
      var rest := assets[i.asset := a];
      DispatchProgress(v, assets);
      if i.asset == j {
        NextAlone(assets);
        assert [assets[j]][0 := a] == [a];
        assert Elapse(v, [assets[j]], alone, target) == Elapse(v, [a], i.timestamp, target);
        AssetsRunIndependently(v, rest, i.timestamp, i.timestamp, target, j);
      } else {
        AssetsRunIndependently(v, rest, i.timestamp, alone, target, j);
      }
    }
  }

  // ---------------------------------------------------------------- additivity

  /** One turn of an elapse. */
  lemma ElapseTurn<L, X>(v: Venue<L, X>, assets: seq<Asset<L, X>>, now: int, target: int)
    requires Next(assets).Some? && Next(assets).value.timestamp <= target
    ensures var i := Next(assets).value;
            var rest := assets[i.asset := Dispatch(v, assets[i.asset], i.kind, i.timestamp)];
            Elapse(v, assets, now, target) == Elapse(v, rest, i.timestamp, target)
  {
  }

  /** An elapse that did not run out of events ends exactly at its target; one that did leaves nothing due. */
  lemma {:induction false} ElapseStops<L, X>(v: Venue<L, X>, assets: seq<Asset<L, X>>, now: int, target: int)
    ensures var end := Elapse(v, assets, now, target);
            if Next(end.assets).None? then end.result == EndOfData
            else end.now == target && end.result == Ok && Next(end.assets).value.timestamp > target
    decreases Rows(assets), Requests(assets), Replies(assets)
  {
    if Next(assets).Some? && Next(assets).value.timestamp <= target {
      var i := Next(assets).value;
      DispatchProgress(v, assets);
      ElapseTurn(v, assets, now, target);
      ElapseStops(v, assets[i.asset := Dispatch(v, assets[i.asset], i.kind, i.timestamp)], i.timestamp, target);
    }
  }

  lemma {:induction false} ElapseResumes<L, X>(
    v: Venue<L, X>, assets: seq<Asset<L, X>>, now: int, first: int, target: int)
    requires first <= target
    ensures var mid := Elapse(v, assets, now, first);
            Elapse(v, mid.assets, mid.now, target) == Elapse(v, assets, now, target)
    decreases Rows(assets), Requests(assets), Replies(assets)
  {
    if Next(assets).Some? && Next(assets).value.timestamp <= first {
      var i := Next(assets).value;
      DispatchProgress(v, assets);
      ElapseTurn(v, assets, now, first);
      ElapseTurn(v, assets, now, target);
      ElapseResumes(v, assets[i.asset := Dispatch(v, assets[i.asset], i.kind, i.timestamp)], i.timestamp, first,
                    target);
    }
  }

  /** `elapse(a)` then `elapse(b)` is `elapse(a + b)`: same assets, clock and result, also when the data runs out. */
  lemma ElapseAdds<L, X>(v: Venue<L, X>, assets: seq<Asset<L, X>>, now: int, first: nat, second: nat)
    ensures var mid := Elapse(v, assets, now, now + first);
            Elapse(v, mid.assets, mid.now, mid.now + second) == Elapse(v, assets, now, now + first + second)
  {
    var mid := Elapse(v, assets, now, now + first);
    ResumesTo(v, assets, now, now + first, now + first + second, mid);
    StopsAt(v, assets, now, now + first, mid);
    TargetMoot(v, mid.assets, mid.now, mid.now + second, now + first + second);
  }

  lemma ResumesTo<L, X>(v: Venue<L, X>, assets: seq<Asset<L, X>>, now: int, first: int, target: int, mid: Outcome<L, X>)
    requires first <= target && mid == Elapse(v, assets, now, first)
    ensures Elapse(v, mid.assets, mid.now, target) == Elapse(v, assets, now, target)
  {
    ElapseResumes(v, assets, now, first, target);
  }

  lemma StopsAt<L, X>(v: Venue<L, X>, assets: seq<Asset<L, X>>, now: int, target: int, mid: Outcome<L, X>)
    requires mid == Elapse(v, assets, now, target)
    ensures Next(mid.assets).None? || mid.now == target
  {
    ElapseStops(v, assets, now, target);
  }

  /** With nothing due, the target does not matter. */
  lemma TargetMoot<L, X>(v: Venue<L, X>, assets: seq<Asset<L, X>>, now: int, a: int, b: int)
    requires Next(assets).None? || a == b
    ensures Elapse(v, assets, now, a) == Elapse(v, assets, now, b)
  {
  }

  // ---------------------------------------------------------------- time

  ghost predicate RowsFrom(rows: seq<Event>, now: int, forLocal: bool) {
    && (forall i :: 0 <= i < |rows| ==> now <= SeenAt(rows[i], forLocal))
    && (forall i, j :: 0 <= i < j < |rows| ==> SeenAt(rows[i], forLocal) <= SeenAt(rows[j], forLocal))
  }

  function SeenAt(e: Event, forLocal: bool): int {
    if forLocal then e.localTs else e.exchTs
  }

  /** Both buses and both row queues are sorted, and nothing pending is before `now`. */
  ghost predicate Timely<L, X>(a: Asset<L, X>, now: int) {
    && SortedFrom(a.buses.toExch, now) && SortedFrom(a.buses.toLocal, now)
    && RowsFrom(a.localRows, now, true) && RowsFrom(a.exchRows, now, false)
  }

  /** Every request of a batch is answered no earlier than it is handled. */
  ghost predicate PromptBatch<L, X>(v: Venue<L, X>, x: X, msgs: seq<Msg>, t: int)
    decreases |msgs|
  {
    msgs == [] ||
    var (y, reply) := v.exchHandle(x, msgs[0].order, t);
    t <= reply.exchTs + v.lm.response(reply.exchTs, reply) && PromptBatch(v, y, msgs[1..], t)
  }

  /** A dispatch to the exchange sends nothing into the past. */
  ghost predicate PromptDispatch<L, X>(v: Venue<L, X>, a: Asset<L, X>, kind: nat, t: int) {
    && (kind == EXCH_DATA && a.exchRows != [] ==>
          forall o :: o in v.exchFeed(a.exch, a.exchRows[0]).1 ==> t <= o.exchTs + v.lm.response(o.exchTs, o))
    && (kind == EXCH_ORDER ==> PromptBatch(v, a.exch, a.buses.toExch[..Batch(a.buses.toExch, t)], t))
  }

  /**
    * `inv` survives whatever is due on an asset, and under it the exchange answers promptly. The processors are
    * arbitrary; for the concrete ones see `Replay.FreshIdsAreTended`.
    */
  ghost predicate Tended<L(!new), X(!new)>(v: Venue<L, X>, inv: (nat, Asset<L, X>) -> bool) {
    forall n: nat, a: Asset<L, X>, kind: nat, t: int {:trigger inv(n, a), Dispatch(v, a, kind, t)} ::
      inv(n, a) && kind < 4 && Due(a, kind) == At(t) ==>
              inv(n, Dispatch(v, a, kind, t)) && PromptDispatch(v, a, kind, t)
  }

  ghost predicate AllHold<L, X>(inv: (nat, Asset<L, X>) -> bool, assets: seq<Asset<L, X>>) {
    forall n: nat :: n < |assets| ==> inv(n, assets[n])
  }

  lemma {:induction false} HandleAllSorted<L, X>(v: Venue<L, X>, x: X, toLocal: seq<Msg>, msgs: seq<Msg>, t: int)
    requires SortedFrom(toLocal, t) && PromptBatch(v, x, msgs, t)
    ensures SortedFrom(HandleAll(v, x, toLocal, msgs, t).1, t)
    decreases |msgs|
  {
    if msgs != [] {
      var (y, reply) := v.exchHandle(x, msgs[0].order, t);
      AppendSorted(toLocal, reply, reply.exchTs + v.lm.response(reply.exchTs, reply), t);
      HandleAllSorted(v, y, Respond(v.lm, toLocal, reply), msgs[1..], t);
    }
  }

  lemma TailFrom(bus: seq<Msg>, now: int, t: int, n: nat)
    requires SortedFrom(bus, now) && n <= |bus| && now <= t
    requires n < |bus| ==> t <= bus[n].due
    ensures SortedFrom(bus[n..], t)
  {
  }

  lemma RowTailFrom(rows: seq<Event>, now: int, t: int, forLocal: bool, n: nat)
    requires RowsFrom(rows, now, forLocal) && n <= |rows| && n <= 1
    requires rows != [] ==> t <= SeenAt(rows[0], forLocal)
    ensures RowsFrom(rows[n..], t, forLocal)
  {
  }

  /** Dispatching the earliest slot of an asset at its time keeps the asset timely at that time. */
  lemma DispatchTimely<L, X>(v: Venue<L, X>, a: Asset<L, X>, kind: nat, now: int, t: int)
    requires PromptDispatch(v, a, kind, t) && Timely(a, now) && kind < 4 && Due(a, kind) == At(t)
    requires forall k: nat :: k < 4 ==> !Earlier(Due(a, k), At(t))
    ensures Timely(Dispatch(v, a, kind, t), t)
  {
    AssetTimelyAt(a, now, t);
    var n := if kind == LOCAL_ORDER then Batch(a.buses.toLocal, t) else Batch(a.buses.toExch, t);
    if kind == LOCAL_DATA {
      RowTailFrom(a.localRows, t, t, true, 1);
    } else if kind == LOCAL_ORDER {
      TailFrom(a.buses.toLocal, t, t, n);
    } else if kind == EXCH_DATA {
      RowTailFrom(a.exchRows, t, t, false, 1);
      RespondAllSorted(v.lm, a.buses.toLocal, v.exchFeed(a.exch, a.exchRows[0]).1, t);
    } else {
      TailFrom(a.buses.toExch, t, t, n);
      HandleAllSorted(v, a.exch, a.buses.toLocal, a.buses.toExch[..n], t);
    }
  }

  /** Time may pass up to the earliest slot. */
  lemma AssetTimelyAt<L, X>(a: Asset<L, X>, now: int, t: int)
    requires Timely(a, now)
    requires forall k: nat :: k < 4 ==> !Earlier(Due(a, k), At(t))
    ensures Timely(a, t)
  {
    assert !Earlier(Due(a, LOCAL_DATA), At(t)) && !Earlier(Due(a, LOCAL_ORDER), At(t));
    assert !Earlier(Due(a, EXCH_DATA), At(t)) && !Earlier(Due(a, EXCH_ORDER), At(t));
  }

  ghost predicate AllTimely<L, X>(assets: seq<Asset<L, X>>, now: int) {
    forall n :: 0 <= n < |assets| ==> Timely(assets[n], now)
  }

  lemma StepTimely<L(!new), X(!new)>(
    v: Venue<L, X>, inv: (nat, Asset<L, X>) -> bool, assets: seq<Asset<L, X>>, now: int)
    requires Tended(v, inv) && AllHold(inv, assets) && AllTimely(assets, now) && Next(assets).Some?
    ensures var i := Next(assets).value;
            var rest := assets[i.asset := Dispatch(v, assets[i.asset], i.kind, i.timestamp)];
            now <= i.timestamp && AllTimely(rest, i.timestamp) && AllHold(inv, rest)
  {
    var i := Next(assets).value;
    assert Timely(assets[i.asset], now) && inv(i.asset, assets[i.asset]);
    var rest := assets[i.asset := Dispatch(v, assets[i.asset], i.kind, i.timestamp)];
    forall n | 0 <= n < |rest| ensures Timely(rest[n], i.timestamp) {
      forall k: nat | k < 4 ensures !Earlier(Due(assets[n], k), At(i.timestamp)) {
        NextIsEarliest(assets, n, k);
      }
      AssetTimelyAt(assets[n], now, i.timestamp);
      if n == i.asset {
        DispatchTimely(v, assets[n], i.kind, now, i.timestamp);
      }
    }
  }

  /** Every call of the loop keeps all assets timely and never turns the clock back. */
  lemma {:induction false} GotoTimely<L(!new), X(!new)>(
    v: Venue<L, X>, inv: (nat, Asset<L, X>) -> bool, assets: seq<Asset<L, X>>, now: int, goal: Goal, result: Result)
    requires Tended(v, inv) && AllHold(inv, assets) && AllTimely(assets, now) && !Earlier(goal.target, At(now))
    ensures var end := Goto(v, assets, now, goal, result);
            && |end.assets| == |assets| && now <= end.now && AllTimely(end.assets, end.now)
            && AllHold(inv, end.assets)
    decreases Rows(assets), Requests(assets), Replies(assets)
  {
    if Next(assets).Some? {
      var i := Next(assets).value;
      if Earlier(goal.target, At(i.timestamp)) {
        forall n | 0 <= n < |assets| ensures Timely(assets[n], goal.target.t) {
          forall k: nat | k < 4 ensures !Earlier(Due(assets[n], k), At(goal.target.t)) {
            NextIsEarliest(assets, n, k);
          }
          AssetTimelyAt(assets[n], now, goal.target.t);
        }
      } else {
        DispatchProgress(v, assets);
        StepTimely(v, inv, assets, now);
        var (goal', result') := Retarget(goal, assets[i.asset], i, result);
        GotoTimely(v, inv, assets[i.asset := Dispatch(v, assets[i.asset], i.kind, i.timestamp)], i.timestamp, goal',
                   result');
      }
    }
  }
}
