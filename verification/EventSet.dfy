/** The flat timestamp scheduler (include/hbt/backtest/event_set.hpp): four slots per asset. */
module EventSet {
  import opened Core

  /** A slot's timestamp; `Never` is the source's maximal sentinel. */
  datatype Time = At(t: int) | Never

  predicate Earlier(a: Time, b: Time) {
    a.At? && (b.Never? || a.t < b.t)
  }

  const LOCAL_DATA := 0
  const LOCAL_ORDER := 1
  const EXCH_DATA := 2
  const EXCH_ORDER := 3

  datatype Intent = Intent(timestamp: int, asset: nat, kind: nat)

  /** `i` is the first slot with the earliest timestamp: ties go to the lower index. */
  ghost predicate IsFirstMin(ts: seq<Time>, i: nat) {
    && i < |ts|
    && (forall j :: 0 <= j < |ts| ==> !Earlier(ts[j], ts[i]))
    && (forall j :: 0 <= j < i ==> Earlier(ts[i], ts[j]))
  }

  /** Scan the first `n` slots. */
  function ScanMin(ts: seq<Time>, n: nat): (i: nat)
    requires 0 < n <= |ts|
    ensures i < n
  {
    if n == 1 then 0
    else
      var best := ScanMin(ts, n - 1);
      if Earlier(ts[n - 1], ts[best]) then n - 1 else best
  }

  function FirstMin(ts: seq<Time>): (i: nat)
    requires ts != []
    ensures i < |ts|
  {
    ScanMin(ts, |ts|)
  }

  lemma {:induction false} ScanMinIsFirst(ts: seq<Time>, n: nat)
    requires 0 < n <= |ts|
    ensures var i := ScanMin(ts, n);
            && (forall j :: 0 <= j < n ==> !Earlier(ts[j], ts[i]))
            && (ts[i].At? ==> forall j :: 0 <= j < i ==> Earlier(ts[i], ts[j]))
  {
    if n > 1 {
      ScanMinIsFirst(ts, n - 1);
    }
  }

  /** The scan finds the earliest slot, and the first of those; or every slot is empty. */
  lemma FirstMinIsFirst(ts: seq<Time>)
    requires ts != []
    ensures var i := FirstMin(ts);
            if ts[i].At? then IsFirstMin(ts, i) else forall j :: 0 <= j < |ts| ==> ts[j].Never?
  {
    ScanMinIsFirst(ts, |ts|);
  }

  /** Only one slot can be first. */
  lemma FirstMinUnique(ts: seq<Time>, i: nat)
    requires IsFirstMin(ts, i) && ts[i].At?
    ensures FirstMin(ts) == i
  {
    FirstMinIsFirst(ts);
    var k := FirstMin(ts);
    assert !Earlier(ts[i], ts[k]);
  }

  function NextIntent(ts: seq<Time>): Option<Intent> {
    if ts == [] then None
    else
      var i := FirstMin(ts);
      if ts[i].Never? then None else Some(Intent(ts[i].t, i / 4, i % 4))
  }

  /** The next intent is that of the first minimal slot, and of no other. */
  lemma NextIsFirst(ts: seq<Time>, i: nat)
    requires i < |ts| && ts[i].At?
    ensures NextIntent(ts) == Some(Intent(ts[i].t, i / 4, i % 4)) <==> IsFirstMin(ts, i)
  {
    FirstMinIsFirst(ts);
    if IsFirstMin(ts, i) {
      FirstMinUnique(ts, i);
    }
  }

  class EventSet {
    const numAssets: nat
    const ts: array<Time>

    ghost predicate Valid() {
      numAssets > 0 && ts.Length == 4 * numAssets
    }

    constructor (numAssets: nat)
      requires numAssets > 0
      ensures Valid() && this.numAssets == numAssets && fresh(ts)
      ensures forall i :: 0 <= i < ts.Length ==> ts[i] == Never
    {
      this.numAssets := numAssets;
      ts := new Time[4 * numAssets](_ => Never);
    }

    /** The minimum scan. */
    method Next() returns (intent: Option<Intent>)
      requires Valid()
      ensures intent == NextIntent(ts[..])
    {
      var bestIdx, bestTs := 0, ts[0];
      for i := 1 to ts.Length
        invariant 0 <= bestIdx < i && bestTs == ts[bestIdx]
        invariant bestIdx == ScanMin(ts[..], i)
      {
        if Earlier(ts[i], bestTs) {
          bestTs := ts[i];
          bestIdx := i;
        }
      }
      if bestTs.Never? {
        return None;
      }
      return Some(Intent(bestTs.t, bestIdx / 4, bestIdx % 4));
    }

    /** Overwrite one slot of one asset; `Never` invalidates it. */
    method Update(asset: nat, kind: nat, time: Time)
      requires Valid() && asset < numAssets && kind < 4
      modifies ts
      ensures ts[..] == old(ts[..])[4 * asset + kind := time]
    {
      ts[4 * asset + kind] := time;
    }
  }
}
