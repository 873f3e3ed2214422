/** Shard-fed feed cursors and the cache they share (include/hbt/data/reader.hpp, ProcessorState in backtest.hpp). */
module Reader {
  import opened Core

  datatype Shard = Shard(data: seq<Event>, finished: nat)

  /** The cache as a value: resident shards, and the counters of releases and loads. */
  datatype Cache = Cache(resident: map<nat, Shard>, released: nat, loads: nat)

  /** A reader: the shard it holds, and the next one it will ask for. */
  datatype Cursor = Cursor(current: Option<nat>, next: nat)

  const NO_SHARDS := Cache(map[], 0, 0)
  const AT_START := Cursor(None, 0)

  function EnsureLoaded(chunks: seq<seq<Event>>, c: Cache, k: nat): Cache
    requires k < |chunks|
  {
    if k in c.resident then c
    else c.(resident := c.resident[k := Shard(chunks[k], 0)], loads := c.loads + 1)
  }

  function Acquire(chunks: seq<seq<Event>>, c: Cache, k: nat): Cache {
    if k >= |chunks| then c
    else
      var c1 := EnsureLoaded(chunks, c, k);
      if k + 1 < |chunks| then EnsureLoaded(chunks, c1, k + 1) else c1
  }

  function Release(consumers: nat, c: Cache, k: nat): Cache {
    if k !in c.resident then c
    else
      var s := c.resident[k].(finished := c.resident[k].finished + 1);
      if s.finished >= consumers then c.(resident := c.resident - {k}, released := c.released + 1)
      else c.(resident := c.resident[k := s])
  }

  function ReleaseCurrent(consumers: nat, c: Cache, r: Cursor): Cache {
    if r.current.Some? then Release(consumers, c, r.current.value) else c
  }

  function NextChunk(chunks: seq<seq<Event>>, consumers: nat, c: Cache, r: Cursor): (Cache, Cursor) {
    var c1 := ReleaseCurrent(consumers, c, r);
    if r.next >= |chunks| then (c1, r.(current := None))
    else (Acquire(chunks, c1, r.next), Cursor(Some(r.next), r.next + 1))
  }

  // ---------------------------------------------------------------- all readers together

  /** How many shards a reader is finished with. */
  function Finished(r: Cursor): int {
    if r.current.Some? then r.next - 1 else r.next
  }

  function CountFinished(readers: seq<Cursor>, k: nat): nat {
    if readers == [] then 0
    else (if Finished(readers[0]) > k then 1 else 0) + CountFinished(readers[1..], k)
  }

  lemma {:induction false} CountUpdate(readers: seq<Cursor>, i: nat, r: Cursor, k: nat)
    requires i < |readers|
    ensures CountFinished(readers[i := r], k) == CountFinished(readers, k)
            - (if Finished(readers[i]) > k then 1 else 0) + (if Finished(r) > k then 1 else 0)
  {
    if i == 0 {
      assert readers[i := r][1..] == readers[1..];
    } else {
      assert readers[i := r][1..] == readers[1..][i - 1 := r];
      CountUpdate(readers[1..], i - 1, r, k);
    }
  }

  lemma {:induction false} CountBounds(readers: seq<Cursor>, k: nat)
    ensures CountFinished(readers, k) <= |readers|
    ensures CountFinished(readers, k) == |readers| <==> forall i :: 0 <= i < |readers| ==> Finished(readers[i]) > k
  {
    if readers != [] {
      CountBounds(readers[1..], k);
      if CountFinished(readers, k) == |readers| {
        forall i | 0 <= i < |readers| ensures Finished(readers[i]) > k {
          if i > 0 { assert readers[i] == readers[1..][i - 1]; }
        }
      }
    }
  }

  ghost predicate CursorOk(r: Cursor, size: nat, loads: nat) {
    && r.next <= size && r.next <= loads
    && (r.current.Some? ==> r.next > 0 && r.current.value == r.next - 1)
  }

  /**
    * Loads happen in shard order, each shard at most once; the resident shards are exactly the
    * interval between the released ones and the loaded ones; each remembers how many readers are done with it.
    */
  ghost predicate PoolOk(chunks: seq<seq<Event>>, c: Cache, readers: seq<Cursor>) {
    && c.released <= c.loads <= |chunks|
    && (forall k: nat :: k in c.resident <==> c.released <= k < c.loads)
    && (forall k: nat :: k in c.resident ==>
          c.resident[k] == Shard(chunks[k], CountFinished(readers, k)) && CountFinished(readers, k) < |readers|)
    && (forall k: nat :: k < c.released ==> CountFinished(readers, k) == |readers|)
    && (forall i :: 0 <= i < |readers| ==> CursorOk(readers[i], |chunks|, c.loads))
  }

  /** Reader `i` finishes its current shard. */
  lemma ReleaseKeepsPool(chunks: seq<seq<Event>>, c: Cache, readers: seq<Cursor>, i: nat)
    requires PoolOk(chunks, c, readers) && i < |readers| && readers[i].current.Some?
    ensures PoolOk(chunks, ReleaseCurrent(|readers|, c, readers[i]), readers[i := readers[i].(current := None)])
    ensures ReleaseCurrent(|readers|, c, readers[i]).loads == c.loads
    ensures ReleaseCurrent(|readers|, c, readers[i]).released >= c.released
  {
    var r := readers[i];
    var cur := r.current.value;
    var after := readers[i := r.(current := None)];
    var d := ReleaseCurrent(|readers|, c, r);
    assert CursorOk(r, |chunks|, c.loads);
    forall k: nat ensures CountFinished(after, k) == CountFinished(readers, k) + if k == cur then 1 else 0 {
      CountUpdate(readers, i, r.(current := None), k);
    }
    CountBounds(readers, cur);
    assert cur in c.resident;
    if cur !in d.resident {
      CountBounds(after, cur);
      if c.released < cur {
        CountBounds(after, c.released);
        CountBounds(readers, c.released);
        assert false;
      }
    }
  }

  /** Loading shard `k`, which no reader has finished, keeps the pool. */
  lemma LoadKeepsPool(chunks: seq<seq<Event>>, c: Cache, readers: seq<Cursor>, k: nat)
    requires PoolOk(chunks, c, readers) && k < |chunks| && k <= c.loads && readers != []
    requires forall i :: 0 <= i < |readers| && k == c.loads ==> Finished(readers[i]) <= k
    ensures PoolOk(chunks, EnsureLoaded(chunks, c, k), readers)
    ensures k in c.resident ==> EnsureLoaded(chunks, c, k) == c
    ensures k !in c.resident && k == c.loads ==> EnsureLoaded(chunks, c, k).loads == c.loads + 1
    requires k in c.resident || k == c.loads
  {
    if k == c.loads {
      NoneFinished(readers, k);
    }
  }

  /** Reader `i`, holding nothing, takes the next shard. */
  lemma AcquireKeepsPool(chunks: seq<seq<Event>>, c: Cache, readers: seq<Cursor>, i: nat)
    requires PoolOk(chunks, c, readers) && i < |readers| && readers[i].current.None? && readers[i].next < |chunks|
    ensures var k, d := readers[i].next, Acquire(chunks, c, readers[i].next);
            && PoolOk(chunks, d, readers[i := Cursor(Some(k), k + 1)])
            && k in d.resident && c.released == d.released && c.loads <= d.loads
  {
    var k := readers[i].next;
    assert CursorOk(readers[i], |chunks|, c.loads);
    CountBounds(readers, k);
    FinishedWithinLoads(chunks, c, readers);
    LoadKeepsPool(chunks, c, readers, k);
    var c1 := EnsureLoaded(chunks, c, k);
    if k + 1 < |chunks| {
      FinishedWithinLoads(chunks, c1, readers);
      LoadKeepsPool(chunks, c1, readers, k + 1);
    }
    TakeKeepsPool(chunks, Acquire(chunks, c, k), readers, i);
  }

  lemma FinishedWithinLoads(chunks: seq<seq<Event>>, c: Cache, readers: seq<Cursor>)
    requires PoolOk(chunks, c, readers)
    ensures forall i :: 0 <= i < |readers| ==> Finished(readers[i]) <= c.loads
  {
  }

  /** Moving a reader onto a resident shard changes no count. */
  lemma TakeKeepsPool(chunks: seq<seq<Event>>, c: Cache, readers: seq<Cursor>, i: nat)
    requires PoolOk(chunks, c, readers) && i < |readers| && readers[i].current.None?
    requires readers[i].next < |chunks| && readers[i].next < c.loads
    ensures PoolOk(chunks, c, readers[i := Cursor(Some(readers[i].next), readers[i].next + 1)])
  {
    var r := Cursor(Some(readers[i].next), readers[i].next + 1);
    var after := readers[i := r];
    forall k: nat ensures CountFinished(after, k) == CountFinished(readers, k) {
      CountUpdate(readers, i, r, k);
    }
    forall j | 0 <= j < |after| ensures CursorOk(after[j], |chunks|, c.loads) {
      assert CursorOk(readers[j], |chunks|, c.loads);
    }
  }

  lemma {:induction false} NoneFinished(readers: seq<Cursor>, k: nat)
    requires forall i :: 0 <= i < |readers| ==> Finished(readers[i]) <= k
    ensures CountFinished(readers, k) == 0
  {
    if readers != [] {
      NoneFinished(readers[1..], k);
    }
  }

  lemma {:induction false} IntervalSize(s: set<nat>, lo: nat, hi: nat)
    requires lo <= hi && forall k: nat :: k in s <==> lo <= k < hi
    ensures |s| == hi - lo
    decreases hi
  {
    if lo == hi {
      assert s == {};
    } else {
      IntervalSize(s - {hi - 1}, lo, hi - 1);
    }
  }

  lemma StepKeepsPool(chunks: seq<seq<Event>>, c: Cache, readers: seq<Cursor>, i: nat)
    requires PoolOk(chunks, c, readers) && i < |readers|
    ensures var (d, r) := NextChunk(chunks, |readers|, c, readers[i]);
            PoolOk(chunks, d, readers[i := r]) && c.released <= d.released && c.loads <= d.loads
  {
    var r := readers[i];
    var c1, idle := ReleaseCurrent(|readers|, c, r), r.(current := None);
    if r.current.Some? {
      ReleaseKeepsPool(chunks, c, readers, i);
    } else {
      assert readers[i := idle] == readers;
    }
    if r.next < |chunks| {
      AcquireKeepsPool(chunks, c1, readers[i := idle], i);
      assert readers[i := idle][i := Cursor(Some(r.next), r.next + 1)]
           == readers[i := Cursor(Some(r.next), r.next + 1)];
    }
  }

  /**
    * With as many readers as the cache counts on, every step of any reader keeps the pool: the resident
    * shards are a contiguous interval, loads are what is resident plus what was released, and a shard
    * becoming resident is beyond every shard loaded before, so none is loaded twice.
    */
  lemma NextChunkKeepsPool(chunks: seq<seq<Event>>, c: Cache, readers: seq<Cursor>, i: nat)
    requires PoolOk(chunks, c, readers) && i < |readers|
    ensures var (d, r) := NextChunk(chunks, |readers|, c, readers[i]);
            && PoolOk(chunks, d, readers[i := r])
            && d.loads == |d.resident| + d.released
            && c.loads <= d.loads && (forall k: nat :: k in d.resident && k !in c.resident ==> c.loads <= k)
            && (r.current.Some? ==>
                  && r.current.value in d.resident && d.resident[r.current.value].data == chunks[r.current.value]
                  && (r.next < |chunks| ==> r.next in d.resident))
  {
    var (d, r) := NextChunk(chunks, |readers|, c, readers[i]);
    StepKeepsPool(chunks, c, readers, i);
    PoolCounts(chunks, c, d, readers, readers[i := r]);
    if r.current.Some? {
      AcquiredIsResident(chunks, ReleaseCurrent(|readers|, c, readers[i]), r.current.value);
    }
  }

  lemma AcquiredIsResident(chunks: seq<seq<Event>>, c: Cache, k: nat)
    requires k < |chunks|
    ensures k in Acquire(chunks, c, k).resident
    ensures k + 1 < |chunks| ==> k + 1 in Acquire(chunks, c, k).resident
  {
  }

  /** Later pools only release lower shards and load higher ones. */
  lemma PoolCounts(chunks: seq<seq<Event>>, c: Cache, d: Cache, before: seq<Cursor>, after: seq<Cursor>)
    requires PoolOk(chunks, c, before) && PoolOk(chunks, d, after) && c.released <= d.released
    ensures d.loads == |d.resident| + d.released
    ensures forall k: nat :: k in d.resident && k !in c.resident ==> c.loads <= k
    ensures forall k: nat :: k in d.resident ==> d.resident[k].data == chunks[k]
  {
    IntervalSize(d.resident.Keys, d.released, d.loads);
    assert |d.resident| == |d.resident.Keys|;
  }

  /** Any schedule of reader steps. */
  function RunReaders(chunks: seq<seq<Event>>, c: Cache, readers: seq<Cursor>, steps: seq<nat>): (Cache, seq<Cursor>)
    requires forall n :: 0 <= n < |steps| ==> steps[n] < |readers|
    decreases |steps|
  {
    if steps == [] then (c, readers)
    else
      var (d, r) := NextChunk(chunks, |readers|, c, readers[steps[0]]);
      RunReaders(chunks, d, readers[steps[0] := r], steps[1..])
  }

  lemma {:induction false} RunKeepsPool(chunks: seq<seq<Event>>, c: Cache, readers: seq<Cursor>, steps: seq<nat>)
    requires PoolOk(chunks, c, readers) && c.loads == |c.resident| + c.released
    requires forall n :: 0 <= n < |steps| ==> steps[n] < |readers|
    ensures var (d, rs) := RunReaders(chunks, c, readers, steps);
            PoolOk(chunks, d, rs) && |rs| == |readers| && d.loads == |d.resident| + d.released <= |chunks|
    decreases |steps|
  {
    if steps != [] {
      NextChunkKeepsPool(chunks, c, readers, steps[0]);
      var (d, r) := NextChunk(chunks, |readers|, c, readers[steps[0]]);
      RunKeepsPool(chunks, d, readers[steps[0] := r], steps[1..]);
    }
  }

  /**
    * From an empty cache with at least one reader, any schedule of reader steps keeps the pool; so at every moment
    * the resident shards are a contiguous interval, and loads are what is resident plus what was released.
    */
  lemma PoolFromStart(chunks: seq<seq<Event>>, n: nat, steps: seq<nat>)
    requires n > 0 && forall i :: 0 <= i < |steps| ==> steps[i] < n
    ensures var (c, readers) := RunReaders(chunks, NO_SHARDS, seq(n, _ => AT_START), steps);
            && |readers| == n && PoolOk(chunks, c, readers)
            && c.loads == |c.resident| + c.released && c.loads <= |chunks|
            && forall k: nat :: k in c.resident <==> c.released <= k < c.loads
  {
    var start := seq(n, _ => AT_START);
    assert PoolOk(chunks, NO_SHARDS, start);
    RunKeepsPool(chunks, NO_SHARDS, start, steps);
  }

  // ---------------------------------------------------------------- sharding is invisible

  function Flatten(chunks: seq<seq<Event>>): seq<Event> {
    if chunks == [] then [] else chunks[0] + Flatten(chunks[1..])
  }

  /** The rows a processor sees at all. */
  function Relevant(seen: Event -> Option<int>, rows: seq<Event>): seq<Event> {
    if rows == [] then []
    else (if seen(rows[0]).Some? then [rows[0]] else []) + Relevant(seen, rows[1..])
  }

  lemma {:induction false} RelevantConcat(seen: Event -> Option<int>, a: seq<Event>, b: seq<Event>)
    ensures Relevant(seen, a + b) == Relevant(seen, a) + Relevant(seen, b)
  {
    if a == [] {
      assert a + b == b;
    } else {
      assert (a + b)[1..] == a[1..] + b;
      RelevantConcat(seen, a[1..], b);
      var head := if seen(a[0]).Some? then [a[0]] else [];
      calc {
        Relevant(seen, a + b);
        head + Relevant(seen, a[1..] + b);
        head + (Relevant(seen, a[1..]) + Relevant(seen, b));
        (head + Relevant(seen, a[1..])) + Relevant(seen, b);
      }
    }
  }

  lemma HeadOf(want: seq<Event>, a: seq<Event>, b: seq<Event>, x: Event, rest: seq<Event>)
    requires want == a + b && a == [x] + rest
    ensures want == [x] + (rest + b)
  {
  }

  class EventReaderCache {
    const chunks: seq<seq<Event>>
    const consumers: nat
    var resident: map<nat, Shard>
    var released: nat
    var loads: nat

    function View(): Cache
      reads this
    {
      Cache(resident, released, loads)
    }

    /** Whatever is resident is the shard of that number. */
    ghost predicate Valid()
      reads this
    {
      forall k: nat :: k in resident ==> k < |chunks| && resident[k].data == chunks[k]
    }

    constructor (chunks: seq<seq<Event>>, consumers: nat)
      requires consumers > 0
      ensures this.chunks == chunks && this.consumers == consumers && View() == NO_SHARDS && Valid()
    {
      this.chunks, this.consumers := chunks, consumers;
      resident, released, loads := map[], 0, 0;
    }

    method Load(k: nat)
      requires Valid() && k < |chunks|
      modifies this
      ensures Valid() && View() == EnsureLoaded(chunks, old(View()), k)
    {
      if k !in resident {
        resident := resident[k := Shard(chunks[k], 0)];
        loads := loads + 1;
      }
    }

    method AcquireShard(k: nat) returns (data: Option<seq<Event>>)
      requires Valid()
      modifies this
      ensures Valid() && View() == Acquire(chunks, old(View()), k)
      ensures data == if k < |chunks| then Some(chunks[k]) else None
    {
      if k >= |chunks| {
        return None;
      }
      Load(k);
      if k + 1 < |chunks| {
        Load(k + 1);
      }
      return Some(resident[k].data);
    }

    method ReleaseShard(k: nat)
      requires Valid()
      modifies this
      ensures Valid() && View() == Release(consumers, old(View()), k)
    {
      if k in resident {
        var s := resident[k].(finished := resident[k].finished + 1);
        resident := resident[k := s];
        if s.finished >= consumers {
          resident := resident - {k};
          released := released + 1;
        }
        assert resident == Release(consumers, old(View()), k).resident;
      }
    }
  }

  class EventReader {
    const cache: EventReaderCache
    var current: Option<nat>
    var next: nat

    function View(): Cursor
      reads this
    {
      Cursor(current, next)
    }

    constructor (cache: EventReaderCache)
      ensures this.cache == cache && View() == AT_START
    {
      this.cache := cache;
      current, next := None, 0;
    }

    method Advance() returns (data: Option<seq<Event>>)
      requires cache.Valid()
      modifies this, cache
      ensures cache.Valid()
      ensures (cache.View(), View()) == NextChunk(cache.chunks, cache.consumers, old(cache.View()), old(View()))
      ensures data == if old(next) < |cache.chunks| then Some(cache.chunks[old(next)]) else None
    {
      if current.Some? {
        cache.ReleaseShard(current.value);
        current := None;
      }
      if next >= |cache.chunks| {
        return None;
      }
      current := Some(next);
      next := next + 1;
      data := cache.AcquireShard(next - 1);
    }
  }

  /** A processor's feed cursor: the current shard and the current relevant row in it. */
  class ProcessorState {
    const seen: Event -> Option<int>
    const reader: EventReader
    var data: Option<seq<Event>>
    var row: Option<nat>

    ghost predicate Valid()
      reads this, reader, reader.cache
    {
      && reader.cache.Valid()
      && (row.Some? ==> data.Some? && row.value < |data.value|)
    }

    /** The relevant rows still to come after the current one, across this and all later shards. */
    ghost function Remaining(): seq<Event>
      requires Valid()
      reads this, reader, reader.cache
    {
      Relevant(seen, if data.None? then [] else data.value[if row.Some? then row.value + 1 else 0..])
      + Relevant(seen, Flatten(Later()))
    }

    ghost function Later(): seq<seq<Event>>
      reads reader
    {
      if reader.next <= |reader.cache.chunks| then reader.cache.chunks[reader.next..] else []
    }

    constructor (seen: Event -> Option<int>, cache: EventReaderCache)
      requires cache.Valid()
      ensures Valid() && this.seen == seen && reader.cache == cache && fresh(reader)
      ensures Remaining() == Relevant(seen, Flatten(cache.chunks))
    {
      this.seen := seen;
      reader := new EventReader(cache);
      data, row := None, None;
      new;
      assert cache.chunks[0..] == cache.chunks;
    }

    /** Find the first relevant row of `rows` from `start` on. */
    static method Scan(seen: Event -> Option<int>, rows: seq<Event>, start: nat) returns (found: Option<nat>)
      requires start <= |rows|
      ensures found.Some? ==> start <= found.value < |rows| && seen(rows[found.value]).Some?
                              && Relevant(seen, rows[start..])
                                   == [rows[found.value]] + Relevant(seen, rows[found.value + 1..])
      ensures found.None? ==> Relevant(seen, rows[start..]) == []
    {
      for rn := start to |rows|
        invariant Relevant(seen, rows[start..]) == Relevant(seen, rows[rn..])
      {
        assert rows[rn..][1..] == rows[rn + 1..];
        if seen(rows[rn]).Some? {
          return Some(rn);
        }
      }
      return None;
    }

    /** The state after delivering the first of `want`, or after running out. */
    ghost predicate Delivered(want: seq<Event>, ts: Option<int>)
      requires Valid()
      reads this, reader, reader.cache
    {
      if want == [] then ts == None && row == None && Remaining() == []
      else
        && row.Some? && data.value[row.value] == want[0]
        && ts == seen(want[0]) && ts.Some?
        && Remaining() == want[1..]
    }

    /** Move to the next relevant row: exactly the next row of the concatenated shards, however they are cut. */
    method Advance() returns (ts: Option<int>)
      requires Valid()
      modifies this, reader, reader.cache
      ensures Valid() && Delivered(old(Remaining()), ts)
    {
      ghost var want := Remaining();
      if data.Some? {
        var start := if row.Some? then row.value + 1 else 0;
        var found := Scan(seen, data.value, start);
        if found.Some? {
          HeadOf(want, Relevant(seen, data.value[start..]), Relevant(seen, Flatten(Later())),
                 data.value[found.value], Relevant(seen, data.value[found.value + 1..]));
          row := found;
          AtHeadDelivers(want);
          return seen(data.value[found.value]);
        }
      }
      var more := AdvanceShards(want);
      if !more {
        return None;
      }
      AtHeadDelivers(want);
      return seen(data.value[row.value]);
    }

    /**
      * The rows the scheduler has yet to dispatch to this processor: the current one and what remains. In the
      * scheduler an asset's row queue is this sequence.
      */
    ghost function Rows(): seq<Event>
      requires Valid()
      reads this, reader, reader.cache
    {
      (if row.Some? then [data.value[row.value]] else []) + Remaining()
    }

    /** The slot holds the time of the row in front, if any. */
    ghost predicate Front(ts: Option<int>)
      requires Valid()
      reads this, reader, reader.cache
    {
      if Rows() == [] then ts == None && row == None else row.Some? && ts == seen(Rows()[0]) && ts.Some?
    }

    lemma DeliveredIsFront(want: seq<Event>, ts: Option<int>)
      requires Valid() && Delivered(want, ts)
      ensures Rows() == want && Front(ts)
    {
      if want != [] {
        assert want == [want[0]] + want[1..];
      }
    }

    /** The current row, loading the next one if there is none. */
    method NextRow() returns (rn: Option<nat>)
      requires Valid()
      modifies this, reader, reader.cache
      ensures Valid() && rn == row && Rows() == old(Rows()) && (row == None ==> Rows() == [])
    {
      if row == None {
        ghost var want := Remaining();
        assert Rows() == want;
        var ts := Advance();
        DeliveredIsFront(want, ts);
      }
      return row;
    }

    /** Dispatch one row: hand out the front of the queue, if any, and advance to the next. */
    method Step() returns (e: Option<Event>, ts: Option<int>)
      requires Valid()
      modifies this, reader, reader.cache
      ensures Valid() && Front(ts)
      ensures if old(Rows()) == [] then e == None && Rows() == [] else e.Some? && old(Rows()) == [e.value] + Rows()
    {
      var rn := NextRow();
      ghost var want := Remaining();
      e := None;
      if rn.Some? {
        e := Some(data.value[rn.value]);
        assert Rows() == [e.value] + want;
      } else {
        assert Rows() == want;
      }
      ts := Advance();
      DeliveredIsFront(want, ts);
    }

    lemma AtHeadDelivers(want: seq<Event>)
      requires Valid() && AtHead(want) && seen(data.value[row.value]).Some?
      ensures Delivered(want, seen(data.value[row.value]))
    {
    }

    /** The relevant rows of the shards not yet taken. */
    ghost function Pending(): seq<Event>
      reads reader
    {
      Relevant(seen, Flatten(Later()))
    }

    /** Take the next shard, if any. */
    method TakeShard()
      requires Valid()
      modifies this, reader, reader.cache
      ensures Valid() && row == None
      ensures data.Some? ==> |Later()| < old(|Later()|) && old(Pending()) == Relevant(seen, data.value) + Pending()
      ensures data.None? ==> Later() == [] && old(Pending()) == Pending() == []
    {
      ghost var later := Later();
      data := reader.Advance();
      row := None;
      if data.Some? {
        assert later == [data.value] + Later();
        RelevantConcat(seen, data.value, Flatten(Later()));
      }
    }

    /** `want` starts with the current row and goes on with what follows it. */
    ghost predicate AtHead(want: seq<Event>)
      reads this, reader
    {
      && data.Some? && row.Some? && row.value < |data.value|
      && want == [data.value[row.value]] + (Relevant(seen, data.value[row.value + 1..]) + Pending())
    }

    /** Take shards until one has a relevant row. */
    method AdvanceShards(ghost want: seq<Event>) returns (found: bool)
      requires Valid() && want == Pending()
      modifies this, reader, reader.cache
      ensures reader.cache.Valid()
      ensures found ==> AtHead(want) && seen(data.value[row.value]).Some?
      ensures !found ==> want == [] && data == None && row == None && Later() == []
    {
      TakeShard();
      while data.Some?
        invariant Valid() && row == None
        invariant data.Some? ==> want == Relevant(seen, data.value) + Pending()
        invariant data.None? ==> want == [] && Later() == []
        decreases data.Some?, |Later()|
      {
        found := ScanShard(want);
        if found {
          return;
        }
        TakeShard();
      }
      return false;
    }

    /** Look for a relevant row in the shard just taken. */
    method ScanShard(ghost want: seq<Event>) returns (found: bool)
      requires Valid() && data.Some? && row == None && want == Relevant(seen, data.value) + Pending()
      modifies this`row
      ensures found ==> AtHead(want) && seen(data.value[row.value]).Some?
      ensures !found ==> row == None && want == Pending()
    {
      var at := Scan(seen, data.value, 0);
      assert data.value[0..] == data.value;
      if at.None? {
        return false;
      }
      HeadOf(want, Relevant(seen, data.value), Pending(), data.value[at.value],
             Relevant(seen, data.value[at.value + 1..]));
      row := at;
      return true;
    }
  }
}
