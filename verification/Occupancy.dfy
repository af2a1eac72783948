/** How many cycles of a window sample each value, clocked and stopped
    (crates/bwave/src/cache.rs). */
module Occupancy {
  import opened Basics
  import opened Waveform
  import opened ClockGrid
  import opened StoppedCycles
  import opened SampledRuns

  type Tally = map<string, nat>

  function Get(m: Tally, v: string): nat {
    if v in m then m[v] else 0
  }

  function Add(m: Tally, v: string, n: nat): Tally {
    m[v := Get(m, v) + n]
  }

  function RetainPositive(m: Tally): Tally {
    map v | v in m && m[v] > 0 :: m[v]
  }

  lemma OnlyPositive(m: Tally)
    ensures forall v :: v in RetainPositive(m) ==> RetainPositive(m)[v] > 0
  {}

  // ---- Totals ----

  ghost function Total(m: Tally): nat {
    if m == map[] then 0
    else
      var v :| v in m;
      m[v] + Total(m - {v})
  }

  lemma {:induction false} TotalSplit(m: Tally, v: string)
    requires v in m
    ensures Total(m) == m[v] + Total(m - {v})
    decreases |m|
  {
    var u :| u in m && Total(m) == m[u] + Total(m - {u});
    if u != v {
      TotalSplit(m - {u}, v);
      TotalSplit(m - {v}, u);
      assert m - {u} - {v} == m - {v} - {u};
    }
  }

  lemma TotalAdd(m: Tally, v: string, n: nat)
    ensures Total(Add(m, v, n)) == Total(m) + n
  {
    var r := Add(m, v, n);
    TotalSplit(r, v);
    if v in m {
      TotalSplit(m, v);
      assert r - {v} == m - {v};
    } else {
      assert r - {v} == m;
    }
  }

  lemma RetainMinus(m: Tally, v: string)
    ensures RetainPositive(m - {v}) == RetainPositive(m) - {v}
    ensures v in m && m[v] == 0 ==> RetainPositive(m) - {v} == RetainPositive(m)
  {}

  lemma {:induction false} TotalRetain(m: Tally)
    ensures Total(RetainPositive(m)) == Total(m)
    decreases |m|
  {
    if m == map[] {
      assert RetainPositive(m) == map[];
    } else {
      var v :| v in m;
      TotalSplit(m, v);
      TotalRetain(m - {v});
      RetainMinus(m, v);
      hide Total;
      if m[v] > 0 { TotalSplit(RetainPositive(m), v); }
    }
  }

  // ---- Per-cycle meaning ----

  /** Cycles of `lo..=hi` that sample `value` and are stopped, or not. */
  ghost function CountCycles(cfg: Config, ts: seq<Transition>, base: int, period: int, lo: int, hi: int, value: string, stopped: bool): nat
    requires Ordered(ts)
    decreases hi - lo + 1
  {
    if hi < lo then 0
    else
      CountCycles(cfg, ts, base, period, lo, hi - 1, value, stopped)
      + if Seen(cfg, ts, base, period, hi) == value && Covers(cfg.clockStopped, hi) == stopped then 1 else 0
  }

  /** The cycles of `lo..=hi` that sample `value` and are stopped, or not. */
  ghost function CyclesSeeing(cfg: Config, ts: seq<Transition>, base: int, period: int, lo: int, hi: int, value: string, stopped: bool): set<int>
    requires Ordered(ts)
  {
    set c | lo <= c <= hi && Seen(cfg, ts, base, period, c) == value && Covers(cfg.clockStopped, c) == stopped
  }

  lemma {:induction false} CountIsCardinality(
    cfg: Config, ts: seq<Transition>, base: int, period: int, lo: int, hi: int, value: string, stopped: bool)
    requires Ordered(ts)
    ensures CountCycles(cfg, ts, base, period, lo, hi, value, stopped) == |CyclesSeeing(cfg, ts, base, period, lo, hi, value, stopped)|
    decreases hi - lo + 1
  {
    hide Seen, Covers;
    if lo <= hi {
      CountIsCardinality(cfg, ts, base, period, lo, hi - 1, value, stopped);
      var before, all := CyclesSeeing(cfg, ts, base, period, lo, hi - 1, value, stopped), CyclesSeeing(cfg, ts, base, period, lo, hi, value, stopped);
      assert all == if Seen(cfg, ts, base, period, hi) == value && Covers(cfg.clockStopped, hi) == stopped then before + {hi} else before;
    }
  }

  /** A run of equal samples counts its covered and uncovered cycles for one value only. */
  lemma {:induction false} CountRun(cfg: Config, ts: seq<Transition>, base: int, period: int, start: int, lo: int, hi: int, value: string, v: string)
    requires Ordered(ts) && start <= lo <= hi + 1
    requires forall c :: lo <= c <= hi ==> Seen(cfg, ts, base, period, c) == value
    ensures CountCycles(cfg, ts, base, period, start, hi, v, true)
         == CountCycles(cfg, ts, base, period, start, lo - 1, v, true)
            + if v == value then CountCovered(cfg.clockStopped, lo, hi) else 0
    ensures CountCovered(cfg.clockStopped, lo, hi) <= hi - lo + 1
    ensures CountCycles(cfg, ts, base, period, start, hi, v, false)
         == CountCycles(cfg, ts, base, period, start, lo - 1, v, false)
            + if v == value then hi - lo + 1 - CountCovered(cfg.clockStopped, lo, hi) else 0
    decreases hi - lo + 1
  {
    if lo <= hi { CountRun(cfg, ts, base, period, start, lo, hi - 1, value, v); }
  }

  /** The two tallies agree with the per-cycle counts up to cycle `next`. */
  ghost predicate Tallied(clocked: Tally, stopped: Tally, cfg: Config, ts: seq<Transition>, base: int, period: int, start: int, next: int)
    requires Ordered(ts)
  {
    && (forall v :: Get(clocked, v) == CountCycles(cfg, ts, base, period, start, next - 1, v, false))
    && (forall v :: Get(stopped, v) == CountCycles(cfg, ts, base, period, start, next - 1, v, true))
    && Total(clocked) + Total(stopped) == next - start
  }

  lemma TalliedStep(clocked: Tally, stopped: Tally, cfg: Config, ts: seq<Transition>, base: int, period: int, start: int, lo: int, hi: int, value: string)
    requires Ordered(ts) && start <= lo <= hi && Ascending(cfg.clockStopped)
    requires forall c :: lo <= c <= hi ==> Seen(cfg, ts, base, period, c) == value
    requires Tallied(clocked, stopped, cfg, ts, base, period, start, lo)
    ensures StoppedCount(cfg.clockStopped, lo, hi) <= hi - lo + 1
    ensures var n := StoppedCount(cfg.clockStopped, lo, hi);
            Tallied(Add(clocked, value, hi - lo + 1 - n), Add(stopped, value, n), cfg, ts, base, period, start, hi + 1)
  {
    var n := StoppedCount(cfg.clockStopped, lo, hi);
    StoppedCountMeaning(cfg.clockStopped, lo, hi);
    CountRun(cfg, ts, base, period, start, lo, hi, value, value);
    TotalAdd(clocked, value, hi - lo + 1 - n);
    TotalAdd(stopped, value, n);
    hide Total, Add, Get;
    forall v
      ensures Get(Add(clocked, value, hi - lo + 1 - n), v) == CountCycles(cfg, ts, base, period, start, hi, v, false)
      ensures Get(Add(stopped, value, n), v) == CountCycles(cfg, ts, base, period, start, hi, v, true)
    {
      CountRun(cfg, ts, base, period, start, lo, hi, value, v);
      AddGet(clocked, value, hi - lo + 1 - n, v);
      AddGet(stopped, value, n, v);
    }
  }

  lemma AddGet(m: Tally, value: string, n: nat, v: string)
    ensures Get(Add(m, value, n), v) == Get(m, v) + if v == value then n else 0
  {}

  lemma TalliedStart(cfg: Config, ts: seq<Transition>, base: int, period: int, start: int)
    requires Ordered(ts)
    ensures Tallied(map[], map[], cfg, ts, base, period, start, start)
  {}

  lemma BoundaryRun(cfg: Config, ts: seq<Transition>, base: nat, period: nat, w: Window, bs: seq<int>, i: nat)
    requires Ordered(ts) && !cfg.asyncMode && 0 < period && 1 <= w.start
    requires w.end <= U64_MAX && Edge(base, period, w.end) <= U64_MAX
    requires Boundaries(bs, cfg, ts, base, period, w) && i < |bs|
    ensures forall c :: bs[i] <= c <= RunEnd(bs, i, w) ==>
              Seen(cfg, ts, base, period, c) == SampledValue(cfg, ts, Edge(base, period, bs[i]))
  {
    forall c | bs[i] <= c <= RunEnd(bs, i, w)
      ensures Seen(cfg, ts, base, period, c) == SampledValue(cfg, ts, Edge(base, period, bs[i]))
    {
      SampleHolds(cfg, ts, base, period, w, bs, i, c);
      SampleIsSeen(cfg, ts, base, period, c);
    }
  }

  lemma TalliedRun(clocked: Tally, stopped: Tally, cfg: Config, ts: seq<Transition>, base: nat, period: nat, w: Window, bs: seq<int>, i: nat)
    requires Ordered(ts) && !cfg.asyncMode && 0 < period && 1 <= w.start && Ascending(cfg.clockStopped)
    requires w.end <= U64_MAX && Edge(base, period, w.end) <= U64_MAX
    requires Boundaries(bs, cfg, ts, base, period, w) && i < |bs| && w.start <= bs[i] <= RunEnd(bs, i, w)
    requires Tallied(clocked, stopped, cfg, ts, base, period, w.start, bs[i])
    ensures var lo, hi, value := bs[i], RunEnd(bs, i, w), SampledValue(cfg, ts, Edge(base, period, bs[i]));
            var n := StoppedCount(cfg.clockStopped, lo, hi);
            && n <= hi - lo + 1
            && Tallied(Add(clocked, value, hi - lo + 1 - n), Add(stopped, value, n), cfg, ts, base, period, w.start, hi + 1)
  {
    hide *;
    BoundaryRun(cfg, ts, base, period, w, bs, i);
    TalliedStep(clocked, stopped, cfg, ts, base, period, w.start, bs[i], RunEnd(bs, i, w), SampledValue(cfg, ts, Edge(base, period, bs[i])));
  }

  /** One tally entry per run of equal samples. */
  method TallyRuns(cfg: Config, base: nat, period: nat, ts: seq<Transition>, w: Window) returns (clocked: Tally, stopped: Tally)
    requires Ordered(ts) && !cfg.asyncMode && 0 < period && 1 <= w.start <= w.end
    requires w.end <= U64_MAX && Edge(base, period, w.end) <= U64_MAX
    requires Ascending(cfg.clockStopped)
    ensures Tallied(clocked, stopped, cfg, ts, base, period, w.start, w.end + 1)
  {
    hide *;
    clocked, stopped := map[], map[];
    var bs := ObservationBoundaries(cfg, base, period, ts, w);
    BoundaryEnds(bs, cfg, ts, base, period, w);
    TalliedStart(cfg, ts, base, period, w.start);
    for i := 0 to |bs|
      invariant Tallied(clocked, stopped, cfg, ts, base, period, w.start, if i < |bs| then bs[i] else w.end + 1)
    {
      var lo := bs[i];
      var hi := if i + 1 < |bs| then bs[i + 1] - 1 else w.end;
      var value := SampledValue(cfg, ts, Edge(base, period, lo));
      var count := StoppedCount(cfg.clockStopped, lo, hi);
      RunEndMeaning(bs, i, w);
      TalliedRun(clocked, stopped, cfg, ts, base, period, w, bs, i);
      clocked := Add(clocked, value, hi - lo + 1 - count);
      stopped := Add(stopped, value, count);
    }
  }

  /** Conservation: each value's clocked and stopped cycles in the query window are counted exactly,
      values that never occur are absent, and all counts add up to the window. */
  method SampledOccupancy(cache: Cache, cfg: Config, base: nat, ts: seq<Transition>, w: Window)
    returns (clocked: Tally, stopped: Tally)
    requires Ordered(ts) && cache.simEnd <= U64_MAX
    requires SampledCycleWindow(cache, cfg, base) == Some(w)
    requires Ascending(cfg.clockStopped)
    ensures SpansWindow(w, cache, cfg, base)
    ensures cfg.asyncMode || (forall c :: !InQueryWindow(cache, cfg, base, c)) ==> clocked == stopped == map[]
    ensures !cfg.asyncMode ==>
              && (forall v :: Get(clocked, v) == |CyclesSeeing(cfg, ts, base, cache.period, w.start, w.end, v, false)|)
              && (forall v :: Get(stopped, v) == |CyclesSeeing(cfg, ts, base, cache.period, w.start, w.end, v, true)|)
              && Total(clocked) + Total(stopped) == Max(w.end - w.start + 1, 0)
    ensures forall v :: (v in clocked ==> clocked[v] > 0) && (v in stopped ==> stopped[v] > 0)
  {
    clocked, stopped := map[], map[];
    WindowMeaning(cache, cfg, base);
    WindowIsOnTrace(cache, cfg, base, w.end);
    WindowIsOnTrace(cache, cfg, base, w.start);
    if cfg.asyncMode { return; }
    if cache.period == 0 || w.start > w.end {
      NothingTallied(cfg, ts, base, cache.period, w);
      return;
    }
    hide *;
    SomethingInWindow(cache, cfg, base, w);
    clocked, stopped := TallyRuns(cfg, base, cache.period, ts, w);
    TalliedEnd(clocked, stopped, cfg, ts, base, cache.period, w.start, w.end + 1);
    OnlyPositive(clocked);
    OnlyPositive(stopped);
    clocked, stopped := RetainPositive(clocked), RetainPositive(stopped);
    TalliesCount(clocked, stopped, cfg, ts, base, cache.period, w);
  }

  lemma NothingTallied(cfg: Config, ts: seq<Transition>, base: int, period: int, w: Window)
    requires Ordered(ts) && w.start > w.end
    ensures Total(map[]) == 0 && forall v, s :: |CyclesSeeing(cfg, ts, base, period, w.start, w.end, v, s)| == Get(map[], v)
  {
    forall v, s ensures CyclesSeeing(cfg, ts, base, period, w.start, w.end, v, s) == {} {}
  }

  lemma SomethingInWindow(cache: Cache, cfg: Config, base: nat, w: Window)
    requires SpansWindow(w, cache, cfg, base) && w.start <= w.end
    ensures InQueryWindow(cache, cfg, base, w.start) && Max(w.end - w.start + 1, 0) == w.end + 1 - w.start
  {}

  lemma TalliesCount(clocked: Tally, stopped: Tally, cfg: Config, ts: seq<Transition>, base: int, period: int, w: Window)
    requires Ordered(ts)
    requires forall v :: Get(clocked, v) == CountCycles(cfg, ts, base, period, w.start, w.end, v, false)
    requires forall v :: Get(stopped, v) == CountCycles(cfg, ts, base, period, w.start, w.end, v, true)
    ensures forall v :: Get(clocked, v) == |CyclesSeeing(cfg, ts, base, period, w.start, w.end, v, false)|
    ensures forall v :: Get(stopped, v) == |CyclesSeeing(cfg, ts, base, period, w.start, w.end, v, true)|
  {
    hide *;
    forall v
      ensures Get(clocked, v) == |CyclesSeeing(cfg, ts, base, period, w.start, w.end, v, false)|
      ensures Get(stopped, v) == |CyclesSeeing(cfg, ts, base, period, w.start, w.end, v, true)|
    {
      CountIsCardinality(cfg, ts, base, period, w.start, w.end, v, false);
      CountIsCardinality(cfg, ts, base, period, w.start, w.end, v, true);
    }
  }

  lemma TalliedEnd(clocked: Tally, stopped: Tally, cfg: Config, ts: seq<Transition>, base: int, period: int, start: int, next: int)
    requires Ordered(ts) && Tallied(clocked, stopped, cfg, ts, base, period, start, next)
    ensures Tallied(RetainPositive(clocked), RetainPositive(stopped), cfg, ts, base, period, start, next)
    ensures forall v :: Get(RetainPositive(clocked), v) == CountCycles(cfg, ts, base, period, start, next - 1, v, false)
    ensures forall v :: Get(RetainPositive(stopped), v) == CountCycles(cfg, ts, base, period, start, next - 1, v, true)
    ensures Total(RetainPositive(clocked)) + Total(RetainPositive(stopped)) == next - start
  {
    TotalRetain(clocked);
    TotalRetain(stopped);
    forall v
      ensures Get(RetainPositive(clocked), v) == Get(clocked, v)
      ensures Get(RetainPositive(stopped), v) == Get(stopped, v)
    {}
  }
}
