/** Compressed synchronous queries: sampled values change only at observation
    boundaries, so events and occupancy follow raw transitions, not cycles
    (crates/bwave/src/cache.rs, crates/bwave/src/lib.rs). */
module SampledRuns {
  import opened Basics
  import opened Arithmetic
  import opened Waveform
  import opened Ordering
  import opened Matching
  import opened ClockGrid
  import opened StoppedCycles

  datatype Cache = Cache(period: nat, simEnd: nat)

  datatype Config = Config(
    preEdge: bool,
    asyncMode: bool,
    timeMin: Int64,
    timeMax: Option<Int64>,
    includeStopped: bool,
    findQuery: bool,
    sampleAtQuery: bool,
    clockStopped: seq<Interval>)
  {
    /** The edge keeps its identity; only the observation moves. */
    function SampleTick(edge: int): Option<int> {
      if preEdge && !asyncMode then (if edge >= 1 then Some(edge - 1) else None) else Some(edge)
    }

    /** 1 under pre-edge sampling, else 0. */
    function Delay(): int {
      if preEdge then 1 else 0
    }
  }

  function SampledValue(cfg: Config, ts: seq<Transition>, edge: int): string
    requires Ordered(ts)
  {
    match cfg.SampleTick(edge)
    case Some(tick) => ValueAtTick(ts, tick)
    case None => "x"
  }

  // ---- The query window ----

  datatype Window = Window(start: nat, end: nat)

  function ToU64(n: int): Option<nat> {
    if 0 <= n <= U64_MAX then Some(n) else None
  }

  /** Absent when the cycle count would overflow, where the source aborts. */
  function SampledCycleWindow(cache: Cache, cfg: Config, base: nat): Option<Window> {
    var total :=
      if cache.period == 0 || base > cache.simEnd then Some(0)
      else CheckedAdd((cache.simEnd - base) / cache.period, 1);
    if total.None? then None
    else
      var start := match ToU64(cfg.timeMin) case Some(n) => Max(n, 1) case None => 1;
      var end := match cfg.timeMax
                 case None => total.value
                 case Some(max) => match ToU64(max) case Some(n) => Min(n, total.value) case None => 0;
      Some(Window(start, end))
  }

  /** Every window cycle has a representable edge inside the simulation, and the
      count overflows only for a 1-tick clock over the whole tick range. */
  lemma WindowIsOnTrace(cache: Cache, cfg: Config, base: nat, c: int)
    requires cache.simEnd <= U64_MAX
    ensures SampledCycleWindow(cache, cfg, base).None? <==> cache.period == 1 && base == 0 && cache.simEnd == U64_MAX
    ensures SampledCycleWindow(cache, cfg, base).Some? ==>
              var w := SampledCycleWindow(cache, cfg, base).value;
              && 1 <= w.start && w.end <= U64_MAX
              && (w.start <= c <= w.end ==> 0 < cache.period && Edge(base, cache.period, c) <= cache.simEnd)
  {
    var p := cache.period;
    if 0 < p && base <= cache.simEnd {
      var x := cache.simEnd - base;
      DivBounds(x, p);
      if 1 < p && x > 0 { MulMono(2, p, x / p); }
      if 1 <= c <= x / p + 1 { MulMono(c - 1, x / p, p); }
    }
  }

  /** A cycle the query looks at: its edge is on the simulated part of the grid and its number within the
      bounds of the query. */
  ghost predicate InQueryWindow(cache: Cache, cfg: Config, base: nat, c: int) {
    && 1 <= c && 0 < cache.period && base <= cache.simEnd && base + (c - 1) * cache.period <= cache.simEnd
    && cfg.timeMin <= c && (cfg.timeMax.Some? ==> c <= cfg.timeMax.value)
  }

  ghost predicate SpansWindow(w: Window, cache: Cache, cfg: Config, base: nat) {
    forall c :: w.start <= c <= w.end <==> InQueryWindow(cache, cfg, base, c)
  }

  /** The two ends hold exactly the cycles the query looks at. */
  lemma WindowMeaning(cache: Cache, cfg: Config, base: nat)
    requires SampledCycleWindow(cache, cfg, base).Some?
    ensures SpansWindow(SampledCycleWindow(cache, cfg, base).value, cache, cfg, base)
  {
    var w := SampledCycleWindow(cache, cfg, base).value;
    forall c ensures w.start <= c <= w.end <==> InQueryWindow(cache, cfg, base, c) {
      if 1 <= c && 0 < cache.period && base <= cache.simEnd { EdgeInSimulation(base, cache.period, cache.simEnd, c); }
    }
  }

  lemma EdgeInSimulation(base: nat, period: nat, simEnd: nat, c: int)
    requires 1 <= c && 0 < period && base <= simEnd
    ensures c <= (simEnd - base) / period + 1 <==> base + (c - 1) * period <= simEnd
  {
    var x := simEnd - base;
    DivBounds(x, period);
    if c - 1 <= x / period { MulMono(c - 1, x / period, period); }
    if x / period < c - 1 {
      MulMono(x / period + 1, c - 1, period);
      assert (x / period + 1) * period == x / period * period + period;
    }
  }

  // ---- Per-cycle meaning ----

  function Sample(cfg: Config, ts: seq<Transition>, base: int, period: int, c: int): string
    requires Ordered(ts)
  {
    SampledValue(cfg, ts, Edge(base, period, c))
  }

  /** What a walk over the grid compares with: nothing before the first eligible edge. */
  function PreviousSample(cfg: Config, ts: seq<Transition>, base: int, period: int, c: int): Option<string>
    requires Ordered(ts)
  {
    if c > 1 then Some(Sample(cfg, ts, base, period, c - 1)) else None
  }

  /** Does the event happen at cycle `c` of the per-cycle walk? */
  predicate Fires(cfg: Config, ts: seq<Transition>, base: int, period: int, width: nat, literal: string, c: int)
    requires Ordered(ts)
  {
    TriggerMode.Classify(literal).Matches(
      PreviousSample(cfg, ts, base, period, c), Sample(cfg, ts, base, period, c), width, literal)
  }

  /** The value a query sees in cycle `c`: the one in force at the opening edge, or one tick before it. */
  ghost function Seen(cfg: Config, ts: seq<Transition>, base: int, period: int, c: int): string
    requires Ordered(ts)
  {
    ValueAtTick(ts, base + (c - 1) * period - if cfg.preEdge && !cfg.asyncMode then 1 else 0)
  }

  lemma SampleIsSeen(cfg: Config, ts: seq<Transition>, base: int, period: int, c: int)
    requires Ordered(ts)
    ensures Sample(cfg, ts, base, period, c) == Seen(cfg, ts, base, period, c)
  {
    if Edge(base, period, c) < 1 { ValueAtTickMeaning(ts, Edge(base, period, c) - 1); }
  }

  /** The event in cycle `c`: an edge is a step of a one-bit signal against the cycle before, a change a step of
      any signal, and any other literal a level the value agrees with. */
  ghost predicate Occurs(cfg: Config, ts: seq<Transition>, base: int, period: int, width: nat, literal: string, c: int)
    requires Ordered(ts)
  {
    var before, now := Seen(cfg, ts, base, period, c - 1), Seen(cfg, ts, base, period, c);
    if SameText(literal, "rising") then width == 1 && c > 1 && before == "0" && now == "1"
    else if SameText(literal, "falling") then width == 1 && c > 1 && before == "1" && now == "0"
    else if SameText(literal, "change") then c > 1 && before != now
    else Agrees(now, literal)
  }

  lemma FiresOccurs(cfg: Config, ts: seq<Transition>, base: int, period: int, width: nat, literal: string, c: int)
    requires Ordered(ts)
    ensures Fires(cfg, ts, base, period, width, literal, c) <==> Occurs(cfg, ts, base, period, width, literal, c)
  {
    SampleIsSeen(cfg, ts, base, period, c);
    SampleIsSeen(cfg, ts, base, period, c - 1);
    MatchesHappens(PreviousSample(cfg, ts, base, period, c), Sample(cfg, ts, base, period, c), width, literal);
    hide Sample, Seen, SameText, Agrees, TriggerMode.Classify, TriggerMode.Matches;
  }

  // ---- Observation boundaries ----

  /** The cycle whose sample is the first to see a transition. */
  function ObservingCycle(cfg: Config, base: nat, period: nat, tick: nat): Option<nat>
    requires 0 < period
  {
    match CheckedAdd(tick, cfg.Delay())
    case None => None
    case Some(observation) =>
      if observation <= base then None
      else
        var offset := observation - base;
        CheckedAdd(offset / period, (if offset % period != 0 then 1 else 0) + 1)
  }

  /** Transitions between two neighbouring observations are those first seen by the later one. */
  lemma ObservedBetween(cfg: Config, base: nat, period: nat, tick: nat, c: int)
    requires 0 < period && 2 <= c <= U64_MAX && Edge(base, period, c) <= U64_MAX
    ensures Edge(base, period, c - 1) < tick + (if cfg.preEdge then 1 else 0) <= Edge(base, period, c)
       <==> ObservingCycle(cfg, base, period, tick) == Some(c)
  {
    var observation := tick + cfg.Delay();
    EdgeMono(base, period, 1, c - 1);
    if base < observation <= U64_MAX {
      var offset := observation - base;
      DivBounds(offset, period);
      if (c - 2) * period < offset <= (c - 1) * period {
        if offset == (c - 1) * period {
          ExactMod(offset, period, c - 1);
        } else {
          DivUnique(offset, period, c - 2);
        }
      } else if offset / period == c - 1 {
        assert (c - 1) * period == (c - 2) * period + period;
      }
    }
  }

  /** Where no transition is first observed, the sample repeats. */
  lemma SampleRepeats(cfg: Config, ts: seq<Transition>, base: nat, period: nat, c: int)
    requires Ordered(ts) && !cfg.asyncMode && 0 < period && 2 <= c <= U64_MAX && Edge(base, period, c) <= U64_MAX
    requires forall i :: 0 <= i < |ts| ==> ObservingCycle(cfg, base, period, ts[i].tick) != Some(c)
    ensures Sample(cfg, ts, base, period, c) == Sample(cfg, ts, base, period, c - 1)
  {
    var from, to := Edge(base, period, c - 1), Edge(base, period, c);
    EdgeMono(base, period, c - 1, c);
    EdgeMono(base, period, 1, c - 1);
    forall i | 0 <= i < |ts| ensures !(from - cfg.Delay() < ts[i].tick <= to - cfg.Delay()) {
      ObservedBetween(cfg, base, period, ts[i].tick, c);
    }
    ValueHolds(ts, from - cfg.Delay(), to - cfg.Delay());
    if from - cfg.Delay() < 0 { ValueAtTickMeaning(ts, from - cfg.Delay()); }
  }

  /** `bs` are the cycles of the window where a run may begin. */
  ghost predicate Boundaries(bs: seq<int>, cfg: Config, ts: seq<Transition>, base: nat, period: nat, w: Window)
    requires 0 < period
  {
    && StrictlyIncreasing(bs)
    && |bs| > 0 && bs[0] == w.start
    && (forall i :: 0 <= i < |bs| ==> w.start <= bs[i] <= w.end)
    && (forall i :: 0 <= i < |ts| ==>
          var o := ObservingCycle(cfg, base, period, ts[i].tick);
          o.Some? && w.start < o.value <= w.end ==> o.value in bs)
  }

  /** Some transition is first observed in cycle `c`. */
  ghost predicate FirstSees(cfg: Config, ts: seq<Transition>, base: nat, period: nat, c: int)
    requires 0 < period
  {
    exists i :: 0 <= i < |ts| && ObservingCycle(cfg, base, period, ts[i].tick) == Some(c)
  }

  /** Apart from the window's start, boundaries come from transitions, so they are few. */
  method ObservationBoundaries(cfg: Config, base: nat, period: nat, ts: seq<Transition>, w: Window) returns (bs: seq<int>)
    requires 0 < period && w.start <= w.end
    ensures Boundaries(bs, cfg, ts, base, period, w)
    ensures |bs| <= |ts| + 1 && forall c :: c in bs ==> c == w.start || FirstSees(cfg, ts, base, period, c)
  {
    var boundaries := [w.start];
    for k := 0 to |ts|
      invariant |boundaries| <= k + 1
      invariant forall c :: c in boundaries ==> c == w.start || FirstSees(cfg, ts, base, period, c)
      invariant w.start in boundaries
      invariant forall c :: c in boundaries ==> w.start <= c <= w.end
      invariant forall i :: 0 <= i < k ==>
                  var o := ObservingCycle(cfg, base, period, ts[i].tick);
                  o.Some? && w.start < o.value <= w.end ==> o.value in boundaries
    {
      var observation := CheckedAdd(ts[k].tick, cfg.Delay());
      if observation.None? { continue; }
      if observation.value <= base { continue; }
      var offset := observation.value - base;
      var cycle := CheckedAdd(offset / period, (if offset % period != 0 then 1 else 0) + 1);
      if cycle.None? { continue; }
      if cycle.value > w.start && cycle.value <= w.end {
        assert ObservingCycle(cfg, base, period, ts[k].tick) == Some(cycle.value);
        boundaries := boundaries + [cycle.value];
      }
    }
    bs := SortDedup(boundaries);
    SortDedupMeaning(boundaries);
    assert forall i :: 0 <= i < |bs| ==> bs[i] in bs;
    var i :| 0 <= i < |bs| && bs[i] == w.start;
  }

  /** Last cycle before the next boundary. */
  function RunEnd(bs: seq<int>, i: nat, w: Window): int
    requires i < |bs|
  {
    if i + 1 < |bs| then bs[i + 1] - 1 else w.end
  }

  lemma RunEndMeaning(bs: seq<int>, i: nat, w: Window)
    requires i < |bs|
    ensures RunEnd(bs, i, w) == if i + 1 < |bs| then bs[i + 1] - 1 else w.end
  {}

  /** Between two boundaries every sample equals the first. */
  lemma {:induction false} SampleHolds(cfg: Config, ts: seq<Transition>, base: nat, period: nat, w: Window, bs: seq<int>, i: nat, c: int)
    requires Ordered(ts) && !cfg.asyncMode && 0 < period && 1 <= w.start
    requires w.end <= U64_MAX && Edge(base, period, w.end) <= U64_MAX
    requires Boundaries(bs, cfg, ts, base, period, w) && i < |bs| && bs[i] <= c <= RunEnd(bs, i, w)
    ensures Sample(cfg, ts, base, period, c) == Sample(cfg, ts, base, period, bs[i])
    decreases c - bs[i]
  {
    if bs[i] < c {
      SampleHolds(cfg, ts, base, period, w, bs, i, c - 1);
      assert c !in bs by {
        forall j | 0 <= j < |bs| ensures bs[j] != c {
          assert j < i ==> bs[j] < bs[i];
          assert i + 1 < j ==> bs[i + 1] < bs[j];
        }
      }
      EdgeMono(base, period, c, w.end);
      SampleRepeats(cfg, ts, base, period, c);
    }
  }

  // ---- Runs of events ----

  /** Sorts the runs and merges those that overlap or touch. */
  method UnionCycleRuns(runs: seq<Interval>) returns (union: seq<Interval>)
    requires NonEmpty(runs) && Fits(runs)
    ensures Separated(union) && Fits(union) && |union| <= |runs|
    ensures forall c :: Covers(union, c) <==> Covers(runs, c)
  {
    hide Merged, Covers, Separated, SortedByLow, SortRuns, NonEmpty, Fits, SaturatingAdd;
    var sorted := SortRuns(runs);
    SortedRuns(runs);
    union := [];
    MergedEnds(union, sorted, 0);
    for k := 0 to |sorted|
      invariant Merged(union, sorted, k) && |union| <= k
    {
      var r := sorted[k];
      if union != [] && r.lo <= SaturatingAdd(union[|union| - 1].hi, 1) {
        var last := union[|union| - 1];
        MergeOverlapping(union, sorted, k);
        union := union[|union| - 1 := Interval(last.lo, Max(last.hi, r.hi))];
      } else {
        MergeApart(union, sorted, k);
        union := union + [r];
      }
    }
    MergedEnds(union, sorted, |sorted|);
  }

  lemma SortedRuns(runs: seq<Interval>)
    requires NonEmpty(runs) && Fits(runs)
    ensures var sorted := SortRuns(runs);
            && SortedByLow(sorted) && NonEmpty(sorted) && Fits(sorted) && |sorted| == |runs|
            && forall c :: Covers(sorted, c) <==> Covers(runs, c)
  {
    var sorted := SortRuns(runs);
    SortRunsMeaning(runs);
    SameElementsCoverSame(sorted, runs);
    assert forall i :: 0 <= i < |sorted| ==> sorted[i] in sorted;
  }

  /** The first `k` sorted runs, merged. */
  ghost predicate Merged(union: seq<Interval>, sorted: seq<Interval>, k: nat)
    requires k <= |sorted|
  {
    && Separated(union) && Fits(union)
    && (union == [] <==> k == 0)
    && (union != [] && k < |sorted| ==> union[|union| - 1].lo <= sorted[k].lo)
    && (forall c :: Covers(union, c) <==> Covers(sorted[..k], c))
  }

  lemma MergedEnds(union: seq<Interval>, sorted: seq<Interval>, k: nat)
    requires k <= |sorted|
    ensures Merged([], sorted, 0)
    ensures k == |sorted| && Merged(union, sorted, k) ==>
              Separated(union) && Fits(union) && forall c :: Covers(union, c) <==> Covers(sorted, c)
  {
    assert sorted[..|sorted|] == sorted;
  }

  lemma MergeApart(union: seq<Interval>, sorted: seq<Interval>, k: nat)
    requires SortedByLow(sorted) && NonEmpty(sorted) && Fits(sorted) && k < |sorted| && Merged(union, sorted, k)
    requires union != [] ==> SaturatingAdd(union[|union| - 1].hi, 1) < sorted[k].lo
    ensures Merged(union + [sorted[k]], sorted, k + 1)
  {
    CoversAppend(union, sorted[k]);
    CoversAppend(sorted[..k], sorted[k]);
    assert sorted[..k + 1] == sorted[..k] + [sorted[k]];
  }

  lemma MergeOverlapping(union: seq<Interval>, sorted: seq<Interval>, k: nat)
    requires SortedByLow(sorted) && NonEmpty(sorted) && Fits(sorted) && k < |sorted| && Merged(union, sorted, k)
    requires union != [] && sorted[k].lo <= SaturatingAdd(union[|union| - 1].hi, 1)
    ensures var last := union[|union| - 1];
            Merged(union[|union| - 1 := Interval(last.lo, Max(last.hi, sorted[k].hi))], sorted, k + 1)
  {
    var n := |union| - 1;
    var init, last, r := union[..n], union[n], sorted[k];
    var merged := Interval(last.lo, Max(last.hi, r.hi));
    assert union == init + [last];
    assert union[n := merged] == init + [merged];
    CoversAppend(init, last);
    CoversAppend(init, merged);
    CoversAppend(sorted[..k], r);
    assert sorted[..k + 1] == sorted[..k] + [r];
  }

  /** Stopped cycles are excluded only from level matches of find and sample. */
  predicate ExcludesStops(cfg: Config, literal: string) {
    TriggerMode.Classify(literal).Literal? && !cfg.includeStopped && (cfg.findQuery || cfg.sampleAtQuery)
  }

  /** A level searched for or sampled at is not reported while the clock stands still, unless asked for. */
  ghost predicate DropsStopped(cfg: Config, literal: string) {
    IsLevel(literal) && (cfg.findQuery || cfg.sampleAtQuery) && !cfg.includeStopped
  }

  lemma ExcludesIsDrops(cfg: Config, literal: string)
    ensures ExcludesStops(cfg, literal) <==> DropsStopped(cfg, literal)
  {
    MatchesHappens(None, "", 0, literal);
    hide IsLevel, TriggerMode.Classify, TriggerMode.Matches, Happens;
  }

  /** Raw runs up to the boundary with index `i`. */
  ghost predicate RunsUpTo(
    runs: seq<Interval>, cfg: Config, ts: seq<Transition>, base: nat, period: nat, width: nat, literal: string, start: int, next: int)
    requires Ordered(ts)
  {
    && NonEmpty(runs)
    && (forall k :: 0 <= k < |runs| ==> runs[k].hi < next)
    && (forall c :: Covers(runs, c) <==> start <= c < next && Fires(cfg, ts, base, period, width, literal, c))
  }

  /** A literal that matches at a boundary matches until the next; an edge or a
      change can only happen at the boundary itself. */
  lemma FiresWithinRun(
    cfg: Config, ts: seq<Transition>, base: nat, period: nat, w: Window, bs: seq<int>, i: nat, width: nat, literal: string, c: int)
    requires Ordered(ts) && !cfg.asyncMode && 0 < period && 1 <= w.start
    requires w.end <= U64_MAX && Edge(base, period, w.end) <= U64_MAX
    requires Boundaries(bs, cfg, ts, base, period, w) && i < |bs| && bs[i] < c <= RunEnd(bs, i, w)
    ensures Fires(cfg, ts, base, period, width, literal, c)
       <==> TriggerMode.Classify(literal).Literal? && Fires(cfg, ts, base, period, width, literal, bs[i])
  {
    SampleHolds(cfg, ts, base, period, w, bs, i, c);
    SampleHolds(cfg, ts, base, period, w, bs, i, c - 1);
  }

  /** The next run, when the boundary fires. */
  lemma RunsStep(
    runs: seq<Interval>, cfg: Config, ts: seq<Transition>, base: nat, period: nat, w: Window, bs: seq<int>, i: nat, width: nat, literal: string)
    requires Ordered(ts) && !cfg.asyncMode && 0 < period && 1 <= w.start
    requires w.end <= U64_MAX && Edge(base, period, w.end) <= U64_MAX
    requires Boundaries(bs, cfg, ts, base, period, w) && i < |bs|
    requires RunsUpTo(runs, cfg, ts, base, period, width, literal, w.start, bs[i])
    ensures Fires(cfg, ts, base, period, width, literal, bs[i]) ==>
              RunsUpTo(runs + [Interval(bs[i], if TriggerMode.Classify(literal).Literal? then RunEnd(bs, i, w) else bs[i])],
                       cfg, ts, base, period, width, literal, w.start, RunEnd(bs, i, w) + 1)
    ensures !Fires(cfg, ts, base, period, width, literal, bs[i]) ==>
              RunsUpTo(runs, cfg, ts, base, period, width, literal, w.start, RunEnd(bs, i, w) + 1)
  {
    var lo, hi := bs[i], RunEnd(bs, i, w);
    assert lo <= hi by { assert i + 1 < |bs| ==> bs[i] < bs[i + 1]; }
    forall c | lo < c <= hi
      ensures Fires(cfg, ts, base, period, width, literal, c)
         <==> TriggerMode.Classify(literal).Literal? && Fires(cfg, ts, base, period, width, literal, lo)
    {
      FiresWithinRun(cfg, ts, base, period, w, bs, i, width, literal, c);
    }
    hide Fires, Boundaries, RunsUpTo;
    if Fires(cfg, ts, base, period, width, literal, lo) {
      RunsAdd(runs, cfg, ts, base, period, width, literal, w.start, lo, hi);
    } else {
      RunsSkip(runs, cfg, ts, base, period, width, literal, w.start, lo, hi);
    }
  }

  lemma RunsAdd(
    runs: seq<Interval>, cfg: Config, ts: seq<Transition>, base: nat, period: nat, width: nat, literal: string, start: nat, lo: nat, hi: nat)
    requires Ordered(ts) && start <= lo <= hi
    requires RunsUpTo(runs, cfg, ts, base, period, width, literal, start, lo)
    requires Fires(cfg, ts, base, period, width, literal, lo)
    requires forall c :: lo < c <= hi ==> (Fires(cfg, ts, base, period, width, literal, c) <==> TriggerMode.Classify(literal).Literal?)
    ensures RunsUpTo(runs + [Interval(lo, if TriggerMode.Classify(literal).Literal? then hi else lo)],
                     cfg, ts, base, period, width, literal, start, hi + 1)
  {
    hide Fires, TriggerMode.Classify;
    CoversAppend(runs, Interval(lo, if TriggerMode.Classify(literal).Literal? then hi else lo));
  }

  lemma RunsSkip(
    runs: seq<Interval>, cfg: Config, ts: seq<Transition>, base: nat, period: nat, width: nat, literal: string, start: nat, lo: nat, hi: nat)
    requires Ordered(ts) && start <= lo <= hi
    requires RunsUpTo(runs, cfg, ts, base, period, width, literal, start, lo)
    requires forall c :: lo <= c <= hi ==> !Fires(cfg, ts, base, period, width, literal, c)
    ensures RunsUpTo(runs, cfg, ts, base, period, width, literal, start, hi + 1)
  {
    hide Fires;
  }

  /** What a run of equal samples hands to the next boundary to compare with. */
  lemma PreviousAtBoundary(cfg: Config, ts: seq<Transition>, base: nat, period: nat, w: Window, bs: seq<int>, i: nat)
    requires Ordered(ts) && !cfg.asyncMode && 0 < period && 1 <= w.start
    requires w.end <= U64_MAX && Edge(base, period, w.end) <= U64_MAX
    requires Boundaries(bs, cfg, ts, base, period, w) && i + 1 < |bs|
    ensures PreviousSample(cfg, ts, base, period, bs[i + 1]) == Some(SampledValue(cfg, ts, Edge(base, period, bs[i])))
  {
    assert bs[i] < bs[i + 1];
    SampleHolds(cfg, ts, base, period, w, bs, i, bs[i + 1] - 1);
  }

  lemma FiresMeaning(cfg: Config, ts: seq<Transition>, base: nat, period: nat, width: nat, literal: string, c: int)
    requires Ordered(ts)
    ensures Fires(cfg, ts, base, period, width, literal, c)
       <==> TriggerMode.Classify(literal).Matches(
              PreviousSample(cfg, ts, base, period, c), SampledValue(cfg, ts, Edge(base, period, c)), width, literal)
  {}

  lemma BoundaryEnds(bs: seq<int>, cfg: Config, ts: seq<Transition>, base: nat, period: nat, w: Window)
    requires 0 < period && Boundaries(bs, cfg, ts, base, period, w)
    ensures |bs| > 0 && bs[0] == w.start
    ensures forall i :: 0 <= i < |bs| ==> w.start <= bs[i] <= RunEnd(bs, i, w) <= w.end
  {
    forall i | 0 <= i < |bs| ensures w.start <= bs[i] <= RunEnd(bs, i, w) <= w.end {
      assert i + 1 < |bs| ==> bs[i] < bs[i + 1];
    }
  }

  lemma NoRuns(cfg: Config, ts: seq<Transition>, base: nat, period: nat, width: nat, literal: string, start: nat)
    requires Ordered(ts)
    ensures RunsUpTo([], cfg, ts, base, period, width, literal, start, start)
  {}

  lemma AllRuns(runs: seq<Interval>, cfg: Config, ts: seq<Transition>, base: nat, period: nat, width: nat, literal: string, w: Window)
    requires Ordered(ts) && w.end <= U64_MAX
    requires RunsUpTo(runs, cfg, ts, base, period, width, literal, w.start, w.end + 1)
    ensures NonEmpty(runs) && Fits(runs)
    ensures forall c :: Covers(runs, c) <==> w.start <= c <= w.end && Fires(cfg, ts, base, period, width, literal, c)
  {}

  /** One raw run per boundary at most: the whole stretch for a literal, the boundary for an edge or change. */
  method RawRuns(cfg: Config, base: nat, period: nat, ts: seq<Transition>, width: nat, literal: string, w: Window)
    returns (runs: seq<Interval>)
    requires Ordered(ts) && !cfg.asyncMode && 0 < period && 1 <= w.start <= w.end <= U64_MAX
    requires Edge(base, period, w.end) <= U64_MAX
    ensures NonEmpty(runs) && Fits(runs) && |runs| <= |ts| + 1
    ensures forall c :: Covers(runs, c) <==> w.start <= c <= w.end && Fires(cfg, ts, base, period, width, literal, c)
  {
    var bs := ObservationBoundaries(cfg, base, period, ts, w);
    var mode := TriggerMode.Classify(literal);
    runs := [];
    var previous := if w.start > 1 then Some(SampledValue(cfg, ts, Edge(base, period, w.start - 1))) else None;
    BoundaryEnds(bs, cfg, ts, base, period, w);
    NoRuns(cfg, ts, base, period, width, literal, w.start);
    assert previous == PreviousSample(cfg, ts, base, period, w.start);
    hide RunsUpTo, Boundaries, Edge, SampledValue, Sample, PreviousSample, Fires, TriggerMode.Matches, TriggerMode.Classify,
         Covers, Ordered, FirstSees, NonEmpty, Fits;
    for i := 0 to |bs|
      invariant RunsUpTo(runs, cfg, ts, base, period, width, literal, w.start, if i < |bs| then bs[i] else w.end + 1)
      invariant i < |bs| ==> previous == PreviousSample(cfg, ts, base, period, bs[i])
      invariant |runs| <= i
    {
      var lo := bs[i];
      var hi := if i + 1 < |bs| then bs[i + 1] - 1 else w.end;
      var current := SampledValue(cfg, ts, Edge(base, period, lo));
      FiresMeaning(cfg, ts, base, period, width, literal, lo);
      RunsStep(runs, cfg, ts, base, period, w, bs, i, width, literal);
      if mode.Matches(previous, current, width, literal) {
        runs := runs + [Interval(lo, if mode.Literal? then hi else lo)];
      }
      if i + 1 < |bs| { PreviousAtBoundary(cfg, ts, base, period, w, bs, i); }
      previous := Some(current);
    }
    AllRuns(runs, cfg, ts, base, period, width, literal, w);
  }

  /** The runs cover exactly the cycles of the query window in which the event occurs, minus stopped cycles where
      the query drops them. There are at most one more runs than transitions and stops. */
  method SampledEventRuns(cache: Cache, cfg: Config, base: nat, ts: seq<Transition>, width: nat, literal: string, w: Window)
    returns (result: seq<Interval>)
    requires Ordered(ts) && !cfg.asyncMode && cache.simEnd <= U64_MAX
    requires SampledCycleWindow(cache, cfg, base) == Some(w)
    requires Ascending(cfg.clockStopped) && Fits(cfg.clockStopped)
    ensures Ascending(result) && Fits(result)
    ensures forall c :: Covers(result, c) <==>
              && InQueryWindow(cache, cfg, base, c) && Occurs(cfg, ts, base, cache.period, width, literal, c)
              && (DropsStopped(cfg, literal) ==> !Covers(cfg.clockStopped, c) || c == U64_MAX)
    ensures StopsEndEarly(cfg) ==>
              forall c :: Covers(result, c) <==>
                && InQueryWindow(cache, cfg, base, c) && Occurs(cfg, ts, base, cache.period, width, literal, c)
                && (DropsStopped(cfg, literal) ==> !Covers(cfg.clockStopped, c))
    ensures !DropsStopped(cfg, literal) ==> Separated(result)
    ensures |result| <= |ts| + 1 + if DropsStopped(cfg, literal) then |cfg.clockStopped| else 0
  {
    WindowIsOnTrace(cache, cfg, base, w.end);
    WindowIsOnTrace(cache, cfg, base, w.start);
    WindowMeaning(cache, cfg, base);
    hide *;
    ExcludesIsDrops(cfg, literal);
    EventsOfWindow(cache, cfg, base, ts, width, literal, w);
    if w.start > w.end {
      NothingAscends();
      return [];
    }
    var runs := RawRuns(cfg, base, cache.period, ts, width, literal, w);
    var union := UnionCycleRuns(runs);
    SeparatedIsAscending(union);
    if ExcludesStops(cfg, literal) {
      result := ExcludeStopped(union, cfg.clockStopped);
      AfterExclusion(union, cfg, result);
    } else {
      result := union;
    }
  }

  lemma NothingAscends()
    ensures Separated([]) && Ascending([]) && Fits([]) && forall c :: !Covers([], c)
  {}

  /** The walk fires in the window exactly where the event occurs in a cycle the query looks at. */
  lemma EventsOfWindow(cache: Cache, cfg: Config, base: nat, ts: seq<Transition>, width: nat, literal: string, w: Window)
    requires Ordered(ts) && SpansWindow(w, cache, cfg, base)
    ensures forall c :: w.start <= c <= w.end && Fires(cfg, ts, base, cache.period, width, literal, c)
                   <==> InQueryWindow(cache, cfg, base, c) && Occurs(cfg, ts, base, cache.period, width, literal, c)
    ensures w.start > w.end ==> forall c :: !InQueryWindow(cache, cfg, base, c)
  {
    hide InQueryWindow, Occurs, Fires;
    forall c
      ensures w.start <= c <= w.end && Fires(cfg, ts, base, cache.period, width, literal, c)
         <==> InQueryWindow(cache, cfg, base, c) && Occurs(cfg, ts, base, cache.period, width, literal, c)
    {
      FiresOccurs(cfg, ts, base, cache.period, width, literal, c);
    }
  }

  /** No stop reaches the last cycle number; true of every analysis (`ClockGrid.StoppedCyclesEndEarly`). */
  ghost predicate StopsEndEarly(cfg: Config) {
    forall i :: 0 <= i < |cfg.clockStopped| ==> cfg.clockStopped[i].hi < U64_MAX
  }

  lemma AfterExclusion(runs: seq<Interval>, cfg: Config, result: seq<Interval>)
    requires forall c :: Covers(result, c) <==> Kept(runs, cfg.clockStopped, c)
    ensures forall c :: Covers(result, c) <==> Covers(runs, c) && (!Covers(cfg.clockStopped, c) || c == U64_MAX)
    ensures StopsEndEarly(cfg) ==>
              forall c :: Covers(result, c) <==> Covers(runs, c) && !Covers(cfg.clockStopped, c)
  {
    if StopsEndEarly(cfg) {
      forall c ensures Kept(runs, cfg.clockStopped, c) <==> Covers(runs, c) && !Covers(cfg.clockStopped, c) {
        EarlyStopsAreExcluded(runs, cfg.clockStopped, c);
      }
    }
  }

  lemma SeparatedIsAscending(rs: seq<Interval>)
    requires Separated(rs)
    ensures Ascending(rs)
  {}
}
