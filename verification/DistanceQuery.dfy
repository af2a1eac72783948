/** A whole synchronous distance query (crates/bwave/src/cache.rs, `clock_query_config` and
    `distance_from_runs`) against one walk over the cycles of its window. */
module DistanceQuery {
  import opened Basics
  import opened Waveform
  import opened ClockGrid
  import opened StoppedCycles
  import opened SampledRuns
  import opened PairSegments
  import opened DistanceSummary
  import opened StoppedPairs

  // ---- The walk ----

  /** The clock as the trace holds it; `firstRise` is its first rising edge. */
  datatype ClockTrace = ClockTrace(name: string, firstRise: nat, ts: seq<Transition>)

  datatype EventSpec = EventSpec(ts: seq<Transition>, width: nat, literal: string)

  datatype Grid = Grid(clock: ClockTrace, period: nat, base: nat)

  ghost predicate ClockFits(clock: ClockTrace) {
    && Ordered(clock.ts) && (forall i :: 0 <= i < |clock.ts| ==> clock.ts[i].tick <= U64_MAX)
    && (Rises(clock.ts) != [] ==> clock.firstRise == Rises(clock.ts)[0])
  }

  /** Cycle `c` lacks its rising edge, and a later trusted rise shows that the clock had stopped. */
  ghost predicate MissesEdge(g: Grid, c: int) {
    var ts, edge := g.clock.ts, g.base + (c - 1) * g.period;
    && 0 < g.period
    && (forall i :: RiseAt(ts, i) ==> ts[i].tick != edge)
    && exists i :: RiseAt(ts, i) && edge <= ts[i].tick && Trusts(ts, g.clock.firstRise, g.period, ts[i].tick)
  }

  /** How many cycles of `lo..=hi` miss their edge. */
  ghost function MissedEdges(g: Grid, lo: int, hi: int): nat
    decreases hi - lo + 1
  {
    if hi < lo then 0 else MissedEdges(g, lo, hi - 1) + if MissesEdge(g, hi) then 1 else 0
  }

  /** The event counts in cycle `c`. */
  ghost predicate Counts(g: Grid, cfg: Config, e: EventSpec, c: int)
    requires Ordered(e.ts)
  {
    && Occurs(cfg, e.ts, g.base, g.period, e.width, e.literal, c)
    && (DropsStopped(cfg, e.literal) ==> !MissesEdge(g, c))
  }

  /** The cycles of `lo..=hi` in which the event counts, found by visiting each. */
  ghost function WalkEvents(g: Grid, cfg: Config, e: EventSpec, lo: int, hi: int): seq<int>
    requires Ordered(e.ts)
    decreases hi - lo + 1
  {
    if hi < lo then [] else WalkEvents(g, cfg, e, lo, hi - 1) + if Counts(g, cfg, e, hi) then [hi] else []
  }

  /** Each A event with the next B event, or with the next A event when there is no B. */
  ghost function WalkPairs(g: Grid, cfg: Config, a: EventSpec, b: Option<EventSpec>, w: Window): seq<Pair>
    requires Ordered(a.ts) && (b.Some? ==> Ordered(b.value.ts))
  {
    var es := WalkEvents(g, cfg, a, w.start, w.end);
    match b
    case Some(other) => NaivePairs(es, WalkEvents(g, cfg, other, w.start, w.end))
    case None => Windows(es)
  }

  ghost function WalkStopped(g: Grid, ps: seq<Pair>): nat {
    if ps == [] then 0
    else WalkStopped(g, ps[..|ps| - 1]) + MissedEdges(g, ps[|ps| - 1].from + 1, ps[|ps| - 1].to)
  }

  datatype DistancePair = DistancePair(from: int, to: int, elapsed: int, stoppedCycles: nat)

  ghost function WalkReport(g: Grid, p: Pair): DistancePair {
    DistancePair(p.from, p.to, p.to - p.from, MissedEdges(g, p.from + 1, p.to))
  }

  datatype DistanceData = DistanceData(
    count: nat, pairs: seq<DistancePair>, summary: Option<Summary>, stoppedCycles: int, truncated: bool)

  /** What the walk reports; `limit` bounds the listed pairs, and statistics mode lists none. */
  ghost predicate IsDistance(g: Grid, ps: seq<Pair>, limit: Option<nat>, d: DistanceData) {
    && d.count == |ps| && d.stoppedCycles == WalkStopped(g, ps)
    && d.summary == (if ps == [] then None else (DeltasLength(ps); Some(SortedSummary(Deltas(ps)))))
    && |d.pairs| == (match limit case Some(n) => Min(n, |ps|) case None => 0)
    && (forall i :: 0 <= i < |d.pairs| && i < |ps| ==> d.pairs[i] == WalkReport(g, ps[i]))
    && d.truncated == (limit.Some? && |ps| > limit.value)
  }

  // ---- Stopped cycles are those that miss their edge ----

  function BaseOf(clock: ClockTrace, period: nat, start: nat): (base: nat) {
    match CheckedCycleBase(clock.firstRise, period, start) case Ok(base) => base case Err(_) => U64_MAX
  }

  /** Where the clock stops being trusted: its first off-grid rise or unknown value, if any. */
  ghost function TrustedUntil(g: Grid): int {
    var rises := Rises(g.clock.ts);
    Cutoff(if g.period > 0 then FirstOffGrid(rises, g.clock.firstRise, g.period) else None,
           if rises == [] then None else FirstUnknownAfter(g.clock.ts, rises[0]))
  }

  lemma TrustedIsCutoff(g: Grid, a: Analysis)
    requires ClockFits(g.clock) && IsAnalysis(g.clock.name, g.period, g.clock.firstRise, g.clock.ts, a)
    ensures TrustedUntil(g) == Cutoff(a.offGrid, a.unknown)
  {
    hide FirstOffGrid, FirstUnknownAfter, Rises, StoppedUpTo, Cutoff;
  }

  lemma TrustsIsUntil(g: Grid, tick: int)
    requires ClockFits(g.clock) && 0 < g.period
    ensures Trusts(g.clock.ts, g.clock.firstRise, g.period, tick) <==> tick < TrustedUntil(g)
  {
    var ts, rises := g.clock.ts, Rises(g.clock.ts);
    OffGridIsFirst(ts, g.clock.firstRise, g.period);
    UnknownIsFirst(ts);
    hide Rises, FirstOffGrid, FirstUnknownAfter, Cutoff, Trusts;
    TrustsIsBelowCutoff(ts, g.clock.firstRise, g.period, FirstOffGrid(rises, g.clock.firstRise, g.period),
                        if rises == [] then None else FirstUnknownAfter(ts, rises[0]), tick);
  }

  lemma TrustedBound(g: Grid)
    requires ClockFits(g.clock) && 0 < g.period
    ensures TrustedUntil(g) <= U64_MAX
  {
    var rises := Rises(g.clock.ts);
    RisesMeaning(g.clock.ts, |g.clock.ts|);
    assert forall i :: 0 <= i < |rises| ==> rises[i] in rises;
    FoundBelow(rises, g.clock.firstRise, g.period, g.clock.ts, if rises == [] then 0 else rises[0], U64_MAX);
  }

  lemma CoveredEdge(g: Grid, a: Analysis, c: int)
    requires ClockFits(g.clock) && 0 < g.period && 1 <= c
    requires IsAnalysis(g.clock.name, g.period, g.clock.firstRise, g.clock.ts, a)
    requires Covers(a.stoppedTicks, Edge(g.base, g.period, c))
    ensures exists m :: 0 <= m < |Rises(g.clock.ts)| && Edge(g.base, g.period, c) <= Rises(g.clock.ts)[m] < TrustedUntil(g)
    ensures Edge(g.base, g.period, c) < U64_MAX
  {
    var rises, e := Rises(g.clock.ts), Edge(g.base, g.period, c);
    TrustedIsCutoff(g, a);
    StoppedCyclesEndEarly(g.clock.name, g.period, g.clock.firstRise, g.clock.ts, a, g.base);
    hide Rises, TrustedUntil, Edge, IsAnalysis, Cutoff;
    assert InGap(rises, g.period, TrustedUntil(g), |rises|, e);
    var i :| i < |rises| && Gap(rises, g.period, TrustedUntil(g), i) && rises[i - 1] + g.period <= e <= rises[i] - g.period;
    assert e <= rises[i] < TrustedUntil(g);
  }

  lemma MissesMeaning(g: Grid, c: int)
    requires ClockFits(g.clock) && 0 < g.period
    ensures MissesEdge(g, c) <==>
              Edge(g.base, g.period, c) !in Rises(g.clock.ts)
              && exists m :: 0 <= m < |Rises(g.clock.ts)| && Edge(g.base, g.period, c) <= Rises(g.clock.ts)[m] < TrustedUntil(g)
  {
    var ts, edge := g.clock.ts, Edge(g.base, g.period, c);
    forall t ensures Trusts(ts, g.clock.firstRise, g.period, t) <==> t < TrustedUntil(g) { TrustsIsUntil(g, t); }
    hide Rises, TrustedUntil, Trusts, RiseAt, Ordered;
    NoRiseIsUnlisted(ts, edge);
    RiseIsListed(ts, edge, TrustedUntil(g));
  }

  lemma NoRiseIsUnlisted(ts: seq<Transition>, t: int)
    requires Ordered(ts)
    ensures (forall i :: RiseAt(ts, i) ==> ts[i].tick != t) <==> t !in Rises(ts)
  {
    RiseTicks(ts);
    hide Rises;
  }

  lemma RiseIsListed(ts: seq<Transition>, from: int, to: int)
    requires Ordered(ts)
    ensures (exists i :: RiseAt(ts, i) && from <= ts[i].tick < to) <==> exists m :: 0 <= m < |Rises(ts)| && from <= Rises(ts)[m] < to
  {
    RiseTicks(ts);
    hide Rises, RiseAt;
    forall m | 0 <= m < |Rises(ts)| ensures exists i :: RiseAt(ts, i) && ts[i].tick == Rises(ts)[m] {
      assert Rises(ts)[m] in Rises(ts);
    }
  }

  /** Past the last 64-bit tick there is nothing to stop. */
  lemma NothingMissed(g: Grid, a: Analysis, c: int)
    requires ClockFits(g.clock) && 0 < g.period && g.base == U64_MAX && 1 <= c
    requires IsAnalysis(g.clock.name, g.period, g.clock.firstRise, g.clock.ts, a)
    ensures Ascending(a.stoppedTicks) && Ranges(a.stoppedTicks, g.base, g.period) == [] && !MissesEdge(g, c)
  {
    hide Rises, IsAnalysis, ClockFits, Edge, TrustedUntil, RangesUpTo;
    StoppedCyclesEndEarly1(g, a);
    NothingFrom(a.stoppedTicks, g.base, g.period, |a.stoppedTicks|);
    TrustedBound(g);
    EdgeMono(g.base, g.period, 1, c);
    FirstEdge(g);
    MissesMeaning(g, c);
  }

  lemma FirstEdge(g: Grid)
    ensures Edge(g.base, g.period, 1) == g.base
  {}

  lemma StoppedCyclesEndEarly1(g: Grid, a: Analysis)
    requires ClockFits(g.clock) && 0 < g.period && IsAnalysis(g.clock.name, g.period, g.clock.firstRise, g.clock.ts, a)
    ensures Ascending(a.stoppedTicks) && forall k :: 0 <= k < |a.stoppedTicks| ==> a.stoppedTicks[k].hi < U64_MAX
    ensures GridStops(a.stoppedTicks, g.clock.firstRise, g.period)
    ensures forall k :: 0 <= k < |Ranges(a.stoppedTicks, g.base, g.period)| ==> Ranges(a.stoppedTicks, g.base, g.period)[k].hi < U64_MAX
  {
    hide IsAnalysis, Rises, Ranges, RangesUpTo, InGap;
    StoppedCyclesEndEarly(g.clock.name, g.period, g.clock.firstRise, g.clock.ts, a, g.base);
  }

  lemma RangesListed(g: Grid, start: nat, a: Analysis)
    requires ClockFits(g.clock) && 0 < g.period && CheckedCycleBase(g.clock.firstRise, g.period, start) == Ok(g.base)
    requires IsAnalysis(g.clock.name, g.period, g.clock.firstRise, g.clock.ts, a)
    ensures Ascending(a.stoppedTicks) && ListsCycles(Ranges(a.stoppedTicks, g.base, g.period), a.stoppedTicks, g.base, g.period)
  {
    hide IsAnalysis, ClockFits, CheckedCycleBase, RangesUpTo, ListsCycles, OnGrid, Rises;
    StoppedCyclesEndEarly1(g, a);
    BaseOnGrid(g.clock.firstRise, g.period, start, g.base);
    RangesMeaning(a.stoppedTicks, g.base, g.clock.firstRise, g.period, |a.stoppedTicks|);
    assert a.stoppedTicks[..|a.stoppedTicks|] == a.stoppedTicks;
  }

  /** The ranges of the analysis cover exactly the cycles that miss their edge. */
  lemma StoppedIsMissed(g: Grid, start: nat, a: Analysis, c: int)
    requires ClockFits(g.clock) && 0 < g.period && g.base == BaseOf(g.clock, g.period, start) && 1 <= c
    requires IsAnalysis(g.clock.name, g.period, g.clock.firstRise, g.clock.ts, a)
    ensures Ascending(a.stoppedTicks) && Ascending(Ranges(a.stoppedTicks, g.base, g.period))
    ensures Covers(Ranges(a.stoppedTicks, g.base, g.period), c) <==> MissesEdge(g, c)
  {
    if CheckedCycleBase(g.clock.firstRise, g.period, start).Err? {
      NothingMissed(g, a, c);
      hide MissesEdge, Ranges;
    } else {
      RangesListed(g, start, a);
      CoveredIsMissed(g, start, a, c);
      hide MissesEdge, Ranges;
    }
  }

  lemma CoveredIsMissed(g: Grid, start: nat, a: Analysis, c: int)
    requires ClockFits(g.clock) && 0 < g.period && CheckedCycleBase(g.clock.firstRise, g.period, start) == Ok(g.base) && 1 <= c
    requires IsAnalysis(g.clock.name, g.period, g.clock.firstRise, g.clock.ts, a) && NonEmpty(a.stoppedTicks)
    requires ListsCycles(Ranges(a.stoppedTicks, g.base, g.period), a.stoppedTicks, g.base, g.period)
    ensures Covers(Ranges(a.stoppedTicks, g.base, g.period), c) <==> MissesEdge(g, c)
  {
    var rises, e := Rises(g.clock.ts), Edge(g.base, g.period, c);
    var ranges := Ranges(a.stoppedTicks, g.base, g.period);
    TrustedIsCutoff(g, a);
    MissesMeaning(g, c);
    assert Covers(ranges, c) <==> Covers(a.stoppedTicks, e);
    hide Rises, Edge, IsAnalysis, Cutoff, TrustedUntil, MissesEdge, Ranges, RangesUpTo, Covers, CheckedCycleBase;
    if Covers(ranges, c) { CoveredEdge(g, a, c); }
    forall m | 0 <= m < |rises| && e <= rises[m] < TrustedUntil(g) ensures Covers(ranges, c) <==> e !in rises {
      StoppedCyclesMissTheirEdge(g.clock.name, g.period, g.clock.ts, a, start, g.base, m, c);
    }
  }

  lemma {:induction false} NothingFrom(stops: seq<Interval>, base: int, period: int, n: nat)
    requires 0 < period && n <= |stops| && NonEmpty(stops) && forall k :: 0 <= k < |stops| ==> stops[k].hi < base
    ensures RangesUpTo(stops, base, period, n) == []
  {
    if n > 0 { NothingFrom(stops, base, period, n - 1); }
  }

  // ---- Stops of the query's window ----

  /** The stops that touch the window. */
  function StopsIn(stops: seq<Interval>, w: Window): seq<Interval> {
    if stops == [] then []
    else
      var r := stops[|stops| - 1];
      StopsIn(stops[..|stops| - 1], w) + if w.start <= w.end && r.lo <= w.end && w.start <= r.hi then [r] else []
  }

  /** `kept` are stops in order that cover the same cycles of the window. */
  ghost predicate Narrowed(kept: seq<Interval>, stops: seq<Interval>, w: Window) {
    && Ascending(kept) && (forall i :: 0 <= i < |kept| ==> kept[i] in stops)
    && forall c :: w.start <= c <= w.end ==> (Covers(kept, c) <==> Covers(stops, c))
  }

  lemma NarrowedStep(kept: seq<Interval>, stops: seq<Interval>, r: Interval, w: Window)
    requires Narrowed(kept, stops, w) && Ascending(stops + [r])
    ensures w.start <= w.end && r.lo <= w.end && w.start <= r.hi ==> Narrowed(kept + [r], stops + [r], w)
    ensures !(w.start <= w.end && r.lo <= w.end && w.start <= r.hi) ==> Narrowed(kept + [], stops + [r], w)
  {
    CoversAppend(stops, r);
    CoversAppend(kept, r);
    assert kept + [] == kept;
    hide Covers;
    assert (stops + [r])[|stops|] == r;
    forall i | 0 <= i < |kept| ensures kept[i] in stops + [r] && kept[i].hi < r.lo {
      assert kept[i] in stops;
      var j :| 0 <= j < |stops| && stops[j] == kept[i];
      assert (stops + [r])[j].hi < (stops + [r])[|stops|].lo;
    }
  }

  lemma {:induction false} StopsInMeaning(stops: seq<Interval>, w: Window)
    requires Ascending(stops)
    ensures Narrowed(StopsIn(stops, w), stops, w)
  {
    hide Narrowed, Covers;
    if stops == [] {
      NothingNarrowed(w);
    } else {
      var init, r := stops[..|stops| - 1], stops[|stops| - 1];
      StopsInMeaning(init, w);
      assert stops == init + [r];
      NarrowedStep(StopsIn(init, w), init, r, w);
    }
  }

  lemma NothingNarrowed(w: Window)
    ensures Narrowed([], [], w)
  {}

  /** The stops a query sees cover, inside its window, exactly the cycles that miss their edge. */
  ghost predicate StopsMissed(stops: seq<Interval>, g: Grid, w: Window) {
    && Ascending(stops) && FitsCycles(stops) && (forall i :: 0 <= i < |stops| ==> stops[i].hi < U64_MAX)
    && forall c :: w.start <= c <= w.end ==> (Covers(stops, c) <==> MissesEdge(g, c))
  }

  method QueryStops(g: Grid, start: nat, w: Window) returns (stops: seq<Interval>)
    requires ClockFits(g.clock) && 0 < g.period && g.base == BaseOf(g.clock, g.period, start) && 1 <= w.start
    ensures StopsMissed(stops, g, w) && Fits(stops)
  {
    var a := Analyze(g.clock.name, g.period, g.clock.firstRise, g.clock.ts);
    AllRangesMissed(g, start, a, w);
    hide *;
    var all := Ranges(a.stoppedTicks, g.base, g.period);
    stops := StopsIn(all, w);
    StopsInMissed(all, g, w);
  }

  lemma AllRangesMissed(g: Grid, start: nat, a: Analysis, w: Window)
    requires ClockFits(g.clock) && 0 < g.period && g.base == BaseOf(g.clock, g.period, start) && 1 <= w.start
    requires IsAnalysis(g.clock.name, g.period, g.clock.firstRise, g.clock.ts, a)
    ensures NonEmpty(a.stoppedTicks) && StopsMissed(Ranges(a.stoppedTicks, g.base, g.period), g, w)
  {
    hide MissesEdge, IsAnalysis, RangesUpTo, ClockFits;
    StoppedCyclesEndEarly1(g, a);
    StoppedIsMissed(g, start, a, 1);
    RangesStart(a.stoppedTicks, g.base, g.period, |a.stoppedTicks|);
    forall c | w.start <= c <= w.end ensures Covers(Ranges(a.stoppedTicks, g.base, g.period), c) <==> MissesEdge(g, c) {
      StoppedIsMissed(g, start, a, c);
    }
  }

  lemma StopsInMissed(all: seq<Interval>, g: Grid, w: Window)
    requires StopsMissed(all, g, w)
    ensures StopsMissed(StopsIn(all, w), g, w) && Fits(StopsIn(all, w))
  {
    hide MissesEdge, StopsIn;
    StopsInMeaning(all, w);
    var stops := StopsIn(all, w);
    forall i | 0 <= i < |stops| ensures 1 <= stops[i].lo && stops[i].hi < U64_MAX { assert stops[i] in all; }
  }

  lemma {:induction false} RangesStart(stops: seq<Interval>, base: int, period: int, n: nat)
    requires 0 < period && n <= |stops| && NonEmpty(stops) && 0 <= base
    ensures forall k :: 0 <= k < |RangesUpTo(stops, base, period, n)| ==> 1 <= RangesUpTo(stops, base, period, n)[k].lo
  {
    if n > 0 { RangesStart(stops, base, period, n - 1); }
  }

  // ---- Runs are the walk's events ----

  ghost predicate Increases(s: seq<int>) {
    forall i, j :: 0 <= i < j < |s| ==> s[i] < s[j]
  }

  lemma {:induction false} WalkIncreases(g: Grid, cfg: Config, e: EventSpec, lo: int, hi: int)
    requires Ordered(e.ts)
    ensures Increases(WalkEvents(g, cfg, e, lo, hi))
    ensures forall c :: c in WalkEvents(g, cfg, e, lo, hi) <==> lo <= c <= hi && Counts(g, cfg, e, c)
    decreases hi - lo + 1
  {
    hide Counts;
    if lo <= hi {
      WalkIncreases(g, cfg, e, lo, hi - 1);
      var init := WalkEvents(g, cfg, e, lo, hi - 1);
      assert forall i :: 0 <= i < |init| ==> init[i] in init;
    }
  }

  /** An increasing list is determined by its elements. */
  lemma {:induction false} SameElementsSameList(x: seq<int>, y: seq<int>)
    requires Increases(x) && Increases(y) && forall c :: c in x <==> c in y
    ensures x == y
  {
    if x == [] {
      assert forall i :: 0 <= i < |y| ==> y[i] in y;
    } else {
      var n, m := |x| - 1, |y| - 1;
      assert x[n] in x && x[n] in y;
      assert y[m] in y && y[m] in x;
      assert x[n] == y[m];
      forall c ensures c in x[..n] <==> c in y[..m] {
        assert c in x[..n] <==> c in x && c != x[n] by { InitElements(x, c); }
        assert c in y[..m] <==> c in y && c != y[m] by { InitElements(y, c); }
      }
      SameElementsSameList(x[..n], y[..m]);
    }
  }

  lemma InitElements(x: seq<int>, c: int)
    requires Increases(x) && x != []
    ensures c in x[..|x| - 1] <==> c in x && c != x[|x| - 1]
  {
    var init := x[..|x| - 1];
    if c in init {
      var i :| 0 <= i < |init| && init[i] == c;
      assert x[i] < x[|x| - 1];
    }
    if c in x && c != x[|x| - 1] {
      var i :| 0 <= i < |x| && x[i] == c;
      assert init[i] == c;
    }
  }

  lemma RunsAreWalk(runs: seq<Interval>, g: Grid, cfg: Config, e: EventSpec, lo: int, hi: int)
    requires Ordered(e.ts) && Ascending(runs)
    requires forall c :: Covers(runs, c) <==> lo <= c <= hi && Counts(g, cfg, e, c)
    ensures Cycles(runs) == WalkEvents(g, cfg, e, lo, hi)
  {
    hide Counts, Covers, Cycles, WalkEvents;
    InCycles(runs);
    CyclesIncrease(runs);
    WalkIncreases(g, cfg, e, lo, hi);
    SameElementsSameList(Cycles(runs), WalkEvents(g, cfg, e, lo, hi));
  }

  /** Only the fields that place the observation and drop stopped matches decide about events. */
  lemma StopsDoNotMatter(cfg: Config, stops: seq<Interval>, e: EventSpec, base: int, period: int, c: int)
    requires Ordered(e.ts)
    ensures Occurs(cfg.(clockStopped := stops), e.ts, base, period, e.width, e.literal, c)
         == Occurs(cfg, e.ts, base, period, e.width, e.literal, c)
    ensures DropsStopped(cfg.(clockStopped := stops), e.literal) == DropsStopped(cfg, e.literal)
  {
    hide ValueAtTick, Matching.SameText, Matching.Agrees;
  }

  lemma StopsKeepWindow(cache: Cache, cfg: Config, stops: seq<Interval>, base: nat, w: Window)
    requires SampledCycleWindow(cache, cfg, base) == Some(w)
    ensures SampledCycleWindow(cache, cfg.(clockStopped := stops), base) == Some(w)
    ensures SpansWindow(w, cache, cfg, base) && SpansWindow(w, cache, cfg.(clockStopped := stops), base)
  {
    WindowMeaning(cache, cfg, base);
    WindowMeaning(cache, cfg.(clockStopped := stops), base);
  }

  /** Event runs of a query expand to the events the walk finds. */
  method EventRuns(g: Grid, cache: Cache, cfg: Config, stops: seq<Interval>, e: EventSpec, w: Window) returns (runs: seq<Interval>)
    requires Ordered(e.ts) && !cfg.asyncMode && cache.simEnd <= U64_MAX && cache.period == g.period
    requires SampledCycleWindow(cache, cfg, g.base) == Some(w)
    requires StopsMissed(stops, g, w) && Fits(stops)
    ensures Ascending(runs) && FitsCycles(runs) && Cycles(runs) == WalkEvents(g, cfg, e, w.start, w.end)
    ensures |runs| <= |e.ts| + 1 + |stops|
  {
    WindowIsOnTrace(cache, cfg, g.base, 1);
    StopsKeepWindow(cache, cfg, stops, g.base, w);
    hide Occurs, DropsStopped, InQueryWindow, SampledCycleWindow, MissesEdge, Covers, WalkEvents, Cycles, Ordered;
    runs := SampledEventRuns(cache, cfg.(clockStopped := stops), g.base, e.ts, e.width, e.literal, w);
    forall c ensures Covers(runs, c) <==> w.start <= c <= w.end && Counts(g, cfg, e, c) {
      StopsDoNotMatter(cfg, stops, e, g.base, g.period, c);
    }
    RunsAreWalk(runs, g, cfg, e, w.start, w.end);
    RunsInWindow(runs, w.start, w.end);
  }

  lemma RunsInWindow(runs: seq<Interval>, lo: int, hi: int)
    requires Ascending(runs) && forall c :: Covers(runs, c) ==> lo <= c <= hi
    ensures forall k :: 0 <= k < |runs| ==> lo <= runs[k].lo <= runs[k].hi <= hi
  {
    forall k | 0 <= k < |runs| ensures lo <= runs[k].lo <= runs[k].hi <= hi {
      assert Covers(runs, runs[k].lo) && Covers(runs, runs[k].hi);
    }
  }

  // ---- Pairs ----

  lemma {:induction false} MissedIsCovered(g: Grid, stops: seq<Interval>, w: Window, lo: int, hi: int)
    requires StopsMissed(stops, g, w) && w.start <= lo && hi <= w.end
    ensures MissedEdges(g, lo, hi) == CountCovered(stops, lo, hi) == StoppedCount(stops, lo, hi)
    decreases hi - lo + 1
  {
    hide MissesEdge, Covers;
    StoppedCountMeaning(stops, lo, hi);
    if lo <= hi { MissedIsCovered(g, stops, w, lo, hi - 1); }
  }

  ghost predicate InWindow(ps: seq<Pair>, w: Window) {
    forall i :: 0 <= i < |ps| ==> w.start <= ps[i].from && ps[i].to <= w.end
  }

  lemma {:induction false} WalkStoppedIsCovered(g: Grid, stops: seq<Interval>, w: Window, ps: seq<Pair>)
    requires StopsMissed(stops, g, w) && InWindow(ps, w)
    ensures WalkStopped(g, ps) == PairStops(ps, stops)
  {
    if ps != [] {
      var p := ps[|ps| - 1];
      WalkStoppedIsCovered(g, stops, w, ps[..|ps| - 1]);
      MissedIsCovered(g, stops, w, p.from + 1, p.to);
    }
  }

  lemma WalkPairsInWindow(g: Grid, cfg: Config, a: EventSpec, b: Option<EventSpec>, w: Window)
    requires Ordered(a.ts) && (b.Some? ==> Ordered(b.value.ts))
    ensures InWindow(WalkPairs(g, cfg, a, b, w), w)
  {
    var ps := WalkPairs(g, cfg, a, b, w);
    var es := WalkEvents(g, cfg, a, w.start, w.end);
    WalkIncreases(g, cfg, a, w.start, w.end);
    if b.Some? { WalkIncreases(g, cfg, b.value, w.start, w.end); }
    PairsJoinEvents(es, if b.Some? then WalkEvents(g, cfg, b.value, w.start, w.end) else []);
    assert forall i :: 0 <= i < |ps| ==> ps[i] in ps;
  }

  function Reported(p: Pair, stops: seq<Interval>): DistancePair {
    DistancePair(p.from, p.to, p.to - p.from, StoppedCount(stops, p.from + 1, p.to))
  }

  /** The first pairs of the expansion. */
  ghost predicate Lists(pairs: seq<DistancePair>, ps: seq<Pair>, stops: seq<Interval>) {
    |pairs| <= |ps| && forall i :: 0 <= i < |pairs| ==> pairs[i] == Reported(ps[i], stops)
  }

  /** The listing loop: pairs segment by segment, up to the limit. */
  method ListPairs(segments: seq<PairSegment>, stops: seq<Interval>, limit: nat) returns (pairs: seq<DistancePair>)
    ensures Lists(pairs, Expand(segments), stops) && |pairs| == Min(limit, |Expand(segments)|)
  {
    pairs := [];
    assert segments[..0] == [];
    hide Expand, Reported;
    NothingExpanded();
    for k := 0 to |segments|
      invariant Lists(pairs, Expand(segments[..k]), stops) && |pairs| == Min(limit, |Expand(segments[..k])|)
    {
      var s := segments[k];
      ghost var before := Expand(segments[..k]);
      ExpandNext(segments, k);
      pairs := ListSegment(pairs, before, s, stops, limit);
      if |pairs| == limit {
        ExpandGrows(segments, k + 1);
        return;
      }
    }
    assert segments[..|segments|] == segments;
  }

  method ListSegment(pairs: seq<DistancePair>, ghost before: seq<Pair>, s: PairSegment, stops: seq<Interval>, limit: nat)
    returns (all: seq<DistancePair>)
    requires Lists(pairs, before, stops) && |pairs| == Min(limit, |before|)
    ensures Lists(all, before + ExpandSegment(s, s.count), stops)
    ensures |all| == Min(limit, |before + ExpandSegment(s, s.count)|)
  {
    all := pairs;
    ghost var more := ExpandSegment(s, s.count);
    ExpandLength(s, s.count);
    for offset := 0 to Min(s.count, limit - |pairs|)
      invariant |all| == |pairs| + offset
      invariant Lists(all, before + more, stops)
    {
      ExpandAt(s, s.count, offset);
      var from, to := s.a + offset, s.b + if s.consecutiveB then offset else 0;
      assert |before| == |pairs| && (before + more)[|all|] == more[offset];
      all := all + [DistancePair(from, to, to - from, StoppedCount(stops, from + 1, to))];
    }
  }

  lemma {:induction false} ExpandAt(s: PairSegment, n: nat, k: nat)
    requires k < n
    ensures |ExpandSegment(s, n)| == n && ExpandSegment(s, n)[k] == s.PairAt(k)
  {
    ExpandLength(s, n);
    ExpandLength(s, n - 1);
    if k < n - 1 { ExpandAt(s, n - 1, k); }
  }

  lemma NothingExpanded()
    ensures Expand([]) == []
  {}

  lemma ExpandNext(segments: seq<PairSegment>, k: nat)
    requires k < |segments|
    ensures Expand(segments[..k + 1]) == Expand(segments[..k]) + ExpandSegment(segments[k], segments[k].count)
  {
    assert segments[..k + 1][..k] == segments[..k];
  }

  lemma {:induction false} ExpandGrows(segments: seq<PairSegment>, k: nat)
    requires k <= |segments|
    ensures Expand(segments[..k]) <= Expand(segments)
  {
    if k == |segments| {
      assert segments[..k] == segments;
    } else {
      ExpandGrows(segments[..|segments| - 1], k);
      assert segments[..|segments| - 1][..k] == segments[..k];
    }
  }

  // ---- The query ----

  datatype QueryError = CycleCountOverflow

  /** Count, statistics, stopped cycles and listed pairs of the query are those of the walk. */
  method DistanceFromRuns(cache: Cache, cfg: Config, clock: ClockTrace, start: nat,
                          a: EventSpec, b: Option<EventSpec>, limit: Option<nat>)
    returns (r: Result<DistanceData, QueryError>)
    requires ClockFits(clock) && Ordered(a.ts) && (b.Some? ==> Ordered(b.value.ts))
    requires !cfg.asyncMode && 0 < cache.period && cache.simEnd <= U64_MAX
    ensures var g := Grid(clock, cache.period, BaseOf(clock, cache.period, start));
            match SampledCycleWindow(cache, cfg, g.base)
            case None => r == Err(CycleCountOverflow) && cache.period == 1 && g.base == 0 && cache.simEnd == U64_MAX
            case Some(w) => SpansWindow(w, cache, cfg, g.base) && r.Ok? && IsDistance(g, WalkPairs(g, cfg, a, b, w), limit, r.value)
  {
    var g := Grid(clock, cache.period, BaseOf(clock, cache.period, start));
    var window := SampledCycleWindow(cache, cfg, g.base);
    WindowIsOnTrace(cache, cfg, g.base, 1);
    if window.None? { return Err(CycleCountOverflow); }
    var w := window.value;
    WindowMeaning(cache, cfg, g.base);
    hide *;
    var stops := QueryStops(g, start, w);
    var runsA := EventRuns(g, cache, cfg, stops, a, w);
    var runsB: Option<seq<Interval>> := None;
    if b.Some? {
      var others := EventRuns(g, cache, cfg, stops, b.value, w);
      runsB := Some(others);
    }
    var segments := SampledPairSegments(runsA, runsB);
    ghost var ps := WalkPairs(g, cfg, a, b, w);
    PairsAreWalk(g, cfg, a, b, w, runsA, runsB, segments);
    var data := DataOf(segments, stops, limit);
    WalkPairsInWindow(g, cfg, a, b, w);
    DataIsDistance(g, w, ps, segments, stops, limit, data);
    r := Ok(data);
  }

  lemma PairsAreWalk(g: Grid, cfg: Config, a: EventSpec, b: Option<EventSpec>, w: Window,
                     runsA: seq<Interval>, runsB: Option<seq<Interval>>, segments: seq<PairSegment>)
    requires Ordered(a.ts) && (b.Some? ==> Ordered(b.value.ts)) && (b.Some? <==> runsB.Some?)
    requires Ascending(runsA) && Cycles(runsA) == WalkEvents(g, cfg, a, w.start, w.end)
    requires b.Some? ==> Ascending(runsB.value) && Cycles(runsB.value) == WalkEvents(g, cfg, b.value, w.start, w.end)
    requires match runsB
             case Some(bs) => Expand(segments) == NaivePairs(Cycles(runsA), Cycles(bs))
             case None => Expand(segments) == Windows(Cycles(runsA))
    ensures Expand(segments) == WalkPairs(g, cfg, a, b, w)
  {
    hide WalkEvents, Cycles, NaivePairs, Windows, Expand;
  }

  /** What the query computes from its segments. */
  ghost predicate Computed(segments: seq<PairSegment>, stops: seq<Interval>, limit: Option<nat>, d: DistanceData) {
    && d.count == |Expand(segments)| && d.stoppedCycles == PairStops(Expand(segments), stops)
    && (d.summary == if Expand(segments) == [] then None else (DeltasLength(Expand(segments)); Some(SortedSummary(Deltas(Expand(segments))))))
    && Lists(d.pairs, Expand(segments), stops)
    && |d.pairs| == (match limit case Some(n) => Min(n, |Expand(segments)|) case None => 0)
    && d.truncated == (limit.Some? && |Expand(segments)| > limit.value)
  }

  method DataOf(segments: seq<PairSegment>, stops: seq<Interval>, limit: Option<nat>) returns (d: DistanceData)
    requires AllValid(segments) && NonEmpty(stops)
    ensures Computed(segments, stops, limit, d)
  {
    TotalsAreExpanded(segments, 0);
    DeltasLength(Expand(segments));
    StoppedPairSumIsExact(segments, stops);
    SomethingExpands(segments);
    hide Expand, Deltas, PairStops, SortedSummary, StoppedPairSum, TotalCount, AllValid, Reported;
    var count := TotalCount(segments);
    var stoppedCycles := StoppedPairSum(segments, stops);
    var summary: Option<Summary> := None;
    if count > 0 {
      var statistics := PairSummary(segments);
      summary := Some(statistics);
    }
    var pairs := [];
    if limit.Some? {
      pairs := ListPairs(segments, stops, limit.value);
    }
    d := DistanceData(count, pairs, summary, stoppedCycles, limit.Some? && count > limit.value);
  }

  lemma SomethingExpands(segments: seq<PairSegment>)
    requires AllValid(segments)
    ensures segments == [] ==> Expand(segments) == []
    ensures AllDeltas(segments) == Deltas(Expand(segments))
  {}

  lemma DataIsDistance(g: Grid, w: Window, ps: seq<Pair>, segments: seq<PairSegment>, stops: seq<Interval>,
                       limit: Option<nat>, d: DistanceData)
    requires StopsMissed(stops, g, w) && InWindow(ps, w) && ps == Expand(segments) && Computed(segments, stops, limit, d)
    ensures IsDistance(g, ps, limit, d)
  {
    WalkStoppedIsCovered(g, stops, w, ps);
    hide Expand, Deltas, PairStops, SortedSummary, WalkStopped, StopsMissed, StoppedCount, MissedEdges;
    forall i | 0 <= i < |d.pairs| ensures d.pairs[i] == WalkReport(g, ps[i]) {
      MissedIsCovered(g, stops, w, ps[i].from + 1, ps[i].to);
    }
  }
}
