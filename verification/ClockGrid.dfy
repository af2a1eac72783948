/** The uniform sampling grid of a clock and the stretches where the clock
    stands still (crates/bwave/src/clock.rs, crates/bwave/src/cache.rs). */
module ClockGrid {
  import opened Basics
  import opened Arithmetic
  import opened Waveform
  import Matching

  // ---- Grid and cycles ----

  predicate OnGrid(tick: int, first: int, period: int)
    requires 0 < period
  {
    first <= tick && (tick - first) % period == 0
  }

  /** Tick of the edge that opens cycle `c`; cycles count from 1. */
  function Edge(base: int, period: int, c: int): int {
    base + (c - 1) * period
  }

  lemma EdgeMono(base: int, period: int, c: int, d: int)
    requires 0 < period
    ensures c <= d <==> Edge(base, period, c) <= Edge(base, period, d)
    ensures c < d <==> Edge(base, period, c) < Edge(base, period, d)
  {
    if c < d {
      MulMono(c - 1, d - 2, period);
      assert (d - 1) * period == (d - 2) * period + period;
    } else {
      MulMono(d - 1, c - 1, period);
      if d < c {
        MulMono(d - 1, c - 2, period);
        assert (c - 1) * period == (c - 2) * period + period;
      }
    }
  }

  function TickToCycle(tick: nat, base: nat, period: nat): int {
    if period == 0 || tick < base then 0 else (tick - base) / period + 1
  }

  /** A tick belongs to cycle `c` exactly from the edge of `c` up to the next edge. */
  lemma TickToCycleIsEdgeInterval(tick: nat, base: nat, period: nat, c: int)
    requires 0 < period
    ensures TickToCycle(tick, base, period) == 0 <==> tick < base
    ensures 1 <= c ==> (TickToCycle(tick, base, period) == c
                        <==> Edge(base, period, c) <= tick < Edge(base, period, c + 1))
  {
    if base <= tick {
      DivBounds(tick - base, period);
      if 1 <= c && Edge(base, period, c) <= tick < Edge(base, period, c + 1) {
        DivUnique(tick - base, period, c - 1);
      }
    } else if 1 <= c {
      EdgeMono(base, period, 1, c);
    }
  }

  datatype BaseError = BeyondTickRange

  function CheckedCycleBase(firstRise: nat, period: nat, effectiveStart: nat): Result<nat, BaseError> {
    if period == 0 then Ok(effectiveStart)
    else if effectiveStart <= firstRise then Ok(firstRise)
    else
      var aligned := firstRise + AlignDown(effectiveStart - firstRise, period);
      if effectiveStart <= aligned then Ok(aligned)
      else match CheckedAdd(aligned, period)
           case Some(next) => Ok(next)
           case None => Err(BeyondTickRange)
  }

  function AlignDown(elapsed: nat, period: nat): (r: nat)
    requires 0 < period
    ensures r <= elapsed < r + period && r % period == 0
  {
    var q := elapsed / period;
    RoundDown(elapsed, period, q);
    q * period
  }

  /** The base is the least grid tick at or after the start, and an error means
      that this tick is not representable; without a period it is the start. */
  lemma {:induction false} CheckedCycleBaseIsLeast(firstRise: nat, period: nat, start: nat, g: int)
    requires 0 < period ==> OnGrid(g, firstRise, period) && start <= g
    ensures 0 < period ==>
              match CheckedCycleBase(firstRise, period, start)
              case Ok(base) => OnGrid(base, firstRise, period) && start <= base <= g
              case Err(_) => U64_MAX < g
    ensures period == 0 ==> CheckedCycleBase(firstRise, period, start) == Ok(start)
  {
    if 0 < period && firstRise < start {
      var aligned := AlignDown(start - firstRise, period);
      MultipleDiff(aligned, aligned, period);
      if aligned < start - firstRise {
        MultipleGap(aligned, g - firstRise, period);
      }
    }
  }

  // ---- Rising edges and the stopped stretches between them ----

  predicate RiseAt(ts: seq<Transition>, i: int) {
    0 < i < |ts| && ts[i - 1].value == "0" && ts[i].value == "1"
  }

  /** Ticks of the rises among the first `n` transitions. */
  function RisesUpTo(ts: seq<Transition>, n: nat): seq<int>
    requires n <= |ts|
  {
    if n == 0 then []
    else RisesUpTo(ts, n - 1) + (if RiseAt(ts, n - 1) then [ts[n - 1].tick] else [])
  }

  function Rises(ts: seq<Transition>): seq<int> {
    RisesUpTo(ts, |ts|)
  }

  method RisingTicks(ts: seq<Transition>) returns (rises: seq<int>)
    ensures rises == Rises(ts)
  {
    var previous := "x";
    rises := [];
    for i := 0 to |ts|
      invariant previous == if i == 0 then "x" else ts[i - 1].value
      invariant rises == RisesUpTo(ts, i)
    {
      if previous == "0" && ts[i].value == "1" {
        rises := rises + [ts[i].tick];
      }
      previous := ts[i].value;
    }
  }

  ghost predicate NonDecreasing(s: seq<int>) {
    && (forall i :: 0 <= i < |s| ==> 0 <= s[i])
    && forall i, j :: 0 <= i < j < |s| ==> s[i] <= s[j]
  }

  /** The rises are exactly the ticks of the 0-to-1 steps, in trace order. */
  lemma {:induction false} RisesMeaning(ts: seq<Transition>, n: nat)
    requires Ordered(ts) && n <= |ts|
    ensures NonDecreasing(RisesUpTo(ts, n))
    ensures forall t :: t in RisesUpTo(ts, n) <==> exists i :: i < n && RiseAt(ts, i) && ts[i].tick == t
  {
    if n > 0 {
      RisesMeaning(ts, n - 1);
      var before := RisesUpTo(ts, n - 1);
      assert forall k :: 0 <= k < |before| ==> before[k] in before;
    }
  }

  function FirstOffGrid(rises: seq<int>, first: int, period: int): Option<int>
    requires 0 < period
  {
    if rises == [] then None
    else if rises[0] < first || (rises[0] - first) % period != 0 then Some(rises[0])
    else FirstOffGrid(rises[1..], first, period)
  }

  function FirstUnknownAfter(ts: seq<Transition>, start: int): Option<int> {
    if ts == [] then None
    else if start < ts[0].tick && Matching.ContainsXz(ts[0].value) then Some(ts[0].tick)
    else FirstUnknownAfter(ts[1..], start)
  }

  /** A clock that stands still for at least one whole period before its rise number `i`. */
  ghost predicate Gap(rises: seq<int>, period: int, cutoff: int, i: int) {
    0 < i < |rises| && rises[i] < cutoff && rises[i - 1] + period < rises[i]
  }

  function Stretch(rises: seq<int>, period: int, i: int): Interval
    requires 0 < i < |rises| && 0 <= rises[i - 1] && 0 <= period && rises[i - 1] + period < rises[i]
  {
    Interval(rises[i - 1] + period, rises[i] - period)
  }

  /** Inclusive stretches of missing grid ticks among the first `n` rises. */
  function StoppedUpTo(rises: seq<int>, period: int, cutoff: int, n: nat): seq<Interval>
    requires 0 <= period && n <= |rises| && NonDecreasing(rises)
  {
    if n <= 1 then []
    else
      StoppedUpTo(rises, period, cutoff, n - 1)
      + (if rises[n - 1] < cutoff && period < rises[n - 1] - rises[n - 2] then [Stretch(rises, period, n - 1)] else [])
  }

  lemma {:induction false} NothingAfterCutoff(rises: seq<int>, period: int, cutoff: int, n: nat, m: nat)
    requires 0 <= period && n < m <= |rises| && NonDecreasing(rises) && cutoff <= rises[n]
    ensures StoppedUpTo(rises, period, cutoff, m) == StoppedUpTo(rises, period, cutoff, n + if n == 0 then 1 else 0)
  {
    if n + 1 < m {
      NothingAfterCutoff(rises, period, cutoff, n, m - 1);
      assert rises[n] <= rises[m - 1];
    }
  }

  datatype Status = Unavailable | Warning | Pass

  datatype Analysis = Analysis(status: Status, offGrid: Option<int>, unknown: Option<int>, stoppedTicks: seq<Interval>)

  /** First tick where the grid can no longer be trusted. */
  function Cutoff(offGrid: Option<int>, unknown: Option<int>): int {
    match (offGrid, unknown)
    case (Some(a), Some(b)) => Min(a, b)
    case (Some(a), None) => a
    case (None, Some(b)) => b
    case (None, None) => U64_MAX
  }

  /** The analysis of a clock, as a function of its rises. */
  ghost predicate IsAnalysis(clock: string, period: nat, first: int, ts: seq<Transition>, a: Analysis) {
    var rises := Rises(ts);
    && NonDecreasing(rises)
    && a.offGrid == (if period > 0 then FirstOffGrid(rises, first, period) else None)
    && a.unknown == (if rises == [] then None else FirstUnknownAfter(ts, rises[0]))
    && a.stoppedTicks == (if period > 0 then StoppedUpTo(rises, period, Cutoff(a.offGrid, a.unknown), |rises|) else [])
    && (a.status.Unavailable? <==> clock == "" || |rises| < 2 || period == 0)
    && (a.status.Pass? <==> !a.status.Unavailable? && a.offGrid.None? && a.unknown.None?)
  }

  // ---- The analysis, read off the trace ----

  /** A rising edge before the first one or between the edges of the grid. */
  ghost predicate OffGridRise(ts: seq<Transition>, first: int, period: int, i: int)
    requires 0 < period
  {
    RiseAt(ts, i) && (ts[i].tick < first || (ts[i].tick - first) % period != 0)
  }

  /** A value with an unknown bit, strictly after some rise. */
  ghost predicate UnknownAfterRise(ts: seq<Transition>, i: int) {
    && 0 <= i < |ts| && (Matching.HasX(ts[i].value) || Matching.HasZ(ts[i].value))
    && exists k :: RiseAt(ts, k) && ts[k].tick < ts[i].tick
  }

  ghost predicate IsFirstOffGrid(ts: seq<Transition>, first: int, period: int, found: Option<int>)
    requires 0 < period
  {
    match found
    case Some(t) =>
      && (exists i :: OffGridRise(ts, first, period, i) && ts[i].tick == t)
      && forall i :: OffGridRise(ts, first, period, i) ==> t <= ts[i].tick
    case None => forall i :: !OffGridRise(ts, first, period, i)
  }

  ghost predicate IsFirstUnknown(ts: seq<Transition>, found: Option<int>) {
    match found
    case Some(t) => (exists i :: UnknownAfterRise(ts, i) && ts[i].tick == t) && forall i :: UnknownAfterRise(ts, i) ==> t <= ts[i].tick
    case None => forall i :: !UnknownAfterRise(ts, i)
  }

  /** Up to `tick` the clock keeps to the grid and, once it has risen, has known values. */
  ghost predicate Trusts(ts: seq<Transition>, first: int, period: int, tick: int)
    requires 0 < period
  {
    && tick < U64_MAX
    && (forall i :: OffGridRise(ts, first, period, i) ==> tick < ts[i].tick)
    && (forall i :: UnknownAfterRise(ts, i) ==> tick < ts[i].tick)
  }

  /** Two rises with none between them. */
  ghost predicate NextRise(ts: seq<Transition>, i: int, j: int) {
    && RiseAt(ts, i) && RiseAt(ts, j) && ts[i].tick < ts[j].tick
    && forall k :: RiseAt(ts, k) ==> !(ts[i].tick < ts[k].tick < ts[j].tick)
  }

  /** `g` is at least a period away from the rises on either side of it, the later of which is trusted. */
  ghost predicate StandsStill(ts: seq<Transition>, first: int, period: int, g: int)
    requires 0 < period
  {
    exists i, j ::
      && 0 <= i < |ts| && 0 <= j < |ts| && NextRise(ts, i, j) && Trusts(ts, first, period, ts[j].tick) && ts[i].tick + period <= g <= ts[j].tick - period
  }

  /** The two findings are the first of their kind, and the stretches cover where the clock stands still. */
  ghost predicate TellsTrace(period: nat, first: int, ts: seq<Transition>, a: Analysis) {
    && (if period > 0 then IsFirstOffGrid(ts, first, period, a.offGrid) else a.offGrid.None?)
    && IsFirstUnknown(ts, a.unknown)
    && (if period > 0 then Ascending(a.stoppedTicks) && forall g :: Covers(a.stoppedTicks, g) <==> StandsStill(ts, first, period, g)
        else a.stoppedTicks == [])
  }

  lemma RiseTicks(ts: seq<Transition>)
    requires Ordered(ts)
    ensures forall t :: t in Rises(ts) <==> exists i :: RiseAt(ts, i) && ts[i].tick == t
    ensures forall i :: RiseAt(ts, i) ==> ts[i].tick in Rises(ts)
    ensures NonDecreasing(Rises(ts))
  {
    RisesMeaning(ts, |ts|);
  }

  ghost predicate OffGridTick(t: int, first: int, period: int)
    requires 0 < period
  {
    t < first || (t - first) % period != 0
  }

  lemma {:induction false} FirstOffGridIsLeast(rises: seq<int>, first: int, period: int)
    requires 0 < period && NonDecreasing(rises)
    ensures match FirstOffGrid(rises, first, period)
            case Some(t) => t in rises && OffGridTick(t, first, period) && forall r :: r in rises && OffGridTick(r, first, period) ==> t <= r
            case None => forall r :: r in rises ==> !OffGridTick(r, first, period)
  {
    if rises != [] {
      FirstOffGridIsLeast(rises[1..], first, period);
      assert forall r :: r in rises <==> r == rises[0] || r in rises[1..];
      assert forall k :: 0 <= k < |rises| ==> rises[0] <= rises[k];
    }
  }

  lemma {:induction false} FirstUnknownIsLeast(ts: seq<Transition>, start: int)
    requires Ordered(ts)
    ensures match FirstUnknownAfter(ts, start)
            case Some(t) => start < t && (exists i :: 0 <= i < |ts| && ts[i].tick == t && Matching.ContainsXz(ts[i].value))
                            && forall i :: 0 <= i < |ts| && start < ts[i].tick && Matching.ContainsXz(ts[i].value) ==> t <= ts[i].tick
            case None => forall i :: 0 <= i < |ts| && start < ts[i].tick ==> !Matching.ContainsXz(ts[i].value)
  {
    hide Matching.ContainsXz;
    if ts != [] {
      FirstUnknownIsLeast(ts[1..], start);
      assert forall i :: 0 < i < |ts| ==> ts[i] == ts[1..][i - 1];
      assert forall i :: 0 <= i < |ts[1..]| ==> ts[1..][i] == ts[i + 1];
    }
  }

  lemma OffGridIsFirst(ts: seq<Transition>, first: int, period: int)
    requires 0 < period && Ordered(ts)
    ensures IsFirstOffGrid(ts, first, period, FirstOffGrid(Rises(ts), first, period))
  {
    hide *;
    RiseTicks(ts);
    FirstOffGridIsLeast(Rises(ts), first, period);
    OffGridOfList(ts, Rises(ts), first, period, FirstOffGrid(Rises(ts), first, period));
  }

  lemma OffGridOfList(ts: seq<Transition>, rises: seq<int>, first: int, period: int, found: Option<int>)
    requires 0 < period && forall t :: t in rises <==> exists i :: RiseAt(ts, i) && ts[i].tick == t
    requires forall i :: RiseAt(ts, i) ==> ts[i].tick in rises
    requires match found
             case Some(t) => t in rises && OffGridTick(t, first, period) && forall r :: r in rises && OffGridTick(r, first, period) ==> t <= r
             case None => forall r :: r in rises ==> !OffGridTick(r, first, period)
    ensures IsFirstOffGrid(ts, first, period, found)
  {
    OffGridInTrace(ts, first, period);
    forall i ensures OffGridRise(ts, first, period, i) <==> RiseAt(ts, i) && OffGridTick(ts[i].tick, first, period) {
      OffGridAt(ts, first, period, i);
    }
    hide RiseAt, OffGridTick, OffGridRise;
  }

  lemma OffGridAt(ts: seq<Transition>, first: int, period: int, i: int)
    requires 0 < period
    ensures OffGridRise(ts, first, period, i) <==> RiseAt(ts, i) && OffGridTick(ts[i].tick, first, period)
  {}

  lemma UnknownIsFirst(ts: seq<Transition>)
    requires Ordered(ts)
    ensures IsFirstUnknown(ts, if Rises(ts) == [] then None else FirstUnknownAfter(ts, Rises(ts)[0]))
  {
    var rises := Rises(ts);
    RiseTicks(ts);
    forall i | 0 <= i < |ts| ensures Matching.ContainsXz(ts[i].value) <==> Matching.HasX(ts[i].value) || Matching.HasZ(ts[i].value) {
      Matching.UnknownParts(ts[i].value);
    }
    hide Rises, FirstUnknownAfter, RiseAt, Matching.HasX, Matching.HasZ, Matching.ContainsXz;
    if rises != [] {
      FirstUnknownIsLeast(ts, rises[0]);
      assert rises[0] in rises;
      forall i | 0 <= i < |ts| ensures (exists k :: RiseAt(ts, k) && ts[k].tick < ts[i].tick) <==> rises[0] < ts[i].tick {
        AfterFirstRise(ts, i);
      }
    }
  }

  lemma AfterFirstRise(ts: seq<Transition>, i: int)
    requires Ordered(ts) && Rises(ts) != [] && 0 <= i < |ts|
    ensures (exists k :: RiseAt(ts, k) && ts[k].tick < ts[i].tick) <==> Rises(ts)[0] < ts[i].tick
  {
    var rises := Rises(ts);
    RiseTicks(ts);
    assert rises[0] in rises;
    hide Rises;
    forall k | RiseAt(ts, k) ensures rises[0] <= ts[k].tick {
      var m :| 0 <= m < |rises| && rises[m] == ts[k].tick;
    }
  }

  /** A trusted tick is one below the first finding, or below the last 64-bit tick when there is none. */
  lemma TrustsIsBelowCutoff(ts: seq<Transition>, first: int, period: int, offGrid: Option<int>, unknown: Option<int>, tick: int)
    requires 0 < period && IsFirstOffGrid(ts, first, period, offGrid) && IsFirstUnknown(ts, unknown)
    requires forall i :: 0 <= i < |ts| ==> ts[i].tick <= U64_MAX
    ensures Trusts(ts, first, period, tick) <==> tick < Cutoff(offGrid, unknown)
  {
    OffGridInTrace(ts, first, period);
    hide RiseAt, UnknownAfterRise, OffGridRise;
  }

  lemma OffGridInTrace(ts: seq<Transition>, first: int, period: int)
    requires 0 < period
    ensures forall i :: OffGridRise(ts, first, period, i) ==> 0 <= i < |ts|
    ensures forall i :: UnknownAfterRise(ts, i) ==> 0 <= i < |ts|
  {}

  lemma RiseOf(ts: seq<Transition>, m: int) returns (i: int)
    requires Ordered(ts) && 0 <= m < |Rises(ts)|
    ensures RiseAt(ts, i) && ts[i].tick == Rises(ts)[m]
  {
    RiseTicks(ts);
    hide Rises, RiseAt;
    assert Rises(ts)[m] in Rises(ts);
    i :| RiseAt(ts, i) && ts[i].tick == Rises(ts)[m];
  }

  lemma GapIsNextRise(ts: seq<Transition>, m: int) returns (i: int, j: int)
    requires Ordered(ts) && 0 < m < |Rises(ts)| && Rises(ts)[m - 1] < Rises(ts)[m]
    ensures NextRise(ts, i, j) && ts[i].tick == Rises(ts)[m - 1] && ts[j].tick == Rises(ts)[m]
  {
    i := RiseOf(ts, m - 1);
    j := RiseOf(ts, m);
    RiseTicks(ts);
    hide Rises, RiseAt;
    forall k | RiseAt(ts, k) ensures !(ts[i].tick < ts[k].tick < ts[j].tick) { NotBetween(Rises(ts), m, ts[k].tick); }
  }

  lemma NextRiseIsGap(ts: seq<Transition>, i: int, j: int) returns (m: nat)
    requires Ordered(ts) && NextRise(ts, i, j)
    ensures 0 < m < |Rises(ts)| && Rises(ts)[m - 1] == ts[i].tick && Rises(ts)[m] == ts[j].tick
  {
    RiseTicks(ts);
    hide Rises, RiseAt;
    m := Neighbours(Rises(ts), ts[i].tick, ts[j].tick);
  }

  lemma GapsStandStill(ts: seq<Transition>, first: int, period: int, cutoff: int, g: int)
    requires 0 < period && Ordered(ts) && forall t :: Trusts(ts, first, period, t) <==> t < cutoff
    requires InGap(Rises(ts), period, cutoff, |Rises(ts)|, g)
    ensures StandsStill(ts, first, period, g)
  {
    hide Rises, Trusts, RiseAt, NextRise, Ordered;
    var m :| m < |Rises(ts)| && Gap(Rises(ts), period, cutoff, m) && Rises(ts)[m - 1] + period <= g <= Rises(ts)[m] - period;
    var i, j := GapIsNextRise(ts, m);
    NextRiseInTrace(ts, i, j);
  }

  lemma NextRiseInTrace(ts: seq<Transition>, i: int, j: int)
    requires NextRise(ts, i, j)
    ensures 0 <= i < |ts| && 0 <= j < |ts|
  {}

  lemma StandingStillIsGap(ts: seq<Transition>, first: int, period: int, cutoff: int, g: int)
    requires 0 < period && Ordered(ts) && forall t :: Trusts(ts, first, period, t) <==> t < cutoff
    requires StandsStill(ts, first, period, g)
    ensures InGap(Rises(ts), period, cutoff, |Rises(ts)|, g)
  {
    hide Rises, Trusts, RiseAt, NextRise, Ordered;
    var i, j :|
      && 0 <= i < |ts| && 0 <= j < |ts| && NextRise(ts, i, j) && Trusts(ts, first, period, ts[j].tick) && ts[i].tick + period <= g <= ts[j].tick - period;
    var m := NextRiseIsGap(ts, i, j);
    assert Gap(Rises(ts), period, cutoff, m);
  }

  /** Gaps between neighbouring rises are where the clock stands still. */
  lemma GapStandsStill(clock: string, period: nat, first: int, ts: seq<Transition>, a: Analysis, g: int)
    requires 0 < period && Ordered(ts) && IsAnalysis(clock, period, first, ts, a)
    requires forall i :: 0 <= i < |ts| ==> ts[i].tick <= U64_MAX
    ensures InGap(Rises(ts), period, Cutoff(a.offGrid, a.unknown), |Rises(ts)|, g) <==> StandsStill(ts, first, period, g)
  {
    OffGridIsFirst(ts, first, period);
    UnknownIsFirst(ts);
    assert IsFirstOffGrid(ts, first, period, a.offGrid) && IsFirstUnknown(ts, a.unknown);
    hide *;
    forall t ensures Trusts(ts, first, period, t) <==> t < Cutoff(a.offGrid, a.unknown) {
      TrustsIsBelowCutoff(ts, first, period, a.offGrid, a.unknown, t);
    }
    if InGap(Rises(ts), period, Cutoff(a.offGrid, a.unknown), |Rises(ts)|, g) {
      GapsStandStill(ts, first, period, Cutoff(a.offGrid, a.unknown), g);
    }
    if StandsStill(ts, first, period, g) {
      StandingStillIsGap(ts, first, period, Cutoff(a.offGrid, a.unknown), g);
    }
  }

  lemma NotBetween(rises: seq<int>, m: int, t: int)
    requires NonDecreasing(rises) && 0 < m < |rises| && t in rises
    ensures !(rises[m - 1] < t < rises[m])
  {
    var k :| 0 <= k < |rises| && rises[k] == t;
  }

  lemma Neighbours(rises: seq<int>, low: int, high: int) returns (m: nat)
    requires NonDecreasing(rises) && low in rises && high in rises && low < high
    requires forall t :: t in rises ==> !(low < t < high)
    ensures 0 < m < |rises| && rises[m - 1] == low && rises[m] == high
  {
    var k :| 0 <= k < |rises| && rises[k] == low;
    var l :| 0 <= l < |rises| && rises[l] == high;
    m := k + 1;
    while rises[m] == low
      invariant k < m <= l && rises[m - 1] == low
      decreases l - m
    {
      m := m + 1;
    }
    assert rises[m - 1] <= rises[m] <= rises[l] && rises[m] in rises;
  }

  lemma AnalysisTellsTrace(clock: string, period: nat, first: int, ts: seq<Transition>, a: Analysis)
    requires Ordered(ts) && IsAnalysis(clock, period, first, ts, a)
    requires forall i :: 0 <= i < |ts| ==> ts[i].tick <= U64_MAX
    ensures TellsTrace(period, first, ts, a)
  {
    UnknownIsFirst(ts);
    if period > 0 {
      OffGridIsFirst(ts, first, period);
      AnalysisGaps(clock, period, first, ts, a);
      hide Rises, FirstOffGrid, FirstUnknownAfter, InGap, StandsStill, IsFirstOffGrid, IsFirstUnknown, GridGaps, OnGrid;
      StoppedIsGaps(Rises(ts), first, period, Cutoff(a.offGrid, a.unknown), |Rises(ts)|);
      forall g ensures Covers(a.stoppedTicks, g) <==> StandsStill(ts, first, period, g) {
        GapStandsStill(clock, period, first, ts, a, g);
      }
    }
  }

  /** The findings and the stopped stretches are those of the trace; the clock is unavailable without two rises or
      a period, and passes when it is available and nothing is found. */
  method Analyze(clock: string, period: nat, first: nat, ts: seq<Transition>) returns (a: Analysis)
    requires Ordered(ts) && forall i :: 0 <= i < |ts| ==> ts[i].tick <= U64_MAX
    ensures IsAnalysis(clock, period, first, ts, a)
    ensures TellsTrace(period, first, ts, a)
    ensures a.status.Unavailable? <==> clock == "" || period == 0 || forall i, j :: RiseAt(ts, i) && RiseAt(ts, j) ==> i == j
    ensures a.status.Pass? <==> !a.status.Unavailable? && a.offGrid.None? && a.unknown.None?
  {
    var rises := RisingTicks(ts);
    RisesMeaning(ts, |ts|);
    TwoRises(ts);
    hide Rises, RisesUpTo, RiseAt, FirstOffGrid, FirstUnknownAfter, Matching.ContainsXz, Cutoff, Ordered, NonDecreasing, TellsTrace;
    var offGrid := if period > 0 then FirstOffGrid(rises, first, period) else None;
    var unknown := if rises == [] then None else FirstUnknownAfter(ts, rises[0]);
    var cutoff := Cutoff(offGrid, unknown);
    var stopped := [];
    if period > 0 { stopped := StoppedStretches(rises, period, cutoff); }
    var status :=
      if clock == "" || |rises| < 2 || period == 0 then Unavailable
      else if offGrid.Some? || unknown.Some? then Warning
      else Pass;
    a := Analysis(status, offGrid, unknown, stopped);
    AnalysisTellsTrace(clock, period, first, ts, a);
  }

  /** The loop over neighbouring rises ends at the first rise that is not trusted. */
  method StoppedStretches(rises: seq<int>, period: nat, cutoff: int) returns (stopped: seq<Interval>)
    requires NonDecreasing(rises)
    ensures stopped == StoppedUpTo(rises, period, cutoff, |rises|)
  {
    stopped := [];
    var i := 1;
    NoStretchYet(rises, period, cutoff);
    while i < |rises|
      invariant 1 <= i && (rises == [] || i <= |rises|)
      invariant stopped == if rises == [] then [] else StoppedUpTo(rises, period, cutoff, i)
    {
      StoppedUnfold(rises, period, cutoff, i);
      StretchMeaning(rises, period, i);
      if rises[i] >= cutoff {
        NothingAfterCutoff(rises, period, cutoff, i, |rises|);
        break;
      }
      assert 0 <= rises[i - 1] <= rises[i];
      hide StoppedUpTo, Stretch, NonDecreasing;
      if rises[i] - rises[i - 1] > period {
        stopped := stopped + [Interval(rises[i - 1] + period, rises[i] - period)];
      }
      i := i + 1;
    }
  }

  lemma NoStretchYet(rises: seq<int>, period: nat, cutoff: int)
    requires NonDecreasing(rises)
    ensures rises != [] ==> StoppedUpTo(rises, period, cutoff, 1) == []
    ensures StoppedUpTo(rises, period, cutoff, 0) == []
  {}

  lemma TwoRises(ts: seq<Transition>)
    ensures |Rises(ts)| < 2 <==> forall i, j :: RiseAt(ts, i) && RiseAt(ts, j) ==> i == j
  {
    FewRises(ts, |ts|);
  }

  lemma {:induction false} FewRises(ts: seq<Transition>, n: nat)
    requires n <= |ts|
    ensures |RisesUpTo(ts, n)| == 0 <==> forall i :: i < n ==> !RiseAt(ts, i)
    ensures |RisesUpTo(ts, n)| < 2 <==> forall i, j :: i < n && j < n && RiseAt(ts, i) && RiseAt(ts, j) ==> i == j
  {
    hide RiseAt;
    if n > 0 {
      FewRises(ts, n - 1);
    } else {
      NoRiseBelow(ts);
    }
  }

  lemma NoRiseBelow(ts: seq<Transition>)
    ensures forall i :: i < 0 ==> !RiseAt(ts, i)
  {}

  // ---- What the stopped stretches mean ----

  /** Before the first off-grid rise every rise is on the grid. */
  lemma {:induction false} BeforeOffGrid(rises: seq<int>, first: int, period: int, i: nat)
    requires 0 < period && NonDecreasing(rises) && i < |rises|
    requires FirstOffGrid(rises, first, period).Some? ==> rises[i] < FirstOffGrid(rises, first, period).value
    ensures OnGrid(rises[i], first, period)
  {
    if i > 0 && OnGrid(rises[0], first, period) {
      BeforeOffGrid(rises[1..], first, period, i - 1);
    }
  }

  lemma GridGap(x: int, y: int, first: int, period: int)
    requires 0 < period && OnGrid(x, first, period) && OnGrid(y, first, period) && x < y
    ensures x + period <= y
    ensures OnGrid(x + period, first, period) && OnGrid(y - period, first, period)
  {
    MultipleGap(x - first, y - first, period);
    MultipleDiff(x - first, x - first, period);
    MultipleDiff(y - first, y - first, period);
    assert x + period - first == (x - first) + period;
    assert y - period - first == (y - first) - period;
  }

  /** Every gap before the cutoff lies between grid ticks and has room for a whole period. */
  ghost predicate GridGaps(rises: seq<int>, first: int, period: int, cutoff: int)
    requires 0 < period
  {
    forall i {:trigger Gap(rises, period, cutoff, i)} :: Gap(rises, period, cutoff, i) ==>
      && rises[i - 1] + 2 * period <= rises[i]
      && OnGrid(rises[i - 1] + period, first, period) && OnGrid(rises[i] - period, first, period)
  }

  lemma GapIsOnGrid(rises: seq<int>, first: int, period: int, i: int)
    requires 0 < period && 0 < i < |rises| && rises[i - 1] + period < rises[i]
    requires OnGrid(rises[i - 1], first, period) && OnGrid(rises[i], first, period)
    ensures rises[i - 1] + 2 * period <= rises[i]
    ensures OnGrid(rises[i - 1] + period, first, period) && OnGrid(rises[i] - period, first, period)
  {
    GridGap(rises[i - 1], rises[i], first, period);
    GridGap(rises[i - 1] + period, rises[i], first, period);
  }

  lemma {:induction false} GapsOnGrid(rises: seq<int>, first: int, period: int, cutoff: int)
    requires 0 < period && NonDecreasing(rises)
    requires FirstOffGrid(rises, first, period).Some? ==> cutoff <= FirstOffGrid(rises, first, period).value
    ensures GridGaps(rises, first, period, cutoff)
  {
    forall i | Gap(rises, period, cutoff, i)
      ensures rises[i - 1] + 2 * period <= rises[i]
      ensures OnGrid(rises[i - 1] + period, first, period) && OnGrid(rises[i] - period, first, period)
    {
      assert rises[i - 1] <= rises[i];
      BeforeOffGrid(rises, first, period, i - 1);
      BeforeOffGrid(rises, first, period, i);
      GapIsOnGrid(rises, first, period, i);
    }
  }

  lemma AnalysisGaps(clock: string, period: nat, first: int, ts: seq<Transition>, a: Analysis)
    requires 0 < period && IsAnalysis(clock, period, first, ts, a)
    ensures GridGaps(Rises(ts), first, period, Cutoff(a.offGrid, a.unknown))
  {
    GapsOnGrid(Rises(ts), first, period, Cutoff(a.offGrid, a.unknown));
  }

  /** `g` lies at least a period after one rise and a period before the next, below the cutoff. */
  ghost predicate InGap(rises: seq<int>, period: int, cutoff: int, n: nat, g: int) {
    exists i :: i < n && Gap(rises, period, cutoff, i) && rises[i - 1] + period <= g <= rises[i] - period
  }

  /** `stops` covers, in ascending order and with grid ticks at all ends, exactly
      the gaps before rise number `n`. */
  ghost predicate ListsGaps(stops: seq<Interval>, rises: seq<int>, first: int, period: int, cutoff: int, n: nat)
    requires 0 < period
  {
    && GridStops(stops, first, period)
    && (forall k :: 0 <= k < |stops| ==> 0 < n <= |rises| && stops[k].hi < rises[n - 1])
    && (forall g :: Covers(stops, g) <==> InGap(rises, period, cutoff, n, g))
  }

  lemma InGapStep(rises: seq<int>, period: int, cutoff: int, n: nat, g: int)
    ensures InGap(rises, period, cutoff, n + 1, g)
       <==> InGap(rises, period, cutoff, n, g) || (Gap(rises, period, cutoff, n) && rises[n - 1] + period <= g <= rises[n] - period)
  {
    if InGap(rises, period, cutoff, n, g) {
      var i :| i < n && Gap(rises, period, cutoff, i) && rises[i - 1] + period <= g <= rises[i] - period;
      assert i < n + 1;
    }
  }

  lemma ListsGapsAdd(stops: seq<Interval>, rises: seq<int>, first: int, period: int, cutoff: int, n: nat, r: Interval)
    requires 0 < period && NonDecreasing(rises) && Gap(rises, period, cutoff, n)
    requires rises[n - 1] + 2 * period <= rises[n]
    requires r.lo == rises[n - 1] + period && r.hi == rises[n] - period
    requires OnGrid(r.lo, first, period) && OnGrid(r.hi, first, period)
    requires ListsGaps(stops, rises, first, period, cutoff, n)
    ensures ListsGaps(stops + [r], rises, first, period, cutoff, n + 1)
  {
    hide OnGrid, InGap;
    var all := stops + [r];
    CoversAppend(stops, r);
    forall g ensures Covers(all, g) <==> InGap(rises, period, cutoff, n + 1, g) {
      InGapStep(rises, period, cutoff, n, g);
    }
    assert forall k :: 0 <= k < |stops| ==> stops[k].hi < rises[n - 1];
    forall k | 0 <= k < |all| ensures OnGrid(all[k].lo, first, period) && OnGrid(all[k].hi, first, period) {
      if k < |stops| { assert OnGrid(stops[k].lo, first, period) && all[k] == stops[k]; }
    }
  }

  lemma ListsGapsSkip(stops: seq<Interval>, rises: seq<int>, first: int, period: int, cutoff: int, n: nat)
    requires 0 < period && NonDecreasing(rises) && !Gap(rises, period, cutoff, n) && n < |rises|
    requires ListsGaps(stops, rises, first, period, cutoff, n)
    ensures ListsGaps(stops, rises, first, period, cutoff, n + 1)
  {
    hide OnGrid, InGap;
    forall g ensures InGap(rises, period, cutoff, n + 1, g) <==> InGap(rises, period, cutoff, n, g) {
      InGapStep(rises, period, cutoff, n, g);
    }
    assert n > 0 ==> rises[n - 1] <= rises[n];
  }

  lemma StretchMeaning(rises: seq<int>, period: int, i: int)
    requires NonDecreasing(rises) && 0 <= period
    ensures 0 < i < |rises| && rises[i - 1] + period < rises[i] ==>
              Stretch(rises, period, i).lo == rises[i - 1] + period && Stretch(rises, period, i).hi == rises[i] - period
  {}

  lemma StoppedUnfold(rises: seq<int>, period: int, cutoff: int, n: nat)
    requires 0 <= period && n < |rises| && NonDecreasing(rises)
    ensures StoppedUpTo(rises, period, cutoff, n + 1)
         == StoppedUpTo(rises, period, cutoff, n) + if Gap(rises, period, cutoff, n) then [Stretch(rises, period, n)] else []
  {}

  /** The stretches are exactly the gaps. */
  lemma {:induction false} StoppedIsGaps(rises: seq<int>, first: int, period: int, cutoff: int, n: nat)
    requires 0 < period && n <= |rises| && NonDecreasing(rises) && GridGaps(rises, first, period, cutoff)
    ensures ListsGaps(StoppedUpTo(rises, period, cutoff, n), rises, first, period, cutoff, n)
  {
    if n > 0 {
      var before := StoppedUpTo(rises, period, cutoff, n - 1);
      StoppedIsGaps(rises, first, period, cutoff, n - 1);
      StoppedUnfold(rises, period, cutoff, n - 1);
      hide ListsGaps, StoppedUpTo, OnGrid, NonDecreasing, Stretch;
      StretchMeaning(rises, period, n - 1);
      if Gap(rises, period, cutoff, n - 1) {
        ListsGapsAdd(before, rises, first, period, cutoff, n - 1, Stretch(rises, period, n - 1));
      } else {
        ListsGapsSkip(before, rises, first, period, cutoff, n - 1);
        assert before + [] == before;
      }
    }
  }

  ghost predicate GridStops(stoppedTicks: seq<Interval>, first: int, period: int)
    requires 0 < period
  {
    && Ascending(stoppedTicks)
    && (forall i {:trigger OnGrid(stoppedTicks[i].lo, first, period)} :: 0 <= i < |stoppedTicks| ==>
          OnGrid(stoppedTicks[i].lo, first, period) && OnGrid(stoppedTicks[i].hi, first, period))
  }

  /** A rise is never in a gap; a number a period away from two neighbouring rises always is. */
  lemma RiseIsNotInGap(rises: seq<int>, period: int, cutoff: int, i: nat)
    requires 0 < period && i < |rises| && NonDecreasing(rises)
    ensures !InGap(rises, period, cutoff, |rises|, rises[i])
  {
    forall j | Gap(rises, period, cutoff, j) ensures !(rises[j - 1] + period <= rises[i] <= rises[j] - period) {
      assert i < j ==> rises[i] <= rises[j - 1];
      assert j <= i ==> rises[j] <= rises[i];
    }
  }

  lemma BetweenRises(rises: seq<int>, period: int, cutoff: int, i: nat, g: int)
    requires 0 < period && NonDecreasing(rises)
    requires i + 1 < |rises| && rises[i + 1] < cutoff && rises[i] < g < rises[i + 1]
    requires rises[i] + period <= g <= rises[i + 1] - period
    ensures InGap(rises, period, cutoff, |rises|, g) && g !in rises
  {
    assert Gap(rises, period, cutoff, i + 1);
    forall j | 0 <= j < |rises| ensures rises[j] != g {
      assert j <= i ==> rises[j] <= rises[i];
      assert i < j ==> rises[i + 1] <= rises[j];
    }
  }

  lemma {:induction false} LocateBetween(rises: seq<int>, m: nat, g: int) returns (i: nat)
    requires m < |rises| && rises[0] <= g <= rises[m]
    ensures i <= m && rises[i] <= g
    ensures g == rises[i] || (i < m && g < rises[i + 1])
  {
    i := 0;
    while i < m && rises[i + 1] <= g
      invariant i <= m && rises[i] <= g
    {
      i := i + 1;
    }
  }

  /** Partition of the grid: up to the last rise before the cutoff, a grid tick is
      a rising edge or lies in a stopped stretch, never both and never in two. */
  lemma {:induction false} GridTickRisesOrStops(clock: string, period: nat, ts: seq<Transition>, a: Analysis, m: nat, g: int)
    requires 0 < period && m < |Rises(ts)| && IsAnalysis(clock, period, Rises(ts)[0], ts, a)
    requires Rises(ts)[m] < Cutoff(a.offGrid, a.unknown) && g <= Rises(ts)[m]
    requires OnGrid(g, Rises(ts)[0], period)
    ensures g in Rises(ts) <==> !Covers(a.stoppedTicks, g)
    ensures Ascending(a.stoppedTicks)
  {
    var rises, cutoff := Rises(ts), Cutoff(a.offGrid, a.unknown);
    var first := rises[0];
    hide OnGrid, FirstOffGrid, FirstUnknownAfter, Rises, StoppedUpTo, InGap;
    AnalysisGaps(clock, period, first, ts, a);
    StoppedIsGaps(rises, first, period, cutoff, |rises|);
    var i := LocateBetween(rises, m, g);
    if g == rises[i] {
      RiseIsNotInGap(rises, period, cutoff, i);
    } else {
      assert rises[i + 1] <= rises[m];
      BeforeOffGrid(rises, first, period, i);
      BeforeOffGrid(rises, first, period, i + 1);
      GridGap(rises[i], g, first, period);
      GridGap(g, rises[i + 1], first, period);
      BetweenRises(rises, period, cutoff, i, g);
    }
  }

  // ---- Stopped cycles relative to a query's base ----

  function CycleRange(lo: int, hi: int, base: int, period: int): Interval
    requires 0 < period && base <= lo <= hi
  {
    DivBounds(lo - base, period);
    DivBounds(hi - base, period);
    Interval((lo - base) / period + 1, (hi - base) / period + 1)
  }

  function RangesUpTo(stoppedTicks: seq<Interval>, base: int, period: int, n: nat): seq<Interval>
    requires n <= |stoppedTicks| && NonEmpty(stoppedTicks)
  {
    if period <= 0 || n == 0 then []
    else
      RangesUpTo(stoppedTicks, base, period, n - 1) + RangeOf(stoppedTicks[n - 1], base, period)
  }

  function RangeOf(r: Interval, base: int, period: int): seq<Interval>
    requires 0 < period && r.lo <= r.hi
  {
    if r.hi < base then [] else [CycleRange(Max(r.lo, base), r.hi, base, period)]
  }

  /** Stopped cycles as cycle numbers counted from `base`. */
  function Ranges(stoppedTicks: seq<Interval>, base: int, period: int): seq<Interval>
    requires NonEmpty(stoppedTicks)
  {
    RangesUpTo(stoppedTicks, base, period, |stoppedTicks|)
  }

  /** One range: for an aligned base, cycle `c` is listed exactly if its edge is in the stretch. */
  lemma CycleRangeMeaning(r: Interval, base: int, first: int, period: int, c: int)
    requires 0 < period && r.lo <= r.hi && base <= r.hi && 1 <= c
    requires OnGrid(r.lo, first, period) && OnGrid(r.hi, first, period) && OnGrid(base, first, period)
    ensures var q := CycleRange(Max(r.lo, base), r.hi, base, period);
            q.lo <= c <= q.hi <==> r.lo <= Edge(base, period, c) <= r.hi
    ensures var q := CycleRange(Max(r.lo, base), r.hi, base, period);
            && 1 <= q.lo <= q.hi
            && Edge(base, period, q.lo) == Max(r.lo, base) && Edge(base, period, q.hi) == r.hi
  {
    var lo := Max(r.lo, base);
    MultipleDiff(r.hi - first, base - first, period);
    MultipleDiff(lo - first, base - first, period);
    assert (r.hi - first) - (base - first) == r.hi - base;
    assert (lo - first) - (base - first) == lo - base;
    DivBounds(lo - base, period);
    DivBounds(r.hi - base, period);
    var q := CycleRange(lo, r.hi, base, period);
    EdgeMono(base, period, 1, c);
    EdgeMono(base, period, q.lo, c);
    EdgeMono(base, period, c, q.hi);
    EdgeMono(base, period, q.lo, q.hi);
  }

  /** `qs` lists, in ascending order, exactly the cycles whose edge lies in `stops`. */
  ghost predicate ListsCycles(qs: seq<Interval>, stops: seq<Interval>, base: int, period: int) {
    && Ascending(qs)
    && (forall c :: 1 <= c ==> (Covers(qs, c) <==> Covers(stops, Edge(base, period, c))))
    && (forall k :: 0 <= k < |qs| ==> 1 <= qs[k].lo)
  }

  lemma ListsCyclesSkip(qs: seq<Interval>, stops: seq<Interval>, base: int, period: int, r: Interval)
    requires 0 < period && ListsCycles(qs, stops, base, period) && r.hi < base
    ensures ListsCycles(qs, stops + [r], base, period)
  {
    CoversAppend(stops, r);
    forall c | 1 <= c ensures r.hi < Edge(base, period, c) { EdgeMono(base, period, 1, c); }
  }

  lemma ListsCyclesAdd(qs: seq<Interval>, stops: seq<Interval>, base: int, period: int, r: Interval, q: Interval)
    requires 0 < period && ListsCycles(qs, stops, base, period)
    requires forall i :: 0 <= i < |stops| ==> stops[i].hi < r.lo
    requires 1 <= q.lo <= q.hi && Edge(base, period, q.hi) == r.hi && r.lo <= Edge(base, period, q.lo)
    requires forall c :: 1 <= c ==> (q.lo <= c <= q.hi <==> r.lo <= Edge(base, period, c) <= r.hi)
    ensures ListsCycles(qs + [q], stops + [r], base, period)
  {
    CoversAppend(stops, r);
    CoversAppend(qs, q);
    forall k | 0 <= k < |qs| ensures qs[k].hi < q.lo {
      assert Covers(qs, qs[k].hi);
      var i :| 0 <= i < |stops| && stops[i].lo <= Edge(base, period, qs[k].hi) <= stops[i].hi;
      EdgeMono(base, period, qs[k].hi, q.lo);
    }
  }

  lemma RangesStep(qs: seq<Interval>, stops: seq<Interval>, r: Interval, base: int, first: int, period: int)
    requires 0 < period && ListsCycles(qs, stops, base, period) && r.lo <= r.hi && base <= r.hi
    requires forall i :: 0 <= i < |stops| ==> stops[i].hi < r.lo
    requires OnGrid(r.lo, first, period) && OnGrid(r.hi, first, period) && OnGrid(base, first, period)
    ensures ListsCycles(qs + [CycleRange(Max(r.lo, base), r.hi, base, period)], stops + [r], base, period)
  {
    var q := CycleRange(Max(r.lo, base), r.hi, base, period);
    forall c | 1 <= c ensures q.lo <= c <= q.hi <==> r.lo <= Edge(base, period, c) <= r.hi {
      CycleRangeMeaning(r, base, first, period, c);
    }
    CycleRangeMeaning(r, base, first, period, 1);
    ListsCyclesAdd(qs, stops, base, period, r, q);
  }

  /** The listed cycles are exactly those whose edge is stopped, in ascending disjoint ranges. */
  lemma {:induction false} RangesMeaning(stops: seq<Interval>, base: int, first: int, period: int, n: nat)
    requires 0 < period && n <= |stops| && GridStops(stops, first, period) && OnGrid(base, first, period)
    ensures ListsCycles(RangesUpTo(stops, base, period, n), stops[..n], base, period)
  {
    if n > 0 {
      RangesMeaning(stops, base, first, period, n - 1);
      RangesExtend(RangesUpTo(stops, base, period, n - 1), stops[..n - 1], stops[n - 1], base, first, period);
      assert stops[..n] == stops[..n - 1] + [stops[n - 1]];
    }
  }

  lemma RangesExtend(qs: seq<Interval>, stops: seq<Interval>, r: Interval, base: int, first: int, period: int)
    requires 0 < period && ListsCycles(qs, stops, base, period) && r.lo <= r.hi
    requires forall i :: 0 <= i < |stops| ==> stops[i].hi < r.lo
    requires OnGrid(r.lo, first, period) && OnGrid(r.hi, first, period) && OnGrid(base, first, period)
    ensures ListsCycles(qs + RangeOf(r, base, period), stops + [r], base, period)
  {
    if r.hi < base {
      ListsCyclesSkip(qs, stops, base, period, r);
      assert qs + RangeOf(r, base, period) == qs;
    } else {
      RangesStep(qs, stops, r, base, first, period);
    }
  }

  lemma {:induction false} StoppedEndEarly(rises: seq<int>, period: int, cutoff: int, n: nat)
    requires 0 <= period && n <= |rises| && NonDecreasing(rises)
    ensures forall k :: 0 <= k < |StoppedUpTo(rises, period, cutoff, n)| ==>
              StoppedUpTo(rises, period, cutoff, n)[k].hi < cutoff - period
  {
    if n > 1 { StoppedEndEarly(rises, period, cutoff, n - 1); }
  }

  lemma {:induction false} RangesEndEarly(stops: seq<Interval>, base: nat, period: int, n: nat, bound: int)
    requires 0 < period && n <= |stops| && NonEmpty(stops) && forall k :: 0 <= k < |stops| ==> stops[k].hi < bound
    ensures forall k :: 0 <= k < |RangesUpTo(stops, base, period, n)| ==> RangesUpTo(stops, base, period, n)[k].hi <= bound
  {
    if n > 0 {
      RangesEndEarly(stops, base, period, n - 1, bound);
      RangeEndsEarly(stops[n - 1], base, period, bound);
      hide RangeOf;
    }
  }

  lemma RangeEndsEarly(r: Interval, base: nat, period: int, bound: int)
    requires 0 < period && r.lo <= r.hi < bound
    ensures forall k :: 0 <= k < |RangeOf(r, base, period)| ==> RangeOf(r, base, period)[k].hi <= bound
  {
    if base <= r.hi {
      QuotientBelow(r.hi - base, period);
    }
  }

  lemma QuotientBelow(x: int, p: int)
    requires 0 < p && 0 <= x
    ensures x / p <= x
  {
    DivBounds(x, p);
    if x / p > 0 { MulMono(1, p, x / p); }
  }

  lemma {:induction false} FoundBelow(rises: seq<int>, first: int, period: int, ts: seq<Transition>, start: int, bound: int)
    requires 0 < period && (forall i :: 0 <= i < |rises| ==> rises[i] <= bound) && forall i :: 0 <= i < |ts| ==> ts[i].tick <= bound
    ensures FirstOffGrid(rises, first, period).Some? ==> FirstOffGrid(rises, first, period).value <= bound
    ensures FirstUnknownAfter(ts, start).Some? ==> FirstUnknownAfter(ts, start).value <= bound
    decreases |rises| + |ts|
  {
    if rises != [] { FoundBelow(rises[1..], first, period, ts, start, bound); }
    if ts != [] { FoundBelow(rises, first, period, ts[1..], start, bound); }
  }

  lemma CutoffFits(ts: seq<Transition>, first: int, period: nat, a: Analysis, clock: string)
    requires Ordered(ts) && 0 < period && IsAnalysis(clock, period, first, ts, a)
    requires forall i :: 0 <= i < |ts| ==> ts[i].tick <= U64_MAX
    ensures Cutoff(a.offGrid, a.unknown) <= U64_MAX
  {
    var rises := Rises(ts);
    RisesMeaning(ts, |ts|);
    assert forall i :: 0 <= i < |rises| ==> rises[i] in rises;
    hide Rises, RisesUpTo, StoppedUpTo, FirstOffGrid, FirstUnknownAfter;
    FoundBelow(rises, first, period, ts, if rises == [] then 0 else rises[0], U64_MAX);
  }

  /** The stretches of an analysis are its gaps and end a period before the last 64-bit tick. */
  lemma AnalysisStops(clock: string, period: nat, first: int, ts: seq<Transition>, a: Analysis)
    requires Ordered(ts) && 0 < period && IsAnalysis(clock, period, first, ts, a)
    requires forall i :: 0 <= i < |ts| ==> ts[i].tick <= U64_MAX
    ensures ListsGaps(a.stoppedTicks, Rises(ts), first, period, Cutoff(a.offGrid, a.unknown), |Rises(ts)|)
    ensures forall k :: 0 <= k < |a.stoppedTicks| ==> a.stoppedTicks[k].hi < U64_MAX - period
  {
    var rises, cutoff := Rises(ts), Cutoff(a.offGrid, a.unknown);
    CutoffFits(ts, first, period, a, clock);
    AnalysisGaps(clock, period, first, ts, a);
    assert a.stoppedTicks == StoppedUpTo(rises, period, cutoff, |rises|) && NonDecreasing(rises);
    hide *;
    StoppedIsGaps(rises, first, period, cutoff, |rises|);
    StoppedEndEarly(rises, period, cutoff, |rises|);
  }

  /** No stopped cycle of an analysis of 64-bit ticks has the last 64-bit number. */
  lemma {:induction false} StoppedCyclesEndEarly(clock: string, period: nat, first: nat, ts: seq<Transition>, a: Analysis, base: nat)
    requires Ordered(ts) && 0 < period && IsAnalysis(clock, period, first, ts, a)
    requires forall i :: 0 <= i < |ts| ==> ts[i].tick <= U64_MAX
    ensures Ascending(a.stoppedTicks) && ListsGaps(a.stoppedTicks, Rises(ts), first, period, Cutoff(a.offGrid, a.unknown), |Rises(ts)|)
    ensures forall k :: 0 <= k < |a.stoppedTicks| ==> a.stoppedTicks[k].hi < U64_MAX
    ensures forall k :: 0 <= k < |Ranges(a.stoppedTicks, base, period)| ==> Ranges(a.stoppedTicks, base, period)[k].hi < U64_MAX
  {
    AnalysisStops(clock, period, first, ts, a);
    GapsAscend(a.stoppedTicks, Rises(ts), first, period, Cutoff(a.offGrid, a.unknown), |Rises(ts)|);
    hide ListsGaps, IsAnalysis, Rises, Cutoff, RangesUpTo;
    RangesEndEarly(a.stoppedTicks, base, period, |a.stoppedTicks|, U64_MAX - period);
  }

  lemma GapsAscend(stops: seq<Interval>, rises: seq<int>, first: int, period: int, cutoff: int, n: nat)
    requires 0 < period && ListsGaps(stops, rises, first, period, cutoff, n)
    ensures Ascending(stops)
  {
    hide InGap, OnGrid;
  }

  /** End to end: with the base a query uses, cycle `c` is reported stopped exactly
      if no rising edge falls on its grid tick. */
  lemma {:induction false} StoppedCyclesMissTheirEdge(
    clock: string, period: nat, ts: seq<Transition>, a: Analysis, start: nat, base: nat, m: nat, c: int)
    requires Ordered(ts) && 0 < period && m < |Rises(ts)| && IsAnalysis(clock, period, Rises(ts)[0], ts, a)
    requires 0 <= Rises(ts)[0] && CheckedCycleBase(Rises(ts)[0], period, start) == Ok(base)
    requires 1 <= c && Edge(base, period, c) <= Rises(ts)[m] < Cutoff(a.offGrid, a.unknown)
    ensures Ascending(a.stoppedTicks) && Ascending(Ranges(a.stoppedTicks, base, period))
    ensures Covers(Ranges(a.stoppedTicks, base, period), c) <==> Edge(base, period, c) !in Rises(ts)
  {
    var first := Rises(ts)[0];
    BaseOnGrid(first, period, start, base);
    AnalysisGaps(clock, period, first, ts, a);
    StoppedIsGaps(Rises(ts), first, period, Cutoff(a.offGrid, a.unknown), |Rises(ts)|);
    RangesMeaning(a.stoppedTicks, base, first, period, |a.stoppedTicks|);
    assert a.stoppedTicks[..|a.stoppedTicks|] == a.stoppedTicks;
    EdgeOnGrid(base, first, period, c);
    GridTickRisesOrStops(clock, period, ts, a, m, Edge(base, period, c));
  }

  lemma BaseOnGrid(first: nat, period: nat, start: nat, base: nat)
    requires 0 < period && CheckedCycleBase(first, period, start) == Ok(base)
    ensures OnGrid(base, first, period) && start <= base
  {
    if first < start {
      var aligned := AlignDown(start - first, period);
      MultipleDiff(aligned, aligned, period);
    }
  }

  lemma EdgeOnGrid(base: int, first: int, period: int, c: int)
    requires 0 < period && OnGrid(base, first, period) && 1 <= c
    ensures OnGrid(Edge(base, period, c), first, period)
  {
    DivBounds(base - first, period);
    var k := (base - first) / period;
    assert Edge(base, period, c) - first == (k + (c - 1)) * period;
    ExactMod(Edge(base, period, c) - first, period, k + (c - 1));
    EdgeMono(base, period, 1, c);
  }
}
