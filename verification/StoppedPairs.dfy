/** Stopped cycles between paired events, in closed form per segment
    (crates/bwave/src/cache.rs). */
module StoppedPairs {
  import opened Basics
  import opened StoppedCycles
  import opened PairSegments
  import DistanceSummary

  /** Stopped cycles of one range up to and including cycle `x`. */
  function Prefix(r: Interval, x: int): nat {
    Overlap(r, 0, x)
  }

  /** The prefixes of `n` consecutive cycles, summed one by one. */
  function PrefixSum(r: Interval, first: nat, n: nat): nat {
    if n == 0 then 0 else PrefixSum(r, first, n - 1) + Prefix(r, first + n - 1)
  }

  /** Twice the prefixes inside the range. */
  function RampProduct(r: Interval, first: nat, count: nat): int {
    var rampStart, rampEnd := Max(first, r.lo), Min(first + count, r.hi + 1);
    if rampStart < rampEnd then (rampEnd - rampStart) * ((rampStart - r.lo + 1) + (rampEnd - r.lo)) else 0
  }

  /** The prefixes behind the range. */
  function Plateau(r: Interval, first: nat, count: nat): int {
    Max(0, first + count - Max(first, r.hi + 1)) * (r.hi - r.lo + 1)
  }

  /** The same sum in closed form: a ramp inside the range, then a plateau. */
  function SumPrefix(r: Interval, first: nat, count: nat): int {
    RampProduct(r, first, count) / 2 + Plateau(r, first, count)
  }

  function Triangle(n: int): int {
    n * (n + 1)
  }

  lemma TriangleStep(n: int)
    ensures Triangle(n + 1) == Triangle(n) + 2 * (n + 1)
  {}

  lemma {:induction false} TriangleIsEven(n: nat)
    ensures Triangle(n) % 2 == 0
  {
    if n > 0 {
      TriangleIsEven(n - 1);
      TriangleStep(n - 1);
      hide Triangle;
    }
  }

  /** The ramp is a difference of two triangles, so halving it is exact. */
  lemma RampIsTriangles(x: nat, y: nat)
    requires x < y
    ensures (y - x) * ((x + 1) + y) == Triangle(y) - Triangle(x)
    ensures ((y - x) * ((x + 1) + y)) % 2 == 0
  {
    TriangleIsEven(x);
    TriangleIsEven(y);
    assert (y - x) * ((x + 1) + y) == y * (y + 1) - x * (x + 1);
  }

  /** The ramp, doubled. */
  function TwiceRamp(r: Interval, first: nat, count: nat): int {
    var rampStart, rampEnd := Max(first, r.lo), Min(first + count, r.hi + 1);
    if rampStart < rampEnd then Triangle(rampEnd - r.lo) - Triangle(rampStart - r.lo) else 0
  }

  lemma ClosedForm(r: Interval, first: nat, count: nat)
    requires r.lo <= r.hi
    ensures RampProduct(r, first, count) == TwiceRamp(r, first, count)
    ensures 2 * SumPrefix(r, first, count) == TwiceRamp(r, first, count) + 2 * Plateau(r, first, count)
  {
    var rampStart, rampEnd := Max(first, r.lo), Min(first + count, r.hi + 1);
    if rampStart < rampEnd {
      RampIsTriangles(rampStart - r.lo, rampEnd - r.lo);
      assert (rampEnd - r.lo) - (rampStart - r.lo) == rampEnd - rampStart;
    }
  }

  lemma RampStep(r: Interval, first: nat, n: nat)
    requires r.lo <= r.hi
    ensures TwiceRamp(r, first, n + 1)
         == TwiceRamp(r, first, n) + if r.lo <= first + n <= r.hi then 2 * (first + n - r.lo + 1) else 0
  {
    if r.lo <= first + n <= r.hi {
      TriangleStep(first + n - r.lo);
    }
  }

  lemma PlateauStep(r: Interval, first: nat, n: nat)
    requires r.lo <= r.hi
    ensures Plateau(r, first, n + 1) == Plateau(r, first, n) + if r.hi < first + n then r.hi - r.lo + 1 else 0
  {
    var len := r.hi - r.lo + 1;
    var m := Max(0, first + n - Max(first, r.hi + 1));
    assert (m + 1) * len == m * len + len;
  }

  /** The closed form equals the sum of the prefixes. */
  lemma {:induction false} SumPrefixIsSum(r: Interval, first: nat, n: nat)
    requires r.lo <= r.hi
    ensures SumPrefix(r, first, n) == PrefixSum(r, first, n)
  {
    hide SumPrefix, TwiceRamp, Plateau;
    ClosedForm(r, first, n);
    if n == 0 {
      NothingYet(r, first);
    } else {
      SumPrefixIsSum(r, first, n - 1);
      ClosedForm(r, first, n - 1);
      RampStep(r, first, n - 1);
      PlateauStep(r, first, n - 1);
    }
  }

  lemma NothingYet(r: Interval, first: nat)
    requires r.lo <= r.hi
    ensures TwiceRamp(r, first, 0) == 0 && Plateau(r, first, 0) == 0
  {
    assert 0 * (r.hi - r.lo + 1) == 0;
  }

  // ---- Segments ----

  /** Stopped cycles of one range over all pairs of one segment. */
  function SegmentStops(s: PairSegment, r: Interval): int {
    var b := if s.consecutiveB then SumPrefix(r, s.b, s.count) else StoppedCount([r], 0, s.b) * s.count;
    b - SumPrefix(r, s.a, s.count)
  }

  function StopsOver(s: PairSegment, stops: seq<Interval>): int {
    if stops == [] then 0 else StopsOver(s, stops[..|stops| - 1]) + SegmentStops(s, stops[|stops| - 1])
  }

  function StoppedPairSum(segments: seq<PairSegment>, stops: seq<Interval>): int {
    if segments == [] then 0
    else StoppedPairSum(segments[..|segments| - 1], stops) + StopsOver(segments[|segments| - 1], stops)
  }

  /** The meaning: stopped cycles strictly after `from` up to `to`, added over all pairs. */
  function PairStops(ps: seq<Pair>, stops: seq<Interval>): nat {
    if ps == [] then 0
    else PairStops(ps[..|ps| - 1], stops) + StoppedCount(stops, ps[|ps| - 1].from + 1, ps[|ps| - 1].to)
  }

  lemma OverlapIsPrefixDifference(r: Interval, from: nat, to: nat)
    requires r.lo <= r.hi && from < to
    ensures Overlap(r, from + 1, to) == Prefix(r, to) - Prefix(r, from)
  {}

  lemma SingleStop(r: Interval, lo: int, hi: int)
    ensures StoppedCount([r], lo, hi) == if hi < lo then 0 else Overlap(r, lo, hi)
  {
    assert [r][..|[r]| - 1] == [] && OverlapSum([], lo, hi) == 0;
    assert OverlapSum([r], lo, hi) == Overlap(r, lo, hi);
  }

  /** Stopped cycles of one range over the first `n` pairs of a segment, pair by pair. */
  function WalkStops(s: PairSegment, r: Interval, n: nat): int {
    if n == 0 then 0
    else WalkStops(s, r, n - 1) + Overlap(r, s.PairAt(n - 1).from + 1, s.PairAt(n - 1).to)
  }

  lemma {:induction false} WalkIsPrefixes(s: PairSegment, r: Interval, n: nat)
    requires s.Valid() && r.lo <= r.hi && n <= s.count
    ensures WalkStops(s, r, n)
         == (if s.consecutiveB then PrefixSum(r, s.b, n) else n * Prefix(r, s.b)) - PrefixSum(r, s.a, n)
  {
    if n > 0 {
      WalkIsPrefixes(s, r, n - 1);
      OverlapIsPrefixDifference(r, s.PairAt(n - 1).from, s.PairAt(n - 1).to);
      assert n * Prefix(r, s.b) == (n - 1) * Prefix(r, s.b) + Prefix(r, s.b);
    }
  }

  /** One segment against one range; the subtraction is non-negative. */
  lemma SegmentStopsIsWalk(s: PairSegment, r: Interval)
    requires s.Valid() && r.lo <= r.hi
    ensures SegmentStops(s, r) == WalkStops(s, r, s.count) >= 0
  {
    hide SumPrefix, PrefixSum, StoppedCount, WalkStops;
    WalkIsPrefixes(s, r, s.count);
    SumPrefixIsSum(r, s.a, s.count);
    SumPrefixIsSum(r, s.b, s.count);
    SingleStop(r, 0, s.b);
    WalkNonNegative(s, r, s.count);
    assert s.count * Prefix(r, s.b) == Prefix(r, s.b) * s.count;
  }

  lemma {:induction false} WalkNonNegative(s: PairSegment, r: Interval, n: nat)
    ensures WalkStops(s, r, n) >= 0
  {
    if n > 0 { WalkNonNegative(s, r, n - 1); }
  }

  lemma {:induction false} PairStopsConcat(x: seq<Pair>, y: seq<Pair>, stops: seq<Interval>)
    ensures PairStops(x + y, stops) == PairStops(x, stops) + PairStops(y, stops)
  {
    if y == [] {
      assert x + y == x;
    } else {
      PairStopsConcat(x, y[..|y| - 1], stops);
      assert (x + y)[..|x + y| - 1] == x + y[..|y| - 1];
    }
  }

  lemma CountOneMore(stops: seq<Interval>, r: Interval, lo: int, hi: int)
    requires lo <= hi
    ensures StoppedCount(stops + [r], lo, hi) == StoppedCount(stops, lo, hi) + Overlap(r, lo, hi)
  {
    assert (stops + [r])[..|stops|] == stops;
  }

  /** Adding a range adds its walk. */
  lemma {:induction false} PairStopsPerRange(s: PairSegment, n: nat, stops: seq<Interval>, r: Interval)
    requires s.Valid() && n <= s.count
    ensures PairStops(ExpandSegment(s, n), stops + [r]) == PairStops(ExpandSegment(s, n), stops) + WalkStops(s, r, n)
  {
    if n > 0 {
      PairStopsPerRange(s, n - 1, stops, r);
      var ps, p := ExpandSegment(s, n), s.PairAt(n - 1);
      assert ps[..n - 1] == ExpandSegment(s, n - 1) && ps[n - 1] == p by { ExpandLength(s, n - 1); }
      CountOneMore(stops, r, p.from + 1, p.to);
      hide StoppedCount, Overlap, ExpandSegment;
    }
  }

  lemma {:induction false} ExpandLength(s: PairSegment, n: nat)
    ensures |ExpandSegment(s, n)| == n
  {
    if n > 0 { ExpandLength(s, n - 1); }
  }

  lemma {:induction false} NoStops(ps: seq<Pair>)
    ensures PairStops(ps, []) == 0
  {
    if ps != [] { NoStops(ps[..|ps| - 1]); }
  }

  lemma {:induction false} StopsOverIsPairs(s: PairSegment, stops: seq<Interval>)
    requires s.Valid() && NonEmpty(stops)
    ensures StopsOver(s, stops) == PairStops(ExpandSegment(s, s.count), stops)
  {
    if stops == [] {
      NoStops(ExpandSegment(s, s.count));
    } else {
      var init, r := stops[..|stops| - 1], stops[|stops| - 1];
      StopsOverIsPairs(s, init);
      SegmentStopsIsWalk(s, r);
      PairStopsPerRange(s, s.count, init, r);
      assert init + [r] == stops;
    }
  }

  /** The closed form over all segments and ranges is the sum over all expanded pairs. */
  lemma {:induction false} StoppedPairSumIsExact(segments: seq<PairSegment>, stops: seq<Interval>)
    requires AllValid(segments) && NonEmpty(stops)
    ensures StoppedPairSum(segments, stops) == PairStops(Expand(segments), stops)
  {
    if segments != [] {
      var init, s := segments[..|segments| - 1], segments[|segments| - 1];
      StoppedPairSumIsExact(init, stops);
      StopsOverIsPairs(s, stops);
      PairStopsConcat(Expand(init), ExpandSegment(s, s.count), stops);
    }
  }

  /** Per-cycle reading for disjoint stops. */
  ghost function PairCovered(ps: seq<Pair>, stops: seq<Interval>): nat {
    if ps == [] then 0
    else PairCovered(ps[..|ps| - 1], stops) + CountCovered(stops, ps[|ps| - 1].from + 1, ps[|ps| - 1].to)
  }

  lemma {:induction false} PairStopsCountCycles(ps: seq<Pair>, stops: seq<Interval>)
    requires Ascending(stops)
    ensures PairStops(ps, stops) == PairCovered(ps, stops)
  {
    if ps != [] {
      PairStopsCountCycles(ps[..|ps| - 1], stops);
      StoppedCountMeaning(stops, ps[|ps| - 1].from + 1, ps[|ps| - 1].to);
    }
  }

  // ---- The 128-bit arithmetic never overflows ----

  const U128_MAX: nat := 0xFFFF_FFFF_FFFF_FFFF_FFFF_FFFF_FFFF_FFFF

  lemma TriangleGrows(x: nat, y: nat)
    requires x <= y
    ensures 0 <= Triangle(x) <= Triangle(y)
  {
    assert Triangle(y) - Triangle(x) == (y - x) * (x + y + 1);
    assert 0 <= (y - x) * (x + y + 1);
    assert 0 <= x * (x + 1);
  }

  lemma {:induction false} PrefixSumBound(r: Interval, first: nat, n: nat, len: nat)
    requires r.lo <= r.hi && len == r.hi - r.lo + 1
    ensures PrefixSum(r, first, n) <= n * len
  {
    if n > 0 {
      PrefixSumBound(r, first, n - 1, len);
      assert n * len == (n - 1) * len + len;
    }
  }

  lemma ProductBound(x: nat, y: nat, p: nat, q: nat)
    requires x <= p && y <= q
    ensures x * y <= p * q
  {
    assert p * q - x * y == (p - x) * q + x * (q - y);
    assert 0 <= (p - x) * q && 0 <= x * (q - y);
  }

  /** The ramp's product of two factors, the plateau and their sum fit 128 bits. */
  lemma SumPrefixFits(r: Interval, first: nat, count: nat)
    requires 1 <= r.lo <= r.hi <= U64_MAX && count <= U64_MAX
    ensures 0 <= RampProduct(r, first, count) <= U128_MAX && 0 <= Plateau(r, first, count) <= U128_MAX
    ensures 0 <= SumPrefix(r, first, count) <= U64_MAX * U64_MAX <= U128_MAX
  {
    var len := r.hi - r.lo + 1;
    ClosedForm(r, first, count);
    SumPrefixIsSum(r, first, count);
    PrefixSumBound(r, first, count, len);
    ProductBound(count, len, U64_MAX, U64_MAX);
    RampBound(r, first, count, len);
    PlateauBound(r, first, count, len);
    hide SumPrefix, PrefixSum, RampProduct, TwiceRamp, Plateau;
  }

  lemma RampBound(r: Interval, first: nat, count: nat, len: nat)
    requires 1 <= r.lo <= r.hi <= U64_MAX && len == r.hi - r.lo + 1
    ensures 0 <= TwiceRamp(r, first, count) <= U128_MAX
  {
    var rampStart, rampEnd := Max(first, r.lo), Min(first + count, r.hi + 1);
    if rampStart < rampEnd {
      TriangleGrows(rampStart - r.lo, rampEnd - r.lo);
      TriangleGrows(0, rampStart - r.lo);
      TriangleGrows(rampEnd - r.lo, U64_MAX);
    }
  }

  lemma PlateauBound(r: Interval, first: nat, count: nat, len: nat)
    requires 1 <= r.lo <= r.hi <= U64_MAX && len == r.hi - r.lo + 1 && count <= U64_MAX
    ensures 0 <= Plateau(r, first, count) <= U64_MAX * U64_MAX
  {
    var m: nat := Max(0, first + count - Max(first, r.hi + 1));
    ProductBound(m, len, U64_MAX, U64_MAX);
  }

  lemma {:induction false} CoveredBound(stops: seq<Interval>, lo: int, hi: int)
    ensures CountCovered(stops, lo, hi) <= if lo <= hi then hi - lo + 1 else 0
    decreases hi - lo + 1
  {
    if lo <= hi { CoveredBound(stops, lo, hi - 1); }
  }

  lemma {:induction false} PairStopsBound(ps: seq<Pair>, stops: seq<Interval>)
    requires Ascending(stops) && forall p :: p in ps ==> 1 <= p.from && p.to <= U64_MAX
    ensures PairStops(ps, stops) <= |ps| * U64_MAX
  {
    if ps != [] {
      var init, p := ps[..|ps| - 1], ps[|ps| - 1];
      assert forall q :: q in init ==> q in ps;
      assert p in ps;
      PairStopsBound(init, stops);
      StoppedCountMeaning(stops, p.from + 1, p.to);
      CoveredBound(stops, p.from + 1, p.to);
      assert |ps| * U64_MAX == |init| * U64_MAX + U64_MAX;
    }
  }

  lemma {:induction false} CountWithin(segments: seq<PairSegment>, i: nat)
    requires i < |segments|
    ensures segments[i].count <= DistanceSummary.TotalCount(segments)
  {
    if i < |segments| - 1 { CountWithin(segments[..|segments| - 1], i); }
  }

  /** Every intermediate value of the closed form, for one segment and one range. */
  ghost predicate TermsFit(s: PairSegment, r: Interval) {
    && RampProduct(r, s.a, s.count) <= U128_MAX && SumPrefix(r, s.a, s.count) <= U128_MAX
    && RampProduct(r, s.b, s.count) <= U128_MAX && SumPrefix(r, s.b, s.count) <= U128_MAX
    && 0 <= StoppedCount([r], 0, s.b) <= U64_MAX && StoppedCount([r], 0, s.b) * s.count <= U128_MAX
  }

  lemma SegmentTermsFit(s: PairSegment, r: Interval)
    requires 1 <= r.lo <= r.hi <= U64_MAX && s.count <= U64_MAX && s.b <= U64_MAX
    ensures TermsFit(s, r)
  {
    SumPrefixFits(r, s.a, s.count);
    SumPrefixFits(r, s.b, s.count);
    SingleStop(r, 0, s.b);
    hide RampProduct, SumPrefix, StoppedCount;
    ProductBound(StoppedCount([r], 0, s.b), s.count, U64_MAX, U64_MAX);
  }

  /** For segments paired from 64-bit runs and stops of 64-bit cycles no product and no sum of the
      closed form overflows, and the total is at most the square of the largest cycle number. */
  lemma StoppedSumFits(a: seq<Interval>, b: Option<seq<Interval>>, segments: seq<PairSegment>, stops: seq<Interval>)
    requires DistanceSummary.Pairing(a, b, segments) && Ascending(stops) && DistanceSummary.FitsCycles(stops)
    ensures forall i, j :: 0 <= i < |segments| && 0 <= j < |stops| ==> TermsFit(segments[i], stops[j])
    ensures 0 <= StoppedPairSum(segments, stops) <= U64_MAX * U64_MAX <= U128_MAX
  {
    DistanceSummary.SegmentsFit(a, b, segments);
    DistanceSummary.TotalsFit(a, b, segments);
    StoppedPairSumIsExact(segments, stops);
    PairStopsBound(Expand(segments), stops);
    ProductBound(|Expand(segments)|, U64_MAX, U64_MAX, U64_MAX);
    hide TermsFit, StoppedPairSum, PairStops, Expand, DistanceSummary.TotalSum;
    forall i, j | 0 <= i < |segments| && 0 <= j < |stops| ensures TermsFit(segments[i], stops[j]) {
      CountWithin(segments, i);
      SegmentTermsFit(segments[i], stops[j]);
    }
  }
}
