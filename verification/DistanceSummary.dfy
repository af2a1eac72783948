/** Distance statistics from pair segments: count, extremes, exact sum and
    medians by bisection on ranks (crates/bwave/src/cache.rs). */
module DistanceSummary {
  import opened Basics
  import opened Ordering
  import opened PairSegments

  // ---- Statistics of an explicit list ----

  function Sum(ds: seq<int>): int {
    if ds == [] then 0 else Sum(ds[..|ds| - 1]) + ds[|ds| - 1]
  }

  /** How many elements are at most `v`. */
  function RankOf(ds: seq<int>, v: int): nat {
    if ds == [] then 0 else RankOf(ds[..|ds| - 1], v) + if ds[|ds| - 1] <= v then 1 else 0
  }

  /** Exact numerators: the mean is sum/count and the median medianTwice/2. */
  datatype Summary = Summary(count: nat, sum: int, min: int, max: int, medianTwice: int)

  /** The reference: sort the list and read the statistics off. */
  function SortedSummary(ds: seq<int>): Summary
    requires ds != []
  {
    SortMeaning(ds);
    var sorted := Sort(ds);
    var count := |sorted|;
    var middle := count / 2;
    Summary(
      count, Sum(sorted), sorted[0], sorted[count - 1],
      if count % 2 == 0 then sorted[middle - 1] + sorted[middle] else 2 * sorted[middle])
  }

  // ---- Rank and sum of concatenations and sorted lists ----

  lemma {:induction false} RankConcat(x: seq<int>, y: seq<int>, v: int)
    ensures RankOf(x + y, v) == RankOf(x, v) + RankOf(y, v)
    ensures Sum(x + y) == Sum(x) + Sum(y)
  {
    if y == [] {
      assert x + y == x;
    } else {
      RankConcat(x, y[..|y| - 1], v);
      assert (x + y)[..|x + y| - 1] == x + y[..|y| - 1];
    }
  }

  lemma RankCons(x: int, s: seq<int>, v: int)
    ensures RankOf([x] + s, v) == (if x <= v then 1 else 0) + RankOf(s, v)
    ensures Sum([x] + s) == x + Sum(s)
  {
    RankConcat([x], s, v);
    assert [x][..0] == [];
  }

  lemma {:induction false} RankInsert(x: int, s: seq<int>, v: int)
    ensures RankOf(Insert(x, s), v) == (if x <= v then 1 else 0) + RankOf(s, v)
    ensures Sum(Insert(x, s)) == x + Sum(s)
  {
    RankCons(x, s, v);
    if s != [] && !(x <= s[0]) {
      RankInsert(x, s[1..], v);
      RankCons(s[0], s[1..], v);
      RankCons(s[0], Insert(x, s[1..]), v);
      assert s == [s[0]] + s[1..];
    }
  }

  /** Sorting changes neither ranks nor the sum. */
  lemma {:induction false} RankSort(s: seq<int>, v: int)
    ensures RankOf(Sort(s), v) == RankOf(s, v) && Sum(Sort(s)) == Sum(s)
  {
    if s != [] {
      RankSort(s[1..], v);
      RankInsert(s[0], Sort(s[1..]), v);
      RankCons(s[0], s[1..], v);
      assert s == [s[0]] + s[1..];
    }
  }

  /** In a sorted list the element at index `k` is at most `v` exactly if the rank exceeds `k`. */
  lemma {:induction false} RankOfSorted(s: seq<int>, v: int, k: nat)
    requires Sorted(s) && k < |s|
    ensures s[k] <= v <==> k < RankOf(s, v)
  {
    var init := s[..|s| - 1];
    if k < |s| - 1 {
      RankOfSorted(init, v, k);
    } else {
      RankAtMost(init, v);
      if s[k] <= v { RankAll(init, v); }
    }
  }

  lemma {:induction false} RankAtMost(s: seq<int>, v: int)
    ensures RankOf(s, v) <= |s|
  {
    if s != [] { RankAtMost(s[..|s| - 1], v); }
  }

  lemma {:induction false} RankAll(s: seq<int>, v: int)
    requires forall i :: 0 <= i < |s| ==> s[i] <= v
    ensures RankOf(s, v) == |s|
  {
    if s != [] { RankAll(s[..|s| - 1], v); }
  }

  lemma {:induction false} RankNone(s: seq<int>, v: int)
    requires forall i :: 0 <= i < |s| ==> v < s[i]
    ensures RankOf(s, v) == 0
  {
    if s != [] { RankNone(s[..|s| - 1], v); }
  }

  /** The value whose rank first reaches `k` is the k-th smallest, counted from 1. */
  lemma KthSmallest(ds: seq<int>, k: nat, v: int)
    requires 0 < k <= |ds| && RankOf(ds, v - 1) < k <= RankOf(ds, v)
    ensures |Sort(ds)| == |ds| && Sort(ds)[k - 1] == v
  {
    SortMeaning(ds);
    RankSort(ds, v);
    RankSort(ds, v - 1);
    RankOfSorted(Sort(ds), v, k - 1);
    RankOfSorted(Sort(ds), v - 1, k - 1);
  }

  // ---- One segment in closed form ----

  function Delta(p: Pair): int {
    p.to - p.from
  }

  function Deltas(ps: seq<Pair>): seq<int> {
    if ps == [] then [] else Deltas(ps[..|ps| - 1]) + [Delta(ps[|ps| - 1])]
  }

  /** Smallest and largest distance of a segment. */
  function Low(s: PairSegment): int {
    if s.consecutiveB then s.b - s.a else (s.b - s.a) - (s.count - 1)
  }

  function High(s: PairSegment): int {
    s.b - s.a
  }

  /** Sum of the distances: a product, or an arithmetic series halved before multiplying. */
  function SegmentSum(s: PairSegment): int {
    if s.consecutiveB then s.count * High(s)
    else
      var endpoints := Low(s) + High(s);
      if s.count % 2 == 0 then (s.count / 2) * endpoints else s.count * (endpoints / 2)
  }

  function SegmentRank(s: PairSegment, value: int): int {
    if value < Low(s) then 0
    else if s.consecutiveB || value >= High(s) then s.count
    else value - Low(s) + 1
  }

  lemma DeltasAppend(ps: seq<Pair>, p: Pair)
    ensures Deltas(ps + [p]) == Deltas(ps) + [Delta(p)]
  {
    assert (ps + [p])[..|ps|] == ps;
  }

  lemma {:induction false} DeltasConcat(x: seq<Pair>, y: seq<Pair>)
    ensures Deltas(x + y) == Deltas(x) + Deltas(y)
  {
    if y == [] {
      assert x + y == x;
    } else {
      DeltasConcat(x, y[..|y| - 1]);
      assert (x + y)[..|x + y| - 1] == x + y[..|y| - 1];
    }
  }

  /** The i-th distance of a segment. */
  function DeltaAt(s: PairSegment, i: int): int {
    if s.consecutiveB then s.b - s.a else s.b - s.a - i
  }

  lemma {:induction false} SegmentDeltas(s: PairSegment, n: nat)
    ensures |Deltas(ExpandSegment(s, n))| == n
    ensures forall i :: 0 <= i < n ==> Deltas(ExpandSegment(s, n))[i] == DeltaAt(s, i)
  {
    if n > 0 {
      SegmentDeltas(s, n - 1);
      DeltasStep(s, n);
    }
  }

  lemma SumAppend(ds: seq<int>, d: int)
    ensures Sum(ds + [d]) == Sum(ds) + d
  {
    assert (ds + [d])[..|ds|] == ds;
  }

  /** Twice the sum of the first `n` distances, without a division. */
  function TwiceTotal(s: PairSegment, n: int): int {
    if s.consecutiveB then n * (2 * High(s)) else n * (2 * High(s) - (n - 1))
  }

  lemma TwiceTotalStep(s: PairSegment, n: int)
    ensures TwiceTotal(s, 0) == 0
    ensures TwiceTotal(s, n) == TwiceTotal(s, n - 1) + 2 * DeltaAt(s, n - 1)
  {
    var h := High(s);
    assert (n - 1) * (2 * h - (n - 2)) + 2 * (h - (n - 1)) == n * (2 * h - (n - 1));
    assert (n - 1) * (2 * h) + 2 * h == n * (2 * h);
  }

  lemma {:induction false} TwiceSum(s: PairSegment, n: nat)
    ensures 2 * Sum(Deltas(ExpandSegment(s, n))) == TwiceTotal(s, n)
  {
    hide Sum, Deltas, ExpandSegment, TwiceTotal, DeltaAt;
    TwiceTotalStep(s, n);
    if n == 0 {
      NoDeltas(s);
    } else {
      TwiceSum(s, n - 1);
      DeltasStep(s, n);
      SumAppend(Deltas(ExpandSegment(s, n - 1)), DeltaAt(s, n - 1));
    }
  }

  lemma NoDeltas(s: PairSegment)
    ensures Sum(Deltas(ExpandSegment(s, 0))) == 0
  {
    assert Deltas(ExpandSegment(s, 0)) == [];
  }

  lemma DeltasStep(s: PairSegment, n: nat)
    requires n > 0
    ensures Deltas(ExpandSegment(s, n)) == Deltas(ExpandSegment(s, n - 1)) + [DeltaAt(s, n - 1)]
  {
    DeltasAppend(ExpandSegment(s, n - 1), s.PairAt(n - 1));
  }

  /** No halving loses anything. */
  lemma SegmentSumIsHalf(s: PairSegment)
    requires s.Valid()
    ensures 2 * SegmentSum(s) == TwiceTotal(s, s.count)
  {
    var n, h := s.count, High(s);
    if s.consecutiveB {
      assert n * (2 * h) == 2 * (n * h);
    } else {
      var e := 2 * h - (n - 1);
      assert Low(s) + High(s) == e;
      if n % 2 == 0 {
        assert (2 * (n / 2)) * e == 2 * ((n / 2) * e);
      } else {
        assert n * (2 * (e / 2)) == 2 * (n * (e / 2));
      }
    }
  }

  /** The closed form is exact. */
  lemma SegmentSumIsSum(s: PairSegment)
    requires s.Valid()
    ensures SegmentSum(s) == Sum(Deltas(ExpandSegment(s, s.count)))
  {
    hide Sum, Deltas, ExpandSegment, TwiceTotal, SegmentSum;
    TwiceSum(s, s.count);
    SegmentSumIsHalf(s);
  }

  lemma {:induction false} PartialRank(s: PairSegment, n: nat, v: int)
    requires n <= s.count
    ensures RankOf(Deltas(ExpandSegment(s, n)), v)
         == if s.consecutiveB then (if High(s) <= v then n else 0)
            else if High(s) <= v then n
            else Max(0, n - (High(s) - v))
  {
    if n > 0 {
      PartialRank(s, n - 1, v);
      DeltasStep(s, n);
      var before := Deltas(ExpandSegment(s, n - 1));
      assert (before + [DeltaAt(s, n - 1)])[..|before|] == before;
    }
  }

  /** The closed form counts exactly the distances up to `v`. */
  lemma SegmentRankIsRank(s: PairSegment, v: int)
    requires s.Valid()
    ensures SegmentRank(s, v) == RankOf(Deltas(ExpandSegment(s, s.count)), v)
  {
    PartialRank(s, s.count, v);
  }

  // ---- Folds over all segments ----

  function TotalCount(segments: seq<PairSegment>): nat {
    if segments == [] then 0 else TotalCount(segments[..|segments| - 1]) + segments[|segments| - 1].count
  }

  function TotalSum(segments: seq<PairSegment>): int {
    if segments == [] then 0 else TotalSum(segments[..|segments| - 1]) + SegmentSum(segments[|segments| - 1])
  }

  function TotalRank(segments: seq<PairSegment>, v: int): int {
    if segments == [] then 0 else TotalRank(segments[..|segments| - 1], v) + SegmentRank(segments[|segments| - 1], v)
  }

  function MinLow(segments: seq<PairSegment>): int
    requires segments != []
  {
    if |segments| == 1 then Low(segments[0])
    else Min(MinLow(segments[..|segments| - 1]), Low(segments[|segments| - 1]))
  }

  function MaxHigh(segments: seq<PairSegment>): int
    requires segments != []
  {
    if |segments| == 1 then High(segments[0])
    else Max(MaxHigh(segments[..|segments| - 1]), High(segments[|segments| - 1]))
  }

  function AllDeltas(segments: seq<PairSegment>): seq<int> {
    Deltas(Expand(segments))
  }

  lemma AllDeltasStep(segments: seq<PairSegment>)
    requires segments != []
    ensures var init, s := segments[..|segments| - 1], segments[|segments| - 1];
            AllDeltas(segments) == AllDeltas(init) + Deltas(ExpandSegment(s, s.count))
  {
    var init, s := segments[..|segments| - 1], segments[|segments| - 1];
    DeltasConcat(Expand(init), ExpandSegment(s, s.count));
  }

  /** Count, sum and rank of the folds are those of the expanded distances. */
  lemma {:induction false} TotalsAreExpanded(segments: seq<PairSegment>, v: int)
    requires AllValid(segments)
    ensures TotalCount(segments) == |AllDeltas(segments)|
    ensures TotalSum(segments) == Sum(AllDeltas(segments))
    ensures TotalRank(segments, v) == RankOf(AllDeltas(segments), v)
  {
    if segments == [] {
      assert AllDeltas(segments) == [];
    } else {
      var init, s := segments[..|segments| - 1], segments[|segments| - 1];
      TotalsAreExpanded(init, v);
      AllDeltasStep(segments);
      SegmentDeltas(s, s.count);
      SegmentSumIsSum(s);
      SegmentRankIsRank(s, v);
      RankConcat(AllDeltas(init), Deltas(ExpandSegment(s, s.count)), v);
    }
  }

  /** `lo` and `hi` bound all distances and both occur. */
  ghost predicate AreExtremes(ds: seq<int>, lo: int, hi: int) {
    lo in ds && hi in ds && forall i :: 0 <= i < |ds| ==> lo <= ds[i] <= hi
  }

  lemma SegmentExtremes(s: PairSegment)
    requires s.Valid()
    ensures AreExtremes(Deltas(ExpandSegment(s, s.count)), Low(s), High(s))
  {
    SegmentDeltas(s, s.count);
    var ds := Deltas(ExpandSegment(s, s.count));
    assert ds[0] == High(s) && ds[s.count - 1] == Low(s);
  }

  lemma ExtremesConcat(x: seq<int>, y: seq<int>, lo: int, hi: int, low: int, high: int)
    requires AreExtremes(x, lo, hi) && AreExtremes(y, low, high)
    ensures AreExtremes(x + y, Min(lo, low), Max(hi, high))
  {}

  lemma {:induction false} ExtremesAreExpanded(segments: seq<PairSegment>)
    requires AllValid(segments) && segments != []
    ensures AreExtremes(AllDeltas(segments), MinLow(segments), MaxHigh(segments))
  {
    var init, s := segments[..|segments| - 1], segments[|segments| - 1];
    SegmentExtremes(s);
    AllDeltasStep(segments);
    if |segments| == 1 {
      assert AllDeltas(init) == [];
    } else {
      ExtremesAreExpanded(init);
      ExtremesConcat(AllDeltas(init), Deltas(ExpandSegment(s, s.count)), MinLow(init), MaxHigh(init), Low(s), High(s));
    }
  }

  // ---- The summary ----

  /** Bisection on summed ranks returns the k-th smallest distance for every k. */
  method Kth(segments: seq<PairSegment>, min: int, max: int, rank: nat) returns (v: int)
    requires AllValid(segments) && segments != []
    requires min == MinLow(segments) && max == MaxHigh(segments)
    requires 0 < rank <= TotalCount(segments)
    ensures |Sort(AllDeltas(segments))| == |AllDeltas(segments)| >= rank
    ensures v == Sort(AllDeltas(segments))[rank - 1]
  {
    var lo, hi := min, max;
    ghost var ds := AllDeltas(segments);
    hide RankOf, Sort, MinLow, MaxHigh, TotalCount, TotalRank, AllDeltas;
    ExtremesAreExpanded(segments);
    TotalsAreExpanded(segments, hi);
    RankAll(ds, hi);
    RankNone(ds, lo - 1);
    while lo < hi
      invariant lo <= hi
      invariant RankOf(ds, lo - 1) < rank <= RankOf(ds, hi)
      decreases hi - lo
    {
      var mid := lo + (hi - lo) / 2;
      TotalsAreExpanded(segments, mid);
      var below := TotalRank(segments, mid);
      if below >= rank {
        hi := mid;
      } else {
        lo := mid + 1;
      }
    }
    v := lo;
    KthSmallest(ds, rank, v);
  }

  lemma SortedSum(ds: seq<int>)
    ensures Sum(Sort(ds)) == Sum(ds)
  {
    RankSort(ds, 0);
  }

  lemma SummaryIs(ds: seq<int>)
    requires ds != []
    ensures |Sort(ds)| == |ds|
    ensures var s, n := Sort(ds), |ds|;
            SortedSummary(ds) == Summary(n, Sum(s), s[0], s[n - 1], if n % 2 == 0 then s[n / 2 - 1] + s[n / 2] else 2 * s[n / 2])
  {
    SortMeaning(ds);
    hide Sum, Sort;
  }

  /** All statistics equal those of the sorted list of expanded distances. */
  method PairSummary(segments: seq<PairSegment>) returns (r: Summary)
    requires AllValid(segments) && segments != []
    ensures AllDeltas(segments) != []
    ensures r == SortedSummary(AllDeltas(segments))
  {
    hide *;
    var count := TotalCount(segments);
    var sum := TotalSum(segments);
    var min := MinLow(segments);
    var max := MaxHigh(segments);
    ghost var ds := AllDeltas(segments);
    TotalsAreExpanded(segments, 0);
    ExtremesAreExpanded(segments);
    SortedExtremes(ds, min, max);
    SortedSum(ds);
    SummaryIs(ds);
    var medianTwice: int;
    if count % 2 == 0 {
      var left := Kth(segments, min, max, count / 2);
      var right := Kth(segments, min, max, count / 2 + 1);
      medianTwice := left + right;
    } else {
      var middle := Kth(segments, min, max, count / 2 + 1);
      medianTwice := 2 * middle;
    }
    r := Summary(count, sum, min, max, medianTwice);
  }

  lemma SortedExtremes(ds: seq<int>, lo: int, hi: int)
    requires AreExtremes(ds, lo, hi)
    ensures |Sort(ds)| == |ds| > 0 && Sort(ds)[0] == lo && Sort(ds)[|ds| - 1] == hi
  {
    SortMeaning(ds);
    var s := Sort(ds);
    assert multiset(s) == multiset(ds);
    assert lo in multiset(s) && hi in multiset(s);
    assert s[0] in multiset(ds) && s[|s| - 1] in multiset(ds);
    var i :| 0 <= i < |s| && s[i] == lo;
    var j :| 0 <= j < |s| && s[j] == hi;
  }

  // ---- The checked accumulators never overflow ----

  lemma {:induction false} CyclesFit(rs: seq<Interval>)
    requires Ascending(rs) && forall i :: 0 <= i < |rs| ==> 1 <= rs[i].lo
    ensures |Cycles(rs)| <= if rs == [] then 0 else rs[|rs| - 1].hi
  {
    if rs != [] {
      var init, r := rs[..|rs| - 1], rs[|rs| - 1];
      CyclesFit(init);
      InRange(r.lo, r.hi - r.lo + 1);
      assert init != [] ==> init[|init| - 1].hi < r.lo;
    }
  }

  lemma {:induction false} PairsAreFew(es: seq<int>, bs: seq<int>)
    ensures |NaivePairs(es, bs)| <= |es| && |Windows(es)| <= |es|
  {
    if es != [] { PairsAreFew(es[..|es| - 1], bs); }
  }

  lemma {:induction false} SumIsBounded(ds: seq<int>, bound: nat)
    requires forall i :: 0 <= i < |ds| ==> 0 <= ds[i] <= bound
    ensures 0 <= Sum(ds) <= |ds| * bound
  {
    if ds != [] {
      SumIsBounded(ds[..|ds| - 1], bound);
      assert |ds| * bound == (|ds| - 1) * bound + bound;
    }
  }

  lemma {:induction false} FirstAfterIsLater(bs: seq<int>, a: int)
    ensures FirstAfter(bs, a).Some? ==> FirstAfter(bs, a).value in bs && a < FirstAfter(bs, a).value
  {
    if bs != [] && bs[0] <= a {
      FirstAfterIsLater(bs[1..], a);
      assert forall x :: x in bs[1..] ==> x in bs;
    }
  }

  /** Pairs join events of the two lists. */
  lemma {:induction false} PairsJoinEvents(es: seq<int>, bs: seq<int>)
    ensures forall p :: p in NaivePairs(es, bs) ==> p.from in es && p.to in bs
    ensures forall p :: p in Windows(es) ==> p.from in es && p.to in es
  {
    if es != [] {
      var init := es[..|es| - 1];
      PairsJoinEvents(init, bs);
      FirstAfterIsLater(bs, es[|es| - 1]);
      assert forall x :: x in init ==> x in es;
    }
  }

  lemma {:induction false} PairInSegment(s: PairSegment, n: nat, k: nat)
    requires k < n
    ensures s.PairAt(k) in ExpandSegment(s, n)
  {
    if k < n - 1 { PairInSegment(s, n - 1, k); }
  }

  lemma {:induction false} PairInExpansion(segments: seq<PairSegment>, i: nat, k: nat)
    requires i < |segments| && k < segments[i].count
    ensures segments[i].PairAt(k) in Expand(segments)
  {
    if i < |segments| - 1 {
      PairInExpansion(segments[..|segments| - 1], i, k);
    } else {
      PairInSegment(segments[i], segments[i].count, k);
    }
  }

  lemma CyclesWithin(rs: seq<Interval>)
    requires Ascending(rs) && FitsCycles(rs)
    ensures forall c :: c in Cycles(rs) ==> 1 <= c <= U64_MAX
  {
    InCycles(rs);
  }

  /** Runs of 64-bit cycle numbers, counted from 1. */
  ghost predicate FitsCycles(rs: seq<Interval>) {
    forall i :: 0 <= i < |rs| ==> 1 <= rs[i].lo && rs[i].hi <= U64_MAX
  }

  /** The segments stand for the pairs of two lists of runs, or of one with itself. */
  ghost predicate Pairing(a: seq<Interval>, b: Option<seq<Interval>>, segments: seq<PairSegment>) {
    && Ascending(a) && FitsCycles(a) && (b.Some? ==> Ascending(b.value) && FitsCycles(b.value)) && AllValid(segments)
    && Expand(segments) == match b { case Some(bs) => NaivePairs(Cycles(a), Cycles(bs)) case None => Windows(Cycles(a)) }
  }

  /** Segments of 64-bit runs have 64-bit ends. */
  lemma SegmentsFit(a: seq<Interval>, b: Option<seq<Interval>>, segments: seq<PairSegment>)
    requires Pairing(a, b, segments)
    ensures forall i :: 0 <= i < |segments| ==> 1 <= segments[i].a < segments[i].b <= U64_MAX
    ensures forall p :: p in Expand(segments) ==> 1 <= p.from && p.to <= U64_MAX
  {
    CyclesWithin(a);
    if b.Some? { CyclesWithin(b.value); }
    PairsJoinEvents(Cycles(a), match b { case Some(bs) => Cycles(bs) case None => [] });
    forall i | 0 <= i < |segments| ensures 1 <= segments[i].a < segments[i].b <= U64_MAX {
      PairInExpansion(segments, i, 0);
      assert segments[i].Valid();
    }
  }

  /** For segments paired from 64-bit cycle runs, the 64-bit count and the 128-bit
      sum cannot overflow. */
  lemma TotalsFit(a: seq<Interval>, b: Option<seq<Interval>>, segments: seq<PairSegment>)
    requires Pairing(a, b, segments)
    ensures TotalCount(segments) == |Expand(segments)| <= U64_MAX
    ensures 0 <= TotalSum(segments) <= U64_MAX * U64_MAX
  {
    SegmentsFit(a, b, segments);
    CyclesFit(a);
    PairsAreFew(Cycles(a), match b { case Some(bs) => Cycles(bs) case None => [] });
    TotalsAreExpanded(segments, 0);
    DeltasLength(Expand(segments));
    if segments != [] {
      ExtremesAreExpanded(segments);
      ExtremesAreSmall(segments);
      SumIsBounded(AllDeltas(segments), U64_MAX);
      assert TotalCount(segments) * U64_MAX <= U64_MAX * U64_MAX;
    }
  }

  lemma {:induction false} DeltasLength(ps: seq<Pair>)
    ensures |Deltas(ps)| == |ps|
  {
    if ps != [] { DeltasLength(ps[..|ps| - 1]); }
  }

  lemma {:induction false} ExtremesAreSmall(segments: seq<PairSegment>)
    requires AllValid(segments) && segments != [] && forall i :: 0 <= i < |segments| ==> segments[i].b <= U64_MAX
    ensures 0 <= MinLow(segments) && MaxHigh(segments) <= U64_MAX
  {
    if |segments| > 1 { ExtremesAreSmall(segments[..|segments| - 1]); }
  }
}
