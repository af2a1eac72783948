/** Pairing two compressed event lists without expanding them
    (crates/bwave/src/cache.rs). */
module PairSegments {
  import opened Basics

  /** Consecutive A cycles map either to consecutive B cycles or to one fixed B. */
  datatype PairSegment = PairSegment(a: nat, b: nat, count: nat, consecutiveB: bool) {
    predicate Valid() {
      0 < count && a + (if consecutiveB then 0 else count - 1) < b
    }

    function PairAt(i: int): Pair {
      Pair(a + i, if consecutiveB then b + i else b)
    }
  }

  datatype Pair = Pair(from: int, to: int)

  // ---- Expansion and the naive pairing ----

  function Range(lo: int, n: nat): seq<int> {
    if n == 0 then [] else Range(lo, n - 1) + [lo + n - 1]
  }

  function Cycles(rs: seq<Interval>): seq<int>
    requires NonEmpty(rs)
  {
    if rs == [] then []
    else
      var r := rs[|rs| - 1];
      Cycles(rs[..|rs| - 1]) + Range(r.lo, r.hi - r.lo + 1)
  }

  function ExpandSegment(s: PairSegment, n: nat): seq<Pair> {
    if n == 0 then [] else ExpandSegment(s, n - 1) + [s.PairAt(n - 1)]
  }

  /** All pairs of a segment list, in order. */
  function Expand(segments: seq<PairSegment>): seq<Pair> {
    if segments == [] then []
    else
      var s := segments[|segments| - 1];
      Expand(segments[..|segments| - 1]) + ExpandSegment(s, s.count)
  }

  function FirstAfter(bs: seq<int>, a: int): Option<int> {
    if bs == [] then None
    else if bs[0] > a then Some(bs[0])
    else FirstAfter(bs[1..], a)
  }

  /** Each A with the first B strictly after it, if there is one. */
  function NaivePairs(as_: seq<int>, bs: seq<int>): seq<Pair> {
    if as_ == [] then []
    else
      var a := as_[|as_| - 1];
      NaivePairs(as_[..|as_| - 1], bs)
      + match FirstAfter(bs, a) { case Some(b) => [Pair(a, b)] case None => [] }
  }

  /** Neighbouring events of one list. */
  function Windows(es: seq<int>): seq<Pair> {
    if |es| < 2 then []
    else Windows(es[..|es| - 1]) + [Pair(es[|es| - 2], es[|es| - 1])]
  }

  // ---- Facts about expansion ----

  lemma {:induction false} InRange(lo: int, n: nat)
    ensures |Range(lo, n)| == n && forall i :: 0 <= i < n ==> Range(lo, n)[i] == lo + i
    ensures forall c :: c in Range(lo, n) <==> lo <= c < lo + n
  {
    if n > 0 { InRange(lo, n - 1); }
  }

  lemma {:induction false} InCycles(rs: seq<Interval>)
    requires NonEmpty(rs)
    ensures forall c :: c in Cycles(rs) <==> Covers(rs, c)
  {
    if rs != [] {
      var init, r := rs[..|rs| - 1], rs[|rs| - 1];
      InCycles(init);
      InRange(r.lo, r.hi - r.lo + 1);
      CoversAppend(init, r);
      assert rs == init + [r];
    }
  }

  lemma {:induction false} CyclesIncrease(rs: seq<Interval>)
    requires Ascending(rs)
    ensures forall i, j :: 0 <= i < j < |Cycles(rs)| ==> Cycles(rs)[i] < Cycles(rs)[j]
    ensures rs != [] ==> |Cycles(rs)| > 0 && Cycles(rs)[|Cycles(rs)| - 1] == rs[|rs| - 1].hi
  {
    if rs != [] {
      var init, r := rs[..|rs| - 1], rs[|rs| - 1];
      CyclesIncrease(init);
      InRange(r.lo, r.hi - r.lo + 1);
      InCycles(init);
      var before := Cycles(init);
      forall i | 0 <= i < |before| ensures before[i] < r.lo {
        assert before[i] in before && Covers(init, before[i]);
        var k :| 0 <= k < |init| && init[k].lo <= before[i] <= init[k].hi;
      }
    }
  }

  lemma {:induction false} FirstAfterFound(bs: seq<int>, a: int, v: int)
    requires forall i, j :: 0 <= i < j < |bs| ==> bs[i] < bs[j]
    requires v in bs && a < v && forall x :: x in bs && a < x ==> v <= x
    ensures FirstAfter(bs, a) == Some(v)
  {
    if bs[0] <= a {
      assert forall x :: x in bs[1..] ==> x in bs;
      assert v in bs[1..];
      FirstAfterFound(bs[1..], a, v);
    } else {
      assert bs[0] in bs;
      var i :| 0 <= i < |bs| && bs[i] == v;
    }
  }

  lemma {:induction false} FirstAfterNone(bs: seq<int>, a: int)
    requires forall x :: x in bs ==> x <= a
    ensures FirstAfter(bs, a) == None
  {
    if bs != [] {
      assert bs[0] in bs && forall x :: x in bs[1..] ==> x in bs;
      FirstAfterNone(bs[1..], a);
    }
  }

  /** First B cycle after `a`, read off the runs from the first one that ends after `a`. */
  function NextInRuns(b: seq<Interval>, index: nat, a: int): Option<int>
    requires index <= |b|
  {
    if index == |b| then None
    else if a < b[index].lo then Some(b[index].lo)
    else Some(a + 1)
  }

  lemma NextInRunsIsFirstAfter(b: seq<Interval>, index: nat, a: int)
    requires Ascending(b) && index <= |b|
    requires forall i :: 0 <= i < index ==> b[i].hi <= a
    requires index < |b| ==> a < b[index].hi
    ensures FirstAfter(Cycles(b), a) == NextInRuns(b, index, a)
  {
    InCycles(b);
    CyclesIncrease(b);
    forall x | x in Cycles(b) && a < x
      ensures index < |b| && b[index].lo <= x
    {
      var i :| 0 <= i < |b| && b[i].lo <= x <= b[i].hi;
      assert index < i ==> b[index].hi < b[i].lo;
    }
    if index == |b| {
      FirstAfterNone(Cycles(b), a);
    } else {
      var v := NextInRuns(b, index, a).value;
      assert Covers(b, v) by { assert b[index].lo <= v <= b[index].hi; }
      FirstAfterFound(Cycles(b), a, v);
    }
  }

  lemma {:induction false} NaivePairsAppend(x: seq<int>, y: seq<int>, bs: seq<int>)
    ensures NaivePairs(x + y, bs) == NaivePairs(x, bs) + NaivePairs(y, bs)
  {
    if y == [] {
      assert x + y == x;
    } else {
      var init := y[..|y| - 1];
      NaivePairsAppend(x, init, bs);
      assert (x + y)[..|x + y| - 1] == x + init;
    }
  }

  /** A stretch of A cycles paired according to one segment. */
  lemma {:induction false} StretchPairs(s: PairSegment, n: nat, bs: seq<int>)
    requires forall x :: s.a <= x < s.a + n ==> FirstAfter(bs, x) == Some(s.PairAt(x - s.a).to)
    ensures NaivePairs(Range(s.a, n), bs) == ExpandSegment(s, n)
  {
    if n > 0 {
      StretchPairs(s, n - 1, bs);
      var r := Range(s.a, n);
      assert r[..|r| - 1] == Range(s.a, n - 1);
    }
  }

  lemma {:induction false} UnpairedStretch(lo: int, n: nat, bs: seq<int>)
    requires forall x :: lo <= x < lo + n ==> FirstAfter(bs, x) == None
    ensures NaivePairs(Range(lo, n), bs) == []
  {
    if n > 0 {
      UnpairedStretch(lo, n - 1, bs);
      var r := Range(lo, n);
      assert r[..|r| - 1] == Range(lo, n - 1);
    }
  }

  lemma {:induction false} RangeSplit(lo: int, m: nat, n: nat)
    ensures Range(lo, m) + Range(lo + m, n) == Range(lo, m + n)
  {
    if n > 0 { RangeSplit(lo, m, n - 1); }
  }

  lemma ExpandAppend(segments: seq<PairSegment>, s: PairSegment)
    ensures Expand(segments + [s]) == Expand(segments) + ExpandSegment(s, s.count)
  {
    assert (segments + [s])[..|segments|] == segments;
  }

  lemma {:induction false} ExpandConcat(x: seq<PairSegment>, y: seq<PairSegment>)
    ensures Expand(x + y) == Expand(x) + Expand(y)
  {
    if y == [] {
      assert x + y == x;
    } else {
      var init, s := y[..|y| - 1], y[|y| - 1];
      hide Expand, ExpandSegment;
      ExpandConcat(x, init);
      ExpandAppend(x + init, s);
      ExpandAppend(init, s);
      assert x + y == (x + init) + [s] && y == init + [s];
      assert (Expand(x) + Expand(init)) + ExpandSegment(s, s.count) == Expand(x) + (Expand(init) + ExpandSegment(s, s.count));
    }
  }

  ghost predicate AllValid(segments: seq<PairSegment>) {
    forall i :: 0 <= i < |segments| ==> segments[i].Valid()
  }

  // ---- Pairing with a second event list ----

  /** Twice the B runs passed, plus one when inside the current run; bounds the
      number of segments. */
  ghost function Progress(b: seq<Interval>, index: nat, x: int): nat {
    2 * index + if index < |b| && b[index].lo <= x then (if b[index].hi <= x then 2 else 1) else 0
  }

  /** State of the walk through one A run: everything before `cursor` is paired. */
  ghost predicate PairedUpTo(segments: seq<PairSegment>, b: seq<Interval>, lo: int, cursor: int)
    requires NonEmpty(b)
  {
    lo <= cursor && AllValid(segments) && Expand(segments) == NaivePairs(Range(lo, cursor - lo), Cycles(b))
  }

  lemma PairedStart(b: seq<Interval>, lo: int)
    requires NonEmpty(b)
    ensures PairedUpTo([], b, lo, lo)
  {}

  lemma PairedSegment(segments: seq<PairSegment>, b: seq<Interval>, lo: int, index: nat, s: PairSegment)
    requires Ascending(b) && index < |b| && PairedUpTo(segments, b, lo, s.a)
    requires forall i :: 0 <= i < index ==> b[i].hi <= s.a
    requires s.a < b[index].hi && 0 < s.count
    requires s.consecutiveB == (b[index].lo <= s.a)
    requires s.b == if s.consecutiveB then s.a + 1 else b[index].lo
    requires s.a + s.count <= if s.consecutiveB then b[index].hi else b[index].lo
    ensures PairedUpTo(segments + [s], b, lo, s.a + s.count)
  {
    hide NaivePairs, Range, Cycles, FirstAfter, Expand, ExpandSegment;
    forall x | s.a <= x < s.a + s.count ensures FirstAfter(Cycles(b), x) == Some(s.PairAt(x - s.a).to) {
      NextInRunsIsFirstAfter(b, index, x);
    }
    StretchPairs(s, s.count, Cycles(b));
    ExpandSingle(s);
    PairedExtend(segments, [s], Cycles(b), lo, s.a, s.count);
  }

  lemma PairedExtend(segments: seq<PairSegment>, more: seq<PairSegment>, cycles: seq<int>, lo: int, cursor: int, n: nat)
    requires lo <= cursor && Expand(segments) == NaivePairs(Range(lo, cursor - lo), cycles)
    requires Expand(more) == NaivePairs(Range(cursor, n), cycles)
    ensures Expand(segments + more) == NaivePairs(Range(lo, cursor + n - lo), cycles)
  {
    hide Expand, NaivePairs, Range;
    NaivePairsAppend(Range(lo, cursor - lo), Range(cursor, n), cycles);
    RangeSplit(lo, cursor - lo, n);
    ExpandConcat(segments, more);
  }

  lemma PairedRest(segments: seq<PairSegment>, b: seq<Interval>, lo: int, cursor: int, hi: int)
    requires Ascending(b) && PairedUpTo(segments, b, lo, cursor) && cursor <= hi + 1
    requires forall i :: 0 <= i < |b| ==> b[i].hi <= cursor
    ensures PairedUpTo(segments, b, lo, hi + 1)
  {
    hide NaivePairs, Range, Cycles, Expand, FirstAfter;
    forall x | cursor <= x <= hi ensures FirstAfter(Cycles(b), x) == None {
      NextInRunsIsFirstAfter(b, |b|, x);
    }
    UnpairedStretch(cursor, hi + 1 - cursor, Cycles(b));
    ExtendByNothing(segments, Cycles(b), lo, cursor, hi + 1);
  }

  lemma ExtendByNothing(segments: seq<PairSegment>, cycles: seq<int>, lo: int, cursor: int, to: int)
    requires lo <= cursor <= to && Expand(segments) == NaivePairs(Range(lo, cursor - lo), cycles)
    requires NaivePairs(Range(cursor, to - cursor), cycles) == []
    ensures Expand(segments) == NaivePairs(Range(lo, to - lo), cycles)
  {
    hide NaivePairs, Range;
    NaivePairsAppend(Range(lo, cursor - lo), Range(cursor, to - cursor), cycles);
    RangeSplit(lo, cursor - lo, to - cursor);
  }

  /** The inner loop: one A run against the B runs from `start` on. */
  method PairRun(run: Interval, b: seq<Interval>, start: nat) returns (segments: seq<PairSegment>, index: nat)
    requires run.lo <= run.hi && Ascending(b) && start <= |b|
    requires forall i :: 0 <= i < start ==> b[i].hi <= run.lo
    ensures PairedUpTo(segments, b, run.lo, run.hi + 1)
    ensures start <= index <= |b| && forall i :: 0 <= i < index ==> b[i].hi <= run.hi
    ensures |segments| + Progress(b, start, run.lo) <= Progress(b, index, run.hi) + 1
  {
    segments, index := [], start;
    var cursor := run.lo;
    PairedStart(b, run.lo);
    hide PairedUpTo, Ascending, NonEmpty;
    while cursor <= run.hi
      invariant start <= index <= |b| && run.lo <= cursor <= run.hi
      invariant forall i :: 0 <= i < index ==> b[i].hi <= cursor
      invariant NonEmpty(b) && PairedUpTo(segments, b, run.lo, cursor)
      invariant |segments| + Progress(b, start, run.lo) <= Progress(b, index, cursor)
      decreases run.hi - cursor
    {
      while index < |b| && b[index].hi <= cursor
        invariant start <= index <= |b|
        invariant forall i :: 0 <= i < index ==> b[i].hi <= cursor
        invariant |segments| + Progress(b, start, run.lo) <= Progress(b, index, cursor)
      {
        ProgressAdvance(b, index, cursor);
        index := index + 1;
      }
      if index == |b| {
        PairedRest(segments, b, run.lo, cursor, run.hi);
        return;
      }
      var consecutiveB := cursor >= b[index].lo;
      var stop := Min(run.hi, if consecutiveB then b[index].hi - 1 else b[index].lo - 1);
      var s := PairSegment(cursor, if consecutiveB then cursor + 1 else b[index].lo, stop - cursor + 1, consecutiveB);
      PairedSegment(segments, b, run.lo, index, s);
      segments := segments + [s];
      if stop == run.hi {
        return;
      }
      cursor := stop + 1;
    }
  }

  lemma ProgressAdvance(b: seq<Interval>, index: nat, x: int)
    requires Ascending(b) && index < |b| && b[index].hi <= x
    ensures Progress(b, index, x) <= Progress(b, index + 1, x)
  {}

  lemma ProgressMonotone(b: seq<Interval>, index: nat, x: int, y: int)
    requires Ascending(b) && x <= y
    ensures Progress(b, index, x) <= Progress(b, index, y)
    ensures index <= |b| ==> Progress(b, index, y) <= 2 * |b|
  {}

  /** Two-event mode: exactly the naive pairing, with at most |A| + 2|B| segments
      however long the runs are. */
  method PairWith(a: seq<Interval>, b: seq<Interval>) returns (segments: seq<PairSegment>)
    requires Ascending(a) && Ascending(b)
    ensures AllValid(segments)
    ensures Expand(segments) == NaivePairs(Cycles(a), Cycles(b))
    ensures |segments| <= |a| + 2 * |b|
  {
    segments := [];
    var index := 0;
    ghost var last := if a == [] then 0 else a[0].lo;
    AscendingFacts(a);
    AscendingFacts(b);
    assert Cycles([]) == [] && a[..0] == [];
    for k := 0 to |a|
      invariant 0 <= index <= |b|
      invariant forall i :: 0 <= i < index ==> b[i].hi <= last
      invariant k < |a| ==> last <= a[k].lo
      invariant PairedRuns(segments, a, b, k)
      invariant |segments| <= k + Progress(b, index, last)
    {
      ProgressMonotone(b, index, last, a[k].lo);
      var more, next := PairRun(a[k], b, index);
      PairedRunsStep(segments, more, a, b, k);
      hide PairedRuns, PairedUpTo, Ascending, Progress;
      segments, index, last := segments + more, next, a[k].hi;
    }
    assert a[..|a|] == a;
    ProgressMonotone(b, index, last, last);
  }

  lemma AscendingFacts(rs: seq<Interval>)
    requires Ascending(rs)
    ensures NonEmpty(rs)
    ensures forall k :: 0 <= k < |rs| ==> rs[k].lo <= rs[k].hi
    ensures forall k, l :: 0 <= k < |rs| && l == k + 1 && l < |rs| ==> rs[k].hi <= rs[l].lo
  {}

  ghost predicate PairedRuns(segments: seq<PairSegment>, a: seq<Interval>, b: seq<Interval>, k: nat)
    requires k <= |a| && NonEmpty(a) && NonEmpty(b)
  {
    AllValid(segments) && Expand(segments) == NaivePairs(Cycles(a[..k]), Cycles(b))
  }

  lemma PairedRunsStep(segments: seq<PairSegment>, more: seq<PairSegment>, a: seq<Interval>, b: seq<Interval>, k: nat)
    requires Ascending(a) && NonEmpty(b) && k < |a| && PairedRuns(segments, a, b, k)
    requires PairedUpTo(more, b, a[k].lo, a[k].hi + 1)
    ensures PairedRuns(segments + more, a, b, k + 1)
  {
    hide Expand, NaivePairs, Range, Cycles;
    CyclesStep(a, k);
    ExpandConcat(segments, more);
    NaivePairsAppend(Cycles(a[..k]), Range(a[k].lo, a[k].hi - a[k].lo + 1), Cycles(b));
  }

  // ---- Same-signal mode ----

  lemma {:induction false} WindowsAppend(es: seq<int>, x: int)
    ensures Windows(es + [x]) == Windows(es) + if es == [] then [] else [Pair(es[|es| - 1], x)]
  {
    assert (es + [x])[..|es|] == es;
  }

  lemma RangeFacts(lo: int, n: nat)
    ensures Range(lo, 1) == [lo]
    ensures Range(lo, n + 1) == Range(lo, n) + [lo + n]
    ensures |Range(lo, n)| == n && (n > 0 ==> Range(lo, n)[n - 1] == lo + n - 1)
  {
    assert Range(lo, 0) == [];
    InRange(lo, n);
  }

  lemma SpanFacts(lo: nat, n: nat)
    ensures ExpandSegment(PairSegment(lo, lo + 1, 0, true), 0) == []
    ensures ExpandSegment(PairSegment(lo, lo + 1, n + 1, true), n + 1)
         == ExpandSegment(PairSegment(lo, lo + 1, n, true), n) + [Pair(lo + n, lo + n + 1)]
  {
    SameShape(PairSegment(lo, lo + 1, n, true), PairSegment(lo, lo + 1, n + 1, true), n);
  }

  lemma {:induction false} WindowsRange(es: seq<int>, lo: nat, n: nat)
    ensures Windows(es + Range(lo, n + 1))
         == Windows(es) + (if es == [] then [] else [Pair(es[|es| - 1], lo)])
            + ExpandSegment(PairSegment(lo, lo + 1, n, true), n)
  {
    hide Windows, Range, ExpandSegment;
    if n == 0 {
      RangeFacts(lo, 0);
      SpanFacts(lo, 0);
      WindowsAppend(es, lo);
    } else {
      WindowsRange(es, lo, n - 1);
      RangeFacts(lo, n);
      SpanFacts(lo, n - 1);
      var before := es + Range(lo, n);
      WindowsAppend(before, lo + n);
      assert before + [lo + n] == es + Range(lo, n + 1);
    }
  }

  lemma {:induction false} SameShape(s: PairSegment, t: PairSegment, n: nat)
    requires s.a == t.a && s.b == t.b && s.consecutiveB == t.consecutiveB
    ensures ExpandSegment(s, n) == ExpandSegment(t, n)
  {
    if n > 0 { SameShape(s, t, n - 1); }
  }

  /** From the last event of the runs before to the first event of this one. */
  function LinkSegment(previous: Option<nat>, lo: nat): seq<PairSegment> {
    if previous.Some? then [PairSegment(previous.value, lo, 1, false)] else []
  }

  /** The neighbours inside one run. */
  function SpanSegment(lo: nat, hi: nat): seq<PairSegment> {
    if hi > lo then [PairSegment(lo, lo + 1, hi - lo, true)] else []
  }

  lemma ExpandSingle(s: PairSegment)
    ensures Expand([s]) == ExpandSegment(s, s.count)
    ensures s.count == 1 ==> Expand([s]) == [Pair(s.a, s.b)]
  {
    ExpandAppend([], s);
    assert [] + [s] == [s];
    if s.count == 1 { assert ExpandSegment(s, 0) == []; }
  }

  lemma LinkExpands(previous: Option<nat>, lo: nat)
    ensures Expand(LinkSegment(previous, lo)) == if previous.Some? then [Pair(previous.value, lo)] else []
  {
    if previous.Some? {
      ExpandSingle(PairSegment(previous.value, lo, 1, false));
    } else {
      assert Expand([]) == [];
    }
  }

  lemma SpanExpands(lo: nat, hi: nat)
    requires lo <= hi
    ensures Expand(SpanSegment(lo, hi)) == ExpandSegment(PairSegment(lo, lo + 1, hi - lo, true), hi - lo)
  {
    if hi > lo {
      ExpandSingle(PairSegment(lo, lo + 1, hi - lo, true));
    } else {
      assert Expand([]) == [];
    }
  }

  lemma NeighbourRun(segments: seq<PairSegment>, es: seq<int>, previous: Option<nat>, lo: nat, hi: nat)
    requires lo <= hi && Expand(segments) == Windows(es)
    requires previous == None <==> es == []
    requires previous.Some? ==> previous.value == es[|es| - 1]
    ensures Expand(segments + LinkSegment(previous, lo) + SpanSegment(lo, hi)) == Windows(es + Range(lo, hi - lo + 1))
  {
    hide Expand, Windows, Range, ExpandSegment, LinkSegment, SpanSegment;
    WindowsRange(es, lo, hi - lo);
    LinkExpands(previous, lo);
    SpanExpands(lo, hi);
    ExpandConcat(segments, LinkSegment(previous, lo));
    ExpandConcat(segments + LinkSegment(previous, lo), SpanSegment(lo, hi));
  }

  /** Same-signal mode: every event with the next one. */
  method PairNeighbours(a: seq<Interval>) returns (segments: seq<PairSegment>)
    requires Ascending(a)
    ensures |segments| <= 2 * |a|
    ensures AllValid(segments) && Expand(segments) == Windows(Cycles(a))
  {
    segments := [];
    var previous: Option<nat> := None;
    NeighboursStart(a);
    hide Neighbours, Expand, Windows, Cycles, LinkSegment, SpanSegment, Ascending;
    for k := 0 to |a|
      invariant Neighbours(segments, previous, a, k)
    {
      var lo, hi := a[k].lo, a[k].hi;
      NeighboursStep(segments, previous, a, k);
      SegmentsToPush(previous, lo, hi);
      ghost var before := segments;
      if previous.Some? {
        segments := segments + [PairSegment(previous.value, lo, 1, false)];
      }
      assert segments == before + LinkSegment(previous, lo);
      if hi > lo {
        segments := segments + [PairSegment(lo, lo + 1, hi - lo, true)];
      }
      assert segments == before + LinkSegment(previous, lo) + SpanSegment(lo, hi);
      previous := Some(hi);
    }
    NeighboursEnd(segments, previous, a);
  }

  lemma SegmentsToPush(previous: Option<nat>, lo: nat, hi: nat)
    ensures LinkSegment(previous, lo) == if previous.Some? then [PairSegment(previous.value, lo, 1, false)] else []
    ensures SpanSegment(lo, hi) == if hi > lo then [PairSegment(lo, lo + 1, hi - lo, true)] else []
  {}

  /** The segments of the first `k` runs. */
  ghost predicate Neighbours(segments: seq<PairSegment>, previous: Option<nat>, a: seq<Interval>, k: nat)
    requires k <= |a| && NonEmpty(a)
  {
    && AllValid(segments) && |segments| <= 2 * k
    && Expand(segments) == Windows(Cycles(a[..k]))
    && previous == if k == 0 then None else Some(a[k - 1].hi)
  }

  lemma NeighboursStart(a: seq<Interval>)
    requires Ascending(a)
    ensures NonEmpty(a) && Neighbours([], None, a, 0)
    ensures forall k :: 0 <= k < |a| ==> a[k].lo <= a[k].hi
  {}

  lemma NeighboursEnd(segments: seq<PairSegment>, previous: Option<nat>, a: seq<Interval>)
    requires NonEmpty(a) && Neighbours(segments, previous, a, |a|)
    ensures AllValid(segments) && |segments| <= 2 * |a| && Expand(segments) == Windows(Cycles(a))
  {
    assert a[..|a|] == a;
  }

  lemma NeighboursStep(segments: seq<PairSegment>, previous: Option<nat>, a: seq<Interval>, k: nat)
    requires Ascending(a) && k < |a| && Neighbours(segments, previous, a, k)
    ensures Neighbours(segments + LinkSegment(previous, a[k].lo) + SpanSegment(a[k].lo, a[k].hi), Some(a[k].hi), a, k + 1)
  {
    hide Expand, Windows, Cycles, Range, LinkSegment, SpanSegment;
    CyclesStep(a, k);
    NeighbourRun(segments, Cycles(a[..k]), previous, a[k].lo, a[k].hi);
    PushedAreValid(previous, a[k].lo, a[k].hi);
  }

  lemma PushedAreValid(previous: Option<nat>, lo: nat, hi: nat)
    requires previous.Some? ==> previous.value < lo
    ensures AllValid(LinkSegment(previous, lo)) && |LinkSegment(previous, lo)| <= 1
    ensures AllValid(SpanSegment(lo, hi)) && |SpanSegment(lo, hi)| <= 1
    ensures previous.None? ==> LinkSegment(previous, lo) == []
  {}

  lemma CyclesStep(a: seq<Interval>, k: nat)
    requires Ascending(a) && k < |a|
    ensures Cycles(a[..k + 1]) == Cycles(a[..k]) + Range(a[k].lo, a[k].hi - a[k].lo + 1)
    ensures k == 0 ==> Cycles(a[..k]) == []
    ensures k > 0 ==> Cycles(a[..k]) != [] && Cycles(a[..k])[|Cycles(a[..k])| - 1] == a[k - 1].hi && a[k - 1].hi < a[k].lo
  {
    CyclesIncrease(a[..k]);
    assert a[..k + 1][..k] == a[..k];
  }

  /** One list of events paired with another, or with itself. */
  method SampledPairSegments(a: seq<Interval>, b: Option<seq<Interval>>) returns (segments: seq<PairSegment>)
    requires Ascending(a) && (b.Some? ==> Ascending(b.value))
    ensures AllValid(segments)
    ensures match b
            case Some(bs) => Expand(segments) == NaivePairs(Cycles(a), Cycles(bs)) && |segments| <= |a| + 2 * |bs|
            case None => Expand(segments) == Windows(Cycles(a)) && |segments| <= 2 * |a|
  {
    match b
    case Some(bs) => segments := PairWith(a, bs);
    case None => segments := PairNeighbours(a);
  }
}
