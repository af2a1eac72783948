/** Counting and subtracting stopped cycles without expanding them
    (crates/bwave/src/clock.rs). */
module StoppedCycles {
  import opened Basics

  // ---- Counting ----

  function Overlap(r: Interval, lo: int, hi: int): nat {
    var start, end := Max(lo, r.lo), Min(hi, r.hi);
    if start <= end then end - start + 1 else 0
  }

  function OverlapSum(stops: seq<Interval>, lo: int, hi: int): nat {
    if stops == [] then 0
    else OverlapSum(stops[..|stops| - 1], lo, hi) + Overlap(stops[|stops| - 1], lo, hi)
  }

  function StoppedCount(stops: seq<Interval>, lo: int, hi: int): nat {
    if hi < lo then 0 else OverlapSum(stops, lo, hi)
  }

  /** Cycles of `lo..=hi` that are covered, walked one by one. */
  ghost function CountCovered(stops: seq<Interval>, lo: int, hi: int): nat
    decreases hi - lo + 1
  {
    if hi < lo then 0 else CountCovered(stops, lo, hi - 1) + if Covers(stops, hi) then 1 else 0
  }

  lemma {:induction false} CountOne(r: Interval, lo: int, hi: int)
    requires lo <= hi + 1
    ensures CountCovered([r], lo, hi) == Overlap(r, lo, hi)
    decreases hi - lo + 1
  {
    if lo <= hi {
      CountOne(r, lo, hi - 1);
      assert Covers([r], hi) <==> r.lo <= hi <= r.hi by { assert [r][0] == r; }
    }
  }

  lemma {:induction false} CountDisjoint(stops: seq<Interval>, r: Interval, lo: int, hi: int)
    requires lo <= hi + 1
    requires forall c :: Covers(stops, c) ==> !(r.lo <= c <= r.hi)
    ensures CountCovered(stops + [r], lo, hi) == CountCovered(stops, lo, hi) + CountCovered([r], lo, hi)
    decreases hi - lo + 1
  {
    if lo <= hi {
      CountDisjoint(stops, r, lo, hi - 1);
      CoversAppend(stops, r);
      CoversAppend([], r);
      assert [] + [r] == [r];
    }
  }

  /** For disjoint stops the overlap sum counts every stopped cycle of the window once. */
  lemma {:induction false} StoppedCountMeaning(stops: seq<Interval>, lo: int, hi: int)
    requires Ascending(stops)
    ensures StoppedCount(stops, lo, hi) == CountCovered(stops, lo, hi)
    decreases |stops|
  {
    if hi < lo {
    } else if stops == [] {
      NoneCovered(lo, hi);
    } else {
      var init, last := stops[..|stops| - 1], stops[|stops| - 1];
      StoppedCountMeaning(init, lo, hi);
      CountDisjoint(init, last, lo, hi);
      CountOne(last, lo, hi);
      assert stops == init + [last];
    }
  }

  lemma {:induction false} NoneCovered(lo: int, hi: int)
    ensures CountCovered([], lo, hi) == 0
    decreases hi - lo + 1
  {
    if lo <= hi { NoneCovered(lo, hi - 1); }
  }

  // ---- Subtracting ----

  ghost predicate Fits(rs: seq<Interval>) {
    forall i :: 0 <= i < |rs| ==> rs[i].hi <= U64_MAX
  }

  /** Run cycles that survive: not stopped, or the one cycle number the cursor
      cannot step past because its increment saturates. */
  ghost predicate Kept(runs: seq<Interval>, stops: seq<Interval>, c: int) {
    Covers(runs, c) && (!Covers(stops, c) || c == U64_MAX)
  }

  /** No stop reaches the numbers between its predecessors and itself. */
  lemma GapUncovered(stops: seq<Interval>, j: int, from: int, to: int)
    requires Ascending(stops) && 0 <= j <= |stops|
    requires forall i :: 0 <= i < j ==> stops[i].hi < from
    requires j < |stops| ==> to < stops[j].lo
    ensures forall c :: from <= c <= to ==> !Covers(stops, c)
  {
    forall i | 0 <= i < |stops| ensures stops[i].hi < from || to < stops[i].lo {
      assert j < i ==> stops[j].hi < stops[i].lo;
    }
  }

  lemma StopCovered(stops: seq<Interval>, j: int)
    requires 0 <= j < |stops|
    ensures forall c :: stops[j].lo <= c <= stops[j].hi ==> Covers(stops, c)
  {}

  /** `pieces` are exactly the uncovered numbers of `lo..to`, in ascending order. */
  ghost predicate Clears(pieces: seq<Interval>, stops: seq<Interval>, lo: int, to: int) {
    && Ascending(pieces)
    && (forall i :: 0 <= i < |pieces| ==> lo <= pieces[i].lo && pieces[i].hi < to)
    && forall c :: Covers(pieces, c) <==> lo <= c < to && !Covers(stops, c)
  }

  lemma ClearsNothing(stops: seq<Interval>, lo: int)
    ensures Clears([], stops, lo, lo)
  {}

  /** An uncovered gap is one more piece. */
  lemma ClearsGap(pieces: seq<Interval>, stops: seq<Interval>, lo: int, cursor: nat, to: nat)
    requires Clears(pieces, stops, lo, cursor) && lo <= cursor <= to
    requires forall c :: cursor <= c <= to ==> !Covers(stops, c)
    ensures Clears(pieces + [Interval(cursor, to)], stops, lo, to + 1)
  {
    CoversAppend(pieces, Interval(cursor, to));
  }

  /** Covered numbers add no piece. */
  lemma ClearsStop(pieces: seq<Interval>, stops: seq<Interval>, lo: int, cursor: int, to: int)
    requires Clears(pieces, stops, lo, cursor) && cursor <= to
    requires forall c :: cursor <= c < to ==> Covers(stops, c)
    ensures Clears(pieces, stops, lo, to)
  {}

  /** One step of the cursor: over the gap in front of `stops[j]`, then past it. */
  lemma ClearsPast(pieces: seq<Interval>, stops: seq<Interval>, lo: int, cursor: nat, j: nat)
    requires Ascending(stops) && j < |stops| && Clears(pieces, stops, lo, cursor) && lo <= cursor <= stops[j].hi
    requires forall i :: 0 <= i < j ==> stops[i].hi < cursor
    ensures Clears(if stops[j].lo > cursor then pieces + [Interval(cursor, stops[j].lo - 1)] else pieces, stops, lo, stops[j].hi + 1)
  {
    GapUncovered(stops, j, cursor, stops[j].lo - 1);
    StopCovered(stops, j);
    if stops[j].lo > cursor {
      ClearsGap(pieces, stops, lo, cursor, stops[j].lo - 1);
      ClearsStop(pieces + [Interval(cursor, stops[j].lo - 1)], stops, lo, stops[j].lo, stops[j].hi + 1);
    } else {
      ClearsStop(pieces, stops, lo, cursor, stops[j].hi + 1);
    }
  }

  /** Only the first part of a stop counts when it reaches past the run. */
  lemma ClearsWithin(pieces: seq<Interval>, stops: seq<Interval>, lo: int, to: int, hi: int)
    requires Clears(pieces, stops, lo, to) && hi < to
    requires forall i :: 0 <= i < |pieces| ==> pieces[i].hi <= hi
    ensures Clears(pieces, stops, lo, hi + 1)
  {
    forall c | Covers(pieces, c) ensures c <= hi {
      var i :| 0 <= i < |pieces| && pieces[i].lo <= c <= pieces[i].hi;
    }
  }

  /** What is left of one run: its numbers that are not stopped, and the last
      representable number in any case. */
  ghost predicate Remains(pieces: seq<Interval>, stops: seq<Interval>, run: Interval) {
    && Ascending(pieces)
    && (forall i :: 0 <= i < |pieces| ==> run.lo <= pieces[i].lo && pieces[i].hi <= run.hi)
    && forall c :: Covers(pieces, c) <==> run.lo <= c <= run.hi && (!Covers(stops, c) || c == U64_MAX)
  }

  lemma ClearsAll(pieces: seq<Interval>, stops: seq<Interval>, run: Interval)
    requires Clears(pieces, stops, run.lo, run.hi + 1) && run.hi <= U64_MAX
    requires run.hi == U64_MAX ==> !Covers(stops, U64_MAX)
    ensures Remains(pieces, stops, run)
  {}

  lemma ClearsButLast(pieces: seq<Interval>, stops: seq<Interval>, run: Interval)
    requires Clears(pieces, stops, run.lo, U64_MAX) && run.lo <= run.hi == U64_MAX
    ensures Remains(pieces + [Interval(U64_MAX, U64_MAX)], stops, run)
  {
    CoversAppend(pieces, Interval(U64_MAX, U64_MAX));
  }

  /** One run minus the stops from `index` on; the earlier stops end before the run. There is at
      most one piece more than stops, numbers `index` to `past`, that end inside the run. */
  method SubtractFromRun(run: Interval, stops: seq<Interval>, index: nat) returns (pieces: seq<Interval>, ghost past: nat)
    requires run.lo <= run.hi <= U64_MAX
    requires Ascending(stops) && Fits(stops) && index <= |stops|
    requires forall i :: 0 <= i < index ==> stops[i].hi < run.lo
    requires index < |stops| ==> run.lo <= stops[index].hi
    ensures Remains(pieces, stops, run)
    ensures index <= past <= |stops| && |pieces| <= past - index + 1 && forall i :: 0 <= i < past ==> stops[i].hi <= run.hi
  {
    hide Clears, Remains;
    pieces := [];
    var cursor := run.lo;
    var j := index;
    // Where the cursor would be if its increment did not saturate.
    ghost var next: nat := cursor;
    ClearsNothing(stops, cursor);
    while j < |stops| && stops[j].lo <= run.hi
      invariant index <= j <= |stops| && run.lo <= cursor <= run.hi
      invariant next == cursor || (next == U64_MAX + 1 && cursor == U64_MAX)
      invariant forall i :: 0 <= i < j ==> stops[i].hi < next
      invariant j < |stops| ==> next <= stops[j].hi
      invariant Clears(pieces, stops, run.lo, next)
      invariant |pieces| <= j - index && forall i :: 0 <= i < j ==> stops[i].hi <= run.hi
      invariant forall i :: 0 <= i < |pieces| ==> pieces[i].hi <= run.hi && pieces[i].hi < U64_MAX
    {
      var stop := stops[j];
      ClearsPast(pieces, stops, run.lo, cursor, j);
      if stop.lo > cursor {
        pieces := pieces + [Interval(cursor, stop.lo - 1)];
      }
      cursor := Max(cursor, SaturatingAdd(stop.hi, 1));
      next := stop.hi + 1;
      assert j + 1 < |stops| ==> stop.hi < stops[j + 1].lo <= stops[j + 1].hi;
      if cursor > run.hi {
        break;
      }
      j := j + 1;
    }
    past := j;
    if cursor <= run.hi {
      if next == cursor {
        GapUncovered(stops, j, cursor, run.hi);
        ClearsGap(pieces, stops, run.lo, cursor, run.hi);
        ClearsAll(pieces + [Interval(cursor, run.hi)], stops, run);
      } else {
        ClearsWithin(pieces, stops, run.lo, next, U64_MAX - 1);
        ClearsButLast(pieces, stops, run);
      }
      pieces := pieces + [Interval(cursor, run.hi)];
    } else {
      ClearsWithin(pieces, stops, run.lo, next, run.hi);
      ClearsAll(pieces, stops, run);
    }
  }

  /** The outcome for the first `k` runs. */
  ghost predicate KeptSoFar(result: seq<Interval>, runs: seq<Interval>, stops: seq<Interval>, k: nat)
    requires k <= |runs|
  {
    && Ascending(result)
    && (forall i :: 0 <= i < |result| ==> 0 < k && result[i].hi <= runs[k - 1].hi)
    && forall c :: Covers(result, c) <==> Kept(runs[..k], stops, c)
  }

  lemma KeptConcat(result: seq<Interval>, pieces: seq<Interval>, runs: seq<Interval>, stops: seq<Interval>, k: nat)
    requires k < |runs| && Ascending(runs) && KeptSoFar(result, runs, stops, k) && Remains(pieces, stops, runs[k])
    ensures KeptSoFar(result + pieces, runs, stops, k + 1)
  {
    CoversConcat(result, pieces);
    assert runs[..k + 1] == runs[..k] + [runs[k]];
    CoversAppend(runs[..k], runs[k]);
    assert k > 0 ==> runs[k - 1].hi < runs[k].lo;
  }

  /** Interval subtraction. The stop index is carried from run to run. The result has at most one
      piece per run and per stop. */
  method ExcludeStopped(runs: seq<Interval>, stops: seq<Interval>) returns (result: seq<Interval>)
    requires Ascending(runs) && Ascending(stops) && Fits(runs) && Fits(stops)
    ensures Ascending(result) && Fits(result) && |result| <= |runs| + |stops|
    ensures forall c :: Covers(result, c) <==> Kept(runs, stops, c)
  {
    result := [];
    var index := 0;
    ghost var ended: nat := 0;
    for k := 0 to |runs|
      invariant 0 <= index <= |stops| && ended <= |stops| && |result| <= k + ended
      invariant forall i :: 0 <= i < ended && k < |runs| ==> stops[i].hi < runs[k].lo
      invariant forall i :: 0 <= i < index && k < |runs| ==> stops[i].hi < runs[k].lo
      invariant KeptSoFar(result, runs, stops, k)
    {
      while index < |stops| && stops[index].hi < runs[k].lo
        invariant 0 <= index <= |stops|
        invariant forall i :: 0 <= i < index ==> stops[i].hi < runs[k].lo
      {
        index := index + 1;
      }
      assert ended <= index;
      var pieces, past := SubtractFromRun(runs[k], stops, index);
      ended := past;
      KeptConcat(result, pieces, runs, stops, k);
      result := result + pieces;
      assert k + 1 < |runs| ==> runs[k].hi < runs[k + 1].lo;
    }
    assert runs[..|runs|] == runs;
  }

  lemma CoversConcat(a: seq<Interval>, b: seq<Interval>)
    ensures forall c :: Covers(a + b, c) <==> Covers(a, c) || Covers(b, c)
  {
    var all := a + b;
    forall c ensures Covers(all, c) <==> Covers(a, c) || Covers(b, c) {
      if Covers(a, c) {
        var i :| 0 <= i < |a| && a[i].lo <= c <= a[i].hi;
        assert all[i] == a[i];
      }
      if Covers(b, c) {
        var i :| 0 <= i < |b| && b[i].lo <= c <= b[i].hi;
        assert all[|a| + i] == b[i];
      }
    }
  }

  /** The subtraction is exact if and only if the last cycle number is not both
      in a run and stopped. */
  lemma ExcludeStoppedIsExactWhen(runs: seq<Interval>, stops: seq<Interval>, result: seq<Interval>)
    requires forall c :: Covers(result, c) <==> Kept(runs, stops, c)
    ensures (forall c :: Covers(result, c) <==> Covers(runs, c) && !Covers(stops, c))
       <==> !(Covers(runs, U64_MAX) && Covers(stops, U64_MAX))
  {
    assert Covers(result, U64_MAX) <==> Kept(runs, stops, U64_MAX);
  }

  /** The input that shows it: both lists hold just the last cycle number, which is kept. */
  method LastCycleIsKept() returns (result: seq<Interval>)
    ensures Covers(result, U64_MAX)
  {
    var last := [Interval(U64_MAX, U64_MAX)];
    assert last[0].lo <= U64_MAX <= last[0].hi;
    result := ExcludeStopped(last, last);
    assert Kept(last, last, U64_MAX);
  }

  /** Stops that end below the last cycle number, as all stops of an analysis do, are subtracted exactly. */
  lemma EarlyStopsAreExcluded(runs: seq<Interval>, stops: seq<Interval>, c: int)
    requires forall i :: 0 <= i < |stops| ==> stops[i].hi < U64_MAX
    ensures Kept(runs, stops, c) <==> Covers(runs, c) && !Covers(stops, c)
  {}
}
