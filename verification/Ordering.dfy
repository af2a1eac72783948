/** What the standard library's sort and dedup give back, as functions. */
module Ordering {
  import opened Basics

  ghost predicate StrictlyIncreasing(s: seq<int>) {
    forall i, j :: 0 <= i < j < |s| ==> s[i] < s[j]
  }

  ghost predicate Sorted(s: seq<int>) {
    forall i, j :: 0 <= i < j < |s| ==> s[i] <= s[j]
  }

  // ---- Sort and dedup of numbers ----

  function InsertDistinct(x: int, s: seq<int>): seq<int> {
    if s == [] || x < s[0] then [x] + s
    else if x == s[0] then s
    else [s[0]] + InsertDistinct(x, s[1..])
  }

  function SortDedup(s: seq<int>): seq<int> {
    if s == [] then [] else InsertDistinct(s[0], SortDedup(s[1..]))
  }

  lemma {:induction false} InsertDistinctMeaning(x: int, s: seq<int>)
    requires StrictlyIncreasing(s)
    ensures StrictlyIncreasing(InsertDistinct(x, s))
    ensures forall y :: y in InsertDistinct(x, s) <==> y == x || y in s
    ensures |InsertDistinct(x, s)| <= |s| + 1
  {
    if !(s == [] || x < s[0]) && x != s[0] {
      InsertDistinctMeaning(x, s[1..]);
      var tail := InsertDistinct(x, s[1..]);
      assert InsertDistinct(x, s) == [s[0]] + tail;
      hide InsertDistinct;
      assert forall j :: 0 <= j < |tail| ==> tail[j] in tail;
      assert forall y :: y in s <==> y == s[0] || y in s[1..];
    }
  }

  /** Strictly increasing, with exactly the given elements. */
  lemma {:induction false} SortDedupMeaning(s: seq<int>)
    ensures StrictlyIncreasing(SortDedup(s))
    ensures forall y :: y in SortDedup(s) <==> y in s
    ensures |SortDedup(s)| <= |s|
  {
    if s != [] {
      SortDedupMeaning(s[1..]);
      InsertDistinctMeaning(s[0], SortDedup(s[1..]));
      assert forall y :: y in s <==> y == s[0] || y in s[1..];
    }
  }

  // ---- Sort of numbers, keeping duplicates ----

  function Insert(x: int, s: seq<int>): seq<int> {
    if s == [] || x <= s[0] then [x] + s else [s[0]] + Insert(x, s[1..])
  }

  function Sort(s: seq<int>): seq<int> {
    if s == [] then [] else Insert(s[0], Sort(s[1..]))
  }

  lemma {:induction false} InsertMeaning(x: int, s: seq<int>)
    requires Sorted(s)
    ensures Sorted(Insert(x, s)) && multiset(Insert(x, s)) == multiset{x} + multiset(s)
  {
    if !(s == [] || x <= s[0]) {
      InsertMeaning(x, s[1..]);
      var tail := Insert(x, s[1..]);
      assert Insert(x, s) == [s[0]] + tail && s == [s[0]] + s[1..];
      hide Insert;
      ConsSorted(s[0], tail, x, s[1..]);
    }
  }

  lemma ConsSorted(head: int, tail: seq<int>, x: int, rest: seq<int>)
    requires Sorted(tail) && multiset(tail) == multiset{x} + multiset(rest)
    requires head <= x && forall i :: 0 <= i < |rest| ==> head <= rest[i]
    ensures Sorted([head] + tail)
  {
    forall j | 0 <= j < |tail| ensures head <= tail[j] {
      assert tail[j] in multiset(tail);
    }
  }

  lemma {:induction false} SortMeaning(s: seq<int>)
    ensures Sorted(Sort(s)) && multiset(Sort(s)) == multiset(s) && |Sort(s)| == |s|
  {
    if s != [] {
      SortMeaning(s[1..]);
      InsertMeaning(s[0], Sort(s[1..]));
      assert s == [s[0]] + s[1..];
      assert |multiset(Sort(s))| == |Sort(s)| && |multiset(s)| == |s|;
    }
  }

  // ---- Sort of intervals by lower, then upper end ----

  predicate Before(a: Interval, b: Interval) {
    a.lo < b.lo || (a.lo == b.lo && a.hi <= b.hi)
  }

  function InsertRun(r: Interval, s: seq<Interval>): seq<Interval> {
    if s == [] || Before(r, s[0]) then [r] + s else [s[0]] + InsertRun(r, s[1..])
  }

  function SortRuns(s: seq<Interval>): seq<Interval> {
    if s == [] then [] else InsertRun(s[0], SortRuns(s[1..]))
  }

  ghost predicate SortedByLow(s: seq<Interval>) {
    forall i, j :: 0 <= i < j < |s| ==> s[i].lo <= s[j].lo
  }

  lemma {:induction false} InsertRunMeaning(r: Interval, s: seq<Interval>)
    requires SortedByLow(s)
    ensures SortedByLow(InsertRun(r, s))
    ensures forall q :: q in InsertRun(r, s) <==> q == r || q in s
    ensures |InsertRun(r, s)| == |s| + 1
  {
    if !(s == [] || Before(r, s[0])) {
      InsertRunMeaning(r, s[1..]);
      var tail := InsertRun(r, s[1..]);
      assert forall j :: 0 <= j < |tail| ==> tail[j] in tail;
      assert forall q :: q in s <==> q == s[0] || q in s[1..];
    }
  }

  lemma {:induction false} SortRunsMeaning(s: seq<Interval>)
    ensures SortedByLow(SortRuns(s))
    ensures forall q :: q in SortRuns(s) <==> q in s
    ensures |SortRuns(s)| == |s|
  {
    if s != [] {
      SortRunsMeaning(s[1..]);
      InsertRunMeaning(s[0], SortRuns(s[1..]));
      assert forall q :: q in s <==> q == s[0] || q in s[1..];
    }
  }

  /** Only the elements decide what is covered. */
  lemma SameElementsCoverSame(a: seq<Interval>, b: seq<Interval>)
    requires forall q :: q in a <==> q in b
    ensures forall c :: Covers(a, c) <==> Covers(b, c)
  {
    forall c ensures Covers(a, c) ==> Covers(b, c) { CoversTransfer(a, b, c); }
    forall c ensures Covers(b, c) ==> Covers(a, c) { CoversTransfer(b, a, c); }
  }

  lemma CoversTransfer(a: seq<Interval>, b: seq<Interval>, c: int)
    requires forall q :: q in a ==> q in b
    ensures Covers(a, c) ==> Covers(b, c)
  {
    if Covers(a, c) {
      var i :| 0 <= i < |a| && a[i].lo <= c <= a[i].hi;
      assert a[i] in b;
    }
  }
}
