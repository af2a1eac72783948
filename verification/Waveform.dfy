/** Transition lists and value lookup (crates/bwave/src/cache.rs, virtual_signal.rs). */
module Waveform {

  datatype Transition = Transition(tick: nat, value: string)

  ghost predicate Ordered(ts: seq<Transition>) {
    forall i, j :: 0 <= i < j < |ts| ==> ts[i].tick <= ts[j].tick
  }

  ghost predicate StrictlyOrdered(ts: seq<Transition>) {
    forall i, j :: 0 <= i < j < |ts| ==> ts[i].tick < ts[j].tick
  }

  /** Number of leading transitions at or before `tick`. */
  function PartitionPoint(ts: seq<Transition>, tick: int): (end: nat)
    requires Ordered(ts)
    ensures end <= |ts|
    ensures forall i :: 0 <= i < |ts| ==> (i < end <==> ts[i].tick <= tick)
  {
    if ts == [] then 0
    else if ts[|ts| - 1].tick <= tick then |ts|
    else PartitionPoint(ts[..|ts| - 1], tick)
  }

  /** Most recent value at or before `tick`, the last entry winning among equal ticks. */
  function ValueAtTick(ts: seq<Transition>, tick: int): string
    requires Ordered(ts)
  {
    if ts == [] then "x"
    else
      var end := PartitionPoint(ts, tick);
      if end == 0 then "x" else ts[end - 1].value
  }

  /** What a lookup means: the entry nothing at or before `tick` follows, or "x". */
  lemma ValueAtTickMeaning(ts: seq<Transition>, tick: int)
    requires Ordered(ts)
    ensures forall i :: 0 <= i < |ts| && ts[i].tick <= tick && (i + 1 < |ts| ==> tick < ts[i + 1].tick)
              ==> ValueAtTick(ts, tick) == ts[i].value
    ensures (forall i :: 0 <= i < |ts| ==> tick < ts[i].tick) ==> ValueAtTick(ts, tick) == "x"
  {
    var end := PartitionPoint(ts, tick);
    forall i | 0 <= i < |ts| && ts[i].tick <= tick && (i + 1 < |ts| ==> tick < ts[i + 1].tick)
      ensures ValueAtTick(ts, tick) == ts[i].value
    {
      assert i < end;
      if i + 1 < |ts| { assert !(i + 1 < end); }
      assert end == i + 1;
    }
  }

  /** A value holds until the next transition. */
  lemma ValueHolds(ts: seq<Transition>, from: int, to: int)
    requires Ordered(ts) && from <= to
    requires forall i :: 0 <= i < |ts| ==> !(from < ts[i].tick <= to)
    ensures ValueAtTick(ts, from) == ValueAtTick(ts, to)
  {
    var a, b := PartitionPoint(ts, from), PartitionPoint(ts, to);
    assert a < |ts| ==> from < ts[a].tick;
    assert b < |ts| ==> to < ts[b].tick;
  }

  datatype Search = Found(index: nat) | Insert(index: nat)

  /** A binary search by tick: where the key is, or where it would go. */
  function SearchByTick(ts: seq<Transition>, tick: int): (s: Search)
    requires StrictlyOrdered(ts)
    ensures s.Found? ==> s.index < |ts| && ts[s.index].tick == tick
    ensures s.Insert? ==> s.index <= |ts| && forall i :: 0 <= i < |ts| ==> ts[i].tick != tick && (i < s.index <==> ts[i].tick < tick)
  {
    if ts == [] then Insert(0)
    else
      var last := |ts| - 1;
      if ts[last].tick == tick then Found(last)
      else if ts[last].tick < tick then Insert(|ts|)
      else SearchByTick(ts[..last], tick)
  }

  /** Lookup used by virtual signals. */
  function Lookup(ts: seq<Transition>, tick: int): string
    requires StrictlyOrdered(ts)
  {
    match SearchByTick(ts, tick)
    case Found(i) => ts[i].value
    case Insert(i) => if i == 0 then "x" else ts[i - 1].value
  }

  /** On strictly increasing ticks the two lookups agree. */
  lemma LookupIsValueAtTick(ts: seq<Transition>, tick: int)
    requires StrictlyOrdered(ts)
    ensures Ordered(ts) && Lookup(ts, tick) == ValueAtTick(ts, tick)
  {
    var end := PartitionPoint(ts, tick);
    match SearchByTick(ts, tick)
    case Found(i) =>
      assert ts[i].tick <= tick && i < end;
      assert i + 1 < |ts| ==> tick < ts[i + 1].tick;
    case Insert(i) =>
      assert i < |ts| ==> tick < ts[i].tick;
      assert end < |ts| ==> tick < ts[end].tick;
  }
}
