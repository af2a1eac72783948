/** The value-change streams of a section (crates/bwave/vendor/fst-writer/src/buffer.rs):
    one frame slot per signal, then changes stamped with time indices. Changes at frame
    time share the slot, so only the last of them is kept. */
module SignalStreams {
  import opened Basics
  import opened BitText
  import opened SectionEncoding

  // ---- What a stream should hold ----

  datatype Indexed = Indexed(index: nat, value: seq<Byte>)

  /** Frame value, current value, and the changes after the frame. */
  datatype Slot = Slot(frame: seq<Byte>, current: seq<Byte>, changes: seq<Indexed>)

  /** A frame-time change replaces the frame; a later one is kept unless it repeats the current value. */
  function StoreOne(slot: Slot, s: Stamped): Slot {
    match s.index
    case None => Slot(s.value, s.value, slot.changes)
    case Some(i) =>
      if s.value == slot.current then slot
      else Slot(slot.frame, s.value, slot.changes + [Indexed(i, s.value)])
  }

  function StoreAll(slot: Slot, log: seq<Stamped>): Slot {
    if log == [] then slot else StoreOne(StoreAll(slot, log[..|log| - 1]), log[|log| - 1])
  }

  lemma StoreNext(slot: Slot, log: seq<Stamped>, k: nat)
    requires k < |log|
    ensures StoreAll(slot, log[..k + 1]) == StoreOne(StoreAll(slot, log[..k]), log[k])
  {
    assert log[..k + 1][..k] == log[..k];
  }

  lemma {:induction false} StoreConcat(slot: Slot, x: seq<Stamped>, y: seq<Stamped>)
    ensures StoreAll(slot, x + y) == StoreAll(StoreAll(slot, x), y)
  {
    if y == [] {
      assert x + y == x;
    } else {
      StoreConcat(slot, x, y[..|y| - 1]);
      assert (x + y)[..|x + y| - 1] == x + y[..|y| - 1];
    }
  }

  // ---- Streams with relative time indices ----

  datatype Entry = Entry(delta: nat, value: seq<Byte>)

  function LastIndex(stream: seq<Entry>): nat {
    if stream == [] then 0 else LastIndex(stream[..|stream| - 1]) + stream[|stream| - 1].delta
  }

  function Absolute(stream: seq<Entry>): seq<Indexed> {
    if stream == [] then []
    else Absolute(stream[..|stream| - 1]) + [Indexed(LastIndex(stream), stream[|stream| - 1].value)]
  }

  datatype SignalState = SignalState(frame: seq<Byte>, current: seq<Byte>, previous: nat, stream: seq<Entry>) {
    ghost predicate Valid() {
      previous == LastIndex(stream)
    }

    function View(): Slot {
      Slot(frame, current, Absolute(stream))
    }
  }

  lemma Emitted(stream: seq<Entry>, previous: nat, index: nat, value: seq<Byte>)
    requires previous == LastIndex(stream) && previous <= index
    ensures LastIndex(stream + [Entry(index - previous, value)]) == index
    ensures Absolute(stream + [Entry(index - previous, value)]) == Absolute(stream) + [Indexed(index, value)]
  {
    assert (stream + [Entry(index - previous, value)])[..|stream|] == stream;
  }

  // ---- Applying a list of changes ----

  datatype StreamError = FrameInLaterSection | IndexTooLarge | IndexDecreased | MappedToFrame

  /** Position of a time index: the frame comes before every entry of the table. */
  function Rank(index: Option<nat>): nat {
    match index case None => 0 case Some(i) => i + 1
  }

  ghost predicate Rising(log: seq<Stamped>) {
    forall i, j :: 0 <= i < j < |log| ==> Rank(log[i].index) <= Rank(log[j].index)
  }

  /** Stamps in order, none before `previous` or after `max`, frame time in the first section only. */
  ghost predicate Orderly(log: seq<Stamped>, previous: nat, max: nat, first: bool) {
    && Rising(log)
    && (forall i :: 0 <= i < |log| ==> log[i].index.None? ==> first)
    && (forall i :: 0 <= i < |log| ==> log[i].index.Some? ==> previous <= log[i].index.value <= max)
  }

  /** The first `k` stamps are stored; values written but not yet copied out are pending. */
  ghost predicate Applied(state: SignalState, log: seq<Stamped>, k: nat, frame: seq<Byte>, current: seq<Byte>,
                          stream: seq<Entry>, previous: nat)
    requires k <= |log|
  {
    && StoreAll(state.View(), log[..k]) == Slot(frame, current, Absolute(stream))
    && previous == LastIndex(stream)
    && (previous == state.previous || exists i :: 0 <= i < k && log[i].index == Some(previous))
  }

  lemma AppliedStart(state: SignalState, log: seq<Stamped>)
    requires state.Valid()
    ensures Applied(state, log, 0, state.frame, state.current, state.stream, state.previous)
  {
    assert log[..0] == [];
  }

  lemma AppliedStep(state: SignalState, log: seq<Stamped>, k: nat, frame: seq<Byte>, current: seq<Byte>,
                    stream: seq<Entry>, previous: nat)
    requires k < |log| && Applied(state, log, k, frame, current, stream, previous)
    ensures match log[k].index
            case None => Applied(state, log, k + 1, log[k].value, log[k].value, stream, previous)
            case Some(i) =>
              if log[k].value == current then Applied(state, log, k + 1, frame, current, stream, previous)
              else previous <= i ==>
                     Applied(state, log, k + 1, frame, log[k].value, stream + [Entry(i - previous, log[k].value)], i)
  {
    hide StoreAll, Absolute, LastIndex;
    StoreNext(state.View(), log, k);
    match log[k].index {
      case None =>
      case Some(i) => if log[k].value != current && previous <= i { Emitted(stream, previous, i, log[k].value); }
    }
  }

  /** Stamps in order are never before the last one written. */
  lemma PreviousIsEarlier(state: SignalState, log: seq<Stamped>, k: nat, previous: nat, max: nat, first: bool)
    requires k < |log| && Orderly(log, state.previous, max, first) && log[k].index.Some?
    requires previous == state.previous || exists i :: 0 <= i < k && log[i].index == Some(previous)
    ensures previous <= log[k].index.value <= max
  {
    if previous != state.previous {
      var i :| 0 <= i < k && log[i].index == Some(previous);
      assert Rank(log[i].index) <= Rank(log[k].index);
    }
  }

  function OrElse(value: Option<seq<Byte>>, default_: seq<Byte>): seq<Byte> {
    if value.Some? then value.value else default_
  }

  /** Changes of one signal, in order. The current value is copied out only at the end. */
  method ApplyRecords(state: SignalState, log: seq<Stamped>, max: nat, first: bool) returns (r: Result<SignalState, StreamError>)
    requires state.Valid()
    ensures Orderly(log, state.previous, max, first) ==>
              && r.Ok? && r.value.Valid() && r.value.View() == StoreAll(state.View(), log)
              && (r.value.previous == state.previous || exists i :: 0 <= i < |log| && log[i].index == Some(r.value.previous))
  {
    var stream, previous: nat := state.stream, state.previous;
    var pending: Option<seq<Byte>>, pendingFrame: Option<seq<Byte>> := None, None;
    AppliedStart(state, log);
    hide StoreAll, Absolute, LastIndex, Applied, Orderly;
    for k := 0 to |log|
      invariant Applied(state, log, k, OrElse(pendingFrame, state.frame), OrElse(pending, state.current), stream, previous)
    {
      var s, current := log[k], OrElse(pending, state.current);
      AppliedStep(state, log, k, OrElse(pendingFrame, state.frame), current, stream, previous);
      AppliedInOrder(state, log, k, OrElse(pendingFrame, state.frame), current, stream, previous, max, first);
      if s.index.None? {
        if !first { return Err(FrameInLaterSection); }
        pending, pendingFrame := Some(s.value), Some(s.value);
      } else {
        if s.index.value > max { return Err(IndexTooLarge); }
        if s.index.value < previous { return Err(IndexDecreased); }
        if s.value != current {
          stream := stream + [Entry(s.index.value - previous, s.value)];
          previous := s.index.value;
          pending := Some(s.value);
        }
      }
    }
    AppliedEnd(state, log, OrElse(pendingFrame, state.frame), OrElse(pending, state.current), stream, previous);
    r := Ok(SignalState(OrElse(pendingFrame, state.frame), OrElse(pending, state.current), previous, stream));
  }

  lemma AppliedInOrder(state: SignalState, log: seq<Stamped>, k: nat, frame: seq<Byte>, current: seq<Byte>,
                       stream: seq<Entry>, previous: nat, max: nat, first: bool)
    requires k < |log| && Applied(state, log, k, frame, current, stream, previous)
    ensures Orderly(log, state.previous, max, first) ==>
              if log[k].index.None? then first else previous <= log[k].index.value <= max
  {
    hide StoreAll, Absolute, LastIndex;
    if Orderly(log, state.previous, max, first) && log[k].index.Some? {
      PreviousIsEarlier(state, log, k, previous, max, first);
    }
  }

  lemma AppliedEnd(state: SignalState, log: seq<Stamped>, frame: seq<Byte>, current: seq<Byte>, stream: seq<Entry>, previous: nat)
    requires Applied(state, log, |log|, frame, current, stream, previous)
    ensures StoreAll(state.View(), log) == Slot(frame, current, Absolute(stream)) && previous == LastIndex(stream)
    ensures previous == state.previous || exists i :: 0 <= i < |log| && log[i].index == Some(previous)
  {
    assert log[..|log|] == log;
  }

  // ---- Fragments ----

  /** A change of one chunk: number of its timestamp and value. */
  datatype Mark = Mark(time: nat, value: seq<Byte>)

  /** One signal's changes in one chunk: the first two explicit, the others encoded with
      differences of chunk times. */
  datatype Fragment = Fragment(first: Mark, firstTimeLast: Mark, second: Option<Mark>, last: Mark, tail: seq<Entry>)

  /** Times never fall and neighbouring values differ. */
  ghost predicate Kept(marks: seq<Mark>) {
    && (forall i, j :: 0 <= i < j < |marks| ==> marks[i].time <= marks[j].time)
    && forall i :: 0 < i < |marks| ==> marks[i].value != marks[i - 1].value
  }

  /** The last change under the first change's timestamp. */
  function FirstTimeLast(marks: seq<Mark>): Mark
    requires marks != []
  {
    var last := marks[|marks| - 1];
    if |marks| == 1 || last.time == marks[0].time then last else FirstTimeLast(marks[..|marks| - 1])
  }

  function TailOf(marks: seq<Mark>): seq<Entry>
    requires Kept(marks)
  {
    if |marks| <= 2 then []
    else
      var n := |marks| - 1;
      TailOf(marks[..n]) + [Entry(marks[n].time - marks[n - 1].time, marks[n].value)]
  }

  function FragmentOf(marks: seq<Mark>): Fragment
    requires Kept(marks) && marks != []
  {
    Fragment(marks[0], FirstTimeLast(marks), if |marks| > 1 then Some(marks[1]) else None, marks[|marks| - 1], TailOf(marks))
  }

  function Reset(first: Mark): (f: Fragment)
    ensures Kept([first]) && f == FragmentOf([first])
  {
    Fragment(first, first, None, first, [])
  }

  /** Adds a change unless it repeats the last value; refuses one whose time falls. */
  method Push(f: Fragment, m: Mark, ghost marks: seq<Mark>) returns (r: Option<Fragment>)
    requires Kept(marks) && marks != [] && f == FragmentOf(marks)
    ensures m.time >= marks[|marks| - 1].time ==>
              if m.value == marks[|marks| - 1].value then r == Some(f)
              else Kept(marks + [m]) && r == Some(FragmentOf(marks + [m]))
  {
    if m.value == f.last.value { return Some(f); }
    ghost var all := marks + [m];
    assert all[..|marks|] == marks;
    var firstTimeLast := if m.time == f.first.time then m else f.firstTimeLast;
    if f.second.None? {
      return Some(Fragment(f.first, firstTimeLast, Some(m), m, f.tail));
    }
    if m.time < f.last.time { return None; }
    r := Some(Fragment(f.first, firstTimeLast, f.second, m, f.tail + [Entry(m.time - f.last.time, m.value)]));
  }

  // ---- Applying a fragment ----

  function StampOf(m: Mark, timeMap: seq<Option<nat>>): Stamped
    requires m.time < |timeMap|
  {
    Stamped(timeMap[m.time], m.value)
  }

  ghost predicate InMap(marks: seq<Mark>, timeMap: seq<Option<nat>>) {
    forall i :: 0 <= i < |marks| ==> marks[i].time < |timeMap|
  }

  function StampsOf(marks: seq<Mark>, timeMap: seq<Option<nat>>): (log: seq<Stamped>)
    requires InMap(marks, timeMap)
    ensures |log| == |marks|
  {
    seq(|marks|, i requires 0 <= i < |marks| => StampOf(marks[i], timeMap))
  }

  ghost predicate MapRises(timeMap: seq<Option<nat>>) {
    forall i, j :: 0 <= i < j < |timeMap| ==> Rank(timeMap[i]) <= Rank(timeMap[j])
  }

  /** Number of leading changes at frame time. */
  function FrameCount(log: seq<Stamped>): (n: nat)
    ensures n <= |log|
  {
    if log == [] || log[0].index.Some? then 0 else 1 + FrameCount(log[1..])
  }

  lemma {:induction false} FrameCountMeaning(log: seq<Stamped>)
    requires Rising(log)
    ensures FrameCount(log) <= |log|
    ensures forall i :: 0 <= i < |log| ==> (log[i].index.None? <==> i < FrameCount(log))
  {
    if log != [] {
      if log[0].index.None? {
        FrameCountMeaning(log[1..]);
        assert forall i :: 0 < i < |log| ==> log[i] == log[1..][i - 1];
      } else {
        assert forall i :: 0 < i < |log| ==> Rank(log[0].index) <= Rank(log[i].index);
      }
    }
  }

  /** The frame slot ends with the last frame-time change. */
  ghost predicate FrameSafe(marks: seq<Mark>, timeMap: seq<Option<nat>>)
    requires InMap(marks, timeMap)
  {
    var n := FrameCount(StampsOf(marks, timeMap));
    n < 2 || (n == 2 && marks[1].time == marks[0].time)
  }

  lemma {:induction false} StoredCurrent(slot: Slot, log: seq<Stamped>)
    requires log != []
    ensures StoreAll(slot, log).current == log[|log| - 1].value
  {}

  lemma {:induction false} StoredFrame(slot: Slot, log: seq<Stamped>, n: nat)
    requires n <= |log| && forall i :: 0 <= i < |log| ==> (log[i].index.None? <==> i < n)
    ensures StoreAll(slot, log).frame == if n == 0 then slot.frame else log[n - 1].value
  {
    if log != [] {
      var init := log[..|log| - 1];
      StoredFrame(slot, init, if n < |log| then n else n - 1);
    }
  }

  /** A later change that differs from its predecessor is always appended. */
  lemma StoreDistinct(slot: Slot, log: seq<Stamped>, k: nat)
    requires 0 < k < |log| && log[k].index.Some? && log[k].value != log[k - 1].value
    ensures StoreAll(slot, log[..k + 1]).changes == StoreAll(slot, log[..k]).changes + [Indexed(log[k].index.value, log[k].value)]
  {
    StoreNext(slot, log, k);
    StoredCurrent(slot, log[..k]);
  }

  lemma StampsRise(marks: seq<Mark>, timeMap: seq<Option<nat>>)
    requires Kept(marks) && InMap(marks, timeMap) && MapRises(timeMap)
    ensures Rising(StampsOf(marks, timeMap))
  {}

  lemma {:induction false} TailLength(marks: seq<Mark>)
    requires Kept(marks)
    ensures |TailOf(marks)| == if |marks| <= 2 then 0 else |marks| - 2
  {
    if |marks| > 2 { TailLength(marks[..|marks| - 1]); }
  }

  /** Entry `k` of a tail belongs to change `k + 2`. */
  lemma {:induction false} TailAt(marks: seq<Mark>, k: nat)
    requires Kept(marks) && k + 2 < |marks|
    ensures |TailOf(marks)| == |marks| - 2
    ensures TailOf(marks)[k] == Entry(marks[k + 2].time - marks[k + 1].time, marks[k + 2].value)
  {
    TailLength(marks);
    var n := |marks| - 1;
    TailLength(marks[..n]);
    if k + 2 < n { TailAt(marks[..n], k); }
  }

  /** `k` tail entries have been moved. */
  ghost predicate Rewritten(output: seq<Entry>, time: nat, localTime: nat, previous: nat,
                            slot: Slot, marks: seq<Mark>, timeMap: seq<Option<nat>>, k: nat)
    requires k + 1 < |marks| && InMap(marks, timeMap)
  {
    && localTime == marks[k + 1].time
    && time == LastIndex(output) && Absolute(output) == StoreAll(slot, StampsOf(marks, timeMap)[..k + 2]).changes
    && (if k == 0 then time == previous else timeMap[marks[k + 1].time] == Some(time))
  }

  lemma RewriteStep(output: seq<Entry>, time: nat, localTime: nat, previous: nat,
                    slot: Slot, marks: seq<Mark>, timeMap: seq<Option<nat>>, k: nat)
    requires Kept(marks) && k + 2 < |marks| && InMap(marks, timeMap) && MapRises(timeMap)
    requires Rewritten(output, time, localTime, previous, slot, marks, timeMap, k)
    requires timeMap[marks[k + 2].time].Some? ==> previous <= timeMap[marks[k + 2].time].value
    ensures k < |TailOf(marks)| && marks[k + 2].time < |timeMap|
    ensures var entry := TailOf(marks)[k];
            var mapped := timeMap[marks[k + 2].time];
            && localTime + entry.delta == marks[k + 2].time
            && (mapped.Some? ==>
                  && time <= mapped.value
                  && Rewritten(output + [Entry(mapped.value - time, entry.value)], mapped.value, marks[k + 2].time, previous,
                               slot, marks, timeMap, k + 1))
  {
    hide Kept, StoreAll, Absolute, LastIndex, TailOf, MapRises, StampsOf, InMap, Rank;
    TailAt(marks, k);
    MarkAt(marks, timeMap, k + 2);
    LaterMark(marks, timeMap, k + 1, k + 2);
    var mapped := timeMap[marks[k + 2].time];
    if mapped.Some? {
      StoreDistinct(slot, StampsOf(marks, timeMap), k + 2);
      Emitted(output, time, mapped.value, marks[k + 2].value);
    }
  }

  /** Moves an encoded tail to the section's time table, entry by entry. */
  method RewriteTail(stream: seq<Entry>, previous: nat, f: Fragment, timeMap: seq<Option<nat>>, ghost slot: Slot, ghost marks: seq<Mark>)
    returns (r: Result<(seq<Entry>, nat), StreamError>)
    requires Kept(marks) && |marks| > 2 && f == FragmentOf(marks) && InMap(marks, timeMap) && MapRises(timeMap)
    requires previous == LastIndex(stream) && Absolute(stream) == StoreAll(slot, StampsOf(marks, timeMap)[..2]).changes
    requires forall i :: 2 <= i < |marks| && timeMap[marks[i].time].Some? ==> previous <= timeMap[marks[i].time].value
    ensures r.Ok? <==> timeMap[marks[2].time].Some?
    ensures r.Ok? ==> r.value.1 == LastIndex(r.value.0) && timeMap[marks[|marks| - 1].time] == Some(r.value.1)
    ensures r.Ok? ==> Absolute(r.value.0) == StoreAll(slot, StampsOf(marks, timeMap)).changes
  {
    TailLength(marks);
    assert f.tail == TailOf(marks) && f.second == Some(marks[1]);
    RewriteStart(stream, previous, slot, marks, timeMap);
    hide *;
    var output, previousTime: nat, localTime: nat := stream, previous, f.second.value.time;
    for k := 0 to |f.tail|
      invariant Rewritten(output, previousTime, localTime, previous, slot, marks, timeMap, k)
      invariant k > 0 ==> timeMap[marks[2].time].Some?
    {
      RewriteStep(output, previousTime, localTime, previous, slot, marks, timeMap, k);
      LaterMark(marks, timeMap, 2, k + 2);
      var entry := f.tail[k];
      localTime := localTime + entry.delta;
      var mapped := timeMap[localTime];
      if mapped.None? {
        return Err(MappedToFrame);
      }
      if mapped.value < previousTime {
        return Err(MappedToFrame);
      }
      output := output + [Entry(mapped.value - previousTime, entry.value)];
      previousTime := mapped.value;
    }
    RewriteEnd(output, previousTime, localTime, previous, slot, marks, timeMap);
    r := Ok((output, previousTime));
  }

  lemma RewriteStart(stream: seq<Entry>, previous: nat, slot: Slot, marks: seq<Mark>, timeMap: seq<Option<nat>>)
    requires |marks| > 2 && InMap(marks, timeMap) && previous == LastIndex(stream)
    requires Absolute(stream) == StoreAll(slot, StampsOf(marks, timeMap)[..2]).changes
    ensures Rewritten(stream, previous, marks[1].time, previous, slot, marks, timeMap, 0)
  {}

  lemma RewriteEnd(output: seq<Entry>, time: nat, localTime: nat, previous: nat,
                   slot: Slot, marks: seq<Mark>, timeMap: seq<Option<nat>>)
    requires |marks| > 2 && InMap(marks, timeMap)
    requires Rewritten(output, time, localTime, previous, slot, marks, timeMap, |marks| - 2)
    ensures time == LastIndex(output) && timeMap[marks[|marks| - 1].time] == Some(time)
    ensures Absolute(output) == StoreAll(slot, StampsOf(marks, timeMap)).changes
  {
    assert StampsOf(marks, timeMap)[..|marks|] == StampsOf(marks, timeMap);
  }

  lemma MarkAt(marks: seq<Mark>, timeMap: seq<Option<nat>>, k: nat)
    requires Kept(marks) && InMap(marks, timeMap) && 0 < k < |marks|
    ensures marks[k].time < |timeMap| && marks[k - 1].time <= marks[k].time
    ensures StampsOf(marks, timeMap)[k - 1].value == marks[k - 1].value != marks[k].value
    ensures StampsOf(marks, timeMap)[k] == Stamped(timeMap[marks[k].time], marks[k].value)
  {}

  lemma StampCount(marks: seq<Mark>, timeMap: seq<Option<nat>>)
    requires InMap(marks, timeMap)
    ensures |StampsOf(marks, timeMap)| == |marks|
  {}

  lemma LaterMark(marks: seq<Mark>, timeMap: seq<Option<nat>>, i: nat, j: nat)
    requires Kept(marks) && InMap(marks, timeMap) && MapRises(timeMap) && i <= j < |marks|
    ensures marks[i].time < |timeMap| && marks[j].time < |timeMap|
    ensures Rank(timeMap[marks[i].time]) <= Rank(timeMap[marks[j].time])
    ensures timeMap[marks[i].time].Some? ==> timeMap[marks[j].time].Some? && timeMap[marks[i].time].value <= timeMap[marks[j].time].value
  {
    if marks[i].time < marks[j].time {}
  }

  /** When the chunk's times map to consecutive entries, the tail can be copied as it is. */
  lemma {:induction false} CopiedTail(stream: seq<Entry>, slot: Slot, marks: seq<Mark>, timeMap: seq<Option<nat>>, k: nat)
    requires Kept(marks) && |marks| > 2 && InMap(marks, timeMap) && IsAffine(timeMap) && k <= |marks| - 2 == |TailOf(marks)|
    requires timeMap[marks[1].time] == Some(LastIndex(stream))
    requires Absolute(stream) == StoreAll(slot, StampsOf(marks, timeMap)[..2]).changes
    ensures timeMap[marks[k + 1].time] == Some(LastIndex(stream + TailOf(marks)[..k]))
    ensures Absolute(stream + TailOf(marks)[..k]) == StoreAll(slot, StampsOf(marks, timeMap)[..k + 2]).changes
  {
    var tail, log := TailOf(marks), StampsOf(marks, timeMap);
    hide *;
    if k == 0 {
      NothingCopied(stream, tail);
    } else {
      CopiedTail(stream, slot, marks, timeMap, k - 1);
      CopiedStep(stream + tail[..k - 1], slot, marks, timeMap, k);
      CopiedOne(stream, tail, k);
    }
  }

  lemma NothingCopied(stream: seq<Entry>, tail: seq<Entry>)
    ensures stream + tail[..0] == stream
  {}

  lemma CopiedOne(stream: seq<Entry>, tail: seq<Entry>, k: nat)
    requires 0 < k <= |tail|
    ensures stream + tail[..k] == stream + tail[..k - 1] + [tail[k - 1]]
  {}

  lemma CopiedStep(before: seq<Entry>, slot: Slot, marks: seq<Mark>, timeMap: seq<Option<nat>>, k: nat)
    requires Kept(marks) && InMap(marks, timeMap) && IsAffine(timeMap) && 0 < k < |marks| - 1 && |TailOf(marks)| == |marks| - 2
    requires timeMap[marks[k].time] == Some(LastIndex(before))
    requires Absolute(before) == StoreAll(slot, StampsOf(marks, timeMap)[..k + 1]).changes
    ensures timeMap[marks[k + 1].time] == Some(LastIndex(before + [TailOf(marks)[k - 1]]))
    ensures Absolute(before + [TailOf(marks)[k - 1]]) == StoreAll(slot, StampsOf(marks, timeMap)[..k + 2]).changes
  {
    hide *;
    MarkAt(marks, timeMap, k + 1);
    MarkAt(marks, timeMap, k);
    StampCount(marks, timeMap);
    TailAt(marks, k - 1);
    AffineKeepsDifferences(timeMap, marks[k].time, marks[k + 1].time);
    StoreDistinct(slot, StampsOf(marks, timeMap), k + 1);
    Emitted(before, LastIndex(before), timeMap[marks[k + 1].time].value, marks[k + 1].value);
  }

  /** What must hold before a fragment is applied. */
  ghost predicate Applicable(state: SignalState, marks: seq<Mark>, timeMap: seq<Option<nat>>) {
    && state.Valid() && Kept(marks) && marks != [] && InMap(marks, timeMap) && MapRises(timeMap)
    && forall i :: 0 <= i < |timeMap| && timeMap[i].Some? ==> state.previous <= timeMap[i].value
  }

  /** The stream after a fragment's first change. */
  method ApplyFirst(state: SignalState, m: Mark, time: Option<nat>) returns (stream: seq<Entry>, previous: nat)
    requires state.Valid() && (time.Some? ==> state.previous <= time.value)
    ensures previous == LastIndex(stream)
    ensures Absolute(stream) == StoreOne(state.View(), Stamped(time, m.value)).changes
    ensures previous == state.previous || time == Some(previous)
  {
    stream, previous := state.stream, state.previous;
    if time.Some? && m.value != state.current {
      Emitted(stream, previous, time.value, m.value);
      stream, previous := stream + [Entry(time.value - previous, m.value)], time.value;
    }
  }

  /** The second change differs from the first, so it is written without comparing. */
  method ApplySecond(stream: seq<Entry>, previous: nat, time: Option<nat>, value: seq<Byte>) returns (output: seq<Entry>, last: nat)
    requires previous == LastIndex(stream) && (time.Some? ==> previous <= time.value)
    ensures last == LastIndex(output)
    ensures time.None? ==> output == stream && last == previous
    ensures time.Some? ==> last == time.value && Absolute(output) == Absolute(stream) + [Indexed(time.value, value)]
  {
    output, last := stream, previous;
    if time.Some? {
      Emitted(stream, previous, time.value, value);
      output, last := stream + [Entry(time.value - previous, value)], time.value;
    }
  }

  /** The changes after the second: copied, or moved entry by entry. */
  method ApplyTail(stream: seq<Entry>, previous: nat, f: Fragment, timeMap: seq<Option<nat>>, affine: bool, ghost slot: Slot, ghost marks: seq<Mark>)
    returns (r: Result<(seq<Entry>, nat), StreamError>)
    requires Kept(marks) && |marks| > 2 && f == FragmentOf(marks) && InMap(marks, timeMap) && MapRises(timeMap)
    requires affine ==> IsAffine(timeMap)
    requires previous == LastIndex(stream) && Absolute(stream) == StoreAll(slot, StampsOf(marks, timeMap)[..2]).changes
    requires timeMap[marks[1].time].Some? ==> previous == timeMap[marks[1].time].value
    requires forall i :: 2 <= i < |marks| && timeMap[marks[i].time].Some? ==> previous <= timeMap[marks[i].time].value
    ensures r.Ok? <==> timeMap[marks[2].time].Some?
    ensures r.Ok? ==> r.value.1 == LastIndex(r.value.0) && timeMap[marks[|marks| - 1].time] == Some(r.value.1)
    ensures r.Ok? ==> Absolute(r.value.0) == StoreAll(slot, StampsOf(marks, timeMap)).changes
  {
    var lastTime := timeMap[f.last.time];
    if affine {
      MarkAt(marks, timeMap, 1);
      MarkAt(marks, timeMap, 2);
      MarkAt(marks, timeMap, |marks| - 1);
      TailLength(marks);
      assert f.tail == TailOf(marks) && f.last == marks[|marks| - 1];
      hide *;
      AffineKeepsDifferences(timeMap, marks[1].time, marks[1].time);
      AffineKeepsDifferences(timeMap, marks[2].time, marks[2].time);
      CopiedTail(stream, slot, marks, timeMap, |marks| - 2);
      WholeTail(marks, timeMap);
      r := Ok((stream + f.tail, lastTime.value));
    } else {
      r := RewriteTail(stream, previous, f, timeMap, slot, marks);
    }
  }

  lemma WholeTail(marks: seq<Mark>, timeMap: seq<Option<nat>>)
    requires Kept(marks) && |marks| > 2 && InMap(marks, timeMap) && |TailOf(marks)| == |marks| - 2
    ensures TailOf(marks)[..|marks| - 2] == TailOf(marks)
    ensures StampsOf(marks, timeMap)[..|marks|] == StampsOf(marks, timeMap)
  {}

  lemma OneStored(slot: Slot, marks: seq<Mark>, timeMap: seq<Option<nat>>)
    requires Kept(marks) && marks != [] && InMap(marks, timeMap)
    ensures StoreAll(slot, StampsOf(marks, timeMap)[..1]) == StoreOne(slot, Stamped(timeMap[marks[0].time], marks[0].value))
    ensures |marks| == 1 ==> StampsOf(marks, timeMap)[..1] == StampsOf(marks, timeMap)
    ensures |marks| == 2 ==> StampsOf(marks, timeMap)[..2] == StampsOf(marks, timeMap)
  {
    assert StampsOf(marks, timeMap)[..0] == [];
    StoreNext(slot, StampsOf(marks, timeMap), 0);
  }

  lemma TwoStored(slot: Slot, marks: seq<Mark>, timeMap: seq<Option<nat>>)
    requires Kept(marks) && |marks| > 1 && InMap(marks, timeMap)
    ensures StoreAll(slot, StampsOf(marks, timeMap)[..2]).changes
         == StoreAll(slot, StampsOf(marks, timeMap)[..1]).changes
              + match timeMap[marks[1].time] { case Some(i) => [Indexed(i, marks[1].value)] case None => [] }
  {
    var log := StampsOf(marks, timeMap);
    MarkAt(marks, timeMap, 1);
    hide StoreAll;
    StoreNext(slot, log, 1);
    if log[1].index.Some? { StoreDistinct(slot, log, 1); }
    assert StoreAll(slot, log[..1]).changes + [] == StoreAll(slot, log[..1]).changes;
  }

  /** How many changes are at frame time, read off the mapped times. */
  lemma FrameCountOf(marks: seq<Mark>, timeMap: seq<Option<nat>>)
    requires Kept(marks) && marks != [] && InMap(marks, timeMap) && MapRises(timeMap)
    ensures FrameCount(StampsOf(marks, timeMap)) > 0 <==> timeMap[marks[0].time].None?
    ensures FrameCount(StampsOf(marks, timeMap)) > 1 <==> |marks| > 1 && timeMap[marks[1].time].None?
    ensures FrameCount(StampsOf(marks, timeMap)) > 2 <==> |marks| > 2 && timeMap[marks[2].time].None?
    ensures |marks| > 1 && timeMap[marks[1].time].None? ==> timeMap[marks[0].time].None?
    ensures |marks| > 2 && timeMap[marks[2].time].None? ==> timeMap[marks[1].time].None?
  {
    StampsRise(marks, timeMap);
    var log := StampsOf(marks, timeMap);
    FrameCountMeaning(log);
    assert log[0].index == timeMap[marks[0].time];
    if |marks| > 1 {
      LaterMark(marks, timeMap, 0, 1);
      assert log[1].index == timeMap[marks[1].time];
    }
    if |marks| > 2 {
      LaterMark(marks, timeMap, 1, 2);
      assert log[2].index == timeMap[marks[2].time];
    }
  }

  lemma {:induction false} FirstTimeLastMeaning(marks: seq<Mark>)
    requires Kept(marks) && marks != []
    ensures FirstTimeLast(marks).time == marks[0].time
    ensures |marks| == 1 || marks[1].time != marks[0].time ==> FirstTimeLast(marks) == marks[0]
    ensures |marks| == 2 && marks[1].time == marks[0].time ==> FirstTimeLast(marks) == marks[1]
    ensures |marks| > 2 && marks[1].time == marks[0].time != marks[2].time ==> FirstTimeLast(marks) == marks[1]
  {
    var last := marks[|marks| - 1];
    if !(|marks| == 1 || last.time == marks[0].time) {
      FirstTimeLastMeaning(marks[..|marks| - 1]);
    }
  }

  /** The frame slot after a fragment, against the frame it should hold. */
  lemma SlotAfter(slot: Slot, marks: seq<Mark>, timeMap: seq<Option<nat>>)
    requires Kept(marks) && marks != [] && InMap(marks, timeMap) && MapRises(timeMap)
    requires FrameCount(StampsOf(marks, timeMap)) <= 2
    ensures InMap([FirstTimeLast(marks)], timeMap) && FirstTimeLast(marks).time < |timeMap|
    ensures var frame := if timeMap[FirstTimeLast(marks).time].None? then FirstTimeLast(marks).value else slot.frame;
            frame == StoreAll(slot, StampsOf(marks, timeMap)).frame <==> FrameSafe(marks, timeMap)
  {
    var log := StampsOf(marks, timeMap);
    FirstTimeLastMeaning(marks);
    FrameCountOf(marks, timeMap);
    StampsRise(marks, timeMap);
    FrameCountMeaning(log);
    StoredFrame(slot, log, FrameCount(log));
    if |marks| > 1 { MarkAt(marks, timeMap, 1); }
    hide StoreAll, FirstTimeLast, Rising;
  }

  /** Stream of one signal after a fragment. The current value and the later changes are always
      right. Up to two frame-time changes fit; a third is an error. The frame slot takes the last
      change under the fragment's first timestamp, so of two frame-time changes under different
      timestamps it keeps the wrong one. */
  method ApplyFragment(state: SignalState, f: Fragment, timeMap: seq<Option<nat>>, affine: bool, first: bool, ghost marks: seq<Mark>)
    returns (r: Result<SignalState, StreamError>)
    requires Applicable(state, marks, timeMap) && f == FragmentOf(marks) && (affine ==> IsAffine(timeMap))
    ensures r.Ok? <==> FrameCount(StampsOf(marks, timeMap)) <= (if first then 2 else 0)
    ensures r.Ok? ==>
              var stored := StoreAll(state.View(), StampsOf(marks, timeMap));
              && r.value.Valid() && r.value.current == stored.current && r.value.View().changes == stored.changes
              && (r.value.frame == stored.frame <==> FrameSafe(marks, timeMap))
              && (r.value.previous == state.previous || Some(r.value.previous) in timeMap)
  {
    ghost var slot := state.View();
    FrameCountOf(marks, timeMap);
    OneStored(slot, marks, timeMap);
    hide StoreAll, Absolute, LastIndex, FrameCount, StampsOf, TailOf, FirstTimeLast, MapRises, FrameSafe;
    var firstTime := timeMap[f.first.time];
    if firstTime.None? && !first { return Err(FrameInLaterSection); }
    var stream, previous := ApplyFirst(state, f.first, firstTime);
    if f.second.Some? {
      TwoStored(slot, marks, timeMap);
      var secondTime := timeMap[f.second.value.time];
      LaterMark(marks, timeMap, 0, 1);
      stream, previous := ApplySecond(stream, previous, secondTime, f.second.value.value);
      TailLength(marks);
      if f.tail != [] {
        LaterFromSecond(marks, timeMap, previous);
        var moved := ApplyTail(stream, previous, f, timeMap, affine, slot, marks);
        if moved.Err? { return Err(moved.error); }
        stream, previous := moved.value.0, moved.value.1;
      }
    }
    SlotAfter(slot, marks, timeMap);
    StoredLast(slot, marks, timeMap);
    var frame := if timeMap[f.firstTimeLast.time].None? then f.firstTimeLast.value else state.frame;
    r := Ok(SignalState(frame, f.last.value, previous, stream));
  }

  lemma StoredLast(slot: Slot, marks: seq<Mark>, timeMap: seq<Option<nat>>)
    requires marks != [] && InMap(marks, timeMap)
    ensures StoreAll(slot, StampsOf(marks, timeMap)).current == marks[|marks| - 1].value
  {
    StoredCurrent(slot, StampsOf(marks, timeMap));
  }

  lemma LaterFromSecond(marks: seq<Mark>, timeMap: seq<Option<nat>>, previous: nat)
    requires Kept(marks) && |marks| > 1 && InMap(marks, timeMap) && MapRises(timeMap)
    requires timeMap[marks[1].time] == Some(previous)
          || forall i :: 0 <= i < |timeMap| && timeMap[i].Some? ==> previous <= timeMap[i].value
    ensures forall i :: 2 <= i < |marks| && timeMap[marks[i].time].Some? ==> previous <= timeMap[marks[i].time].value
  {
    forall i | 2 <= i < |marks| && timeMap[marks[i].time].Some? ensures previous <= timeMap[marks[i].time].value {
      LaterMark(marks, timeMap, 1, i);
    }
  }
}
