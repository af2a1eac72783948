/** Cached reads of a stored trace (crates/bwave/src/fst.rs, `FstBacking`): whichever memo
    serves a read, the answer is cut from the signal's full stream. */
module SignalStore {
  import opened Basics
  import opened Waveform

  // ---- Streams as stored and as read ----

  /** A stored value: bit text, or a real that may be the slot of a real never written. */
  datatype RawValue = Bits(text: string) | Real(garbage: bool, text: string)

  datatype RawChange = RawChange(tick: nat, value: RawValue)

  type Format = string -> Option<string>

  /** Canonical text of a stored value; the empty text marks a real never written. */
  function CanonValue(format: Format, value: RawValue, isReal: bool): Option<string> {
    match value
    case Bits(text) => format(text)
    case Real(garbage, text) => if isReal && garbage then Some("") else Some(text)
  }

  function Decode(format: Format, raw: seq<RawChange>, isReal: bool): seq<Transition> {
    if raw == [] then []
    else
      var last := raw[|raw| - 1];
      var v := CanonValue(format, last.value, isReal);
      Decode(format, raw[..|raw| - 1], isReal) + if v.Some? then [Transition(last.tick, v.value)] else []
  }

  /** For a real signal, the changes that carry a value. */
  function Strip(list: seq<Transition>, isReal: bool): seq<Transition> {
    if list == [] then []
    else
      var last := list[|list| - 1];
      Strip(list[..|list| - 1], isReal) + if isReal && last.value == "" then [] else [last]
  }

  /** A signal's full stream. */
  function Stream(format: Format, raw: seq<RawChange>, isReal: bool): seq<Transition> {
    Strip(Decode(format, raw, isReal), isReal)
  }

  /** What a stored value reads as; a real without text reads as nothing. */
  ghost function ReadsAs(format: Format, value: RawValue, isReal: bool): Option<string> {
    var text := if value.Bits? then format(value.text) else if value.garbage && isReal then None else Some(value.text);
    if isReal && text == Some("") then None else text
  }

  /** The stream is the stored changes in order, with the readable values and without the others. */
  lemma StreamSnoc(format: Format, raw: seq<RawChange>, change: RawChange, isReal: bool)
    ensures Stream(format, [], isReal) == []
    ensures Stream(format, raw + [change], isReal)
         == Stream(format, raw, isReal)
            + match ReadsAs(format, change.value, isReal) case None => [] case Some(text) => [Transition(change.tick, text)]
  {
    assert (raw + [change])[..|raw|] == raw;
    var before, v := Decode(format, raw, isReal), CanonValue(format, change.value, isReal);
    if v.Some? {
      StripSnoc(before, Transition(change.tick, v.value), isReal);
    } else {
      assert before + [] == before;
    }
  }

  ghost predicate RawOrdered(raw: seq<RawChange>) {
    forall i, j :: 0 <= i < j < |raw| ==> raw[i].tick <= raw[j].tick
  }

  // ---- Windows ----

  function UpTo(stream: seq<Transition>, hi: nat): seq<Transition> {
    if stream == [] then []
    else
      var last := stream[|stream| - 1];
      UpTo(stream[..|stream| - 1], hi) + if last.tick <= hi then [last] else []
  }

  /** Last value before the window. */
  function Before(stream: seq<Transition>, lo: nat): Option<string> {
    if stream == [] then None
    else
      var last := stream[|stream| - 1];
      if last.tick < lo then Some(last.value) else Before(stream[..|stream| - 1], lo)
  }

  /** Changes inside the window. */
  function Within(stream: seq<Transition>, lo: nat, hi: nat): seq<Transition> {
    if stream == [] then []
    else
      var last := stream[|stream| - 1];
      Within(stream[..|stream| - 1], lo, hi) + if lo <= last.tick <= hi then [last] else []
  }

  datatype Window = Window(before: Option<string>, changes: seq<Transition>)

  function WindowOf(stream: seq<Transition>, lo: nat, hi: nat): Window {
    Window(Before(stream, lo), Within(stream, lo, hi))
  }

  /** The first `i` changes are those before tick `t`. */
  ghost predicate CutsAt(stream: seq<Transition>, t: int, i: int) {
    0 <= i <= |stream| && forall k :: 0 <= k < |stream| ==> (k < i <==> stream[k].tick < t)
  }

  /** The changes from `lo` to `hi`, and the value of the change in front of `lo`, if there is one. */
  ghost predicate ShowsWindow(stream: seq<Transition>, lo: nat, hi: nat, w: Window) {
    exists i, j :: CutsAt(stream, lo, i) && CutsAt(stream, hi + 1, j)
      && w.before == (if i > 0 then Some(stream[i - 1].value) else None)
      && w.changes == if i <= j then stream[i..j] else []
  }

  lemma {:induction false} CutExists(stream: seq<Transition>, t: nat) returns (i: nat)
    requires Ordered(stream)
    ensures CutsAt(stream, t, i)
  {
    i := |stream|;
    while i > 0 && stream[i - 1].tick >= t
      invariant i <= |stream| && forall k :: i <= k < |stream| ==> stream[k].tick >= t
    {
      i := i - 1;
    }
  }

  lemma {:induction false} BeforeIsCut(stream: seq<Transition>, lo: nat, i: nat)
    requires CutsAt(stream, lo, i)
    ensures Before(stream, lo) == if i > 0 then Some(stream[i - 1].value) else None
  {
    if stream != [] {
      var n := |stream| - 1;
      assert stream[n].tick < lo <==> n < i;
      if i <= n { BeforeIsCut(stream[..n], lo, i); }
    }
  }

  lemma CutsInit(stream: seq<Transition>, t: int, i: int)
    requires CutsAt(stream, t, i) && stream != []
    ensures 0 <= i <= |stream| && (stream[|stream| - 1].tick < t <==> i == |stream|)
    ensures CutsAt(stream[..|stream| - 1], t, Min(i, |stream| - 1))
  {}

  lemma {:induction false} WithinIsCut(stream: seq<Transition>, lo: nat, hi: nat, i: nat, j: nat)
    requires CutsAt(stream, lo, i) && CutsAt(stream, hi + 1, j)
    ensures Within(stream, lo, hi) == if i <= j then stream[i..j] else []
  {
    if stream != [] {
      var n := |stream| - 1;
      CutsInit(stream, lo, i);
      CutsInit(stream, hi + 1, j);
      WithinIsCut(stream[..n], lo, hi, Min(i, n), Min(j, n));
      WithinUnfold(stream, lo, hi);
      hide Within, CutsAt;
      LastOfCut(stream, i, j);
    }
  }

  lemma WithinUnfold(stream: seq<Transition>, lo: nat, hi: nat)
    requires stream != []
    ensures var n := |stream| - 1;
            Within(stream, lo, hi) == if lo <= stream[n].tick <= hi then Within(stream[..n], lo, hi) + [stream[n]] else Within(stream[..n], lo, hi)
  {
    assert Within(stream[..|stream| - 1], lo, hi) + [] == Within(stream[..|stream| - 1], lo, hi);
  }

  lemma LastOfCut(stream: seq<Transition>, i: nat, j: nat)
    requires stream != [] && i <= |stream| && j <= |stream|
    ensures var n := |stream| - 1;
            && (i <= n < j ==> stream[i..j] == stream[..n][i..n] + [stream[n]])
            && (i <= j <= n ==> stream[i..j] == stream[..n][i..j])
            && (n < i && n <= j ==> stream[..n][n..n] == [])
  {}

  lemma WindowShows(stream: seq<Transition>, lo: nat, hi: nat)
    requires Ordered(stream)
    ensures ShowsWindow(stream, lo, hi, WindowOf(stream, lo, hi))
  {
    var i := CutExists(stream, lo);
    var j := CutExists(stream, hi + 1);
    BeforeIsCut(stream, lo, i);
    WithinIsCut(stream, lo, hi, i, j);
    hide Before, Within, CutsAt;
  }

  lemma {:induction false} PastTheWindow(stream: seq<Transition>, k: nat, lo: nat, hi: nat)
    requires Ordered(stream) && k < |stream| && stream[k].tick >= lo && stream[k].tick > hi
    ensures WindowOf(stream, lo, hi) == WindowOf(stream[..k], lo, hi)
    decreases |stream|
  {
    var n := |stream| - 1;
    if k < n {
      PastTheWindow(stream[..n], k, lo, hi);
      assert stream[..n][..k] == stream[..k];
    }
  }

  /** One pass that stops at the first change past the window. */
  method SplitWindow(stream: seq<Transition>, lo: nat, hi: nat) returns (r: Window)
    requires Ordered(stream)
    ensures r == WindowOf(stream, lo, hi)
  {
    var before: Option<string>, inRange := None, [];
    for k := 0 to |stream|
      invariant before == Before(stream[..k], lo) && inRange == Within(stream[..k], lo, hi)
    {
      assert stream[..k + 1][..k] == stream[..k];
      if stream[k].tick < lo {
        before := Some(stream[k].value);
      } else if stream[k].tick <= hi {
        inRange := inRange + [stream[k]];
      } else {
        PastTheWindow(stream, k, lo, hi);
        return Window(before, inRange);
      }
    }
    assert stream[..|stream|] == stream;
    r := Window(before, inRange);
  }

  /** A stream cut off at or after the window's end still shows the window. */
  lemma {:induction false} WindowOfPrefix(stream: seq<Transition>, lo: nat, hi: nat, cut: nat)
    requires hi <= cut
    ensures Within(UpTo(stream, cut), lo, hi) == Within(stream, lo, hi)
    ensures lo <= hi + 1 ==> WindowOf(UpTo(stream, cut), lo, hi) == WindowOf(stream, lo, hi)
  {
    if stream != [] {
      var init, last := stream[..|stream| - 1], stream[|stream| - 1];
      WindowOfPrefix(init, lo, hi, cut);
      if last.tick <= cut {
        assert (UpTo(init, cut) + [last])[..|UpTo(init, cut)|] == UpTo(init, cut);
      } else {
        assert UpTo(init, cut) + [] == UpTo(init, cut);
      }
    }
  }

  /** Only for a window that starts at most one past its end does a cut-off stream
      show what every full stream shows. */
  lemma WindowsAgreeExactlyWhen(lo: nat, hi: nat)
    ensures (forall stream: seq<Transition> :: Ordered(stream) ==> WindowOf(UpTo(stream, hi), lo, hi) == WindowOf(stream, lo, hi))
       <==> lo <= hi + 1
  {
    if lo <= hi + 1 {
      forall stream: seq<Transition> | Ordered(stream)
        ensures WindowOf(UpTo(stream, hi), lo, hi) == WindowOf(stream, lo, hi)
      {
        WindowOfPrefix(stream, lo, hi, hi);
      }
    } else {
      var stream := [Transition(hi + 1, "1")];
      assert stream[..0] == [] && UpTo(stream, hi) == [];
      assert Ordered(stream) && Before(stream, lo) == Some("1") && Before(UpTo(stream, hi), lo) == None;
    }
  }

  /** The answer shows the window of the full stream, cut off somewhere at or past the window's end. */
  ghost predicate CutAnswer(full: seq<Transition>, lo: nat, hi: nat, w: Window) {
    exists cut: nat :: hi <= cut && w == WindowOf(UpTo(full, cut), lo, hi)
  }

  /** The changes of such an answer are always right, and for a window that starts at most one past its
      end so is the value before it. */
  lemma CutAnswerIsWindow(full: seq<Transition>, lo: nat, hi: nat, w: Window)
    requires CutAnswer(full, lo, hi, w)
    ensures w.changes == Within(full, lo, hi)
    ensures lo <= hi + 1 ==> w == WindowOf(full, lo, hi)
  {
    var cut: nat :| hi <= cut && w == WindowOf(UpTo(full, cut), lo, hi);
    WindowOfPrefix(full, lo, hi, cut);
  }

  lemma CutAnswerShows(full: seq<Transition>, lo: nat, hi: nat)
    requires Ordered(full)
    ensures lo <= hi + 1 ==> forall w :: CutAnswer(full, lo, hi, w) ==> ShowsWindow(full, lo, hi, w)
  {
    WindowShows(full, lo, hi);
    hide ShowsWindow, CutAnswer, WindowOf;
    forall w | CutAnswer(full, lo, hi, w) && lo <= hi + 1 ensures ShowsWindow(full, lo, hi, w) {
      CutAnswerIsWindow(full, lo, hi, w);
    }
  }

  lemma {:induction false} NothingCutOff(stream: seq<Transition>, cut: nat)
    requires forall i :: 0 <= i < |stream| ==> stream[i].tick <= cut
    ensures UpTo(stream, cut) == stream
  {
    if stream != [] { NothingCutOff(stream[..|stream| - 1], cut); }
  }

  lemma WholeIsCut(full: seq<Transition>, lo: nat, hi: nat)
    requires Ordered(full)
    ensures CutAnswer(full, lo, hi, WindowOf(full, lo, hi))
  {
    var cut: nat := if full == [] then hi else Max(hi, full[|full| - 1].tick);
    assert forall i :: 0 <= i < |full| ==> full[i].tick <= full[|full| - 1].tick;
    NothingCutOff(full, cut);
  }

  // ---- Order and cutting commute with decoding ----

  ghost predicate DecodedBy(list: seq<Transition>, raw: seq<RawChange>) {
    forall i :: 0 <= i < |list| ==> raw != [] && list[i].tick <= raw[|raw| - 1].tick
  }

  lemma {:induction false} DecodeOrdered(format: Format, raw: seq<RawChange>, isReal: bool)
    requires RawOrdered(raw)
    ensures Ordered(Decode(format, raw, isReal)) && DecodedBy(Decode(format, raw, isReal), raw)
  {
    if raw != [] {
      DecodeOrdered(format, raw[..|raw| - 1], isReal);
      assert |raw| > 1 ==> raw[|raw| - 2].tick <= raw[|raw| - 1].tick;
    }
  }

  lemma {:induction false} StripOrdered(list: seq<Transition>, isReal: bool)
    requires Ordered(list)
    ensures Ordered(Strip(list, isReal))
    ensures forall i :: 0 <= i < |Strip(list, isReal)| ==> list != [] && Strip(list, isReal)[i].tick <= list[|list| - 1].tick
  {
    if list != [] {
      StripOrdered(list[..|list| - 1], isReal);
      assert |list| > 1 ==> list[|list| - 2].tick <= list[|list| - 1].tick;
    }
  }

  lemma {:induction false} StripUpTo(list: seq<Transition>, isReal: bool, hi: nat)
    ensures Strip(UpTo(list, hi), isReal) == UpTo(Strip(list, isReal), hi)
  {
    if list != [] {
      var init, last := list[..|list| - 1], list[|list| - 1];
      StripUpTo(init, isReal, hi);
      UpToSnoc(Strip(init, isReal), last, hi);
      StripSnoc(UpTo(init, hi), last, isReal);
      assert UpTo(init, hi) + [] == UpTo(init, hi) && Strip(init, isReal) + [] == Strip(init, isReal);
      assert UpTo(Strip(init, isReal), hi) + [] == UpTo(Strip(init, isReal), hi);
    }
  }

  lemma UpToSnoc(list: seq<Transition>, x: Transition, hi: nat)
    ensures UpTo(list + [x], hi) == UpTo(list, hi) + if x.tick <= hi then [x] else []
  {
    assert (list + [x])[..|list|] == list;
  }

  lemma StripSnoc(list: seq<Transition>, x: Transition, isReal: bool)
    ensures Strip(list + [x], isReal) == Strip(list, isReal) + if isReal && x.value == "" then [] else [x]
  {
    assert (list + [x])[..|list|] == list;
  }

  function CutAt(list: seq<Transition>, limit: Option<nat>): seq<Transition> {
    match limit case None => list case Some(hi) => UpTo(list, hi)
  }

  lemma NothingCut(limit: Option<nat>)
    ensures CutAt([], limit) == []
  {}

  /** What a visited change adds to the list. */
  function Shown(format: Format, change: RawChange, isReal: bool, limit: Option<nat>): seq<Transition> {
    var v := CanonValue(format, change.value, isReal);
    if v.Some? && (limit.None? || change.tick <= limit.value) then [Transition(change.tick, v.value)] else []
  }

  lemma CutNext(format: Format, changes: seq<RawChange>, isReal: bool, limit: Option<nat>, k: nat)
    requires k < |changes|
    ensures CutAt(Decode(format, changes[..k + 1], isReal), limit)
         == CutAt(Decode(format, changes[..k], isReal), limit) + Shown(format, changes[k], isReal, limit)
  {
    var before := Decode(format, changes[..k], isReal);
    var v := CanonValue(format, changes[k].value, isReal);
    assert changes[..k + 1][..k] == changes[..k];
    assert before + [] == before;
    if v.Some? && limit.Some? {
      UpToSnoc(before, Transition(changes[k].tick, v.value), limit.value);
      assert UpTo(before, limit.value) + [] == UpTo(before, limit.value);
    }
  }

  /** A pass that stops after `delivered` changes has left out only changes past the limit. */
  predicate Delivers(changes: seq<RawChange>, limit: Option<nat>, delivered: nat) {
    forall i :: delivered <= i < |changes| ==> limit.Some? && changes[i].tick > limit.value
  }

  // ---- The reader and its memos ----

  datatype PrefixMemo = PrefixMemo(maxTick: nat, byHandle: map<nat, seq<Transition>>)

  class FstBacking {
    const format: Format
    const raw: seq<seq<RawChange>>
    const handles: seq<nat>
    const isReal: seq<bool>
    const isRealByHandle: seq<bool>
    var memo: map<nat, seq<Transition>>
    var prefix: Option<PrefixMemo>

    ghost predicate Opened()
    {
      && |isReal| == |handles| && |isRealByHandle| == |raw|
      && (forall i :: 0 <= i < |handles| ==> handles[i] < |raw| && isReal[i] == isRealByHandle[handles[i]])
      && (forall h :: 0 <= h < |raw| ==> RawOrdered(raw[h]))
    }

    /** Opens a trace; clock and reset candidates, never real, are read once and kept. */
    constructor (format: Format, raw: seq<seq<RawChange>>, handles: seq<nat>, isReal: seq<bool>,
                 isRealByHandle: seq<bool>, probes: seq<nat>)
      requires |isReal| == |handles| && |isRealByHandle| == |raw|
      requires forall i :: 0 <= i < |handles| ==> handles[i] < |raw| && isReal[i] == isRealByHandle[handles[i]]
      requires forall h :: 0 <= h < |raw| ==> RawOrdered(raw[h])
      requires forall k :: 0 <= k < |probes| ==> probes[k] < |raw| && !isRealByHandle[probes[k]]
      ensures Valid() && this.format == format && this.raw == raw && this.handles == handles
      ensures this.isRealByHandle == isRealByHandle && prefix.None? && (probes == [] ==> memo == map[])
    {
      this.format, this.raw, this.handles := format, raw, handles;
      this.isReal, this.isRealByHandle := isReal, isRealByHandle;
      memo, prefix := map[], None;
      new;
      hide Decode, Strip, RawOrdered;
      for k := 0 to |probes|
        invariant Opened() && prefix.None? && (k == 0 ==> memo == map[])
        invariant forall h :: h in memo ==> h < |raw| && memo[h] == Full(h)
      {
        var list := Pass(probes[k], false, None);
        StripNothing(list);
        memo := memo[probes[k] := list];
      }
    }

    /** The uncached stream of a handle. */
    function Full(h: nat): seq<Transition>
      requires h < |raw| == |isRealByHandle|
    {
      Stream(format, raw[h], isRealByHandle[h])
    }

    ghost predicate MemosFit()
      requires Opened()
      reads this
    {
      && (forall h :: h in memo ==> h < |raw| && memo[h] == Full(h))
      && (prefix.Some? ==> forall h :: h in prefix.value.byHandle ==>
            h < |raw| && prefix.value.byHandle[h] == UpTo(Full(h), prefix.value.maxTick))
    }

    ghost predicate Valid()
      reads this
    {
      Opened() && MemosFit()
    }

    /** The reader stops early but may deliver changes past the limit; the visitor drops them. */
    method Pass(h: nat, asReal: bool, limit: Option<nat>) returns (list: seq<Transition>)
      requires Opened() && h < |raw|
      ensures list == CutAt(Decode(format, raw[h], asReal), limit)
    {
      var changes := raw[h];
      var delivered: nat :| delivered <= |changes| && Delivers(changes, limit, delivered);
      list := [];
      NothingCut(limit);
      assert changes[..0] == [];
      hide CutAt, Decode;
      for k := 0 to delivered
        invariant list == CutAt(Decode(format, changes[..k], asReal), limit)
      {
        CutNext(format, changes, asReal, limit, k);
        var v := CanonValue(format, changes[k].value, asReal);
        if v.Some? && (limit.None? || changes[k].tick <= limit.value) {
          list := list + [Transition(changes[k].tick, v.value)];
        } else {
          assert list + [] == list;
        }
      }
      Undelivered(format, changes, asReal, limit, delivered);
    }

    /** Bulk-decodes the prefixes of several signals, replacing whatever prefix was held. */
    method PrefetchTo(signals: seq<nat>, maxTick: nat)
      requires Valid() && forall i :: 0 <= i < |signals| ==> signals[i] < |handles|
      modifies this`prefix
      ensures Valid()
      ensures |signals| > 1 ==> prefix.Some? && prefix.value.maxTick >= maxTick
                                && forall i :: 0 <= i < |signals| ==> handles[signals[i]] in prefix.value.byHandle
    {
      if |signals| <= 1 { return; }
      if prefix.Some? && prefix.value.maxTick >= maxTick
         && forall i :: 0 <= i < |signals| ==> handles[signals[i]] in prefix.value.byHandle {
        return;
      }
      var byHandle := BulkDecode(signals, maxTick);
      prefix := Some(PrefixMemo(maxTick, byHandle));
    }

    method BulkDecode(signals: seq<nat>, maxTick: nat) returns (byHandle: map<nat, seq<Transition>>)
      requires Opened() && forall i :: 0 <= i < |signals| ==> signals[i] < |handles|
      ensures forall i :: 0 <= i < |signals| ==> handles[signals[i]] in byHandle
      ensures forall h :: h in byHandle ==> h < |raw| && byHandle[h] == UpTo(Full(h), maxTick)
    {
      hide UpTo, Decode, Strip, RawOrdered, Stream;
      byHandle := map[];
      for k := 0 to |signals|
        invariant forall i :: 0 <= i < k ==> handles[signals[i]] in byHandle
        invariant forall h :: h in byHandle ==> h < |raw| && byHandle[h] == UpTo(Full(h), maxTick)
      {
        var h := handles[signals[k]];
        if h !in byHandle {
          var list := Pass(h, isRealByHandle[h], Some(maxTick));
          StreamUpTo(format, raw[h], isRealByHandle[h], maxTick);
          byHandle := byHandle[h := Strip(list, isRealByHandle[h])];
        }
      }
    }

    method ReadAll(signal: nat) returns (r: seq<Transition>)
      requires Valid() && signal < |handles|
      ensures r == Full(handles[signal])
    {
      var h := handles[signal];
      if h in memo { return memo[h]; }
      hide Decode, Strip;
      var out := Pass(h, isReal[signal], None);
      r := Strip(out, isReal[signal]);
    }

    /** What a windowed read of a handle up to `hi` is answered from. */
    ghost function Served(h: nat, hi: nat): seq<Transition>
      requires h < |raw| == |isRealByHandle|
      reads this
    {
      if prefix.Some? && prefix.value.maxTick >= hi && h in prefix.value.byHandle then prefix.value.byHandle[h]
      else if h in memo then memo[h]
      else UpTo(Full(h), hi)
    }

    /** A windowed read, from the prefix memo, the probe memo or the file. */
    method ReadRange(signal: nat, lo: nat, hi: nat) returns (r: Window)
      requires Valid() && signal < |handles|
      ensures r == WindowOf(Served(handles[signal], hi), lo, hi) && CutAnswer(Full(handles[signal]), lo, hi, r)
      ensures lo <= hi + 1 ==> ShowsWindow(Full(handles[signal]), lo, hi, r)
    {
      var h := handles[signal];
      var full := Full(h);
      FullOrdered(h);
      CutAnswerShows(full, lo, hi);
      hide UpTo, Decode, Strip, WindowOf, Stream, RawOrdered, Ordered, ShowsWindow;
      if prefix.Some? && prefix.value.maxTick >= hi && h in prefix.value.byHandle {
        UpToOrdered(full, prefix.value.maxTick);
        r := SplitWindow(prefix.value.byHandle[h], lo, hi);
        return;
      }
      if h in memo {
        WholeIsCut(full, lo, hi);
        r := SplitWindow(memo[h], lo, hi);
        return;
      }
      var all := Pass(h, isReal[signal], Some(hi));
      StreamUpTo(format, raw[h], isReal[signal], hi);
      UpToOrdered(full, hi);
      r := SplitWindow(Strip(all, isReal[signal]), lo, hi);
    }

    lemma FullOrdered(h: nat)
      requires Opened() && h < |raw|
      ensures Ordered(Full(h))
    {
      DecodeOrdered(format, raw[h], isRealByHandle[h]);
      StripOrdered(Decode(format, raw[h], isRealByHandle[h]), isRealByHandle[h]);
    }
  }

  lemma {:induction false} StripNothing(list: seq<Transition>)
    ensures Strip(list, false) == list
  {
    if list != [] { StripNothing(list[..|list| - 1]); }
  }

  // ---- Any sequence of calls ----

  datatype Call = Prefetch(signals: seq<nat>, maxTick: nat) | All(signal: nat) | Range(signal: nat, lo: nat, hi: nat)

  datatype Answer = Done | Whole(stream: seq<Transition>) | Part(window: Window)

  predicate CallFits(call: Call, signals: nat) {
    match call
    case Prefetch(ss, _) => forall i :: 0 <= i < |ss| ==> ss[i] < signals
    case All(s) => s < signals
    case Range(s, _, _) => s < signals
  }

  /** The answer without any memo. */
  ghost function Uncached(format: Format, raw: seq<seq<RawChange>>, handles: seq<nat>, isRealByHandle: seq<bool>, call: Call): Answer
    requires CallFits(call, |handles|) && |isRealByHandle| == |raw|
    requires forall i :: 0 <= i < |handles| ==> handles[i] < |raw|
  {
    match call
    case Prefetch(_, _) => Done
    case All(s) => Whole(Stream(format, raw[handles[s]], isRealByHandle[handles[s]]))
    case Range(s, lo, hi) => Part(WindowOf(Stream(format, raw[handles[s]], isRealByHandle[handles[s]]), lo, hi))
  }

  /** The uncached answer, or, for a window that starts more than one past its end, its changes with
      the value before it taken from the stream cut off at or past that end. */
  ghost predicate Answers(b: FstBacking, call: Call, answer: Answer)
    requires CallFits(call, |b.handles|) && b.Opened()
  {
    match call
    case Range(s, lo, hi) =>
      && answer.Part? && CutAnswer(b.Full(b.handles[s]), lo, hi, answer.window)
      && (lo <= hi + 1 ==> answer == Uncached(b.format, b.raw, b.handles, b.isRealByHandle, call))
    case _ => answer == Uncached(b.format, b.raw, b.handles, b.isRealByHandle, call)
  }

  /** Any calls in any order. */
  method Session(b: FstBacking, calls: seq<Call>) returns (answers: seq<Answer>)
    requires b.Valid() && forall k :: 0 <= k < |calls| ==> CallFits(calls[k], |b.handles|)
    modifies b
    ensures b.Valid() && |answers| == |calls| && forall k :: 0 <= k < |calls| ==> Answers(b, calls[k], answers[k])
  {
    hide Stream, WindowOf, RawOrdered, UpTo, CutAnswer;
    answers := [];
    for k := 0 to |calls|
      invariant b.Valid() && |answers| == k
      invariant forall i :: 0 <= i < k ==> Answers(b, calls[i], answers[i])
    {
      match calls[k] {
        case Prefetch(signals, maxTick) =>
          b.PrefetchTo(signals, maxTick);
          answers := answers + [Done];
        case All(signal) =>
          var stream := b.ReadAll(signal);
          answers := answers + [Whole(stream)];
        case Range(signal, lo, hi) =>
          var window := b.ReadRange(signal, lo, hi);
          CutAnswerIsWindow(b.Full(b.handles[signal]), lo, hi, window);
          answers := answers + [Part(window)];
      }
    }
  }

  /** One trace, one window from 10 to 3: without memo the value before it is missing, after a
      prefetch up to 20 it is the one that was set at tick 5. */
  method InvertedWindowDependsOnMemo() returns (plain: Window, prefetched: Window)
    ensures plain == Window(None, []) && prefetched == Window(Some("1"), [])
  {
    var raw := [[RawChange(5, Bits("1"))], []];
    var b := new FstBacking(text => Some(text), raw, [0, 1], [false, false], [false, false], []);
    OneChange(b.format, raw[0]);
    var full := b.Full(0);
    assert b.prefix.None? && b.memo == map[];
    plain := b.ReadRange(0, 10, 3);
    b.PrefetchTo([0, 1], 20);
    assert b.handles[[0, 1][0]] == 0;
    CutsOfOne(full, 3, b.prefix.value.maxTick, 10, 3);
    prefetched := b.ReadRange(0, 10, 3);
  }

  lemma OneChange(format: Format, raw: seq<RawChange>)
    requires format("1") == Some("1") && raw == [RawChange(5, Bits("1"))]
    ensures Stream(format, raw, false) == [Transition(5, "1")]
  {
    assert raw[..0] == [] && Decode(format, raw, false) == [Transition(5, "1")];
    StripNothing(Decode(format, raw, false));
  }

  lemma CutsOfOne(full: seq<Transition>, low: nat, high: nat, lo: nat, hi: nat)
    requires full == [Transition(5, "1")] && low < 5 <= high && hi < 5 < lo
    ensures WindowOf(UpTo(full, low), lo, hi) == Window(None, []) && WindowOf(UpTo(full, high), lo, hi) == Window(Some("1"), [])
  {
    hide *;
    NothingCutOff(full, high);
    CutOfOne(full, low);
    PastOne(full, lo, hi);
    NothingShown(lo, hi);
  }

  lemma PastOne(full: seq<Transition>, lo: nat, hi: nat)
    requires |full| == 1 && full[0].tick < lo && hi < full[0].tick
    ensures WindowOf(full, lo, hi) == Window(Some(full[0].value), [])
  {
    assert CutsAt(full, lo, 1) && CutsAt(full, hi + 1, 0);
    BeforeIsCut(full, lo, 1);
    WithinIsCut(full, lo, hi, 1, 0);
    hide Before, Within;
  }

  lemma CutOfOne(full: seq<Transition>, low: nat)
    requires full == [Transition(5, "1")] && low < 5
    ensures UpTo(full, low) == []
  {
    assert full[..0] == [] && UpTo([], low) == [];
  }

  lemma NothingShown(lo: nat, hi: nat)
    ensures WindowOf([], lo, hi) == Window(None, [])
  {}

  lemma StreamUpTo(format: Format, raw: seq<RawChange>, isReal: bool, hi: nat)
    ensures Strip(UpTo(Decode(format, raw, isReal), hi), isReal) == UpTo(Stream(format, raw, isReal), hi)
  {
    StripUpTo(Decode(format, raw, isReal), isReal, hi);
  }

  lemma {:induction false} UpToOrdered(stream: seq<Transition>, hi: nat)
    requires Ordered(stream)
    ensures Ordered(UpTo(stream, hi))
    ensures forall i :: 0 <= i < |UpTo(stream, hi)| ==> stream != [] && UpTo(stream, hi)[i].tick <= stream[|stream| - 1].tick
  {
    if stream != [] {
      UpToOrdered(stream[..|stream| - 1], hi);
      assert |stream| > 1 ==> stream[|stream| - 2].tick <= stream[|stream| - 1].tick;
    }
  }

  lemma DeliversInit(format: Format, changes: seq<RawChange>, isReal: bool, limit: Option<nat>, delivered: nat)
    requires delivered < |changes| && Delivers(changes, limit, delivered)
    ensures Delivers(changes[..|changes| - 1], limit, delivered)
    ensures Shown(format, changes[|changes| - 1], isReal, limit) == []
  {
    hide CanonValue;
  }

  /** What the reader did not deliver lies past the limit. */
  lemma {:induction false} Undelivered(format: Format, changes: seq<RawChange>, isReal: bool, limit: Option<nat>, delivered: nat)
    requires delivered <= |changes| && Delivers(changes, limit, delivered)
    ensures CutAt(Decode(format, changes[..delivered], isReal), limit) == CutAt(Decode(format, changes, isReal), limit)
    decreases |changes|
  {
    if delivered == |changes| {
      assert changes[..delivered] == changes;
    } else {
      var n := |changes| - 1;
      DeliversInit(format, changes, isReal, limit, delivered);
      hide CutAt, Decode, Delivers, Shown;
      Undelivered(format, changes[..n], isReal, limit, delivered);
      assert changes[..n][..delivered] == changes[..delivered];
      CutNext(format, changes, isReal, limit, n);
      assert changes[..n + 1] == changes;
      assert CutAt(Decode(format, changes[..n], isReal), limit) + [] == CutAt(Decode(format, changes[..n], isReal), limit);
    }
  }
}
