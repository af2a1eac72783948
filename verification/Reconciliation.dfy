/** Composing chunk summaries in input order (crates/bwave/src/fst.rs,
    `reconcile_chunk_events`): summaries carry the serial converter's state. */
module Reconciliation {
  import opened Basics
  import opened BitText
  import opened VcdText
  import opened SerialConversion
  import opened ChunkParsing

  /** The conversion state that passes from chunk to chunk. */
  datatype Carried = Carried(frame: seq<seq<Byte>>, tick: nat, seen: bool, off: bool)

  function CarriedOf(s: State): Carried {
    Carried(s.frame, s.tick, s.seen, s.off)
  }

  ghost predicate CarriedFits(schema: Schema, c: Carried) {
    |c.frame| == |schema.groups| && (!c.seen ==> c.tick == 0)
  }

  // ---- Folding a summary into the state ----

  /** Value of signal `g` after the prefix changes (or the enabled ones) of a chunk. */
  function AfterChanges(schema: Schema, p: ChunkEvents, prefix: bool, g: nat, value: seq<Byte>): seq<Byte>
    requires Shaped(schema, p) && g < |schema.groups|
  {
    var record := if prefix then p.chains[g].prefixLast else p.chains[g].enabledLast;
    if record.None? then value else Value(schema, p.changes[record.value])
  }

  function AfterFragments(schema: Schema, p: ChunkEvents, g: nat, value: seq<Byte>): seq<Byte>
    requires Shaped(schema, p) && g < |schema.groups|
  {
    if p.fragments[g] == [] then value else Value(schema, p.fragments[g][|p.fragments[g]| - 1])
  }

  function AfterChunk(schema: Schema, p: ChunkEvents, off: bool, g: nat, value: seq<Byte>): seq<Byte>
    requires Shaped(schema, p) && g < |schema.groups|
  {
    var before := if off then value else AfterFragments(schema, p, g, AfterChanges(schema, p, true, g, value));
    AfterChanges(schema, p, false, g, before)
  }

  function AfterTimestamps(c: Clock, maxTimestamp: Option<nat>): Clock {
    if maxTimestamp.Some? then Advance(c, maxTimestamp.value) else c
  }

  function Reconcile(schema: Schema, c: Carried, p: ChunkEvents): (r: Carried)
    requires CarriedFits(schema, c) && Shaped(schema, p)
    ensures CarriedFits(schema, r)
  {
    var clock := AfterTimestamps(Clock(c.tick, c.seen), p.maxTimestamp);
    Carried(seq(|c.frame|, g requires 0 <= g < |c.frame| => AfterChunk(schema, p, c.off, g, c.frame[g])),
            clock.tick, clock.seen,
            if p.dumpEnabled.Some? then !p.dumpEnabled.value else c.off)
  }

  /** The builder in parallel mode: it sees summaries, never lines. */
  class Reconciler {
    const schema: Schema
    var frame: seq<seq<Byte>>
    var currentTick: nat
    var lastWrittenTime: nat
    var anyTimeWritten: bool
    var inDumpoff: bool

    ghost predicate Valid()
      reads this
    {
      && CarriedFits(schema, View())
      && (anyTimeWritten ==> lastWrittenTime == currentTick)
    }

    ghost function View(): Carried
      reads this
    {
      Carried(frame, currentTick, anyTimeWritten, inDumpoff)
    }

    constructor (schema: Schema)
      ensures Valid() && this.schema == schema && View() == CarriedOf(InitialState(schema))
    {
      this.schema := schema;
      frame := InitialFrame(schema);
      currentTick, lastWrittenTime, anyTimeWritten, inDumpoff := 0, 0, false, false;
    }

    method ApplyLastChanges(p: ChunkEvents, prefix: bool)
      requires Valid() && Shaped(schema, p)
      modifies this`frame
      ensures Valid() && |frame| == |old(frame)|
      ensures forall g :: 0 <= g < |frame| ==> frame[g] == AfterChanges(schema, p, prefix, g, old(frame)[g])
    {
      hide Value;
      for g := 0 to |frame|
        invariant |frame| == |old(frame)| == |schema.groups|
        invariant forall k :: 0 <= k < g ==> frame[k] == AfterChanges(schema, p, prefix, k, old(frame)[k])
        invariant forall k :: g <= k < |frame| ==> frame[k] == old(frame)[k]
      {
        var record := if prefix then p.chains[g].prefixLast else p.chains[g].enabledLast;
        if record.Some? {
          frame := frame[g := Value(schema, p.changes[record.value])];
        }
      }
    }

    method ApplyLastFragments(p: ChunkEvents)
      requires Valid() && Shaped(schema, p)
      modifies this`frame
      ensures Valid() && |frame| == |old(frame)|
      ensures forall g :: 0 <= g < |frame| ==> frame[g] == AfterFragments(schema, p, g, old(frame)[g])
    {
      hide Value;
      for g := 0 to |frame|
        invariant |frame| == |old(frame)| == |schema.groups|
        invariant forall k :: 0 <= k < g ==> frame[k] == AfterFragments(schema, p, k, old(frame)[k])
        invariant forall k :: g <= k < |frame| ==> frame[k] == old(frame)[k]
      {
        if p.fragments[g] != [] {
          frame := frame[g := Value(schema, p.fragments[g][|p.fragments[g]| - 1])];
        }
      }
    }

    method ReconcileChunkEvents(p: ChunkEvents)
      requires Valid() && Shaped(schema, p)
      modifies this
      ensures Valid() && View() == Reconcile(schema, old(View()), p)
    {
      hide Shaped, AfterChanges, AfterFragments;
      var incomingDumpoff := inDumpoff;
      if !incomingDumpoff {
        ApplyLastChanges(p, true);
        ApplyLastFragments(p);
      }
      ApplyLastChanges(p, false);
      if p.maxTimestamp.Some? {
        if p.maxTimestamp.value > currentTick || !anyTimeWritten {
          currentTick := p.maxTimestamp.value;
          lastWrittenTime := p.maxTimestamp.value;
          anyTimeWritten := true;
        }
      }
      if p.dumpEnabled.Some? {
        inDumpoff := !p.dumpEnabled.value;
      }
      assert frame == Reconcile(schema, old(View()), p).frame;
    }
  }

  // ---- What a chunk says last about a signal ----

  /** Text of the last vector line for signal `g`. */
  function LastRaw(es: seq<Event>, g: nat): Option<seq<Byte>> {
    if es == [] then None
    else
      var e := es[|es| - 1];
      if e.Change? && e.group == g && !e.scalar then Some(e.raw) else LastRaw(es[..|es| - 1], g)
  }

  /** Value of the last line for signal `g`. */
  function LastValue(schema: Schema, es: seq<Event>, g: nat): Option<seq<Byte>>
    requires InSchema(schema, es)
  {
    if es == [] then None
    else
      var e := es[|es| - 1];
      assert EventFits(schema, e) && InSchema(schema, es[..|es| - 1]);
      if e.Change? && e.group == g then Some(SerialValue(schema, g, e.raw, e.scalar))
      else LastValue(schema, es[..|es| - 1], g)
  }

  /** Text repeated from the last vector line still stands for the signal's value. */
  ghost predicate FreshAt(schema: Schema, es: seq<Event>, i: nat)
    requires InSchema(schema, es) && i < |es|
  {
    es[i].Change? && !es[i].scalar && LastRaw(es[..i], es[i].group) == Some(es[i].raw)
    ==> LastValue(schema, es[..i], es[i].group) == Some(SerialValue(schema, es[i].group, es[i].raw, false))
  }

  ghost predicate RawFresh(schema: Schema, es: seq<Event>)
    requires InSchema(schema, es)
  {
    forall i :: 0 <= i < |es| ==> FreshAt(schema, es, i)
  }

  /** Every signal is written either by scalar lines only or by vector lines only. */
  ghost predicate OneForm(es: seq<Event>) {
    forall i, j :: 0 <= i < |es| && 0 <= j < |es| && es[i].Change? && es[j].Change? && es[i].group == es[j].group
      ==> es[i].scalar == es[j].scalar
  }

  lemma {:induction false} OneFormLast(schema: Schema, es: seq<Event>, g: nat, raw: seq<Byte>)
    requires InSchema(schema, es) && g < |schema.groups|
    requires forall i :: 0 <= i < |es| && es[i].Change? && es[i].group == g ==> !es[i].scalar
    requires LastRaw(es, g) == Some(raw)
    ensures LastValue(schema, es, g) == Some(SerialValue(schema, g, raw, false))
  {
    var e := es[|es| - 1];
    if !(e.Change? && e.group == g) {
      OneFormLast(schema, es[..|es| - 1], g, raw);
    }
  }

  lemma OneFormIsFresh(schema: Schema, es: seq<Event>)
    requires InSchema(schema, es) && OneForm(es)
    ensures RawFresh(schema, es)
  {
    forall i | 0 <= i < |es| ensures FreshAt(schema, es, i) {
      var e := es[i];
      if e.Change? && !e.scalar && LastRaw(es[..i], e.group) == Some(e.raw) {
        OneFormLast(schema, es[..i], e.group, e.raw);
      }
    }
  }

  // ---- Summaries made of fragments ----

  function FragmentEnd(schema: Schema, p: ChunkEvents, g: nat): Option<seq<Byte>>
    requires Shaped(schema, p) && g < |schema.groups|
  {
    if p.fragments[g] == [] then None else Some(Value(schema, p.fragments[g][|p.fragments[g]| - 1]))
  }

  lemma PushedEnd(schema: Schema, p: ChunkEvents, g: nat, raw: seq<Byte>, scalar: bool, h: nat)
    requires Shaped(schema, p) && EventFits(schema, Change(g, raw, scalar)) && h < |schema.groups|
    ensures var q := ParseStep(schema, true, p, Change(g, raw, scalar));
            && (h != g ==> q.fragments[h] == p.fragments[h] && q.raws[h] == p.raws[h])
            && (scalar ==> q.raws[g] == p.raws[g])
            && (!scalar ==> q.raws[g] == Some(raw) && q.fragments[g] != [])
            && (if Skipped(p.fragments[g], p.raws[g], raw, scalar) then q == p
                else FragmentEnd(schema, q, g) == Some(SerialValue(schema, g, raw, scalar)))
  {
    hide Decode, Encode;
    StoredIsSerialValue(schema, g, raw, scalar);
  }

  lemma OtherEvent(schema: Schema, p: ChunkEvents, e: Event, fragmentMode: bool)
    requires Shaped(schema, p) && EventFits(schema, e) && !e.Change?
    ensures var q := ParseStep(schema, fragmentMode, p, e);
            q.fragments == p.fragments && q.raws == p.raws && q.changes == p.changes && q.chains == p.chains
  {}

  lemma ParseLast(schema: Schema, fragmentMode: bool, es: seq<Event>)
    requires InSchema(schema, es) && es != []
    ensures InSchema(schema, es[..|es| - 1]) && EventFits(schema, es[|es| - 1])
    ensures ParseAll(schema, fragmentMode, es)
         == ParseStep(schema, fragmentMode, ParseAll(schema, fragmentMode, es[..|es| - 1]), es[|es| - 1])
  {
    hide ParseStep;
  }

  lemma {:induction false} RawsAreLast(schema: Schema, es: seq<Event>, g: nat)
    requires InSchema(schema, es) && g < |schema.groups|
    ensures ParseAll(schema, true, es).raws[g] == LastRaw(es, g)
    ensures LastRaw(es, g).Some? ==> ParseAll(schema, true, es).fragments[g] != []
  {
    if es != [] {
      ParseLast(schema, true, es);
      var e := es[|es| - 1];
      var p := ParseAll(schema, true, es[..|es| - 1]);
      RawsAreLast(schema, es[..|es| - 1], g);
      hide ParseAll, ParseStep;
      if e.Change? { PushedEnd(schema, p, e.group, e.raw, e.scalar, g); } else { OtherEvent(schema, p, e, true); }
    }
  }

  /** A skipped one-bit line repeats the signal's value. */
  lemma SkippedScalar(schema: Schema, p: ChunkEvents, g: nat, raw: seq<Byte>)
    requires Shaped(schema, p) && EventFits(schema, Change(g, raw, true))
    requires Skipped(p.fragments[g], p.raws[g], raw, true)
    ensures FragmentEnd(schema, p, g) == Some(SerialValue(schema, g, raw, true))
  {
    assert RecordFits(schema, p, p.fragments[g][|p.fragments[g]| - 1]);
    assert raw == [raw[0]];
  }

  lemma FreshPrefix(schema: Schema, es: seq<Event>, k: nat)
    requires InSchema(schema, es) && RawFresh(schema, es) && k <= |es|
    ensures InSchema(schema, es[..k]) && RawFresh(schema, es[..k])
  {
    hide LastRaw, LastValue, SerialValue;
    forall i | 0 <= i < k ensures FreshAt(schema, es[..k], i) {
      assert es[..k][..i] == es[..i];
      assert FreshAt(schema, es, i);
    }
  }

  /** Fragments end with the value the chunk gives each signal last. */
  lemma {:induction false} FragmentsEndWith(schema: Schema, es: seq<Event>, g: nat)
    requires InSchema(schema, es) && RawFresh(schema, es) && g < |schema.groups|
    ensures FragmentEnd(schema, ParseAll(schema, true, es), g) == LastValue(schema, es, g)
  {
    if es != [] {
      var k := |es| - 1;
      ParseLast(schema, true, es);
      FreshPrefix(schema, es, k);
      assert FreshAt(schema, es, k);
      FragmentsEndWith(schema, es[..k], g);
      FragmentEndStep(schema, es, g);
    }
  }

  lemma FragmentEndStep(schema: Schema, es: seq<Event>, g: nat)
    requires InSchema(schema, es) && es != [] && g < |schema.groups|
    requires InSchema(schema, es[..|es| - 1])
    requires FragmentEnd(schema, ParseAll(schema, true, es[..|es| - 1]), g) == LastValue(schema, es[..|es| - 1], g)
    ensures FreshAt(schema, es, |es| - 1) || es[|es| - 1].group != g
            ==> FragmentEnd(schema, ParseAll(schema, true, es), g) == LastValue(schema, es, g)
    ensures !FreshAt(schema, es, |es| - 1) && es[|es| - 1].group == g
            ==> FragmentEnd(schema, ParseAll(schema, true, es), g) != LastValue(schema, es, g)
  {
    var e := es[|es| - 1];
    var p := ParseAll(schema, true, es[..|es| - 1]);
    ParseLast(schema, true, es);
    RawsAreLast(schema, es[..|es| - 1], g);
    hide ParseAll, ParseStep, SerialValue, LastRaw, Value, Shaped;
    if e.Change? {
      PushedEnd(schema, p, e.group, e.raw, e.scalar, g);
      if e.group == g && e.scalar && Skipped(p.fragments[g], p.raws[g], e.raw, true) {
        SkippedScalar(schema, p, g, e.raw);
      }
    } else {
      OtherEvent(schema, p, e, true);
    }
  }

  ghost predicate ShowsLast(schema: Schema, es: seq<Event>)
    requires InSchema(schema, es)
  {
    forall g :: 0 <= g < |schema.groups| ==>
      FragmentEnd(schema, ParseAll(schema, true, es), g) == LastValue(schema, es, g)
  }

  /** Dropping repeats is harmless at every point of a chunk exactly if repeated text is fresh. */
  lemma FragmentsAreExactWhen(schema: Schema, es: seq<Event>)
    requires InSchema(schema, es)
    ensures (forall k :: 0 <= k <= |es| ==> ShowsLast(schema, es[..k])) <==> RawFresh(schema, es)
  {
    hide ParseAll, LastRaw, LastValue, SerialValue, FragmentEnd;
    if RawFresh(schema, es) {
      forall k | 0 <= k <= |es| ensures ShowsLast(schema, es[..k]) {
        FreshPrefix(schema, es, k);
        forall g | 0 <= g < |schema.groups|
          ensures FragmentEnd(schema, ParseAll(schema, true, es[..k]), g) == LastValue(schema, es[..k], g)
        {
          FragmentsEndWith(schema, es[..k], g);
        }
      }
    }
    if forall k :: 0 <= k <= |es| ==> ShowsLast(schema, es[..k]) {
      forall i | 0 <= i < |es| ensures FreshAt(schema, es, i) {
        var now := es[..i + 1];
        assert now[..i] == es[..i] && now[i] == es[i];
        assert ShowsLast(schema, es[..i]) && ShowsLast(schema, now);
        if es[i].Change? {
          FragmentEndStep(schema, now, es[i].group);
        }
      }
    }
  }

  // ---- The composition theorem ----

  lemma RunLast(schema: Schema, s: State, es: seq<Event>)
    requires Fits(schema, s) && InSchema(schema, es) && es != []
    ensures InSchema(schema, es[..|es| - 1]) && EventFits(schema, es[|es| - 1])
    ensures Run(schema, s, es) == Step(schema, Run(schema, s, es[..|es| - 1]), es[|es| - 1])
  {
    hide Step;
  }

  lemma {:induction false} TimeAndDumpState(schema: Schema, fragmentMode: bool, s: State, es: seq<Event>)
    requires Fits(schema, s) && InSchema(schema, es)
    ensures var p := ParseAll(schema, fragmentMode, es);
            var r := Run(schema, s, es);
            && Clock(r.tick, r.seen) == AfterTimestamps(Clock(s.tick, s.seen), p.maxTimestamp)
            && r.off == if p.dumpEnabled.Some? then !p.dumpEnabled.value else s.off
  {
    if es != [] {
      ParseLast(schema, fragmentMode, es);
      RunLast(schema, s, es);
      TimeAndDumpState(schema, fragmentMode, s, es[..|es| - 1]);
      TimeAndDumpStep(schema, fragmentMode, ParseAll(schema, fragmentMode, es[..|es| - 1]),
                      Run(schema, s, es[..|es| - 1]), s, es[|es| - 1]);
      hide Run, ParseAll, ParseStep, Step, Shaped, Fits, Advance, AfterTimestamps;
    }
  }

  lemma TimeAndDumpStep(schema: Schema, fragmentMode: bool, p: ChunkEvents, now: State, s: State, e: Event)
    requires Shaped(schema, p) && Fits(schema, now) && Fits(schema, s) && EventFits(schema, e)
    requires Clock(now.tick, now.seen) == AfterTimestamps(Clock(s.tick, s.seen), p.maxTimestamp)
    requires now.off == if p.dumpEnabled.Some? then !p.dumpEnabled.value else s.off
    ensures var q := ParseStep(schema, fragmentMode, p, e);
            var r := Step(schema, now, e);
            && Clock(r.tick, r.seen) == AfterTimestamps(Clock(s.tick, s.seen), q.maxTimestamp)
            && r.off == if q.dumpEnabled.Some? then !q.dumpEnabled.value else s.off
  {
    hide Shaped, Encode, SerialValue, PushFragment;
  }

  /** Without dump directives a signal ends with the last value written, or the incoming one. */
  lemma {:induction false} LastValueIsFrame(schema: Schema, s: State, es: seq<Event>, g: nat)
    requires Fits(schema, s) && InSchema(schema, es) && g < |schema.groups|
    requires NoDumps(es)
    ensures Run(schema, s, es).off == s.off
    ensures Run(schema, s, es).frame[g]
         == if s.off || LastValue(schema, es, g).None? then s.frame[g] else LastValue(schema, es, g).value
  {
    if es != [] {
      RunLast(schema, s, es);
      LastValueIsFrame(schema, s, es[..|es| - 1], g);
    }
  }

  lemma {:induction false} FragmentModeHasNoChanges(schema: Schema, es: seq<Event>)
    requires InSchema(schema, es)
    ensures ParseAll(schema, true, es).changes == []
    ensures forall g :: 0 <= g < |schema.groups| ==> ParseAll(schema, true, es).chains[g] == Chain(None, None)
  {
    if es != [] {
      ParseLast(schema, true, es);
      FragmentModeHasNoChanges(schema, es[..|es| - 1]);
      hide ParseAll, Shaped, PushFragment, Encode;
    }
  }

  lemma {:induction false} ChangesModeHasNoFragments(schema: Schema, es: seq<Event>, g: nat)
    requires InSchema(schema, es) && g < |schema.groups|
    ensures ParseAll(schema, false, es).fragments[g] == []
  {
    if es != [] {
      ParseLast(schema, false, es);
      ChangesModeHasNoFragments(schema, es[..|es| - 1], g);
      hide ParseAll, Shaped, Encode;
    }
  }

  /** One more event in changes mode. */
  lemma ChangesStep(schema: Schema, p: ChunkEvents, s: State, off: bool, e: Event, g: nat, value: seq<Byte>)
    requires Shaped(schema, p) && Fits(schema, s) && EventFits(schema, e) && g < |schema.groups|
    requires p.fragments[g] == []
    requires p.dumpEnabled.None? ==> p.chains[g].enabledLast.None?
    requires s.off == if p.dumpEnabled.Some? then !p.dumpEnabled.value else off
    requires s.frame[g] == AfterChunk(schema, p, off, g, value)
    ensures var q := ParseStep(schema, false, p, e);
            && (q.dumpEnabled.None? ==> q.chains[g].enabledLast.None?)
            && Step(schema, s, e).frame[g] == AfterChunk(schema, q, off, g, value)
  {
    hide Decode, Encode, SerialValue;
    if e.Change? {
      StoredIsSerialValue(schema, e.group, e.raw, e.scalar);
    }
  }

  lemma {:induction false} ChangesGiveFrame(schema: Schema, s: State, es: seq<Event>, g: nat)
    requires Fits(schema, s) && InSchema(schema, es) && g < |schema.groups|
    ensures var p := ParseAll(schema, false, es);
            && (p.dumpEnabled.None? ==> p.chains[g].enabledLast.None?)
            && Run(schema, s, es).frame[g] == AfterChunk(schema, p, s.off, g, s.frame[g])
  {
    if es != [] {
      var init := es[..|es| - 1];
      ParseLast(schema, false, es);
      RunLast(schema, s, es);
      ChangesGiveFrame(schema, s, init, g);
      ChangesModeHasNoFragments(schema, init, g);
      TimeAndDumpState(schema, false, s, init);
      ChangesStep(schema, ParseAll(schema, false, init), Run(schema, s, init), s.off, es[|es| - 1], g, s.frame[g]);
    }
  }

  lemma FragmentsGiveFrame(schema: Schema, s: State, es: seq<Event>, g: nat)
    requires Fits(schema, s) && InSchema(schema, es) && g < |schema.groups|
    requires ModeFits(true, es) && RawFresh(schema, es)
    ensures Run(schema, s, es).frame[g] == AfterChunk(schema, ParseAll(schema, true, es), s.off, g, s.frame[g])
  {
    hide ParseAll, Run, LastValue, RawFresh;
    FragmentsEndWith(schema, es, g);
    LastValueIsFrame(schema, s, es, g);
    FragmentModeHasNoChanges(schema, es);
  }

  /** A chunk parsed without knowing the incoming state, then reconciled, leaves the
      frame, time and dump state that feeding its lines to the serial converter leaves. */
  lemma ReconcileIsSerial(schema: Schema, fragmentMode: bool, s: State, es: seq<Event>)
    requires Fits(schema, s) && InSchema(schema, es) && ModeFits(fragmentMode, es)
    requires fragmentMode ==> RawFresh(schema, es)
    ensures Reconcile(schema, CarriedOf(s), ParseAll(schema, fragmentMode, es)) == CarriedOf(Run(schema, s, es))
  {
    hide ParseAll, Run, AfterChunk, RawFresh, ModeFits;
    var p := ParseAll(schema, fragmentMode, es);
    TimeAndDumpState(schema, fragmentMode, s, es);
    forall g | 0 <= g < |schema.groups|
      ensures Run(schema, s, es).frame[g] == AfterChunk(schema, p, s.off, g, s.frame[g])
    {
      if fragmentMode { FragmentsGiveFrame(schema, s, es, g); } else { ChangesGiveFrame(schema, s, es, g); }
    }
    assert Reconcile(schema, CarriedOf(s), p).frame == Run(schema, s, es).frame;
  }

  // ---- Exactly when fragment mode is right ----

  lemma {:induction false} TouchedTogether(schema: Schema, es: seq<Event>, g: nat)
    requires InSchema(schema, es) && g < |schema.groups|
    ensures FragmentEnd(schema, ParseAll(schema, true, es), g).None? <==> LastValue(schema, es, g).None?
  {
    if es != [] {
      var p := ParseAll(schema, true, es[..|es| - 1]);
      var e := es[|es| - 1];
      ParseLast(schema, true, es);
      TouchedTogether(schema, es[..|es| - 1], g);
      hide ParseAll, ParseStep, SerialValue, Value;
      if e.Change? { PushedEnd(schema, p, e.group, e.raw, e.scalar, g); } else { OtherEvent(schema, p, e, true); }
    }
  }

  lemma ReconciledShowsLast(schema: Schema, s: State, es: seq<Event>)
    requires Fits(schema, s) && InSchema(schema, es) && ModeFits(true, es) && !s.off
    requires Reconcile(schema, CarriedOf(s), ParseAll(schema, true, es)) == CarriedOf(Run(schema, s, es))
    ensures ShowsLast(schema, es)
  {
    hide ParseAll, Run, LastValue, Shaped, Value;
    FragmentModeHasNoChanges(schema, es);
    var p := ParseAll(schema, true, es);
    forall g | 0 <= g < |schema.groups| ensures FragmentEnd(schema, p, g) == LastValue(schema, es, g) {
      TouchedTogether(schema, es, g);
      LastValueIsFrame(schema, s, es, g);
      assert Reconcile(schema, CarriedOf(s), p).frame[g] == AfterChunk(schema, p, false, g, s.frame[g]);
    }
  }

  lemma ModeFitsPrefix(es: seq<Event>, k: nat)
    requires ModeFits(true, es) && k <= |es|
    ensures ModeFits(true, es[..k])
  {}

  /** Fragment mode follows the serial converter at every point of the chunk
      if and only if text repeated from a signal's last vector line is still its value. */
  lemma FragmentModeIsRightExactlyWhen(schema: Schema, s: State, es: seq<Event>)
    requires Fits(schema, s) && InSchema(schema, es) && ModeFits(true, es) && !s.off
    ensures (forall k :: 0 <= k <= |es| ==>
               Reconcile(schema, CarriedOf(s), ParseAll(schema, true, es[..k])) == CarriedOf(Run(schema, s, es[..k])))
       <==> RawFresh(schema, es)
  {
    hide Reconcile, ParseAll, Run, RawFresh, ModeFits, ShowsLast;
    if RawFresh(schema, es) {
      forall k | 0 <= k <= |es|
        ensures Reconcile(schema, CarriedOf(s), ParseAll(schema, true, es[..k])) == CarriedOf(Run(schema, s, es[..k]))
      {
        FreshPrefix(schema, es, k);
        ModeFitsPrefix(es, k);
        ReconcileIsSerial(schema, true, s, es[..k]);
      }
    } else {
      if forall k :: 0 <= k <= |es| ==>
        Reconcile(schema, CarriedOf(s), ParseAll(schema, true, es[..k])) == CarriedOf(Run(schema, s, es[..k]))
      {
        forall k | 0 <= k <= |es| ensures ShowsLast(schema, es[..k]) {
          ModeFitsPrefix(es, k);
          ReconciledShowsLast(schema, s, es[..k]);
        }
        FragmentsAreExactWhen(schema, es);
        assert false;
      }
    }
  }

  /** A one-bit signal written b0, 1, b0: the last line is taken for a repeat of the first. */
  lemma MixedFormsLoseAChange(schema: Schema, s: State)
    requires Fits(schema, s) && !s.off && schema.groups == [Meta(1, false)]
    ensures var es := [Tick(0), Change(0, [ZERO], false), Change(0, [ONE], true), Change(0, [ZERO], false)];
            && InSchema(schema, es) && ModeFits(true, es) && !RawFresh(schema, es)
            && Reconcile(schema, CarriedOf(s), ParseAll(schema, true, es)) != CarriedOf(Run(schema, s, es))
  {
    var es := [Tick(0), Change(0, [ZERO], false), Change(0, [ONE], true), Change(0, [ZERO], false)];
    assert InSchema(schema, es) && ModeFits(true, es);
    var init := es[..3];
    assert init == [Tick(0), Change(0, [ZERO], false), Change(0, [ONE], true)];
    assert init[..2] == [Tick(0), Change(0, [ZERO], false)];
    assert init[..2][..1] == [Tick(0)];
    assert Canon([ZERO], 1) == [ZERO];
    assert init[2] == Change(0, [ONE], true) && SerialValue(schema, 0, [ONE], true) == [ONE];
    assert LastValue(schema, init, 0) == Some([ONE]);
    assert LastRaw(init, 0) == LastRaw(init[..2], 0) == Some([ZERO]);
    assert LastRaw([Tick(0)], 0) == None;
    assert RawFresh(schema, init);
    FragmentsEndWith(schema, init, 0);
    hide ParseAll, Run, Reconcile, LastRaw, LastValue, Canon;
    FragmentEndStep(schema, es, 0);
    if Reconcile(schema, CarriedOf(s), ParseAll(schema, true, es)) == CarriedOf(Run(schema, s, es)) {
      ReconciledShowsLast(schema, s, es);
      assert false;
    }
  }

  // ---- Any number of chunks ----

  /** A chunk by its events and the mode its text selects. */
  datatype Piece = Piece(fragmentMode: bool, events: seq<Event>)

  ghost predicate PieceFits(schema: Schema, c: Piece) {
    && InSchema(schema, c.events) && !HasMalformed(c.events) && ModeFits(c.fragmentMode, c.events)
    && (c.fragmentMode ==> RawFresh(schema, c.events))
  }

  ghost predicate PiecesFit(schema: Schema, cs: seq<Piece>) {
    forall i :: 0 <= i < |cs| ==> PieceFits(schema, cs[i])
  }

  function AllEvents(cs: seq<Piece>): seq<Event> {
    if cs == [] then [] else AllEvents(cs[..|cs| - 1]) + cs[|cs| - 1].events
  }

  lemma {:induction false} AllEventsInSchema(schema: Schema, cs: seq<Piece>)
    requires PiecesFit(schema, cs)
    ensures InSchema(schema, AllEvents(cs))
  {
    hide ModeFits, RawFresh;
    if cs != [] {
      AllEventsInSchema(schema, cs[..|cs| - 1]);
      assert PieceFits(schema, cs[|cs| - 1]);
    }
  }

  ghost predicate AllShaped(schema: Schema, ps: seq<ChunkEvents>) {
    forall i :: 0 <= i < |ps| ==> Shaped(schema, ps[i])
  }

  /** What the parser workers make of the chunks. */
  ghost function Summaries(schema: Schema, cs: seq<Piece>): (ps: seq<ChunkEvents>)
    requires PiecesFit(schema, cs)
    ensures |ps| == |cs| && AllShaped(schema, ps)
    ensures forall i :: 0 <= i < |cs| ==> PieceFits(schema, cs[i]) && ps[i] == ParseAll(schema, cs[i].fragmentMode, cs[i].events)
  {
    hide ModeFits, RawFresh, Shaped, ParseAll;
    if cs == [] then []
    else
      assert PieceFits(schema, cs[|cs| - 1]);
      Summaries(schema, cs[..|cs| - 1]) + [ParseAll(schema, cs[|cs| - 1].fragmentMode, cs[|cs| - 1].events)]
  }

  /** Summaries reconciled in order. */
  ghost function ReconcileAll(schema: Schema, c: Carried, ps: seq<ChunkEvents>): (r: Carried)
    requires CarriedFits(schema, c) && AllShaped(schema, ps)
    ensures CarriedFits(schema, r)
  {
    if ps == [] then c else Reconcile(schema, ReconcileAll(schema, c, ps[..|ps| - 1]), ps[|ps| - 1])
  }

  lemma SummariesLast(schema: Schema, cs: seq<Piece>)
    requires PiecesFit(schema, cs) && cs != []
    ensures PiecesFit(schema, cs[..|cs| - 1]) && PieceFits(schema, cs[|cs| - 1])
    ensures Summaries(schema, cs)[..|cs| - 1] == Summaries(schema, cs[..|cs| - 1])
    ensures Summaries(schema, cs)[|cs| - 1] == ParseAll(schema, cs[|cs| - 1].fragmentMode, cs[|cs| - 1].events)
  {
    hide PieceFits, Shaped, ParseAll;
    assert PieceFits(schema, cs[|cs| - 1]);
  }

  /** However the events are cut into chunks, reconciling in order ends in the serial state. */
  lemma {:induction false} ChunksComposeToSerial(schema: Schema, s: State, cs: seq<Piece>)
    requires Fits(schema, s) && PiecesFit(schema, cs)
    ensures InSchema(schema, AllEvents(cs))
    ensures ReconcileAll(schema, CarriedOf(s), Summaries(schema, cs)) == CarriedOf(Run(schema, s, AllEvents(cs)))
  {
    AllEventsInSchema(schema, cs);
    if cs != [] {
      var init, last := cs[..|cs| - 1], cs[|cs| - 1];
      SummariesLast(schema, cs);
      ChunksComposeToSerial(schema, s, init);
      hide Run, ParseAll, Reconcile, Summaries, ModeFits, RawFresh, Shaped, Fits;
      RunConcat(schema, s, AllEvents(init), last.events);
      ReconcileIsSerial(schema, last.fragmentMode, Run(schema, s, AllEvents(init)), last.events);
    }
  }
}
