/** Which changes a chunk summary records once its incoming state is known, against the
    changes the serial converter records (crates/bwave/src/fst.rs). */
module ChunkLogs {
  import opened Basics
  import opened BitText
  import opened VcdText
  import opened SerialConversion
  import opened ChunkParsing
  import opened Reconciliation

  // ---- Logs of recorded changes ----

  /** The value after a log that starts from `value`. */
  function LastOf(value: seq<Byte>, log: seq<Recorded>): seq<Byte> {
    if log == [] then value else log[|log| - 1].value
  }

  /** The log without the changes that repeat the current value. */
  function Normal(value: seq<Byte>, log: seq<Recorded>): seq<Recorded> {
    if log == [] then []
    else
      var init := log[..|log| - 1];
      var r := log[|log| - 1];
      Normal(value, init) + if r.value == LastOf(value, init) then [] else [r]
  }

  lemma NormalSnoc(value: seq<Byte>, log: seq<Recorded>, r: Recorded)
    ensures Normal(value, log + [r]) == Normal(value, log) + if r.value == LastOf(value, log) then [] else [r]
    ensures LastOf(value, log + [r]) == r.value
  {
    assert (log + [r])[..|log|] == log;
  }

  lemma {:induction false} NormalConcat(value: seq<Byte>, x: seq<Recorded>, y: seq<Recorded>)
    ensures Normal(value, x + y) == Normal(value, x) + Normal(LastOf(value, x), y)
    ensures LastOf(value, x + y) == LastOf(LastOf(value, x), y)
  {
    if y == [] {
      assert x + y == x;
    } else {
      var init := y[..|y| - 1];
      assert x + y == (x + init) + [y[|y| - 1]];
      NormalConcat(value, x, init);
      NormalSnoc(value, x + init, y[|y| - 1]);
    }
  }

  predicate NoRepeats(value: seq<Byte>, log: seq<Recorded>) {
    log != [] ==> log[|log| - 1].value != LastOf(value, log[..|log| - 1]) && NoRepeats(value, log[..|log| - 1])
  }

  lemma NoRepeatsSnoc(value: seq<Byte>, log: seq<Recorded>, r: Recorded)
    requires NoRepeats(value, log) && r.value != LastOf(value, log)
    ensures NoRepeats(value, log + [r])
  {
    assert (log + [r])[..|log|] == log;
  }

  /** The stored form repeats no value and ends where the log ends. */
  lemma {:induction false} NormalHasNoRepeats(value: seq<Byte>, log: seq<Recorded>)
    ensures LastOf(value, Normal(value, log)) == LastOf(value, log)
    ensures NoRepeats(value, Normal(value, log))
  {
    if log != [] {
      var init, r := log[..|log| - 1], log[|log| - 1];
      NormalHasNoRepeats(value, init);
      assert init + [r] == log;
      NormalSnoc(value, init, r);
      hide NoRepeats, Normal;
      if r.value == LastOf(value, init) {
        assert Normal(value, log) == Normal(value, init);
      } else {
        NoRepeatsSnoc(value, Normal(value, init), r);
      }
    }
  }

  // ---- Serial log of some events ----

  function NoLog(schema: Schema, s: State): State {
    s.(log := NoRecords(schema))
  }

  /** The changes the serial converter records for signal `g`, starting from state `s`. */
  function SerialLog(schema: Schema, s: State, es: seq<Event>, g: nat): seq<Recorded>
    requires Fits(schema, s) && InSchema(schema, es) && g < |schema.groups|
  {
    Run(schema, NoLog(schema, s), es).log[g]
  }

  lemma {:induction false} LogIsAppended(schema: Schema, s: State, es: seq<Event>, g: nat)
    requires Fits(schema, s) && InSchema(schema, es) && g < |schema.groups|
    ensures Run(schema, s, es).log[g] == s.log[g] + SerialLog(schema, s, es, g)
    ensures CarriedOf(Run(schema, NoLog(schema, s), es)) == CarriedOf(Run(schema, s, es))
  {
    if es != [] {
      RunLast(schema, s, es);
      RunLast(schema, NoLog(schema, s), es);
      LogIsAppended(schema, s, es[..|es| - 1], g);
      hide Run, SerialValue;
    }
  }

  lemma SerialLogConcat(schema: Schema, s: State, x: seq<Event>, y: seq<Event>, g: nat)
    requires Fits(schema, s) && InSchema(schema, x) && InSchema(schema, y) && g < |schema.groups|
    ensures InSchema(schema, x + y)
    ensures SerialLog(schema, s, x + y, g) == SerialLog(schema, s, x, g) + SerialLog(schema, Run(schema, s, x), y, g)
  {
    var bare := NoLog(schema, s);
    RunConcat(schema, bare, x, y);
    LogIsAppended(schema, s, x, g);
    LogIsAppended(schema, Run(schema, bare, x), y, g);
    assert NoLog(schema, Run(schema, bare, x)) == NoLog(schema, Run(schema, s, x));
  }

  lemma SerialLogLast(schema: Schema, s: State, es: seq<Event>, g: nat)
    requires Fits(schema, s) && InSchema(schema, es) && es != [] && g < |schema.groups|
    ensures InSchema(schema, es[..|es| - 1]) && EventFits(schema, es[|es| - 1])
    ensures var e := es[|es| - 1];
            var now := Run(schema, s, es[..|es| - 1]);
            SerialLog(schema, s, es, g) == SerialLog(schema, s, es[..|es| - 1], g)
              + if e.Change? && e.group == g && !now.off then [Recorded(now.tick, SerialValue(schema, g, e.raw, e.scalar))] else []
  {
    RunLast(schema, NoLog(schema, s), es);
    LogIsAppended(schema, s, es[..|es| - 1], g);
    hide Run, SerialValue;
  }

  /** The frame holds each signal's last recorded value. */
  lemma {:induction false} FrameIsLastOf(schema: Schema, s: State, es: seq<Event>, g: nat)
    requires Fits(schema, s) && InSchema(schema, es) && g < |schema.groups|
    ensures Run(schema, s, es).frame[g] == LastOf(s.frame[g], SerialLog(schema, s, es, g))
  {
    if es != [] {
      RunLast(schema, s, es);
      SerialLogLast(schema, s, es, g);
      FrameIsLastOf(schema, s, es[..|es| - 1], g);
      hide Run, SerialValue, SerialLog;
    }
  }

  // ---- What a summary records once its incoming state is known ----

  /** Tick of a change: the running maximum at its timestamp, or the incoming tick. */
  function TickAt(c: Clock, timestamps: seq<nat>, time: Option<nat>): nat {
    if time.Some? && time.value < |timestamps| then AdvanceAll(c, timestamps[..time.value + 1]).tick else c.tick
  }

  predicate IsEnabled(dump: DumpState, off: bool) {
    dump == Enabled || (dump == Prefix && !off)
  }

  function ChangesLog(schema: Schema, changes: seq<Record>, timestamps: seq<nat>, off: bool, c: Clock, g: nat): seq<Recorded>
    requires GroupsFit(schema, changes)
  {
    if changes == [] then []
    else
      var r := changes[|changes| - 1];
      ChangesLog(schema, changes[..|changes| - 1], timestamps, off, c, g)
        + if r.group == g && IsEnabled(r.dump, off) then [Recorded(TickAt(c, timestamps, r.time), Value(schema, r))] else []
  }

  lemma {:induction false} LaterTimestamp(schema: Schema, p: ChunkEvents, changes: seq<Record>, t: nat, off: bool, c: Clock, g: nat)
    requires forall i :: 0 <= i < |changes| ==> RecordFits(schema, p, changes[i])
    ensures GroupsFit(schema, changes)
    ensures ChangesLog(schema, changes, p.timestamps + [t], off, c, g) == ChangesLog(schema, changes, p.timestamps, off, c, g)
  {
    if changes != [] {
      var r := changes[|changes| - 1];
      LaterTimestamp(schema, p, changes[..|changes| - 1], t, off, c, g);
      if r.time.Some? {
        assert (p.timestamps + [t])[..r.time.value + 1] == p.timestamps[..r.time.value + 1];
      }
      hide AdvanceAll, Value;
    }
  }

  lemma AdvanceSnoc(c: Clock, ts: seq<nat>, t: nat)
    ensures AdvanceAll(c, ts + [t]) == Advance(AdvanceAll(c, ts), t)
  {
    assert (ts + [t])[..|ts|] == ts;
  }

  lemma StepClock(schema: Schema, s: State, e: Event)
    requires Fits(schema, s) && EventFits(schema, e)
    ensures var r := Step(schema, s, e);
            Clock(r.tick, r.seen) == if e.Tick? then Advance(Clock(s.tick, s.seen), e.tick) else Clock(s.tick, s.seen)
  {
    hide Advance, SerialValue;
  }

  lemma ParsedTimestamps(schema: Schema, fragmentMode: bool, p: ChunkEvents, e: Event)
    requires Shaped(schema, p) && EventFits(schema, e)
    ensures ParseStep(schema, fragmentMode, p, e).timestamps == if e.Tick? then p.timestamps + [e.tick] else p.timestamps
  {
    hide Shaped, Encode, Value, Skipped;
  }

  lemma {:induction false} ClockIsRunningMax(schema: Schema, fragmentMode: bool, s: State, es: seq<Event>)
    requires Fits(schema, s) && InSchema(schema, es)
    ensures var r := Run(schema, s, es);
            Clock(r.tick, r.seen) == AdvanceAll(Clock(s.tick, s.seen), ParseAll(schema, fragmentMode, es).timestamps)
  {
    if es != [] {
      var init, e := es[..|es| - 1], es[|es| - 1];
      var p := ParseAll(schema, fragmentMode, init);
      RunLast(schema, s, es);
      ParseLast(schema, fragmentMode, es);
      ClockIsRunningMax(schema, fragmentMode, s, init);
      hide *;
      StepClock(schema, Run(schema, s, init), e);
      ParsedTimestamps(schema, fragmentMode, p, e);
      if e.Tick? { AdvanceSnoc(Clock(s.tick, s.seen), p.timestamps, e.tick); }
    }
  }

  /** The tick stamped on the next change is the serial converter's current tick. */
  lemma OrdinalTick(schema: Schema, fragmentMode: bool, s: State, es: seq<Event>)
    requires Fits(schema, s) && InSchema(schema, es)
    ensures var p := ParseAll(schema, fragmentMode, es);
            TickAt(Clock(s.tick, s.seen), p.timestamps, Ordinal(p)) == Run(schema, s, es).tick
  {
    ClockIsRunningMax(schema, fragmentMode, s, es);
    hide Run, ParseAll, Shaped;
    var p := ParseAll(schema, fragmentMode, es);
    assert p.timestamps[..|p.timestamps|] == p.timestamps;
  }

  function RecordedChanges(schema: Schema, p: ChunkEvents, off: bool, c: Clock, g: nat): seq<Recorded>
    requires Shaped(schema, p) && g < |schema.groups|
  {
    assert GroupsFit(schema, p.changes);
    ChangesLog(schema, p.changes, p.timestamps, off, c, g)
  }

  /** Without fragment mode a summary records exactly what the serial converter records. */
  lemma {:induction false} ChangesLogIsSerial(schema: Schema, s: State, es: seq<Event>, g: nat)
    requires Fits(schema, s) && InSchema(schema, es) && g < |schema.groups|
    ensures RecordedChanges(schema, ParseAll(schema, false, es), s.off, Clock(s.tick, s.seen), g) == SerialLog(schema, s, es, g)
  {
    if es != [] {
      var init, e := es[..|es| - 1], es[|es| - 1];
      hide Run, ParseAll, ParseStep, Shaped, Fits, EventFits, SerialValue, SerialLog, RecordedChanges, TickAt, Ordinal;
      ParseLast(schema, false, es);
      SerialLogLast(schema, s, es, g);
      TimeAndDumpState(schema, false, s, init);
      OrdinalTick(schema, false, s, init);
      ChangesLogIsSerial(schema, s, init, g);
      ChangesLogStep(schema, ParseAll(schema, false, init), e, s.off, Clock(s.tick, s.seen), g);
    }
  }

  lemma ChangesLogStep(schema: Schema, p: ChunkEvents, e: Event, off: bool, c: Clock, g: nat)
    requires Shaped(schema, p) && EventFits(schema, e) && g < |schema.groups|
    ensures var q := ParseStep(schema, false, p, e);
            RecordedChanges(schema, q, off, c, g) == RecordedChanges(schema, p, off, c, g)
              + if e.Change? && e.group == g && IsEnabled(DumpStateOf(p.dumpEnabled), off)
                then [Recorded(TickAt(c, p.timestamps, Ordinal(p)), SerialValue(schema, g, e.raw, e.scalar))] else []
  {
    hide Encode, Decode, SerialValue, TickAt;
    match e {
      case Tick(t) => LaterTimestamp(schema, p, p.changes, t, off, c, g);
      case Change(h, raw, scalar) =>
        StoredIsSerialValue(schema, h, raw, scalar);
        var r := Record(h, Ordinal(p), DumpStateOf(p.dumpEnabled), Encode(schema, h, raw, scalar));
        assert (p.changes + [r])[..|p.changes|] == p.changes;
      case _ =>
    }
  }

  lemma FragmentLogPushed(schema: Schema, p: ChunkEvents, r: Record, c: Clock, g: nat)
    requires Shaped(schema, p) && RecordFits(schema, p, r) && g == r.group
    ensures GroupsFit(schema, p.fragments[g]) && GroupsFit(schema, PushFragment(schema, p.fragments[g], r))
    ensures var log := ChangesLog(schema, p.fragments[g], p.timestamps, false, c, g);
            var after := ChangesLog(schema, PushFragment(schema, p.fragments[g], r), p.timestamps, false, c, g);
            && (FragmentEnd(schema, p, g) == Some(Value(schema, r)) ==> after == log)
            && (FragmentEnd(schema, p, g) != Some(Value(schema, r)) && IsEnabled(r.dump, false) ==>
                  after == log + [Recorded(TickAt(c, p.timestamps, r.time), Value(schema, r))])
  {
    hide Value, TickAt;
    assert (p.fragments[g] + [r])[..|p.fragments[g]|] == p.fragments[g];
  }

  function FragmentLog(schema: Schema, p: ChunkEvents, c: Clock, g: nat): seq<Recorded>
    requires Shaped(schema, p) && g < |schema.groups|
  {
    assert GroupsFit(schema, p.fragments[g]);
    ChangesLog(schema, p.fragments[g], p.timestamps, false, c, g)
  }

  /** One event in fragment mode while changes count. */
  lemma FragmentLogStep(schema: Schema, p: ChunkEvents, e: Event, c: Clock, g: nat)
    requires Shaped(schema, p) && EventFits(schema, e) && g < |schema.groups|
    requires p.dumpEnabled.None?
    ensures var log := FragmentLog(schema, p, c, g);
            var after := FragmentLog(schema, ParseStep(schema, true, p, e), c, g);
            if !e.Change? || e.group != g then after == log
            else
              var v := SerialValue(schema, g, e.raw, e.scalar);
              && (Skipped(p.fragments[g], p.raws[g], e.raw, e.scalar) ==> after == log)
              && (!Skipped(p.fragments[g], p.raws[g], e.raw, e.scalar) ==>
                    after == if FragmentEnd(schema, p, g) == Some(v) then log
                             else log + [Recorded(TickAt(c, p.timestamps, Ordinal(p)), v)])
  {
    match e {
      case Tick(t) => LaterTimestamp(schema, p, p.fragments[g], t, false, c, g);
      case Change(h, raw, scalar) =>
        StoredIsSerialValue(schema, h, raw, scalar);
        EncodeFits(schema, h, raw, scalar);
        var r := Record(h, Ordinal(p), DumpStateOf(p.dumpEnabled), Encode(schema, h, raw, scalar));
        if h == g { FragmentLogPushed(schema, p, r, c, g); }
        hide Encode, Decode, SerialValue, TickAt, ChangesLog, FragmentEnd;
      case _ =>
    }
  }

  lemma {:induction false} NoDumpsSeen(schema: Schema, es: seq<Event>)
    requires InSchema(schema, es) && NoDumps(es)
    ensures ParseAll(schema, true, es).dumpEnabled.None?
  {
    if es != [] {
      ParseLast(schema, true, es);
      NoDumpsSeen(schema, es[..|es| - 1]);
      hide ParseAll, Shaped, PushRecord, Encode;
    }
  }

  /** The two logs store the same changes and end with the same value. */
  ghost predicate SameStored(value: seq<Byte>, x: seq<Recorded>, y: seq<Recorded>) {
    Normal(value, x) == Normal(value, y) && LastOf(value, x) == LastOf(value, y)
  }

  lemma BothRecord(value: seq<Byte>, x: seq<Recorded>, y: seq<Recorded>, r: Recorded)
    requires SameStored(value, x, y)
    ensures SameStored(value, x + [r], y + [r])
  {
    NormalSnoc(value, x, r);
    NormalSnoc(value, y, r);
  }

  lemma OneRepeats(value: seq<Byte>, x: seq<Recorded>, y: seq<Recorded>, r: Recorded)
    requires SameStored(value, x, y) && r.value == LastOf(value, y)
    ensures SameStored(value, x, y + [r])
  {
    NormalSnoc(value, y, r);
    assert Normal(value, y) + [] == Normal(value, y);
  }

  lemma NoDumpPrefix(es: seq<Event>)
    requires es != [] && NoDumps(es)
    ensures NoDumps(es[..|es| - 1])
  {}

  /** The changes fragment mode drops are repeats: the stored log is the serial one. */
  lemma {:induction false} FragmentLogIsSerial(schema: Schema, s: State, es: seq<Event>, g: nat)
    requires Fits(schema, s) && InSchema(schema, es) && RawFresh(schema, es) && g < |schema.groups| && !s.off
    requires NoDumps(es)
    ensures SameStored(s.frame[g], FragmentLog(schema, ParseAll(schema, true, es), Clock(s.tick, s.seen), g),
                       SerialLog(schema, s, es, g))
  {
    if es != [] {
      var init, e := es[..|es| - 1], es[|es| - 1];
      NoDumpPrefix(es);
      FreshPrefix(schema, es, |es| - 1);
      FragmentLogIsSerial(schema, s, init, g);
      FragmentSerialStep(schema, s, es, g);
    }
  }

  lemma FragmentSerialStep(schema: Schema, s: State, es: seq<Event>, g: nat)
    requires Fits(schema, s) && InSchema(schema, es) && RawFresh(schema, es) && g < |schema.groups| && !s.off
    requires es != [] && NoDumps(es)
    requires InSchema(schema, es[..|es| - 1])
    requires SameStored(s.frame[g], FragmentLog(schema, ParseAll(schema, true, es[..|es| - 1]), Clock(s.tick, s.seen), g),
                        SerialLog(schema, s, es[..|es| - 1], g))
    ensures SameStored(s.frame[g], FragmentLog(schema, ParseAll(schema, true, es), Clock(s.tick, s.seen), g),
                       SerialLog(schema, s, es, g))
  {
    var init, e := es[..|es| - 1], es[|es| - 1];
    var c := Clock(s.tick, s.seen);
    var p := ParseAll(schema, true, init);
    hide Run, ParseAll, ParseStep, Shaped, Fits, SerialValue, SerialLog, FragmentLog, TickAt, FragmentEnd,
         RawFresh, LastValue, Ordinal, SameStored, EventFits;
    NoDumpPrefix(es);
    FreshPrefix(schema, es, |es| - 1);
    ParseLast(schema, true, es);
    SerialLogLast(schema, s, es, g);
    NoDumpsSeen(schema, init);
    LastValueIsFrame(schema, s, init, g);
    FragmentLogStep(schema, p, e, c, g);
    if e.Change? && e.group == g {
      var v := SerialValue(schema, g, e.raw, e.scalar);
      OrdinalTick(schema, true, s, init);
      LastIsFragmentEnd(schema, s, es, g);
      var r := Recorded(Run(schema, s, init).tick, v);
      if Skipped(p.fragments[g], p.raws[g], e.raw, e.scalar) || FragmentEnd(schema, p, g) == Some(v) {
        OneRepeats(s.frame[g], FragmentLog(schema, p, c, g), SerialLog(schema, s, init, g), r);
      } else {
        BothRecord(s.frame[g], FragmentLog(schema, p, c, g), SerialLog(schema, s, init, g), r);
      }
    } else {
      assert SerialLog(schema, s, init, g) + [] == SerialLog(schema, s, init, g);
    }
  }

  /** A change that fragment mode drops repeats the signal's current value. */
  lemma LastIsFragmentEnd(schema: Schema, s: State, es: seq<Event>, g: nat)
    requires Fits(schema, s) && InSchema(schema, es) && RawFresh(schema, es) && g < |schema.groups| && !s.off
    requires es != [] && NoDumps(es) && InSchema(schema, es[..|es| - 1])
    requires es[|es| - 1].Change? && es[|es| - 1].group == g
    ensures var e := es[|es| - 1];
            var p := ParseAll(schema, true, es[..|es| - 1]);
            var v := SerialValue(schema, g, e.raw, e.scalar);
            (Skipped(p.fragments[g], p.raws[g], e.raw, e.scalar) || FragmentEnd(schema, p, g) == Some(v))
            ==> LastOf(s.frame[g], SerialLog(schema, s, es[..|es| - 1], g)) == v
  {
    var init, e := es[..|es| - 1], es[|es| - 1];
    var p := ParseAll(schema, true, init);
    hide Run, ParseAll, ParseStep, Shaped, SerialValue, SerialLog, FragmentEnd, RawFresh;
    NoDumpPrefix(es);
    FreshPrefix(schema, es, |es| - 1);
    ParseLast(schema, true, es);
    FragmentsEndWith(schema, init, g);
    FragmentsEndWith(schema, es, g);
    PushedEnd(schema, p, g, e.raw, e.scalar, g);
    LastValueIsFrame(schema, s, init, g);
    FrameIsLastOf(schema, s, init, g);
  }

  /** The changes a summary records for signal `g` once its incoming state is known. */
  function ChunkLog(schema: Schema, p: ChunkEvents, off: bool, c: Clock, g: nat): seq<Recorded>
    requires Shaped(schema, p) && g < |schema.groups|
  {
    RecordedChanges(schema, p, off, c, g) + if off then [] else FragmentLog(schema, p, c, g)
  }

  lemma {:induction false} NothingWhileOff(schema: Schema, s: State, es: seq<Event>, g: nat)
    requires Fits(schema, s) && InSchema(schema, es) && NoDumps(es) && g < |schema.groups| && s.off
    ensures SerialLog(schema, s, es, g) == []
  {
    if es != [] {
      LastValueIsFrame(schema, s, es[..|es| - 1], g);
      SerialLogLast(schema, s, es, g);
      NothingWhileOff(schema, s, es[..|es| - 1], g);
      hide Run, SerialValue, SerialLog;
    }
  }

  /** Parsing a chunk without its incoming state and resolving the summary later stores,
      for every signal, the changes the serial converter stores, at the same ticks. */
  lemma ChunkLogIsSerial(schema: Schema, s: State, c: Piece, g: nat)
    requires Fits(schema, s) && PieceFits(schema, c) && g < |schema.groups|
    ensures SameStored(s.frame[g],
                       ChunkLog(schema, ParseAll(schema, c.fragmentMode, c.events), s.off, Clock(s.tick, s.seen), g),
                       SerialLog(schema, s, c.events, g))
  {
    hide Run, ParseAll, Shaped, Fits, RawFresh, SerialLog, Normal;
    var p := ParseAll(schema, c.fragmentMode, c.events);
    var clock := Clock(s.tick, s.seen);
    assert RecordedChanges(schema, p, s.off, clock, g) + [] == RecordedChanges(schema, p, s.off, clock, g);
    assert [] + FragmentLog(schema, p, clock, g) == FragmentLog(schema, p, clock, g);
    if c.fragmentMode {
      FragmentModeHasNoChanges(schema, c.events);
      if s.off {
        NothingWhileOff(schema, s, c.events, g);
      } else {
        FragmentLogIsSerial(schema, s, c.events, g);
      }
    } else {
      ChangesModeHasNoFragments(schema, c.events, g);
      ChangesLogIsSerial(schema, s, c.events, g);
    }
  }
}
