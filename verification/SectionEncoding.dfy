/** Encoding summaries in sections that other workers own (crates/bwave/src/fst.rs,
    `ActiveSectionEncoder`). A section is a table of ticks and, per signal, the changes
    recorded against it; `SignalStreams` has the streams that hold them. */
module SectionEncoding {
  import opened Basics
  import opened BitText
  import opened VcdText
  import opened SerialConversion
  import opened ChunkParsing
  import opened Reconciliation
  import opened ChunkLogs

  // ---- The table of ticks ----

  /** Ticks of a section so far and the section's running time. */
  datatype Table = Table(ticks: seq<nat>, clock: Clock)

  /** Nothing stands for the frame: the time before the first entry. */
  function Now(t: Table): Option<nat> {
    if t.ticks == [] then None else Some(|t.ticks| - 1)
  }

  /** Tick of a time index; the frame stands for the section's incoming tick. */
  function TickOf(start: nat, ticks: seq<nat>, index: Option<nat>): nat {
    if index.Some? && index.value < |ticks| then ticks[index.value] else start
  }

  ghost predicate TableFits(start: nat, t: Table) {
    && (if t.ticks == [] then start == t.clock.tick == 0 else t.ticks[|t.ticks| - 1] == t.clock.tick)
    && (forall i, j :: 0 <= i < j < |t.ticks| ==> t.ticks[i] < t.ticks[j])
    && (!t.clock.seen ==> t.clock.tick == 0)
  }

  function AddTick(t: Table, tick: nat): Table {
    var clock := Advance(t.clock, tick);
    Table(if clock.tick > t.clock.tick then t.ticks + [clock.tick] else t.ticks, clock)
  }

  function AddTicks(t: Table, ts: seq<nat>): Table {
    if ts == [] then t else AddTick(AddTicks(t, ts[..|ts| - 1]), ts[|ts| - 1])
  }

  lemma {:induction false} AddTicksFits(start: nat, t: Table, ts: seq<nat>)
    requires TableFits(start, t)
    ensures TableFits(start, AddTicks(t, ts))
    ensures AddTicks(t, ts).clock == AdvanceAll(t.clock, ts)
    ensures t.ticks <= AddTicks(t, ts).ticks
  {
    if ts != [] {
      AddTicksFits(start, t, ts[..|ts| - 1]);
    }
  }

  lemma {:induction false} TicksGrow(t: Table, ts: seq<nat>, k: nat)
    requires k <= |ts|
    ensures AddTicks(t, ts[..k]).ticks <= AddTicks(t, ts).ticks
  {
    if k == |ts| {
      assert ts[..k] == ts;
    } else {
      var init := ts[..|ts| - 1];
      TicksGrow(t, init, k);
      assert init[..k] == ts[..k];
    }
  }

  lemma AddTicksNext(t: Table, ts: seq<nat>, k: nat)
    requires k < |ts|
    ensures AddTicks(t, ts[..k + 1]) == AddTick(AddTicks(t, ts[..k]), ts[k])
  {
    assert ts[..k + 1][..k] == ts[..k];
  }

  /** The time index each timestamp of a chunk maps to. */
  function TimeMap(t: Table, ts: seq<nat>): seq<Option<nat>> {
    seq(|ts|, k requires 0 <= k < |ts| => Now(AddTicks(t, ts[..k + 1])))
  }

  lemma NowTick(start: nat, t: Table, ticks: seq<nat>)
    requires TableFits(start, t) && t.ticks <= ticks
    ensures Now(t).Some? ==> Now(t).value < |ticks|
    ensures TickOf(start, ticks, Now(t)) == t.clock.tick
  {}

  /** A mapped index stands for the running maximum at its timestamp. */
  lemma MappedTick(start: nat, t: Table, ts: seq<nat>, k: nat)
    requires TableFits(start, t) && k < |ts|
    ensures TickOf(start, AddTicks(t, ts).ticks, TimeMap(t, ts)[k]) == AdvanceAll(t.clock, ts[..k + 1]).tick
    ensures TimeMap(t, ts)[k].Some? ==> TimeMap(t, ts)[k].value < |AddTicks(t, ts).ticks|
    ensures t.ticks != [] ==> TimeMap(t, ts)[k].Some?
  {
    hide AddTicks, AdvanceAll, TableFits, TickOf;
    AddTicksFits(start, t, ts[..k + 1]);
    TicksGrow(t, ts, k + 1);
    NowTick(start, AddTicks(t, ts[..k + 1]), AddTicks(t, ts).ticks);
  }

  // ---- Affine maps ----

  /** Consecutive timestamps map to consecutive entries of the table. */
  predicate IsAffine(map_: seq<Option<nat>>) {
    if |map_| <= 1 then map_ == [] || map_[0].Some?
    else
      var a, b := map_[|map_| - 2], map_[|map_| - 1];
      IsAffine(map_[..|map_| - 1]) && a.Some? && b == Some(a.value + 1)
  }

  /** In an affine map, time differences inside the chunk are time differences in the
      section, so already encoded changes can be copied without rewriting. */
  lemma {:induction false} AffineKeepsDifferences(map_: seq<Option<nat>>, i: nat, j: nat)
    requires IsAffine(map_) && i <= j < |map_|
    ensures map_[i].Some? && map_[j].Some? && map_[j].value == map_[i].value + (j - i)
    decreases |map_|
  {
    if j < |map_| - 1 {
      AffineKeepsDifferences(map_[..|map_| - 1], i, j);
    } else if i < j {
      AffineKeepsDifferences(map_[..|map_| - 1], i, j - 1);
    }
  }

  // ---- Sections ----

  datatype Stamped = Stamped(index: Option<nat>, value: seq<Byte>)

  datatype Section = Section(
    first: bool,
    start: nat,
    table: Table,
    records: seq<seq<Stamped>>,
    dumpEnabled: bool)

  ghost predicate StampsFit(sec: Section, log: seq<Stamped>) {
    forall i :: 0 <= i < |log| ==>
      && (log[i].index.Some? ==> log[i].index.value < |sec.table.ticks|)
      && (!sec.first ==> log[i].index.Some?)
  }

  ghost predicate AllPositive(ticks: seq<nat>) {
    forall i :: 0 <= i < |ticks| ==> ticks[i] > 0
  }

  lemma {:induction false} AddTicksPositive(t: Table, ts: seq<nat>)
    requires AllPositive(t.ticks)
    ensures AllPositive(AddTicks(t, ts).ticks)
  {
    if ts != [] { AddTicksPositive(t, ts[..|ts| - 1]); }
  }

  ghost predicate SectionFits(schema: Schema, sec: Section) {
    && TableFits(sec.start, sec.table)
    && (!sec.first ==> sec.table.ticks != [])
    && (sec.first ==> sec.start == 0 && AllPositive(sec.table.ticks))
    && |sec.records| == |schema.groups|
    && forall g :: 0 <= g < |sec.records| ==> StampsFit(sec, sec.records[g])
  }

  function Resolve(start: nat, ticks: seq<nat>, log: seq<Stamped>): seq<Recorded> {
    seq(|log|, i requires 0 <= i < |log| => Recorded(TickOf(start, ticks, log[i].index), log[i].value))
  }

  /** The changes a section stores for a signal, at their ticks. */
  function SectionLog(sec: Section, g: nat): seq<Recorded>
    requires g < |sec.records|
  {
    Resolve(sec.start, sec.table.ticks, sec.records[g])
  }

  function OpenSection(schema: Schema, c: Carried, first: bool): Section {
    Section(first, c.tick, Table(if first then [] else [c.tick], Clock(c.tick, c.seen)),
            seq(|schema.groups|, g => []), !c.off)
  }

  // ---- Applying a summary ----

  function Stamp(incoming: Option<nat>, map_: seq<Option<nat>>, time: Option<nat>): Option<nat> {
    if time.Some? && time.value < |map_| then map_[time.value] else incoming
  }

  /** The stamped changes of one signal among some records. */
  function StampAll(schema: Schema, changes: seq<Record>, off: bool, incoming: Option<nat>, map_: seq<Option<nat>>, g: nat): seq<Stamped>
    requires GroupsFit(schema, changes)
  {
    if changes == [] then []
    else
      var r := changes[|changes| - 1];
      StampAll(schema, changes[..|changes| - 1], off, incoming, map_, g)
        + if r.group == g && IsEnabled(r.dump, off) then [Stamped(Stamp(incoming, map_, r.time), Value(schema, r))] else []
  }

  predicate NoFragments(p: ChunkEvents) {
    forall g :: 0 <= g < |p.fragments| ==> p.fragments[g] == []
  }

  /** Records come as changes or as fragments, in order; fragments follow a timestamp and no directive. */
  ghost predicate Usable(schema: Schema, p: ChunkEvents) {
    && (p.changes == [] || NoFragments(p)) && Chronological(schema, p)
    && forall g, i :: 0 <= g < |p.fragments| && 0 <= i < |p.fragments[g]| ==>
         p.fragments[g][i].time.Some? && p.fragments[g][i].dump == Prefix
  }

  function Added(schema: Schema, p: ChunkEvents, off: bool, incoming: Option<nat>, map_: seq<Option<nat>>, g: nat): seq<Stamped>
    requires Shaped(schema, p) && g < |schema.groups|
  {
    assert GroupsFit(schema, p.changes) && GroupsFit(schema, p.fragments[g]);
    if NoFragments(p) then StampAll(schema, p.changes, off, incoming, map_, g)
    else if off then []
    else StampAll(schema, p.fragments[g], false, incoming, map_, g)
  }

  function Apply(schema: Schema, sec: Section, p: ChunkEvents): Section
    requires SectionFits(schema, sec) && Shaped(schema, p)
  {
    var map_ := TimeMap(sec.table, p.timestamps);
    sec.(table := AddTicks(sec.table, p.timestamps),
         records := seq(|sec.records|, g requires 0 <= g < |sec.records| =>
                      sec.records[g] + Added(schema, p, !sec.dumpEnabled, Now(sec.table), map_, g)),
         dumpEnabled := if p.dumpEnabled.Some? then p.dumpEnabled.value else sec.dumpEnabled)
  }

  // ---- A section stores what its summaries record ----

  lemma StampTick(start: nat, t: Table, ts: seq<nat>, time: Option<nat>)
    requires TableFits(start, t) && (time.Some? ==> time.value < |ts|)
    ensures TickOf(start, AddTicks(t, ts).ticks, Stamp(Now(t), TimeMap(t, ts), time)) == TickAt(t.clock, ts, time)
    ensures Stamp(Now(t), TimeMap(t, ts), time).Some?
            ==> Stamp(Now(t), TimeMap(t, ts), time).value < |AddTicks(t, ts).ticks|
    ensures t.ticks != [] ==> Stamp(Now(t), TimeMap(t, ts), time).Some?
  {
    AddTicksFits(start, t, ts);
    NowTick(start, t, AddTicks(t, ts).ticks);
    if time.Some? { MappedTick(start, t, ts, time.value); }
    hide AddTicks, AdvanceAll, TableFits, TickOf;
  }

  lemma ResolveSnoc(start: nat, ticks: seq<nat>, log: seq<Stamped>, more: seq<Stamped>)
    ensures Resolve(start, ticks, log + more) == Resolve(start, ticks, log) + Resolve(start, ticks, more)
  {
    hide TickOf;
  }

  lemma {:induction false} StampAllResolves(schema: Schema, p: ChunkEvents, changes: seq<Record>, off: bool, start: nat, t: Table, g: nat)
    requires GroupsFit(schema, changes) && TableFits(start, t)
    requires forall i :: 0 <= i < |changes| ==> RecordFits(schema, p, changes[i])
    ensures Resolve(start, AddTicks(t, p.timestamps).ticks,
                    StampAll(schema, changes, off, Now(t), TimeMap(t, p.timestamps), g))
         == ChangesLog(schema, changes, p.timestamps, off, t.clock, g)
  {
    if changes != [] {
      var init, r := changes[..|changes| - 1], changes[|changes| - 1];
      StampAllResolves(schema, p, init, off, start, t, g);
      assert RecordFits(schema, p, r);
      hide AddTicks, Value, TickAt, TableFits, TimeMap, TickOf, Stamp, RecordFits;
      StampTick(start, t, p.timestamps, r.time);
      var map_ := TimeMap(t, p.timestamps);
      var more := if r.group == g && IsEnabled(r.dump, off) then [Stamped(Stamp(Now(t), map_, r.time), Value(schema, r))] else [];
      ResolveSnoc(start, AddTicks(t, p.timestamps).ticks, StampAll(schema, init, off, Now(t), map_, g), more);
    }
  }

  lemma {:induction false} StampAllFits(schema: Schema, p: ChunkEvents, changes: seq<Record>, off: bool, sec: Section, g: nat)
    requires GroupsFit(schema, changes) && TableFits(sec.start, sec.table) && (!sec.first ==> sec.table.ticks != [])
    requires forall i :: 0 <= i < |changes| ==> RecordFits(schema, p, changes[i])
    ensures StampsFit(sec.(table := AddTicks(sec.table, p.timestamps)),
                      StampAll(schema, changes, off, Now(sec.table), TimeMap(sec.table, p.timestamps), g))
  {
    if changes != [] {
      var r := changes[|changes| - 1];
      StampAllFits(schema, p, changes[..|changes| - 1], off, sec, g);
      assert RecordFits(schema, p, r);
      StampTick(sec.start, sec.table, p.timestamps, r.time);
      hide AddTicks, Value, TableFits, TimeMap, Stamp, RecordFits;
    }
  }

  lemma ShapedRecords(schema: Schema, p: ChunkEvents, g: nat)
    requires Shaped(schema, p) && g < |schema.groups|
    ensures GroupsFit(schema, p.changes) && GroupsFit(schema, p.fragments[g])
    ensures forall i :: 0 <= i < |p.changes| ==> RecordFits(schema, p, p.changes[i])
    ensures forall i :: 0 <= i < |p.fragments[g]| ==> RecordFits(schema, p, p.fragments[g][i])
  {}

  lemma StampsStillFit(sec: Section, later: Section, log: seq<Stamped>, more: seq<Stamped>)
    requires StampsFit(sec, log) && StampsFit(later, more)
    requires sec.first == later.first && sec.table.ticks <= later.table.ticks
    ensures StampsFit(later, log + more)
  {}

  lemma ApplyFits(schema: Schema, sec: Section, p: ChunkEvents)
    requires SectionFits(schema, sec) && Shaped(schema, p)
    ensures SectionFits(schema, Apply(schema, sec, p))
  {
    var later := Apply(schema, sec, p);
    AddTicksFits(sec.start, sec.table, p.timestamps);
    if sec.first { AddTicksPositive(sec.table, p.timestamps); }
    hide Shaped, StampsFit, StampAll, TableFits, AddTicks, AdvanceAll, TimeMap, NoFragments;
    forall g | 0 <= g < |schema.groups| ensures StampsFit(later, later.records[g]) {
      ShapedRecords(schema, p, g);
      StampAllFits(schema, p, p.changes, !sec.dumpEnabled, sec, g);
      StampAllFits(schema, p, p.fragments[g], false, sec, g);
      NoStampsFit(later);
      SameStampsFit(sec.(table := AddTicks(sec.table, p.timestamps)), later,
                    Added(schema, p, !sec.dumpEnabled, Now(sec.table), TimeMap(sec.table, p.timestamps), g));
      StampsStillFit(sec, later, sec.records[g], Added(schema, p, !sec.dumpEnabled, Now(sec.table), TimeMap(sec.table, p.timestamps), g));
    }
  }

  lemma NoStampsFit(sec: Section)
    ensures StampsFit(sec, [])
  {}

  lemma SameStampsFit(a: Section, b: Section, log: seq<Stamped>)
    requires a.first == b.first && a.table == b.table
    ensures StampsFit(a, log) == StampsFit(b, log)
  {}

  lemma OldStampsResolve(sec: Section, ticks: seq<nat>, log: seq<Stamped>)
    requires StampsFit(sec, log) && sec.table.ticks <= ticks
    ensures Resolve(sec.start, ticks, log) == Resolve(sec.start, sec.table.ticks, log)
  {}

  /** A section's log grows by exactly what the summary records, at the running-maximum ticks. */
  lemma ApplyStores(schema: Schema, sec: Section, p: ChunkEvents, g: nat)
    requires SectionFits(schema, sec) && Shaped(schema, p) && Usable(schema, p) && g < |schema.groups|
    ensures Apply(schema, sec, p).table.clock == AdvanceAll(sec.table.clock, p.timestamps)
    ensures SectionLog(Apply(schema, sec, p), g)
         == SectionLog(sec, g) + ChunkLog(schema, p, !sec.dumpEnabled, sec.table.clock, g)
  {
    var off, map_ := !sec.dumpEnabled, TimeMap(sec.table, p.timestamps);
    var ticks := AddTicks(sec.table, p.timestamps).ticks;
    AddTicksFits(sec.start, sec.table, p.timestamps);
    ShapedRecords(schema, p, g);
    StampAllResolves(schema, p, p.changes, off, sec.start, sec.table, g);
    StampAllResolves(schema, p, p.fragments[g], false, sec.start, sec.table, g);
    OldStampsResolve(sec, ticks, sec.records[g]);
    NoChanges(schema, p.timestamps, off, sec.table.clock, g);
    NoChanges(schema, p.timestamps, false, sec.table.clock, g);
    var more := Added(schema, p, off, Now(sec.table), map_, g);
    ResolveSnoc(sec.start, ticks, sec.records[g], more);
    assert Apply(schema, sec, p).records[g] == sec.records[g] + more;
    hide Shaped, StampsFit, StampAll, TableFits, AddTicks, AdvanceAll, TimeMap, TickOf, ChangesLog;
    AddedResolves(schema, p, off, sec.start, ticks, sec.table.clock, Now(sec.table), map_, g);
  }

  lemma NoChanges(schema: Schema, timestamps: seq<nat>, off: bool, c: Clock, g: nat)
    ensures GroupsFit(schema, []) && ChangesLog(schema, [], timestamps, off, c, g) == []
  {}

  lemma AddedResolves(schema: Schema, p: ChunkEvents, off: bool, start: nat, ticks: seq<nat>, c: Clock,
                      incoming: Option<nat>, map_: seq<Option<nat>>, g: nat)
    requires Shaped(schema, p) && Usable(schema, p) && g < |schema.groups|
    requires GroupsFit(schema, p.changes) && GroupsFit(schema, p.fragments[g])
    requires Resolve(start, ticks, StampAll(schema, p.changes, off, incoming, map_, g))
          == ChangesLog(schema, p.changes, p.timestamps, off, c, g)
    requires Resolve(start, ticks, StampAll(schema, p.fragments[g], false, incoming, map_, g))
          == ChangesLog(schema, p.fragments[g], p.timestamps, false, c, g)
    ensures Resolve(start, ticks, Added(schema, p, off, incoming, map_, g)) == ChunkLog(schema, p, off, c, g)
  {
    NoChanges(schema, p.timestamps, off, c, g);
    NoChanges(schema, p.timestamps, false, c, g);
    assert NoFragments(p) ==> p.fragments[g] == [];
    assert Resolve(start, ticks, []) == [];
    hide Shaped, StampAll, ChangesLog, NoFragments;
    assert RecordedChanges(schema, p, off, c, g) + [] == RecordedChanges(schema, p, off, c, g);
    assert [] + FragmentLog(schema, p, c, g) == FragmentLog(schema, p, c, g);
  }

  // ---- Summaries of well-formed chunks ----

  lemma {:induction false} StartsTimed(schema: Schema, es: seq<Event>)
    requires InSchema(schema, es) && es != [] && es[0].Tick?
    ensures ParseAll(schema, true, es).timestamps != []
  {
    ParseLast(schema, true, es);
    if |es| == 1 {
      assert es[..0] == [];
    } else {
      StartsTimed(schema, es[..|es| - 1]);
    }
    hide ParseAll, Shaped, PushRecord, Encode;
  }

  lemma NoMalformedPrefix(es: seq<Event>, k: nat)
    requires !HasMalformed(es) && k <= |es|
    ensures !HasMalformed(es[..k])
  {}

  ghost predicate AllTimed(fragment: seq<Record>) {
    forall i :: 0 <= i < |fragment| ==> fragment[i].time.Some? && fragment[i].dump == Prefix
  }

  lemma {:induction false} FragmentsAreTimed(schema: Schema, es: seq<Event>, g: nat)
    requires InSchema(schema, es) && ModeFits(true, es) && !HasMalformed(es) && g < |schema.groups|
    ensures AllTimed(ParseAll(schema, true, es).fragments[g])
  {
    if es != [] {
      var init, e := es[..|es| - 1], es[|es| - 1];
      ParseLast(schema, true, es);
      ModeFitsPrefix(es, |es| - 1);
      NoMalformedPrefix(es, |es| - 1);
      FragmentsAreTimed(schema, init, g);
      NoDumpsSeen(schema, init);
      if init != [] {
        assert init[0] == es[0] && !es[0].Malformed?;
        StartsTimed(schema, init);
      }
      hide ParseAll, Shaped, Encode, Value, HasMalformed, Skipped;
    }
  }

  lemma ParsedIsUsable(schema: Schema, c: Piece)
    requires PieceFits(schema, c)
    ensures Usable(schema, ParseAll(schema, c.fragmentMode, c.events))
  {
    hide ParseAll, HasMalformed, RawFresh, ModeFits, Chronological;
    var p := ParseAll(schema, c.fragmentMode, c.events);
    ParsedIsChronological(schema, c.fragmentMode, c.events);
    if c.fragmentMode {
      FragmentModeHasNoChanges(schema, c.events);
      forall g | 0 <= g < |p.fragments| ensures AllTimed(p.fragments[g]) {
        FragmentsAreTimed(schema, c.events, g);
      }
    } else {
      forall g | 0 <= g < |p.fragments| ensures p.fragments[g] == [] {
        ChangesModeHasNoFragments(schema, c.events, g);
      }
    }
  }

  // ---- Whole sections ----

  ghost predicate StartFits(schema: Schema, c: Carried, first: bool) {
    CarriedFits(schema, c) && (first ==> c.tick == 0)
  }

  lemma OpenSectionFits(schema: Schema, c: Carried, first: bool)
    requires StartFits(schema, c, first)
    ensures SectionFits(schema, OpenSection(schema, c, first))
  {}

  /** A section opened in state `c` after its chunks' summaries, in order. */
  ghost function EncodeSection(schema: Schema, c: Carried, first: bool, ps: seq<ChunkEvents>): (r: Section)
    requires StartFits(schema, c, first) && AllShaped(schema, ps)
    ensures SectionFits(schema, r)
  {
    if ps == [] then
      OpenSectionFits(schema, c, first);
      OpenSection(schema, c, first)
    else
      var sec := EncodeSection(schema, c, first, ps[..|ps| - 1]);
      ApplyFits(schema, sec, ps[|ps| - 1]);
      Apply(schema, sec, ps[|ps| - 1])
  }

  lemma SameStoredConcat(value: seq<Byte>, a: seq<Recorded>, b: seq<Recorded>, x: seq<Recorded>, y: seq<Recorded>)
    requires SameStored(value, a, b) && SameStored(LastOf(value, b), x, y)
    ensures SameStored(value, a + x, b + y)
  {
    hide Normal, LastOf;
    NormalConcat(value, a, x);
    NormalConcat(value, b, y);
  }

  ghost predicate InStep(sec: Section, s: State) {
    sec.table.clock == Clock(s.tick, s.seen) && sec.dumpEnabled == !s.off
  }

  lemma ApplyKeepsStep(schema: Schema, sec: Section, s: State, c: Piece)
    requires SectionFits(schema, sec) && Fits(schema, s) && PieceFits(schema, c) && InStep(sec, s)
    ensures InStep(Apply(schema, sec, ParseAll(schema, c.fragmentMode, c.events)), Run(schema, s, c.events))
  {
    hide Run, ParseAll, Shaped, Fits, HasMalformed, RawFresh, ModeFits, TableFits, AddTicks, AdvanceAll, StampsFit, AfterTimestamps, Added;
    var p := ParseAll(schema, c.fragmentMode, c.events);
    AddTicksFits(sec.start, sec.table, p.timestamps);
    ClockIsRunningMax(schema, c.fragmentMode, s, c.events);
    TimeAndDumpState(schema, c.fragmentMode, s, c.events);
  }

  /** One more chunk: the section stays in step with the serial state and stores the same changes. */
  lemma SectionGrows(schema: Schema, s: State, sec: Section, before: seq<Event>, c: Piece, g: nat)
    requires Fits(schema, s) && InSchema(schema, before) && PieceFits(schema, c) && SectionFits(schema, sec)
    requires g < |schema.groups| && InStep(sec, Run(schema, s, before))
    requires SameStored(s.frame[g], SectionLog(sec, g), SerialLog(schema, s, before, g))
    ensures InSchema(schema, before + c.events)
    ensures var after := Apply(schema, sec, ParseAll(schema, c.fragmentMode, c.events));
            && InStep(after, Run(schema, s, before + c.events))
            && SameStored(s.frame[g], SectionLog(after, g), SerialLog(schema, s, before + c.events, g))
  {
    var now := Run(schema, s, before);
    var p := ParseAll(schema, c.fragmentMode, c.events);
    hide Run, ParseAll, Shaped, Fits, Apply, SectionFits, ChunkLog, SerialLog, Usable, SameStored, SectionLog, HasMalformed, RawFresh;
    ApplyKeepsStep(schema, sec, now, c);
    ParsedIsUsable(schema, c);
    ApplyStores(schema, sec, p, g);
    ChunkLogIsSerial(schema, now, c, g);
    FrameIsLastOf(schema, s, before, g);
    SerialLogConcat(schema, s, before, c.events, g);
    RunConcat(schema, s, before, c.events);
    SameStoredConcat(s.frame[g], SectionLog(sec, g), SerialLog(schema, s, before, g),
                     ChunkLog(schema, p, !sec.dumpEnabled, sec.table.clock, g), SerialLog(schema, now, c.events, g));
  }

  /** A section's stored changes, with their ticks, are those the serial converter records
      for the section's lines; its time and dump state are the serial ones. */
  lemma {:induction false} SectionIsSerial(schema: Schema, s: State, first: bool, cs: seq<Piece>, g: nat)
    requires Fits(schema, s) && StartFits(schema, CarriedOf(s), first) && PiecesFit(schema, cs) && g < |schema.groups|
    ensures InSchema(schema, AllEvents(cs))
    ensures var sec := EncodeSection(schema, CarriedOf(s), first, Summaries(schema, cs));
            && InStep(sec, Run(schema, s, AllEvents(cs)))
            && SameStored(s.frame[g], SectionLog(sec, g), SerialLog(schema, s, AllEvents(cs), g))
  {
    AllEventsInSchema(schema, cs);
    if cs != [] {
      var init, last := cs[..|cs| - 1], cs[|cs| - 1];
      SummariesLast(schema, cs);
      SectionIsSerial(schema, s, first, init, g);
      hide Run, ParseAll, Shaped, Fits, PieceFits, Apply, SectionFits, SerialLog, SameStored, SectionLog, InStep, StartFits, Summaries;
      SectionGrows(schema, s, EncodeSection(schema, CarriedOf(s), first, Summaries(schema, init)), AllEvents(init), last, g);
    }
  }
}
