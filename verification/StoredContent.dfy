/** What the sections of a file hold, against what the serial converter's writer holds
    (crates/bwave/vendor/fst-writer/src/buffer.rs). */
module StoredContent {
  import opened Basics
  import opened BitText
  import opened VcdText
  import opened SerialConversion
  import opened ChunkParsing
  import opened Reconciliation
  import opened ChunkLogs
  import opened SectionEncoding
  import opened SignalStreams
  import opened SectionEncoder

  // ---- Frame and entries of a log ----

  function AtZero(log: seq<Recorded>): seq<Recorded> {
    if log == [] then []
    else AtZero(log[..|log| - 1]) + if log[|log| - 1].tick == 0 then [log[|log| - 1]] else []
  }

  function AfterZero(log: seq<Recorded>): seq<Recorded> {
    if log == [] then []
    else AfterZero(log[..|log| - 1]) + if log[|log| - 1].tick > 0 then [log[|log| - 1]] else []
  }

  /** The frame of the first section: the last value a signal takes at tick 0. */
  function FrameOf(value: seq<Byte>, log: seq<Recorded>): seq<Byte> {
    LastOf(value, AtZero(Normal(value, log)))
  }

  /** The entries of the first section: the changes after tick 0, without repeats. */
  function EntriesOf(value: seq<Byte>, log: seq<Recorded>): seq<Recorded> {
    AfterZero(Normal(value, log))
  }

  lemma SplitSnoc(log: seq<Recorded>, r: Recorded)
    ensures AtZero(log + [r]) == AtZero(log) + if r.tick == 0 then [r] else []
    ensures AfterZero(log + [r]) == AfterZero(log) + if r.tick > 0 then [r] else []
  {
    assert (log + [r])[..|log|] == log;
  }

  ghost predicate AllZero(log: seq<Recorded>) {
    forall i :: 0 <= i < |log| ==> log[i].tick == 0
  }

  lemma {:induction false} NormalAllZero(value: seq<Byte>, log: seq<Recorded>)
    requires AllZero(log)
    ensures AllZero(Normal(value, log))
  {
    if log != [] {
      var init, r := log[..|log| - 1], log[|log| - 1];
      NormalAllZero(value, init);
      hide Normal, LastOf;
      assert init + [r] == log;
      NormalSnoc(value, init, r);
    }
  }

  lemma {:induction false} NothingLater(log: seq<Recorded>)
    requires AllZero(log)
    ensures AtZero(log) == log && AfterZero(log) == []
  {
    if log != [] {
      var init, r := log[..|log| - 1], log[|log| - 1];
      NothingLater(init);
      assert init + [r] == log;
      SplitSnoc(init, r);
      hide AtZero, AfterZero;
    }
  }

  lemma FrameOnly(value: seq<Byte>, log: seq<Recorded>)
    requires AllZero(log)
    ensures EntriesOf(value, log) == [] && FrameOf(value, log) == LastOf(value, log)
  {
    hide Normal, AtZero, AfterZero, AllZero, LastOf;
    NormalAllZero(value, log);
    NothingLater(Normal(value, log));
    NormalHasNoRepeats(value, log);
  }

  /** One more record. */
  lemma ContentStep(value: seq<Byte>, log: seq<Recorded>, r: Recorded)
    requires r.tick == 0 ==> AllZero(log)
    ensures EntriesOf(value, log + [r])
         == EntriesOf(value, log) + if r.tick > 0 && r.value != LastOf(value, log) then [r] else []
    ensures FrameOf(value, log + [r]) == if r.tick == 0 then r.value else FrameOf(value, log)
    ensures r.tick == 0 ==> EntriesOf(value, log + [r]) == []
  {
    if r.tick == 0 {
      ZeroStep(value, log, r);
    } else {
      LaterStep(value, log, r);
    }
  }

  lemma ZeroStep(value: seq<Byte>, log: seq<Recorded>, r: Recorded)
    requires r.tick == 0 && AllZero(log)
    ensures EntriesOf(value, log + [r]) == EntriesOf(value, log) + [] == [] && FrameOf(value, log + [r]) == r.value
  {
    assert AllZero(log + [r]);
    hide FrameOf, EntriesOf, AllZero;
    FrameOnly(value, log);
    FrameOnly(value, log + [r]);
  }

  lemma LaterStep(value: seq<Byte>, log: seq<Recorded>, r: Recorded)
    requires r.tick > 0
    ensures EntriesOf(value, log + [r]) == EntriesOf(value, log) + if r.value != LastOf(value, log) then [r] else []
    ensures FrameOf(value, log + [r]) == FrameOf(value, log)
  {
    hide Normal, AtZero, AfterZero;
    NormalSnoc(value, log, r);
    var kept := Normal(value, log);
    SplitSnoc(kept, r);
    assert kept + [] == kept && AfterZero(kept) + [] == AfterZero(kept) && AtZero(kept) + [] == AtZero(kept);
  }

  // ---- The serial writer ----

  datatype Buffer = Buffer(frame: seq<Byte>, value: seq<Byte>, entries: seq<Recorded>)

  /** During the first time step values go to the frame; afterwards changes that differ are appended. */
  function WriteOne(b: Buffer, r: Recorded): Buffer {
    if r.tick == 0 then Buffer(r.value, r.value, b.entries)
    else if r.value == b.value then b
    else Buffer(b.frame, r.value, b.entries + [r])
  }

  function WriteAll(value: seq<Byte>, log: seq<Recorded>): Buffer {
    if log == [] then Buffer(value, value, []) else WriteOne(WriteAll(value, log[..|log| - 1]), log[|log| - 1])
  }

  ghost predicate TicksRise(log: seq<Recorded>) {
    forall i, j :: 0 <= i < j < |log| ==> log[i].tick <= log[j].tick
  }

  /** The serial writer ends with exactly that frame and those entries. */
  lemma {:induction false} WriterHoldsContent(value: seq<Byte>, log: seq<Recorded>)
    requires TicksRise(log)
    ensures WriteAll(value, log) == Buffer(FrameOf(value, log), LastOf(value, log), EntriesOf(value, log))
  {
    if log != [] {
      var init, r := log[..|log| - 1], log[|log| - 1];
      WriterHoldsContent(value, init);
      assert init + [r] == log;
      ContentStep(value, init, r);
    }
  }

  /** The serial converter never records an earlier tick after a later one. */
  lemma {:induction false} SerialLogRises(schema: Schema, s: State, es: seq<Event>, g: nat)
    requires Fits(schema, s) && InSchema(schema, es) && g < |schema.groups|
    ensures TicksRise(SerialLog(schema, s, es, g))
    ensures forall i :: 0 <= i < |SerialLog(schema, s, es, g)| ==> SerialLog(schema, s, es, g)[i].tick <= Run(schema, s, es).tick
  {
    if es != [] {
      SerialLogRises(schema, s, es[..|es| - 1], g);
      SerialLogLast(schema, s, es, g);
      RunLast(schema, s, es);
      hide Run, SerialLog, SerialValue;
    }
  }

  // ---- An encoded section ----

  /** The changes of a signal's stream at their ticks. */
  function EntriesAt(ticks: seq<nat>, changes: seq<Indexed>): seq<Recorded> {
    seq(|changes|, i requires 0 <= i < |changes| =>
      Recorded(if changes[i].index < |ticks| then ticks[changes[i].index] else 0, changes[i].value))
  }

  function Entries(enc: EncodedSection, g: nat): seq<Recorded>
    requires g < |enc.streams|
  {
    EntriesAt(enc.ticks, Absolute(enc.streams[g]))
  }

  lemma ResolveLast(start: nat, ticks: seq<nat>, log: seq<Stamped>)
    requires log != []
    ensures Resolve(start, ticks, log)
         == Resolve(start, ticks, log[..|log| - 1]) + [Recorded(TickOf(start, ticks, log[|log| - 1].index), log[|log| - 1].value)]
  {
    hide TickOf;
  }

  ghost predicate InTable(log: seq<Stamped>, ticks: seq<nat>) {
    forall i :: 0 <= i < |log| ==> log[i].index.Some? ==> log[i].index.value < |ticks|
  }

  lemma {:induction false} AllFrameTime(ticks: seq<nat>, log: seq<Stamped>)
    requires forall i :: 0 <= i < |log| ==> log[i].index.None?
    ensures AllZero(Resolve(0, ticks, log))
  {}

  lemma EntriesAtSnoc(ticks: seq<nat>, changes: seq<Indexed>, c: Indexed)
    requires c.index < |ticks|
    ensures EntriesAt(ticks, changes + [c]) == EntriesAt(ticks, changes) + [Recorded(ticks[c.index], c.value)]
  {}

  /** The first section: the slot holds the frame and the stream the later changes. */
  lemma {:induction false} FirstSectionHolds(value: seq<Byte>, ticks: seq<nat>, log: seq<Stamped>)
    requires Rising(log) && InTable(log, ticks) && AllPositive(ticks)
    ensures FirstHolds(value, ticks, StoreAll(Slot(value, value, []), log), Resolve(0, ticks, log))
  {
    if log != [] {
      var init, s := log[..|log| - 1], log[|log| - 1];
      assert Rising(init) && InTable(init, ticks);
      FirstSectionHolds(value, ticks, init);
      ResolveLast(0, ticks, log);
      if s.index.None? {
        assert forall i :: 0 <= i < |init| ==> Rank(init[i].index) <= Rank(s.index);
        AllFrameTime(ticks, init);
      }
      hide Resolve, FirstHolds, Rising;
      FirstStep(value, ticks, StoreAll(Slot(value, value, []), init), Resolve(0, ticks, init), s);
    }
  }

  ghost predicate FirstHolds(value: seq<Byte>, ticks: seq<nat>, slot: Slot, log: seq<Recorded>) {
    && slot.current == LastOf(value, log) && slot.frame == FrameOf(value, log)
    && EntriesAt(ticks, slot.changes) == EntriesOf(value, log)
  }

  lemma FirstStep(value: seq<Byte>, ticks: seq<nat>, slot: Slot, log: seq<Recorded>, s: Stamped)
    requires FirstHolds(value, ticks, slot, log) && AllPositive(ticks)
    requires if s.index.Some? then s.index.value < |ticks| else AllZero(log)
    ensures FirstHolds(value, ticks, StoreOne(slot, s), log + [Recorded(TickOf(0, ticks, s.index), s.value)])
  {
    var r := Recorded(TickOf(0, ticks, s.index), s.value);
    hide FrameOf, EntriesOf, EntriesAt, AllZero;
    ContentStep(value, log, r);
    assert EntriesOf(value, log) + [] == EntriesOf(value, log);
    if s.index.Some? { EntriesAtSnoc(ticks, slot.changes, Indexed(s.index.value, s.value)); }
  }

  /** A later section: the stream holds every change that is no repeat, and the slot is untouched. */
  lemma {:induction false} LaterSectionHolds(value: seq<Byte>, start: nat, ticks: seq<nat>, log: seq<Stamped>)
    requires InTable(log, ticks) && forall i :: 0 <= i < |log| ==> log[i].index.Some?
    ensures LaterHolds(value, ticks, StoreAll(Slot(value, value, []), log), Resolve(start, ticks, log))
  {
    if log != [] {
      var init, s := log[..|log| - 1], log[|log| - 1];
      assert InTable(init, ticks);
      LaterSectionHolds(value, start, ticks, init);
      ResolveLast(start, ticks, log);
      hide Resolve, LaterHolds;
      LaterStepHolds(value, start, ticks, StoreAll(Slot(value, value, []), init), Resolve(start, ticks, init), s);
    }
  }

  ghost predicate LaterHolds(value: seq<Byte>, ticks: seq<nat>, slot: Slot, log: seq<Recorded>) {
    && slot.current == LastOf(value, log) && slot.frame == value
    && EntriesAt(ticks, slot.changes) == Normal(value, log)
  }

  lemma LaterStepHolds(value: seq<Byte>, start: nat, ticks: seq<nat>, slot: Slot, log: seq<Recorded>, s: Stamped)
    requires LaterHolds(value, ticks, slot, log) && s.index.Some? && s.index.value < |ticks|
    ensures LaterHolds(value, ticks, StoreOne(slot, s), log + [Recorded(TickOf(start, ticks, s.index), s.value)])
  {
    hide Normal, EntriesAt;
    NormalSnoc(value, log, Recorded(TickOf(start, ticks, s.index), s.value));
    assert Normal(value, log) + [] == Normal(value, log);
    EntriesAtSnoc(ticks, slot.changes, Indexed(s.index.value, s.value));
  }

  // ---- The records of a section are in order ----

  lemma StampsUpToConcat(x: seq<Stamped>, a: Option<nat>, y: seq<Stamped>, b: Option<nat>)
    requires StampsUpTo(x, a) && StampsUpTo(y, b) && Rank(a) <= Rank(b)
    requires forall i :: 0 <= i < |y| ==> Rank(a) <= Rank(y[i].index)
    ensures StampsUpTo(x + y, b)
  {}

  lemma RecordsUpTo(schema: Schema, rs: seq<Record>, off: bool, t: Table, u: Table, map_: seq<Option<nat>>, g: nat)
    requires GroupsFit(schema, rs) && TimesRise(rs) && Mapped(t, u, map_)
    requires forall i :: 0 <= i < |rs| ==> (rs[i].time.Some? ==> rs[i].time.value < |map_|)
    ensures StampsUpTo(StampAll(schema, rs, off, Now(t), map_, g), Now(u))
    ensures forall i :: 0 <= i < |StampAll(schema, rs, off, Now(t), map_, g)| ==>
              Rank(Now(t)) <= Rank(StampAll(schema, rs, off, Now(t), map_, g)[i].index)
  {
    StampAllRises(schema, rs, off, Now(t), map_, g);
    var last := if rs == [] then Now(t) else Stamp(Now(t), map_, rs[|rs| - 1].time);
    assert Rank(last) <= Rank(Now(u));
    hide StampAll, StampsUpTo, Rank, Now, TimesRise;
    StampsUpToLater(StampAll(schema, rs, off, Now(t), map_, g), last, Now(u));
  }

  lemma ApplyRises(schema: Schema, sec: Section, p: ChunkEvents, g: nat)
    requires SectionFits(schema, sec) && Shaped(schema, p) && Usable(schema, p) && g < |schema.groups|
    requires StampsUpTo(sec.records[g], Now(sec.table))
    ensures StampsUpTo(Apply(schema, sec, p).records[g], Now(Apply(schema, sec, p).table))
  {
    var t, u, map_ := sec.table, AddTicks(sec.table, p.timestamps), TimeMap(sec.table, p.timestamps);
    SectionTable(schema, sec);
    TableMapped(sec.start, t, p.timestamps);
    MappedRank(t, u, map_);
    UsableFragment(schema, p, g);
    AppliedRecords(schema, sec, p);
    PartCases(schema, sec, p, g);
    NoneUpTo(Now(u));
    assert |map_| == |p.timestamps|;
    hide StampAll, StampsUpTo, Rank, Now, TimesRise, AddTicks, TimeMap, TableFits, Shaped, Usable, SectionFits, Mapped, Added,
         NeighboursDiffer, PartFits, PartKept;
    RecordsUpTo(schema, p.changes, !sec.dumpEnabled, t, u, map_, g);
    RecordsUpTo(schema, p.fragments[g], false, t, u, map_, g);
    StampsUpToConcat(sec.records[g], Now(t), Added(schema, p, !sec.dumpEnabled, Now(t), map_, g), Now(u));
  }

  lemma NoneUpTo(index: Option<nat>)
    ensures StampsUpTo([], index)
  {}

  lemma {:induction false} RecordsRise(schema: Schema, c: Carried, first: bool, ps: seq<ChunkEvents>, g: nat)
    requires CanEncode(schema, c, first, ps) && g < |schema.groups|
    ensures StampsUpTo(EncodeSection(schema, c, first, ps).records[g], Now(EncodeSection(schema, c, first, ps).table))
  {
    hide Shaped, Usable, Apply, StampsUpTo, Now, StartFits, Rank;
    if ps == [] {
      NoneUpTo(Now(OpenSection(schema, c, first).table));
    } else {
      RecordsRise(schema, c, first, ps[..|ps| - 1], g);
      ApplyRises(schema, EncodeSection(schema, c, first, ps[..|ps| - 1]), ps[|ps| - 1], g);
    }
  }

  /** Everything about a section's records of one signal that its content depends on. */
  lemma RecordsFit(schema: Schema, c: Carried, first: bool, ps: seq<ChunkEvents>, g: nat)
    requires CanEncode(schema, c, first, ps) && g < |schema.groups|
    ensures var sec := EncodeSection(schema, c, first, ps);
            && g < |sec.records| == |schema.groups| && Rising(sec.records[g]) && InTable(sec.records[g], sec.table.ticks)
            && (first ==> sec.start == 0 && AllPositive(sec.table.ticks))
            && (!first ==> forall i :: 0 <= i < |sec.records[g]| ==> sec.records[g][i].index.Some?)
  {
    var sec := EncodeSection(schema, c, first, ps);
    SectionIsFirst(schema, c, first, ps);
    RecordsRise(schema, c, first, ps, g);
    hide EncodeSection, Shaped, Usable, TableFits;
    assert StampsFit(sec, sec.records[g]);
  }

  // ---- Encoded sections against the serial writer ----

  /** The first encoded section holds, for every signal, the later changes that the serial writer
      holds; its frame value is the serial one exactly where `FramesRight` says so. */
  lemma FirstSectionIsSerial(schema: Schema, s: State, cs: seq<Piece>, enc: EncodedSection, g: nat)
    requires Fits(schema, s) && StartFits(schema, CarriedOf(s), true) && PiecesFit(schema, cs) && g < |schema.groups|
    requires CanEncode(schema, CarriedOf(s), true, Summaries(schema, cs))
    requires Contains(enc, EncodeSection(schema, CarriedOf(s), true, Summaries(schema, cs)), s.frame,
                      FramesRight(schema, CarriedOf(s), true, Summaries(schema, cs)))
    ensures InSchema(schema, AllEvents(cs)) && g < |enc.frame| == |enc.streams|
    ensures Entries(enc, g) == EntriesOf(s.frame[g], SerialLog(schema, s, AllEvents(cs), g))
    ensures FramesRight(schema, CarriedOf(s), true, Summaries(schema, cs))[g]
       <==> enc.frame[g] == FrameOf(s.frame[g], SerialLog(schema, s, AllEvents(cs), g))
  {
    var sec := EncodeSection(schema, CarriedOf(s), true, Summaries(schema, cs));
    RecordsFit(schema, CarriedOf(s), true, Summaries(schema, cs), g);
    SectionIsSerial(schema, s, true, cs, g);
    hide EncodeSection, FramesRight, Summaries, PieceFits, Fits, CanEncode, StoreAll, Resolve, Rising, InTable, AllPositive,
         SerialLog, EntriesAt, Absolute, Normal, StartFits, AllEvents, InSchema, AllShaped, LastOf, AtZero, AfterZero;
    FirstSectionHolds(s.frame[g], sec.table.ticks, sec.records[g]);
  }

  /** A later encoded section starts from the serial values and holds every serial change that is no repeat. */
  lemma LaterSectionIsSerial(schema: Schema, s: State, cs: seq<Piece>, enc: EncodedSection, g: nat)
    requires Fits(schema, s) && StartFits(schema, CarriedOf(s), false) && PiecesFit(schema, cs) && g < |schema.groups|
    requires CanEncode(schema, CarriedOf(s), false, Summaries(schema, cs))
    requires Contains(enc, EncodeSection(schema, CarriedOf(s), false, Summaries(schema, cs)), s.frame,
                      FramesRight(schema, CarriedOf(s), false, Summaries(schema, cs)))
    ensures InSchema(schema, AllEvents(cs)) && g < |enc.frame| == |enc.streams|
    ensures enc.frame[g] == s.frame[g]
    ensures Entries(enc, g) == Normal(s.frame[g], SerialLog(schema, s, AllEvents(cs), g))
  {
    var sec := EncodeSection(schema, CarriedOf(s), false, Summaries(schema, cs));
    RecordsFit(schema, CarriedOf(s), false, Summaries(schema, cs), g);
    SectionIsSerial(schema, s, false, cs, g);
    PositiveSectionsEncode(schema, CarriedOf(s), false, Summaries(schema, cs));
    hide EncodeSection, FramesRight, Summaries, PieceFits, Fits, CanEncode, StoreAll, Resolve, Rising, InTable, AllPositive,
         SerialLog, EntriesAt, Absolute, Normal, StartFits, AllEvents, InSchema, AllShaped, LastOf;
    LaterSectionHolds(s.frame[g], sec.start, sec.table.ticks, sec.records[g]);
  }

  // ---- Reading a value ----

  /** The value at a tick: the last change at or before it. */
  function ReadAt(value: seq<Byte>, log: seq<Recorded>, tick: nat): seq<Byte> {
    if log == [] then value
    else if log[|log| - 1].tick <= tick then log[|log| - 1].value
    else ReadAt(value, log[..|log| - 1], tick)
  }

  lemma {:induction false} ReadConcat(value: seq<Byte>, x: seq<Recorded>, y: seq<Recorded>, tick: nat)
    ensures ReadAt(value, x + y, tick) == ReadAt(ReadAt(value, x, tick), y, tick)
  {
    if y == [] {
      assert x + y == x;
    } else {
      assert (x + y)[..|x + y| - 1] == x + y[..|y| - 1];
      ReadConcat(value, x, y[..|y| - 1], tick);
    }
  }

  lemma {:induction false} ReadNormal(value: seq<Byte>, log: seq<Recorded>, tick: nat)
    requires TicksRise(log)
    ensures ReadAt(value, Normal(value, log), tick) == ReadAt(value, log, tick)
  {
    if log != [] {
      var init, r := log[..|log| - 1], log[|log| - 1];
      ReadNormal(value, init, tick);
      assert init + [r] == log;
      NormalSnoc(value, init, r);
      if r.tick <= tick { ReadAll(value, init, tick); }
      ReadSnoc(value, Normal(value, init), r, tick);
      hide Normal;
    }
  }

  lemma ReadSnoc(value: seq<Byte>, log: seq<Recorded>, r: Recorded, tick: nat)
    ensures ReadAt(value, log + [r], tick) == if r.tick <= tick then r.value else ReadAt(value, log, tick)
    ensures log + [] == log
  {
    assert (log + [r])[..|log|] == log;
  }

  lemma ReadAll(value: seq<Byte>, log: seq<Recorded>, tick: nat)
    requires forall i :: 0 <= i < |log| ==> log[i].tick <= tick
    ensures ReadAt(value, log, tick) == LastOf(value, log)
  {}

  /** Frame and entries of a first section read as the whole log. */
  lemma {:induction false} ReadContent(value: seq<Byte>, log: seq<Recorded>, tick: nat)
    requires TicksRise(log)
    ensures ReadAt(FrameOf(value, log), EntriesOf(value, log), tick) == ReadAt(value, log, tick)
  {
    if log != [] {
      var init, r := log[..|log| - 1], log[|log| - 1];
      ReadContent(value, init, tick);
      assert init + [r] == log;
      ContentStep(value, init, r);
      ReadSnoc(value, init, r, tick);
      ReadSnoc(FrameOf(value, init), EntriesOf(value, init), r, tick);
      if r.tick > 0 && r.tick <= tick { ReadAll(value, init, tick); }
      hide FrameOf, EntriesOf;
    }
  }

  /** A later section read after everything before it. */
  lemma ReadLater(value: seq<Byte>, before: seq<Recorded>, log: seq<Recorded>, tick: nat)
    requires TicksRise(before + log)
    ensures ReadAt(ReadAt(value, before, tick), Normal(LastOf(value, before), log), tick) == ReadAt(value, before + log, tick)
  {
    ReadConcat(value, before, log, tick);
    assert TicksRise(log) by {
      assert forall i :: 0 <= i < |log| ==> (before + log)[|before| + i] == log[i];
    }
    if log != [] && log[0].tick <= tick {
      forall i | 0 <= i < |before| ensures before[i].tick <= tick {
        assert (before + log)[i].tick <= (before + log)[|before|].tick;
      }
      ReadAll(value, before, tick);
      ReadNormal(LastOf(value, before), log, tick);
    } else {
      NothingYet(ReadAt(value, before, tick), log, tick);
      NormalWithin(LastOf(value, before), log, tick);
      NothingYet(ReadAt(value, before, tick), Normal(LastOf(value, before), log), tick);
    }
  }

  lemma {:induction false} NothingYet(value: seq<Byte>, log: seq<Recorded>, tick: nat)
    requires forall i :: 0 <= i < |log| ==> tick < log[i].tick
    ensures ReadAt(value, log, tick) == value
  {
    if log != [] { NothingYet(value, log[..|log| - 1], tick); }
  }

  lemma {:induction false} NormalWithin(value: seq<Byte>, log: seq<Recorded>, tick: nat)
    requires forall i :: 0 <= i < |log| ==> tick < log[i].tick
    ensures forall i :: 0 <= i < |Normal(value, log)| ==> tick < Normal(value, log)[i].tick
  {
    if log != [] { NormalWithin(value, log[..|log| - 1], tick); }
  }
}
