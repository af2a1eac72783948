/** The object that encodes a section (crates/bwave/src/fst.rs, `ActiveSectionEncoder`, over
    the streams of crates/bwave/vendor/fst-writer/src/buffer.rs). */
module SectionEncoder {
  import opened Basics
  import opened BitText
  import opened VcdText
  import opened SerialConversion
  import opened ChunkParsing
  import opened Reconciliation
  import opened ChunkLogs
  import opened SectionEncoding
  import opened SignalStreams

  // ---- Stamps are in order ----

  lemma NowRises(t: Table, u: Table)
    requires t.ticks <= u.ticks
    ensures Rank(Now(t)) <= Rank(Now(u))
  {}

  lemma MappedBetween(start: nat, t: Table, ts: seq<nat>, i: nat, j: nat)
    requires TableFits(start, t) && i <= j <= |ts|
    ensures Rank(Now(t)) <= Rank(Now(AddTicks(t, ts[..i]))) <= Rank(Now(AddTicks(t, ts[..j]))) <= Rank(Now(AddTicks(t, ts)))
  {
    hide AddTicks, TableFits, AdvanceAll, Now, Rank;
    AddTicksFits(start, t, ts[..i]);
    TicksGrow(t, ts, j);
    TicksGrow(t, ts[..j], i);
    assert ts[..j][..i] == ts[..i];
    NowRises(t, AddTicks(t, ts[..i]));
    NowRises(AddTicks(t, ts[..i]), AddTicks(t, ts[..j]));
    NowRises(AddTicks(t, ts[..j]), AddTicks(t, ts));
  }

  /** Mapped times never fall, start at the incoming index and end at the current one. */
  lemma TimeMapRises(start: nat, t: Table, ts: seq<nat>)
    requires TableFits(start, t)
    ensures MapRises(TimeMap(t, ts))
    ensures forall k :: 0 <= k < |ts| ==> Rank(Now(t)) <= Rank(TimeMap(t, ts)[k]) <= Rank(Now(AddTicks(t, ts)))
  {
    hide AddTicks, TableFits, Now, Rank;
    forall i, j | 0 <= i <= j < |ts|
      ensures Rank(Now(t)) <= Rank(TimeMap(t, ts)[i]) <= Rank(TimeMap(t, ts)[j]) <= Rank(Now(AddTicks(t, ts)))
    {
      MappedBetween(start, t, ts, i + 1, j + 1);
    }
  }

  ghost predicate StampsRise(incoming: Option<nat>, map_: seq<Option<nat>>) {
    MapRises(map_) && forall k :: 0 <= k < |map_| ==> Rank(incoming) <= Rank(map_[k])
  }

  lemma LaterStamp(incoming: Option<nat>, map_: seq<Option<nat>>, a: Option<nat>, b: Option<nat>)
    requires StampsRise(incoming, map_) && TimeRank(a) <= TimeRank(b) && (b.Some? ==> b.value < |map_|)
    ensures Rank(Stamp(incoming, map_, a)) <= Rank(Stamp(incoming, map_, b))
  {}

  ghost predicate StampsUpTo(log: seq<Stamped>, index: Option<nat>) {
    Rising(log) && forall i :: 0 <= i < |log| ==> Rank(log[i].index) <= Rank(index)
  }

  lemma StampsUpToSnoc(log: seq<Stamped>, a: Option<nat>, s: Stamped)
    requires StampsUpTo(log, a) && Rank(a) <= Rank(s.index)
    ensures StampsUpTo(log + [s], s.index)
  {}

  lemma StampsUpToLater(log: seq<Stamped>, a: Option<nat>, b: Option<nat>)
    requires StampsUpTo(log, a) && Rank(a) <= Rank(b)
    ensures StampsUpTo(log, b)
  {}

  lemma {:induction false} StampAllRises(schema: Schema, changes: seq<Record>, off: bool, incoming: Option<nat>, map_: seq<Option<nat>>, g: nat)
    requires GroupsFit(schema, changes) && TimesRise(changes) && StampsRise(incoming, map_)
    requires forall i :: 0 <= i < |changes| ==> (changes[i].time.Some? ==> changes[i].time.value < |map_|)
    ensures StampsUpTo(StampAll(schema, changes, off, incoming, map_, g),
                       if changes == [] then incoming else Stamp(incoming, map_, changes[|changes| - 1].time))
    ensures forall i :: 0 <= i < |StampAll(schema, changes, off, incoming, map_, g)| ==>
              Rank(incoming) <= Rank(StampAll(schema, changes, off, incoming, map_, g)[i].index)
  {
    if changes != [] {
      var init, r := changes[..|changes| - 1], changes[|changes| - 1];
      StampAllRises(schema, init, off, incoming, map_, g);
      var before := if init == [] then incoming else Stamp(incoming, map_, init[|init| - 1].time);
      if init != [] { LaterStamp(incoming, map_, init[|init| - 1].time, r.time); } else { LaterStamp(incoming, map_, None, r.time); }
      hide Value, StampsUpTo, StampsRise, Stamp, Rank;
      var log := StampAll(schema, init, off, incoming, map_, g);
      StampsUpToLater(log, before, Stamp(incoming, map_, r.time));
      if r.group == g && IsEnabled(r.dump, off) {
        StampsUpToSnoc(log, before, Stamped(Stamp(incoming, map_, r.time), Value(schema, r)));
      }
      StampAfterIncoming(incoming, map_, r.time);
    }
  }

  lemma StampAfterIncoming(incoming: Option<nat>, map_: seq<Option<nat>>, time: Option<nat>)
    requires StampsRise(incoming, map_)
    ensures Rank(incoming) <= Rank(Stamp(incoming, map_, time))
  {}

  // ---- One signal of a section ----

  /** A stream holds a log: current value and later changes always, the frame slot exactly when `safe`. */
  ghost predicate Holds(st: SignalState, value: seq<Byte>, log: seq<Stamped>, t: Table, safe: bool) {
    var slot := StoreAll(Slot(value, value, []), log);
    && st.Valid() && PreviousFits(t, st.previous)
    && st.current == slot.current && st.View().changes == slot.changes
    && (safe <==> st.frame == slot.frame)
  }

  ghost predicate PreviousFits(t: Table, previous: nat) {
    previous <= if t.ticks == [] then 0 else |t.ticks| - 1
  }

  ghost predicate HasFrameTime(log: seq<Stamped>) {
    exists i :: 0 <= i < |log| && log[i].index.None?
  }

  /** What is stored next does not depend on the frame slot, which only frame-time changes replace. */
  lemma {:induction false} FrameDoesNotMatter(a: Slot, b: Slot, log: seq<Stamped>)
    requires a.current == b.current && a.changes == b.changes
    ensures StoreAll(a, log).current == StoreAll(b, log).current
    ensures StoreAll(a, log).changes == StoreAll(b, log).changes
    ensures if HasFrameTime(log) then StoreAll(a, log).frame == StoreAll(b, log).frame
            else StoreAll(a, log).frame == a.frame && StoreAll(b, log).frame == b.frame
  {
    if log != [] {
      var init := log[..|log| - 1];
      FrameDoesNotMatter(a, b, init);
      if log[|log| - 1].index.Some? && HasFrameTime(log) {
        var i :| 0 <= i < |log| && log[i].index.None?;
        assert init[i].index.None?;
      }
    }
  }

  lemma HoldsMore(st: SignalState, value: seq<Byte>, log: seq<Stamped>, t: Table, safe: bool,
                  after: SignalState, more: seq<Stamped>, u: Table, kept: bool)
    requires Holds(st, value, log, t, safe) && after.Valid() && PreviousFits(u, after.previous)
    requires after.current == StoreAll(st.View(), more).current && after.View().changes == StoreAll(st.View(), more).changes
    requires kept <==> after.frame == StoreAll(st.View(), more).frame
    requires !HasFrameTime(more) ==> kept
    ensures Holds(after, value, log + more, u, (safe || HasFrameTime(more)) && kept)
  {
    var slot := StoreAll(Slot(value, value, []), log);
    FrameDoesNotMatter(st.View(), slot, more);
    StoreConcat(Slot(value, value, []), log, more);
  }

  lemma HoldsStill(st: SignalState, value: seq<Byte>, log: seq<Stamped>, t: Table, safe: bool, u: Table)
    requires Holds(st, value, log, t, safe) && t.ticks <= u.ticks
    ensures Holds(st, value, log + [], u, safe)
  {
    assert log + [] == log;
  }

  /** Everything the stamps of a chunk need to know about the table before and after it. */
  ghost predicate Mapped(t: Table, u: Table, timeMap: seq<Option<nat>>) {
    && StampsRise(Now(t), timeMap)
    && Rank(Now(t)) <= Rank(Now(u)) && forall k :: 0 <= k < |timeMap| ==> Rank(timeMap[k]) <= Rank(Now(u))
  }

  lemma TableMapped(start: nat, t: Table, ts: seq<nat>)
    requires TableFits(start, t)
    ensures Mapped(t, AddTicks(t, ts), TimeMap(t, ts))
  {
    TimeMapRises(start, t, ts);
    AddTicksFits(start, t, ts);
    NowRises(t, AddTicks(t, ts));
  }

  function MaxIndex(t: Table): nat {
    if t.ticks == [] then 0xFFFF_FFFF else |t.ticks| - 1
  }

  lemma StampsAreOrderly(schema: Schema, changes: seq<Record>, off: bool, t: Table, u: Table, timeMap: seq<Option<nat>>, g: nat,
                         previous: nat, first: bool)
    requires GroupsFit(schema, changes) && TimesRise(changes) && Mapped(t, u, timeMap) && PreviousFits(t, previous)
    requires forall i :: 0 <= i < |changes| ==> (changes[i].time.Some? ==> changes[i].time.value < |timeMap|)
    requires first || t.ticks != []
    ensures Orderly(StampAll(schema, changes, off, Now(t), timeMap, g), previous, MaxIndex(u), first)
    ensures u.ticks == [] ==> forall i :: 0 <= i < |StampAll(schema, changes, off, Now(t), timeMap, g)| ==>
              StampAll(schema, changes, off, Now(t), timeMap, g)[i].index.None?
  {
    var log := StampAll(schema, changes, off, Now(t), timeMap, g);
    StampAllRises(schema, changes, off, Now(t), timeMap, g);
    hide StampAll, Value;
    forall i | 0 <= i < |log| ensures Rank(Now(t)) <= Rank(log[i].index) <= Rank(Now(u)) {
      if changes != [] {
        var last := changes[|changes| - 1];
        assert last.time.Some? ==> last.time.value < |timeMap|;
      }
    }
  }

  lemma NoStamps(schema: Schema, incoming: Option<nat>, map_: seq<Option<nat>>)
    ensures GroupsFit(schema, [])
    ensures forall off, g :: StampAll(schema, [], off, incoming, map_, g) == []
  {}

  lemma StampNext(schema: Schema, changes: seq<Record>, k: nat, off: bool, incoming: Option<nat>, map_: seq<Option<nat>>)
    requires GroupsFit(schema, changes) && k < |changes|
    ensures GroupsFit(schema, changes[..k]) && GroupsFit(schema, changes[..k + 1])
    ensures forall g :: (
              StampAll(schema, changes[..k + 1], off, incoming, map_, g)
              == StampAll(schema, changes[..k], off, incoming, map_, g)
                 + if changes[k].group == g && IsEnabled(changes[k].dump, off)
                   then [Stamped(Stamp(incoming, map_, changes[k].time), Value(schema, changes[k]))] else [])
  {
    assert changes[..k + 1][..k] == changes[..k];
    hide Stamp, Value;
  }

  /** The stamped changes of one signal, one by one. */
  method StampsFor(schema: Schema, changes: seq<Record>, off: bool, incoming: Option<nat>, timeMap: seq<Option<nat>>, g: nat)
    returns (log: seq<Stamped>)
    requires GroupsFit(schema, changes)
    ensures log == StampAll(schema, changes, off, incoming, timeMap, g)
  {
    log := [];
    assert changes[..0] == [];
    hide StampAll, Stamp, Value;
    NoStamps(schema, incoming, timeMap);
    for k := 0 to |changes|
      invariant GroupsFit(schema, changes[..k])
      invariant log == StampAll(schema, changes[..k], off, incoming, timeMap, g)
    {
      var r := changes[k];
      StampNext(schema, changes, k, off, incoming, timeMap);
      if r.group == g && IsEnabled(r.dump, off) {
        log := log + [Stamped(Stamp(incoming, timeMap, r.time), Value(schema, r))];
      } else {
        assert log + [] == log;
      }
    }
    assert changes[..|changes|] == changes;
  }

  /** Stores the enabled changes of a summary that came as a list of changes. */
  method StoreChanges(schema: Schema, st: SignalState, changes: seq<Record>, off: bool, timeMap: seq<Option<nat>>, g: nat,
                      first: bool, ghost t: Table, u: Table, incoming: Option<nat>,
                      ghost value: seq<Byte>, ghost log: seq<Stamped>, ghost safe: bool)
    returns (r: SignalState)
    requires GroupsFit(schema, changes) && TimesRise(changes) && Mapped(t, u, timeMap) && incoming == Now(t)
    requires forall i :: 0 <= i < |changes| ==> (changes[i].time.Some? ==> changes[i].time.value < |timeMap|)
    requires first || t.ticks != []
    requires Holds(st, value, log, t, safe)
    ensures Holds(r, value, log + StampAll(schema, changes, off, incoming, timeMap, g), u,
                  safe || HasFrameTime(StampAll(schema, changes, off, incoming, timeMap, g)))
  {
    HoldsValid(st, value, log, t, safe);
    MappedRank(t, u, timeMap);
    StampsAreOrderly(schema, changes, off, t, u, timeMap, g, st.previous, first);
    hide *;
    var more := StampsFor(schema, changes, off, incoming, timeMap, g);
    var applied := ApplyRecords(st, more, MaxIndex(u), first);
    r := applied.value;
    StoredHolds(st, value, log, t, safe, r, more, u, first);
  }

  lemma HoldsValid(st: SignalState, value: seq<Byte>, log: seq<Stamped>, t: Table, safe: bool)
    requires Holds(st, value, log, t, safe)
    ensures st.Valid() && PreviousFits(t, st.previous)
  {}

  lemma StoredHolds(st: SignalState, value: seq<Byte>, log: seq<Stamped>, t: Table, safe: bool,
                    after: SignalState, more: seq<Stamped>, u: Table, first: bool)
    requires Holds(st, value, log, t, safe) && Rank(Now(t)) <= Rank(Now(u))
    requires after.Valid() && after.View() == StoreAll(st.View(), more)
    requires after.previous == st.previous || exists i :: 0 <= i < |more| && more[i].index == Some(after.previous)
    requires Orderly(more, st.previous, MaxIndex(u), first)
    requires u.ticks == [] ==> forall i :: 0 <= i < |more| ==> more[i].index.None?
    ensures Holds(after, value, log + more, u, safe || HasFrameTime(more))
  {
    hide StoreAll, Absolute, LastIndex, HasFrameTime;
    HoldsMore(st, value, log, t, safe, after, more, u, true);
  }

  lemma MappedRank(t: Table, u: Table, timeMap: seq<Option<nat>>)
    requires Mapped(t, u, timeMap)
    ensures Rank(Now(t)) <= Rank(Now(u))
  {}

  // ---- Fragments of a summary ----

  ghost predicate AllPrefixTimed(rs: seq<Record>, g: nat, count: nat) {
    forall i :: 0 <= i < |rs| ==> rs[i].group == g && rs[i].dump == Prefix && rs[i].time.Some? && rs[i].time.value < count
  }

  function MarkOf(schema: Schema, r: Record): Mark
    requires r.group < |schema.groups| && r.time.Some?
  {
    Mark(r.time.value, Value(schema, r))
  }

  function MarksOf(schema: Schema, rs: seq<Record>): (marks: seq<Mark>)
    requires GroupsFit(schema, rs) && forall i :: 0 <= i < |rs| ==> rs[i].time.Some?
    ensures |marks| == |rs|
  {
    seq(|rs|, i requires 0 <= i < |rs| => MarkOf(schema, rs[i]))
  }

  lemma MarksKept(schema: Schema, rs: seq<Record>, g: nat, count: nat)
    requires GroupsFit(schema, rs) && AllPrefixTimed(rs, g, count) && TimesRise(rs) && NeighboursDiffer(schema, rs)
    ensures Kept(MarksOf(schema, rs))
    ensures forall i :: 0 <= i < |rs| ==> MarksOf(schema, rs)[i].time < count
  {
    hide Value;
    assert forall i, j :: 0 <= i < j < |rs| ==> TimeRank(rs[i].time) <= TimeRank(rs[j].time);
  }

  /** Stamping a fragment's changes is stamping its records. */
  lemma {:induction false} MarksStamp(schema: Schema, rs: seq<Record>, g: nat, incoming: Option<nat>, timeMap: seq<Option<nat>>)
    requires GroupsFit(schema, rs) && AllPrefixTimed(rs, g, |timeMap|)
    ensures InMap(MarksOf(schema, rs), timeMap)
    ensures StampsOf(MarksOf(schema, rs), timeMap) == StampAll(schema, rs, false, incoming, timeMap, g)
  {
    hide Value;
    if rs != [] {
      var init := rs[..|rs| - 1];
      MarksStamp(schema, init, g, incoming, timeMap);
      assert MarksOf(schema, rs)[..|init|] == MarksOf(schema, init);
      assert StampsOf(MarksOf(schema, rs), timeMap) == StampsOf(MarksOf(schema, init), timeMap) + [Stamp1(schema, rs[|rs| - 1], timeMap)];
    }
  }

  function Stamp1(schema: Schema, r: Record, timeMap: seq<Option<nat>>): Stamped
    requires r.group < |schema.groups| && r.time.Some? && r.time.value < |timeMap|
  {
    Stamped(timeMap[r.time.value], Value(schema, r))
  }

  /** The fragment the parser built: the first record, then every later one pushed. */
  method BuildFragment(schema: Schema, rs: seq<Record>, ghost g: nat, ghost count: nat) returns (f: Fragment)
    requires rs != [] && GroupsFit(schema, rs) && AllPrefixTimed(rs, g, count) && TimesRise(rs) && NeighboursDiffer(schema, rs)
    ensures Kept(MarksOf(schema, rs)) && f == FragmentOf(MarksOf(schema, rs))
  {
    ghost var marks := MarksOf(schema, rs);
    MarksKept(schema, rs, g, count);
    f := Reset(MarkOf(schema, rs[0]));
    assert marks[..1] == [MarkOf(schema, rs[0])];
    hide FragmentOf, Value, TimesRise, NeighboursDiffer;
    for k := 1 to |rs|
      invariant Kept(marks[..k]) && f == FragmentOf(marks[..k])
    {
      assert marks[..k + 1] == marks[..k] + [marks[k]];
      assert marks[k].time >= marks[k - 1].time && marks[k].value != marks[k - 1].value;
      var pushed := Push(f, MarkOf(schema, rs[k]), marks[..k]);
      f := pushed.value;
    }
    assert marks[..|rs|] == marks;
  }

  /** Stores a summary's fragment of one signal. */
  method StoreFragment(schema: Schema, st: SignalState, rs: seq<Record>, timeMap: seq<Option<nat>>, affine: bool, g: nat,
                       first: bool, ghost t: Table, ghost u: Table,
                       ghost value: seq<Byte>, ghost log: seq<Stamped>, ghost safe: bool)
    returns (r: Result<SignalState, StreamError>)
    requires rs != [] && GroupsFit(schema, rs) && AllPrefixTimed(rs, g, |timeMap|) && TimesRise(rs) && NeighboursDiffer(schema, rs)
    requires Mapped(t, u, timeMap) && (affine ==> IsAffine(timeMap)) && Holds(st, value, log, t, safe)
    ensures InMap(MarksOf(schema, rs), timeMap)
    ensures r.Ok? <==> FrameCount(StampsOf(MarksOf(schema, rs), timeMap)) <= (if first then 2 else 0)
    ensures r.Ok? ==> Holds(r.value, value, log + StampAll(schema, rs, false, Now(t), timeMap, g), u,
                            (safe || HasFrameTime(StampAll(schema, rs, false, Now(t), timeMap, g)))
                              && FrameSafe(MarksOf(schema, rs), timeMap))
  {
    ghost var marks := MarksOf(schema, rs);
    var f := BuildFragment(schema, rs, g, |timeMap|);
    MarksStamp(schema, rs, g, Now(t), timeMap);
    MarksAreApplicable(st, marks, t, u, timeMap, value, log, safe);
    hide *;
    r := ApplyFragment(st, f, timeMap, affine, first, marks);
    if r.Ok? {
      FragmentHolds(st, value, log, t, safe, r.value, marks, timeMap, u);
    }
  }

  lemma MarksAreApplicable(st: SignalState, marks: seq<Mark>, t: Table, u: Table, timeMap: seq<Option<nat>>,
                           value: seq<Byte>, log: seq<Stamped>, safe: bool)
    requires marks != [] && Kept(marks) && InMap(marks, timeMap) && Mapped(t, u, timeMap) && Holds(st, value, log, t, safe)
    ensures Applicable(st, marks, timeMap)
  {
    hide StoreAll, Absolute, LastIndex;
  }

  lemma FragmentHolds(st: SignalState, value: seq<Byte>, log: seq<Stamped>, t: Table, safe: bool,
                      after: SignalState, marks: seq<Mark>, timeMap: seq<Option<nat>>, u: Table)
    requires InMap(marks, timeMap) && Mapped(t, u, timeMap) && Holds(st, value, log, t, safe) && after.Valid()
    requires var stored := StoreAll(st.View(), StampsOf(marks, timeMap));
             && after.current == stored.current && after.View().changes == stored.changes
             && (after.frame == stored.frame <==> FrameSafe(marks, timeMap))
    requires after.previous == st.previous || Some(after.previous) in timeMap
    ensures Holds(after, value, log + StampsOf(marks, timeMap), u,
                  (safe || HasFrameTime(StampsOf(marks, timeMap))) && FrameSafe(marks, timeMap))
  {
    NoFrameTime(marks, timeMap);
    hide StoreAll, Absolute, LastIndex, FrameSafe, StampsOf, HasFrameTime;
    HoldsMore(st, value, log, t, safe, after, StampsOf(marks, timeMap), u, FrameSafe(marks, timeMap));
  }

  lemma NoFrameTime(marks: seq<Mark>, timeMap: seq<Option<nat>>)
    requires InMap(marks, timeMap)
    ensures !HasFrameTime(StampsOf(marks, timeMap)) ==> FrameSafe(marks, timeMap)
  {
    var log := StampsOf(marks, timeMap);
    assert log != [] && log[0].index.None? ==> HasFrameTime(log);
  }

  // ---- Frame time in a summary ----

  lemma UsableFragment(schema: Schema, p: ChunkEvents, g: nat)
    requires Shaped(schema, p) && Usable(schema, p) && g < |schema.groups|
    ensures var rs := p.fragments[g];
            && GroupsFit(schema, rs) && AllPrefixTimed(rs, g, |p.timestamps|) && TimesRise(rs) && NeighboursDiffer(schema, rs)
    ensures GroupsFit(schema, p.changes) && TimesRise(p.changes)
    ensures forall i :: 0 <= i < |p.changes| ==> (p.changes[i].time.Some? ==> p.changes[i].time.value < |p.timestamps|)
  {
    ShapedRecords(schema, p, g);
    hide Value;
  }

  /** The signal's changes of a chunk at their section times. */
  function FragmentMarks(schema: Schema, p: ChunkEvents, g: nat): seq<Mark>
    requires Shaped(schema, p) && Usable(schema, p) && g < |schema.groups|
  {
    UsableFragment(schema, p, g);
    MarksOf(schema, p.fragments[g])
  }

  lemma MarksInMap(schema: Schema, sec: Section, p: ChunkEvents, g: nat)
    requires Shaped(schema, p) && Usable(schema, p) && g < |schema.groups|
    ensures InMap(FragmentMarks(schema, p, g), TimeMap(sec.table, p.timestamps))
  {
    UsableFragment(schema, p, g);
    hide Value;
  }

  /** At most two changes of a signal at frame time, and those in the first section only. */
  ghost predicate FrameFits(schema: Schema, sec: Section, p: ChunkEvents)
    requires Shaped(schema, p) && Usable(schema, p)
  {
    NoFragments(p) || !sec.dumpEnabled ||
    forall g :: 0 <= g < |schema.groups| ==> SignalFits(schema, sec, p, g)
  }

  ghost predicate SignalFits(schema: Schema, sec: Section, p: ChunkEvents, g: nat)
    requires Shaped(schema, p) && Usable(schema, p) && g < |schema.groups|
  {
    MarksInMap(schema, sec, p, g);
    FrameCount(StampsOf(FragmentMarks(schema, p, g), TimeMap(sec.table, p.timestamps))) <= if sec.first then 2 else 0
  }

  /** The signal's frame slot ends with its last frame-time change of the summary. */
  ghost predicate SignalKept(schema: Schema, sec: Section, p: ChunkEvents, g: nat)
    requires Shaped(schema, p) && Usable(schema, p) && g < |schema.groups|
  {
    MarksInMap(schema, sec, p, g);
    FrameSafe(FragmentMarks(schema, p, g), TimeMap(sec.table, p.timestamps))
  }

  /** Later sections have no frame-time changes, so every fragment fits and is kept. */
  lemma LaterSectionsFit(schema: Schema, sec: Section, p: ChunkEvents)
    requires SectionFits(schema, sec) && Shaped(schema, p) && Usable(schema, p) && !sec.first
    ensures FrameFits(schema, sec, p) && forall g :: 0 <= g < |schema.groups| ==> PartKept(schema, sec, p, g)
  {
    hide Shaped, Usable, AddTicks, FragmentMarks;
    forall g | 0 <= g < |schema.groups| ensures SignalFits(schema, sec, p, g) && SignalKept(schema, sec, p, g) {
      MarksInMap(schema, sec, p, g);
      TimeMapRises(sec.start, sec.table, p.timestamps);
      NoFrameTimes(FragmentMarks(schema, p, g), TimeMap(sec.table, p.timestamps));
    }
  }

  lemma NoFrameTimes(marks: seq<Mark>, timeMap: seq<Option<nat>>)
    requires InMap(marks, timeMap) && forall k :: 0 <= k < |timeMap| ==> timeMap[k].Some?
    ensures FrameCount(StampsOf(marks, timeMap)) == 0
  {}

  lemma HoldsStart(value: seq<Byte>, t: Table)
    ensures Holds(SignalState(value, value, 0, []), value, [], t, true)
  {}

  /** Whether one signal's part of a summary can be stored, and stored with the right frame. */
  ghost predicate PartFits(schema: Schema, sec: Section, p: ChunkEvents, g: nat)
    requires Shaped(schema, p) && Usable(schema, p) && g < |schema.groups|
  {
    NoFragments(p) || !sec.dumpEnabled || SignalFits(schema, sec, p, g)
  }

  ghost predicate PartKept(schema: Schema, sec: Section, p: ChunkEvents, g: nat)
    requires Shaped(schema, p) && Usable(schema, p) && g < |schema.groups|
  {
    NoFragments(p) || !sec.dumpEnabled || SignalKept(schema, sec, p, g)
  }

  /** Whether the frame slot is right after a summary, given whether it was before. */
  ghost predicate StillRight(schema: Schema, sec: Section, p: ChunkEvents, g: nat, right: bool)
    requires Shaped(schema, p) && Usable(schema, p) && g < |schema.groups|
  {
    && (right || HasFrameTime(Added(schema, p, !sec.dumpEnabled, Now(sec.table), TimeMap(sec.table, p.timestamps), g)))
    && PartKept(schema, sec, p, g)
  }

  ghost function RightAfter(schema: Schema, sec: Section, p: ChunkEvents, right: seq<bool>): (after: seq<bool>)
    requires Shaped(schema, p) && Usable(schema, p) && |right| == |schema.groups|
    ensures |after| == |right|
  {
    seq(|right|, g requires 0 <= g < |right| => StillRight(schema, sec, p, g, right[g]))
  }

  lemma PartCases(schema: Schema, sec: Section, p: ChunkEvents, g: nat)
    requires Shaped(schema, p) && Usable(schema, p) && g < |schema.groups|
    ensures NoFragments(p) || !sec.dumpEnabled || p.fragments[g] == [] ==> PartFits(schema, sec, p, g) && PartKept(schema, sec, p, g)
    ensures var added := Added(schema, p, !sec.dumpEnabled, Now(sec.table), TimeMap(sec.table, p.timestamps), g);
            && GroupsFit(schema, p.changes) && GroupsFit(schema, p.fragments[g])
            && (NoFragments(p) ==> added == StampAll(schema, p.changes, !sec.dumpEnabled, Now(sec.table), TimeMap(sec.table, p.timestamps), g))
            && (!NoFragments(p) && (!sec.dumpEnabled || p.fragments[g] == []) ==> added == [])
            && (!NoFragments(p) && sec.dumpEnabled ==>
                  added == StampAll(schema, p.fragments[g], false, Now(sec.table), TimeMap(sec.table, p.timestamps), g))
  {
    UsableFragment(schema, p, g);
    hide Shaped, Usable, TimeMap, Value, FrameSafe;
  }

  /** One signal's part of a summary. */
  method StoreSignal(schema: Schema, st: SignalState, p: ChunkEvents, g: nat, noFragments: bool, enabled: bool,
                     timeMap: seq<Option<nat>>, affine: bool, incoming: Option<nat>, u: Table, first: bool,
                     ghost was: Section, ghost value: seq<Byte>, ghost safe: bool)
    returns (r: Result<SignalState, StreamError>)
    requires SectionFits(schema, was) && Shaped(schema, p) && Usable(schema, p) && g < |schema.groups|
    requires noFragments == NoFragments(p) && enabled == was.dumpEnabled && first == was.first
    requires incoming == Now(was.table) && timeMap == TimeMap(was.table, p.timestamps) && u == AddTicks(was.table, p.timestamps)
    requires (affine ==> IsAffine(timeMap)) && |was.records| == |schema.groups| && Holds(st, value, was.records[g], was.table, safe)
    ensures r.Ok? <==> PartFits(schema, was, p, g)
    ensures r.Ok? ==> Holds(r.value, value, was.records[g] + Added(schema, p, !enabled, incoming, timeMap, g), u,
                            StillRight(schema, was, p, g, safe))
  {
    ghost var log := was.records[g];
    SectionTable(schema, was);
    TableMapped(was.start, was.table, p.timestamps);
    AddTicksFits(was.start, was.table, p.timestamps);
    UsableFragment(schema, p, g);
    PartCases(schema, was, p, g);
    assert StillRight(schema, was, p, g, safe)
        == ((safe || HasFrameTime(Added(schema, p, !enabled, incoming, timeMap, g))) && PartKept(schema, was, p, g));
    assert |timeMap| == |p.timestamps|;
    hide *;
    if noFragments {
      var stored := StoreChanges(schema, st, p.changes, !enabled, timeMap, g, first, was.table, u, incoming, value, log, safe);
      r := Ok(stored);
    } else if !enabled || p.fragments[g] == [] {
      HoldsStill(st, value, log, was.table, safe, u);
      NothingAdded();
      r := Ok(st);
    } else {
      SignalUnfold(schema, was, p, g);
      r := StoreFragment(schema, st, p.fragments[g], timeMap, affine, g, first, was.table, u, value, log, safe);
    }
  }

  lemma NothingAdded()
    ensures !HasFrameTime([])
  {}

  lemma SectionTable(schema: Schema, sec: Section)
    requires SectionFits(schema, sec)
    ensures TableFits(sec.start, sec.table) && (sec.first || sec.table.ticks != [])
  {}

  lemma SignalUnfold(schema: Schema, sec: Section, p: ChunkEvents, g: nat)
    requires Shaped(schema, p) && Usable(schema, p) && g < |schema.groups| && !NoFragments(p) && sec.dumpEnabled
    ensures GroupsFit(schema, p.fragments[g]) && forall i :: 0 <= i < |p.fragments[g]| ==> p.fragments[g][i].time.Some?
    ensures InMap(MarksOf(schema, p.fragments[g]), TimeMap(sec.table, p.timestamps))
    ensures PartFits(schema, sec, p, g) <==>
              FrameCount(StampsOf(MarksOf(schema, p.fragments[g]), TimeMap(sec.table, p.timestamps))) <= if sec.first then 2 else 0
    ensures PartKept(schema, sec, p, g) <==> FrameSafe(MarksOf(schema, p.fragments[g]), TimeMap(sec.table, p.timestamps))
  {
    UsableFragment(schema, p, g);
    MarksInMap(schema, sec, p, g);
    hide Shaped, Usable, TimeMap, Value, FrameSafe, FrameCount, StampsOf;
  }

  /** All parts together. */
  lemma AllParts(schema: Schema, sec: Section, p: ChunkEvents)
    requires Shaped(schema, p) && Usable(schema, p)
    ensures FrameFits(schema, sec, p) <==> forall g :: 0 <= g < |schema.groups| ==> PartFits(schema, sec, p, g)
  {
    hide Shaped, Usable, SignalFits, SignalKept, NoFragments;
    if |schema.groups| == 0 { assert NoFragments(p) by { NoGroups(schema, p); } }
    if !NoFragments(p) && sec.dumpEnabled {
      assert forall g :: 0 <= g < |schema.groups| ==> PartFits(schema, sec, p, g) == SignalFits(schema, sec, p, g);
    }
  }

  lemma NoGroups(schema: Schema, p: ChunkEvents)
    requires Shaped(schema, p) && |schema.groups| == 0
    ensures NoFragments(p)
  {}

  lemma AppliedRecords(schema: Schema, sec: Section, p: ChunkEvents)
    requires SectionFits(schema, sec) && Shaped(schema, p)
    ensures |Apply(schema, sec, p).records| == |sec.records| == |schema.groups|
    ensures forall g :: 0 <= g < |sec.records| ==>
              Apply(schema, sec, p).records[g]
              == sec.records[g] + Added(schema, p, !sec.dumpEnabled, Now(sec.table), TimeMap(sec.table, p.timestamps), g)
  {
    hide Added, TimeMap;
  }

  // ---- The encoder object ----

  ghost predicate AllHold(states: seq<SignalState>, origin: seq<seq<Byte>>, records: seq<seq<Stamped>>, t: Table, safe: seq<bool>) {
    && |states| == |origin| == |records| == |safe|
    && forall g :: 0 <= g < |states| ==> Holds(states[g], origin[g], records[g], t, safe[g])
  }

  lemma AllHoldStart(frame: seq<seq<Byte>>, records: seq<seq<Stamped>>, states: seq<SignalState>, t: Table, safe: seq<bool>)
    requires |records| == |frame| == |states| == |safe|
    requires forall g :: 0 <= g < |frame| ==> records[g] == [] && safe[g] && states[g] == SignalState(frame[g], frame[g], 0, [])
    ensures AllHold(states, frame, records, t, safe)
  {
    hide Holds;
    forall g | 0 <= g < |frame| ensures Holds(states[g], frame[g], records[g], t, safe[g]) {
      HoldsStart(frame[g], t);
    }
  }

  lemma AllHoldAt(states: seq<SignalState>, origin: seq<seq<Byte>>, records: seq<seq<Stamped>>, t: Table, safe: seq<bool>, g: nat)
    requires AllHold(states, origin, records, t, safe) && g < |states|
    ensures |states| == |origin| == |records| == |safe| && Holds(states[g], origin[g], records[g], t, safe[g])
  {}

  lemma AllHoldSnoc(states: seq<SignalState>, origin: seq<seq<Byte>>, records: seq<seq<Stamped>>, t: Table, safe: seq<bool>, st: SignalState)
    requires |origin| == |records| == |safe| && |states| < |origin|
    requires AllHold(states, origin[..|states|], records[..|states|], t, safe[..|states|])
    requires Holds(st, origin[|states|], records[|states|], t, safe[|states|])
    ensures AllHold(states + [st], origin[..|states| + 1], records[..|states| + 1], t, safe[..|states| + 1])
  {
    hide Holds;
  }

  lemma AllHoldWhole(states: seq<SignalState>, origin: seq<seq<Byte>>, records: seq<seq<Stamped>>, t: Table, safe: seq<bool>)
    requires |states| == |origin| == |records| == |safe| && AllHold(states, origin[..|states|], records[..|states|], t, safe[..|states|])
    ensures AllHold(states, origin, records, t, safe)
  {
    assert origin[..|states|] == origin && records[..|states|] == records && safe[..|states|] == safe;
  }

  lemma NoneHold(origin: seq<seq<Byte>>, records: seq<seq<Stamped>>, t: Table, safe: seq<bool>)
    ensures AllHold([], origin[..0], records[..0], t, safe[..0])
  {}

  lemma HoldCount(states: seq<SignalState>, origin: seq<seq<Byte>>, records: seq<seq<Stamped>>, t: Table, safe: seq<bool>)
    requires AllHold(states, origin, records, t, safe)
    ensures |states| == |origin| == |records| == |safe|
  {}

  lemma RightAt(schema: Schema, sec: Section, p: ChunkEvents, right: seq<bool>, g: nat)
    requires Shaped(schema, p) && Usable(schema, p) && |right| == |schema.groups| && g < |right|
    ensures RightAfter(schema, sec, p, right)[g] == StillRight(schema, sec, p, g, right[g])
  {
    hide StillRight;
  }

  /** All signals' parts of a summary, in signal order. */
  method StoreParts(schema: Schema, states: seq<SignalState>, p: ChunkEvents, enabled: bool, timeMap: seq<Option<nat>>, affine: bool,
                    incoming: Option<nat>, u: Table, first: bool, ghost was: Section, ghost origin: seq<seq<Byte>>, ghost safe: seq<bool>)
    returns (r: Result<seq<SignalState>, StreamError>)
    requires SectionFits(schema, was) && Shaped(schema, p) && Usable(schema, p)
    requires enabled == was.dumpEnabled && first == was.first && |states| == |schema.groups|
    requires incoming == Now(was.table) && timeMap == TimeMap(was.table, p.timestamps) && u == AddTicks(was.table, p.timestamps)
    requires (affine ==> IsAffine(timeMap)) && AllHold(states, origin, was.records, was.table, safe)
    ensures r.Ok? <==> FrameFits(schema, was, p)
    ensures |safe| == |schema.groups|
    ensures r.Ok? ==> |r.value| == |schema.groups|
                      && AllHold(r.value, origin, Apply(schema, was, p).records, u, RightAfter(schema, was, p, safe))
  {
    hide *;
    AllParts(schema, was, p);
    AppliedRecords(schema, was, p);
    HoldCount(states, origin, was.records, was.table, safe);
    ghost var all, kept := Apply(schema, was, p).records, RightAfter(schema, was, p, safe);
    var noFragments := NoFragments(p);
    var next: seq<SignalState> := [];
    NoneHold(origin, all, u, kept);
    for g := 0 to |schema.groups|
      invariant |next| == g && AllHold(next, origin[..g], all[..g], u, kept[..g])
      invariant forall h :: 0 <= h < g ==> PartFits(schema, was, p, h)
    {
      AllHoldAt(states, origin, was.records, was.table, safe, g);
      var one := StoreSignal(schema, states[g], p, g, noFragments, enabled, timeMap, affine, incoming, u, first, was, origin[g], safe[g]);
      if one.Err? { return Err(one.error); }
      RightAt(schema, was, p, safe, g);
      AllHoldSnoc(next, origin, all, u, kept, one.value);
      next := next + [one.value];
    }
    AllHoldWhole(next, origin, all, u, kept);
    r := Ok(next);
  }

  datatype EncodeError = TimeDecrease | Stream(error: StreamError)

  /** What an encoder hands over: the table of ticks, one frame value and one stream per signal. */
  datatype EncodedSection = EncodedSection(startTick: nat, endTick: nat, ticks: seq<nat>, frame: seq<seq<Byte>>, streams: seq<seq<Entry>>)

  /** An encoded section holds a section's log: its ticks, the later changes, and the right frame value
      exactly for the signals in `safe`. */
  ghost predicate Contains(enc: EncodedSection, sec: Section, origin: seq<seq<Byte>>, safe: seq<bool>) {
    && enc.startTick == sec.start && enc.endTick == sec.table.clock.tick && enc.ticks == sec.table.ticks
    && |enc.frame| == |enc.streams| == |origin| == |sec.records| == |safe|
    && forall g :: 0 <= g < |origin| ==>
         var slot := StoreAll(Slot(origin[g], origin[g], []), sec.records[g]);
         Absolute(enc.streams[g]) == slot.changes && (safe[g] <==> enc.frame[g] == slot.frame)
  }

  class ActiveSectionEncoder {
    const schema: Schema
    const firstFileSection: bool
    const startTick: nat
    ghost const origin: seq<seq<Byte>>
    var ticks: seq<nat>
    var endTime: nat
    var states: seq<SignalState>
    var currentDumpEnabled: bool
    var currentTick: nat
    var timeSeen: bool
    ghost var records: seq<seq<Stamped>>
    ghost var safe: seq<bool>

    ghost predicate Valid()
      reads this
    {
      && SectionFits(schema, View()) && endTime == currentTick && StatesFit(TableView())
    }

    ghost predicate StatesFit(t: Table)
      reads this
    {
      |states| == |schema.groups| && AllHold(states, origin, records, t, safe)
    }

    ghost function View(): Section
      reads this
    {
      Section(firstFileSection, startTick, TableView(), records, currentDumpEnabled)
    }

    constructor (schema: Schema, incoming: Carried, first: bool)
      requires StartFits(schema, incoming, first)
      ensures Valid() && this.schema == schema && origin == incoming.frame
      ensures safe == seq(|schema.groups|, g => true)
      ensures View() == OpenSection(schema, incoming, first)
    {
      this.schema, firstFileSection, startTick, origin := schema, first, incoming.tick, incoming.frame;
      ticks := if first then [] else [incoming.tick];
      endTime := if first then 0 else incoming.tick;
      states := seq(|incoming.frame|, g requires 0 <= g < |incoming.frame| => SignalState(incoming.frame[g], incoming.frame[g], 0, []));
      currentDumpEnabled, currentTick, timeSeen := !incoming.off, incoming.tick, incoming.seen;
      records, safe := seq(|schema.groups|, g => []), seq(|schema.groups|, g => true);
      new;
      OpenSectionFits(schema, incoming, first);
      AllHoldStart(incoming.frame, records, states, TableView(), safe);
    }

    method TimeChange(tick: nat) returns (r: Result<(), EncodeError>)
      modifies this`ticks, this`endTime
      ensures r.Err? <==> tick < old(endTime)
      ensures endTime == Max(old(endTime), tick)
      ensures ticks == if tick > old(endTime) then old(ticks) + [tick] else old(ticks)
    {
      if tick < endTime { return Err(TimeDecrease); }
      if tick > endTime {
        ticks, endTime := ticks + [tick], tick;
      }
      r := Ok(());
    }

    ghost function TableView(): Table
      reads this
    {
      Table(ticks, Clock(currentTick, timeSeen))
    }

    /** No timestamp can make the encoder fail: it only ever advances the table. */
    method AddTimestamp(tick: nat) returns (r: Result<(), EncodeError>, index: Option<nat>)
      requires TableFits(startTick, TableView()) && endTime == currentTick
      modifies this`ticks, this`endTime, this`currentTick, this`timeSeen
      ensures endTime == currentTick
      ensures TableView() == AddTick(old(TableView()), tick)
      ensures r.Ok? && index == Now(TableView())
    {
      r := Ok(());
      if tick > currentTick || !timeSeen {
        var advanced := tick > currentTick;
        currentTick, timeSeen := tick, true;
        if advanced {
          r := TimeChange(currentTick);
        }
      }
      index := if ticks == [] then None else Some(|ticks| - 1);
    }

    method MapTimes(timestamps: seq<nat>) returns (timeMap: seq<Option<nat>>)
      requires TableFits(startTick, TableView()) && endTime == currentTick
      modifies this`ticks, this`endTime, this`currentTick, this`timeSeen
      ensures endTime == currentTick
      ensures TableView() == AddTicks(old(TableView()), timestamps)
      ensures timeMap == TimeMap(old(TableView()), timestamps)
    {
      ghost var t := TableView();
      timeMap := [];
      NoTimes(t);
      assert timestamps[..0] == [];
      hide AddTicks, AddTick, TableFits, Now, TimeMap, AdvanceAll;
      for k := 0 to |timestamps|
        invariant endTime == currentTick
        invariant TableView() == AddTicks(t, timestamps[..k])
        invariant timeMap == TimeMap(t, timestamps[..k])
      {
        AddTicksNext(t, timestamps, k);
        AddTicksFits(startTick, t, timestamps[..k]);
        TimeMapNext(t, timestamps, k);
        var changed, index := AddTimestamp(timestamps[k]);
        timeMap := timeMap + [index];
      }
      assert timestamps[..|timestamps|] == timestamps;
    }

    /** Stores a summary's changes, or its fragments, signal by signal. */
    method StoreSignals(p: ChunkEvents, incoming: Option<nat>, timeMap: seq<Option<nat>>, affine: bool, ghost was: Section)
      returns (r: Result<(), EncodeError>)
      requires SectionFits(schema, was) && Shaped(schema, p) && Usable(schema, p)
      requires was.first == firstFileSection && was.records == records && was.dumpEnabled == currentDumpEnabled
      requires StatesFit(was.table) && TableView() == AddTicks(was.table, p.timestamps)
      requires incoming == Now(was.table) && timeMap == TimeMap(was.table, p.timestamps) && (affine ==> IsAffine(timeMap))
      modifies this`states, this`records, this`safe
      ensures r.Ok? <==> FrameFits(schema, was, p)
      ensures r.Ok? ==> StatesFit(TableView()) && records == Apply(schema, was, p).records
      ensures |old(safe)| == |schema.groups| && (r.Ok? ==> safe == RightAfter(schema, was, p, old(safe)))
    {
      var u := Table(ticks, Clock(currentTick, timeSeen));
      AppliedRecords(schema, was, p);
      hide Holds, AllHold, Added, FrameFits, RightAfter, Apply, SectionFits, Shaped, Usable, AddTicks, TimeMap, IsAffine;
      var stored := StoreParts(schema, states, p, currentDumpEnabled, timeMap, affine, incoming, u, firstFileSection, was, origin, safe);
      if stored.Err? { return Err(Stream(stored.error)); }
      states, records, safe := stored.value, Apply(schema, was, p).records, RightAfter(schema, was, p, safe);
      r := Ok(());
    }

    /** Applies one summary. It fails exactly if some signal has more frame-time changes than fit. */
    method ApplyChunk(p: ChunkEvents) returns (r: Result<(), EncodeError>)
      requires Valid() && Shaped(schema, p) && Usable(schema, p)
      modifies this
      ensures r.Ok? <==> FrameFits(schema, old(View()), p)
      ensures r.Ok? ==> Valid() && View() == Apply(schema, old(View()), p)
      ensures |old(safe)| == |schema.groups| && (r.Ok? ==> safe == RightAfter(schema, old(View()), p, old(safe)))
    {
      ghost var was := View();
      ApplyFits(schema, was, p);
      SectionTable(schema, was);
      var incomingTimeIndex := if ticks == [] then None else Some(|ticks| - 1);
      hide TableFits, StampsFit, AddTicks, TimeMap, Shaped, Usable, Holds, FrameFits, RightAfter, Added, NoFragments, IsAffine;
      var timeMap := MapTimes(p.timestamps);
      var affine := IsAffine(timeMap);
      r := StoreSignals(p, incomingTimeIndex, timeMap, affine, was);
      if r.Err? { return; }
      if p.dumpEnabled.Some? {
        currentDumpEnabled := p.dumpEnabled.value;
      }
    }

    /** The section's content: frame slots and streams as they are. */
    method Finish() returns (section: EncodedSection)
      requires Valid()
      ensures Contains(section, View(), origin, safe)
    {
      var frame: seq<seq<Byte>>, streams: seq<seq<Entry>> := [], [];
      hide StoreAll, Absolute, SectionFits;
      for g := 0 to |states|
        invariant |frame| == |streams| == g
        invariant forall h :: 0 <= h < g ==> frame[h] == states[h].frame && streams[h] == states[h].stream
      {
        frame, streams := frame + [states[g].frame], streams + [states[g].stream];
      }
      section := EncodedSection(startTick, endTime, ticks, frame, streams);
    }
  }

  lemma NoTimes(t: Table)
    ensures AddTicks(t, []) == t && TimeMap(t, []) == []
  {}

  lemma TimeMapNext(t: Table, ts: seq<nat>, k: nat)
    requires k < |ts|
    ensures TimeMap(t, ts[..k + 1]) == TimeMap(t, ts[..k]) + [Now(AddTicks(t, ts[..k + 1]))]
  {
    hide AddTicks;
    var now, before := TimeMap(t, ts[..k + 1]), TimeMap(t, ts[..k]);
    forall j | 0 <= j < k + 1 ensures now[j] == if j < k then before[j] else Now(AddTicks(t, ts[..k + 1])) {
      assert ts[..k + 1][..j + 1] == ts[..j + 1];
      if j < k { assert ts[..k][..j + 1] == ts[..j + 1]; }
    }
  }

  // ---- A whole section ----

  ghost predicate AllUsable(schema: Schema, ps: seq<ChunkEvents>) {
    forall i :: 0 <= i < |ps| ==> Shaped(schema, ps[i]) && Usable(schema, ps[i])
  }

  /** A section that an encoder may be started on. */
  ghost predicate CanEncode(schema: Schema, c: Carried, first: bool, ps: seq<ChunkEvents>) {
    StartFits(schema, c, first) && AllShaped(schema, ps) && AllUsable(schema, ps)
  }

  /** No summary has more frame-time changes of a signal than fit. */
  ghost predicate FramesFit(schema: Schema, c: Carried, first: bool, ps: seq<ChunkEvents>)
    requires CanEncode(schema, c, first, ps)
  {
    ps == [] ||
    var init, p := ps[..|ps| - 1], ps[|ps| - 1];
    FramesFit(schema, c, first, init) && FrameFits(schema, EncodeSection(schema, c, first, init), p)
  }

  /** For which signals the frame slot ends with the right value. */
  ghost function FramesRight(schema: Schema, c: Carried, first: bool, ps: seq<ChunkEvents>): (right: seq<bool>)
    requires CanEncode(schema, c, first, ps)
    ensures |right| == |schema.groups|
  {
    if ps == [] then seq(|schema.groups|, g => true)
    else
      var init, p := ps[..|ps| - 1], ps[|ps| - 1];
      RightAfter(schema, EncodeSection(schema, c, first, init), p, FramesRight(schema, c, first, init))
  }

  lemma EncodeNext(schema: Schema, c: Carried, first: bool, ps: seq<ChunkEvents>, k: nat)
    requires CanEncode(schema, c, first, ps) && k < |ps|
    ensures CanEncode(schema, c, first, ps[..k]) && CanEncode(schema, c, first, ps[..k + 1])
    ensures Shaped(schema, ps[k]) && Usable(schema, ps[k]) && SectionFits(schema, EncodeSection(schema, c, first, ps[..k]))
    ensures EncodeSection(schema, c, first, ps[..k + 1]) == Apply(schema, EncodeSection(schema, c, first, ps[..k]), ps[k])
    ensures FramesFit(schema, c, first, ps[..k + 1])
       <==> FramesFit(schema, c, first, ps[..k]) && FrameFits(schema, EncodeSection(schema, c, first, ps[..k]), ps[k])
    ensures FramesRight(schema, c, first, ps[..k + 1])
         == RightAfter(schema, EncodeSection(schema, c, first, ps[..k]), ps[k], FramesRight(schema, c, first, ps[..k]))
  {
    hide Apply, Shaped, Usable, SectionFits, FrameFits, RightAfter, StartFits;
    assert ps[..k + 1][..k] == ps[..k];
  }

  lemma NothingEncoded(schema: Schema, c: Carried, first: bool)
    requires StartFits(schema, c, first)
    ensures CanEncode(schema, c, first, []) && EncodeSection(schema, c, first, []) == OpenSection(schema, c, first)
    ensures FramesFit(schema, c, first, []) && FramesRight(schema, c, first, []) == seq(|schema.groups|, g => true)
  {}

  lemma {:induction false} FitsBefore(schema: Schema, c: Carried, first: bool, ps: seq<ChunkEvents>, k: nat)
    requires CanEncode(schema, c, first, ps) && k <= |ps| && FramesFit(schema, c, first, ps)
    ensures CanEncode(schema, c, first, ps[..k]) && FramesFit(schema, c, first, ps[..k])
  {
    hide Shaped, Usable, FrameFits, StartFits;
    if k == |ps| {
      assert ps[..k] == ps;
    } else {
      assert ps[..|ps| - 1][..k] == ps[..k];
      FitsBefore(schema, c, first, ps[..|ps| - 1], k);
    }
  }

  lemma StartOf(schema: Schema, c: Carried, first: bool, ps: seq<ChunkEvents>)
    requires CanEncode(schema, c, first, ps)
    ensures StartFits(schema, c, first) && ps[..0] == [] && ps[..|ps|] == ps
  {}

  /** An encoder worker between Start and Finish: the summaries in the order sent. It fails exactly
      if some summary has more frame-time changes of a signal than fit. */
  method EncodeWorker(schema: Schema, c: Carried, first: bool, ps: seq<ChunkEvents>) returns (r: Result<EncodedSection, EncodeError>)
    requires CanEncode(schema, c, first, ps)
    ensures r.Ok? <==> FramesFit(schema, c, first, ps)
    ensures r.Ok? ==> Contains(r.value, EncodeSection(schema, c, first, ps), c.frame, FramesRight(schema, c, first, ps))
  {
    StartOf(schema, c, first, ps);
    hide *;
    var encoder := new ActiveSectionEncoder(schema, c, first);
    NothingEncoded(schema, c, first);
    for k := 0 to |ps|
      invariant fresh(encoder) && encoder.Valid() && encoder.schema == schema && encoder.origin == c.frame
      invariant CanEncode(schema, c, first, ps[..k]) && FramesFit(schema, c, first, ps[..k])
      invariant encoder.View() == EncodeSection(schema, c, first, ps[..k])
      invariant encoder.safe == FramesRight(schema, c, first, ps[..k])
    {
      EncodeNext(schema, c, first, ps, k);
      var applied := encoder.ApplyChunk(ps[k]);
      if applied.Err? {
        if FramesFit(schema, c, first, ps) { FitsBefore(schema, c, first, ps, k + 1); }
        return Err(applied.error);
      }
    }
    var section := encoder.Finish();
    r := Ok(section);
  }

  // ---- When nothing is at frame time ----

  /** The summary's fragments follow a positive timestamp. */
  predicate StartsPositive(p: ChunkEvents) {
    p.timestamps != [] && p.timestamps[0] > 0
  }

  lemma {:induction false} PositiveMap(t: Table, ts: seq<nat>, k: nat)
    requires (t.ticks == [] ==> t.clock.tick == 0) && ts != [] && ts[0] > 0 && 0 < k <= |ts|
    ensures Now(AddTicks(t, ts[..k])).Some?
  {
    if k == 1 {
      assert ts[..1][..0] == [];
    } else {
      PositiveMap(t, ts, k - 1);
      assert ts[..k][..k - 1] == ts[..k - 1];
    }
  }

  /** A summary in list form, one that starts with a positive timestamp, and any summary of a section
      that already has a tick, has no frame-time fragment: it fits and the frame slots stay right. */
  lemma NoFrameTimeFits(schema: Schema, sec: Section, p: ChunkEvents)
    requires SectionFits(schema, sec) && Shaped(schema, p) && Usable(schema, p)
    requires NoFragments(p) || StartsPositive(p) || !sec.first
    ensures FrameFits(schema, sec, p) && forall g :: 0 <= g < |schema.groups| ==> PartKept(schema, sec, p, g)
  {
    if !NoFragments(p) {
      if !sec.first {
        LaterSectionsFit(schema, sec, p);
      } else {
        var map_ := TimeMap(sec.table, p.timestamps);
        forall k | 0 <= k < |map_| ensures map_[k].Some? {
          PositiveMap(sec.table, p.timestamps, k + 1);
        }
        hide Shaped, Usable, AddTicks, FragmentMarks;
        forall g | 0 <= g < |schema.groups| ensures SignalFits(schema, sec, p, g) && SignalKept(schema, sec, p, g) {
          MarksInMap(schema, sec, p, g);
          NoFrameTimes(FragmentMarks(schema, p, g), map_);
        }
      }
    }
  }

  /** Later sections, and first sections of such summaries, always encode, with every frame slot right. */
  lemma {:induction false} PositiveSectionsEncode(schema: Schema, c: Carried, first: bool, ps: seq<ChunkEvents>)
    requires CanEncode(schema, c, first, ps)
    requires !first || forall i :: 0 <= i < |ps| ==> NoFragments(ps[i]) || StartsPositive(ps[i])
    ensures FramesFit(schema, c, first, ps)
    ensures forall g :: 0 <= g < |schema.groups| ==> FramesRight(schema, c, first, ps)[g]
  {
    hide Shaped, Usable, FrameFits, StartFits, Apply, SectionFits, NoFragments, StartsPositive, PartKept, AddTicks, Added;
    if ps != [] {
      var init, p := ps[..|ps| - 1], ps[|ps| - 1];
      PositiveSectionsEncode(schema, c, first, init);
      SectionIsFirst(schema, c, first, init);
      NoFrameTimeFits(schema, EncodeSection(schema, c, first, init), p);
      assert ps[..|ps|] == ps;
      EncodeNext(schema, c, first, ps, |ps| - 1);
      RightStays(schema, EncodeSection(schema, c, first, init), p, FramesRight(schema, c, first, init));
    }
  }

  lemma RightStays(schema: Schema, sec: Section, p: ChunkEvents, right: seq<bool>)
    requires Shaped(schema, p) && Usable(schema, p) && |right| == |schema.groups|
    requires forall g :: 0 <= g < |right| ==> right[g] && PartKept(schema, sec, p, g)
    ensures forall g :: 0 <= g < |right| ==> RightAfter(schema, sec, p, right)[g]
  {
    hide Shaped, Usable, PartKept, Added;
  }

  lemma {:induction false} SectionIsFirst(schema: Schema, c: Carried, first: bool, ps: seq<ChunkEvents>)
    requires StartFits(schema, c, first) && AllShaped(schema, ps)
    ensures EncodeSection(schema, c, first, ps).first == first
  {
    hide Shaped, SectionFits, AddTicks, Added;
    if ps != [] { SectionIsFirst(schema, c, first, ps[..|ps| - 1]); }
  }
}
