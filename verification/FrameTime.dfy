/** Two bodies whose changes at tick 0 the fragment encoder does not keep
    (crates/bwave/vendor/fst-writer/src/buffer.rs, `rewrite_fragment_tail` and `apply_fragment`). */
module FrameTime {
  import opened Basics
  import opened BitText
  import opened VcdText
  import opened SerialConversion
  import opened ChunkParsing
  import opened Reconciliation
  import opened SectionEncoding
  import opened SignalStreams
  import opened SectionEncoder

  // ---- Scalar lines of a one-bit signal, parsed one by one ----

  ghost predicate OneBit(schema: Schema) {
    schema.groups == [Meta(1, false)]
  }

  ghost predicate ParsedTo(schema: Schema, es: seq<Event>, ts: seq<nat>, rs: seq<Record>) {
    InSchema(schema, es) &&
    var p := ParseAll(schema, true, es);
    p.timestamps == ts && p.dumpEnabled.None? && p.fragments == [rs]
  }

  /** After `k` lines: `m` timestamps and `n` records. */
  ghost predicate ParsedUpTo(schema: Schema, es: seq<Event>, ts: seq<nat>, rs: seq<Record>, k: nat, m: nat, n: nat) {
    k <= |es| && m <= |ts| && n <= |rs| && ParsedTo(schema, es[..k], ts[..m], rs[..n])
  }

  lemma Line(schema: Schema, es: seq<Event>, k: nat)
    requires k < |es| && InSchema(schema, es[..k]) && EventFits(schema, es[k])
    ensures InSchema(schema, es[..k + 1])
    ensures ParseAll(schema, true, es[..k + 1]) == ParseStep(schema, true, ParseAll(schema, true, es[..k]), es[k])
  {
    hide ParseStep;
    assert es[..k + 1][..k] == es[..k];
    ParseLast(schema, true, es[..k + 1]);
  }

  lemma NoLines(schema: Schema, es: seq<Event>, ts: seq<nat>, rs: seq<Record>)
    requires OneBit(schema)
    ensures ParsedUpTo(schema, es, ts, rs, 0, 0, 0)
  {
    assert es[..0] == [] && ts[..0] == [] && rs[..0] == [];
  }

  lemma TickLine(schema: Schema, es: seq<Event>, ts: seq<nat>, rs: seq<Record>, k: nat, m: nat, n: nat)
    requires OneBit(schema) && ParsedUpTo(schema, es, ts, rs, k, m, n) && k < |es| && m < |ts| && es[k] == Tick(ts[m])
    ensures ParsedUpTo(schema, es, ts, rs, k + 1, m + 1, n)
  {
    hide ParseAll;
    Line(schema, es, k);
    assert ts[..m + 1] == ts[..m] + [ts[m]];
  }

  lemma ScalarLine(schema: Schema, es: seq<Event>, ts: seq<nat>, rs: seq<Record>, k: nat, m: nat, n: nat)
    requires OneBit(schema) && ParsedUpTo(schema, es, ts, rs, k, m, n) && k < |es| && 0 < m && n < |rs|
    requires rs[n].payload.Inline? && rs[n] == Record(0, Some(m - 1), Prefix, rs[n].payload)
    requires es[k] == Change(0, [rs[n].payload.value], true)
    requires n > 0 ==> rs[n - 1].group == 0 && rs[n - 1].payload.Inline? && rs[n - 1].payload != rs[n].payload
    ensures ParsedUpTo(schema, es, ts, rs, k + 1, m, n + 1)
  {
    hide ParseAll;
    Line(schema, es, k);
    assert rs[..n + 1] == rs[..n] + [rs[n]];
  }

  lemma AllLines(schema: Schema, es: seq<Event>, ts: seq<nat>, rs: seq<Record>)
    requires ParsedUpTo(schema, es, ts, rs, |es|, |ts|, |rs|)
    ensures ParsedTo(schema, es, ts, rs)
  {
    assert es[..|es|] == es && ts[..|ts|] == ts && rs[..|rs|] == rs;
  }

  lemma {:induction false} FrameCountIs(log: seq<Stamped>, n: nat)
    requires n <= |log| && (n < |log| ==> log[n].index.Some?) && forall i :: 0 <= i < n ==> log[i].index.None?
    ensures FrameCount(log) == n
  {
    if n > 0 { FrameCountIs(log[1..], n - 1); }
  }

  lemma {:induction false} StillZero(ts: seq<nat>, seen: bool, k: nat)
    requires k <= |ts| && forall i :: 0 <= i < k ==> ts[i] == 0
    ensures var t := AddTicks(Table([], Clock(0, seen)), ts[..k]); t.ticks == [] && t.clock.tick == 0
  {
    if k > 0 {
      StillZero(ts, seen, k - 1);
      assert ts[..k][..k - 1] == ts[..k - 1];
    }
  }

  /** The summary of one chunk of scalar lines, opened as the first section. */
  ghost predicate OneChunk(schema: Schema, es: seq<Event>, ts: seq<nat>, rs: seq<Record>) {
    && OneBit(schema) && ParsedTo(schema, es, ts, rs) && PiecesFit(schema, [Piece(true, es)]) && rs != []
    && forall i :: 0 <= i < |rs| ==> rs[i].group == 0 && rs[i].time.Some? && rs[i].time.value < |ts|
  }

  function Start(schema: Schema): Carried {
    CarriedOf(InitialState(schema))
  }

  lemma OneSummary(schema: Schema, es: seq<Event>, ts: seq<nat>, rs: seq<Record>)
    requires OneChunk(schema, es, ts, rs)
    ensures Summaries(schema, [Piece(true, es)]) == [ParseAll(schema, true, es)]
    ensures CanEncode(schema, Start(schema), true, [ParseAll(schema, true, es)])
  {
    var c := Piece(true, es);
    assert [c][0] == c;
    hide PieceFits, ParseAll, Shaped, Usable;
    ParsedIsUsable(schema, c);
  }

  /** What decides about the one signal's frame slot. */
  lemma OneSignal(schema: Schema, es: seq<Event>, ts: seq<nat>, rs: seq<Record>)
    requires OneChunk(schema, es, ts, rs)
    requires CanEncode(schema, Start(schema), true, [ParseAll(schema, true, es)])
    ensures GroupsFit(schema, rs) && InMap(MarksOf(schema, rs), TimeMap(Table([], Clock(0, false)), ts))
    ensures var marks, map_ := MarksOf(schema, rs), TimeMap(Table([], Clock(0, false)), ts);
            && (FramesFit(schema, Start(schema), true, [ParseAll(schema, true, es)]) <==> FrameCount(StampsOf(marks, map_)) <= 2)
            && (FramesRight(schema, Start(schema), true, [ParseAll(schema, true, es)])[0] <==> FrameSafe(marks, map_))
  {
    var p := ParseAll(schema, true, es);
    var ps, open := [p], OpenSection(schema, Start(schema), true);
    assert ps[..0] == [] && ps[..1] == ps;
    EncodeNext(schema, Start(schema), true, ps, 0);
    NothingEncoded(schema, Start(schema), true);
    hide ParseAll, Shaped, Usable, FrameCount, FrameSafe, FramesFit, FramesRight, TimeMap, StampsOf, Value, Apply;
    assert p.fragments[0] != [] && open.dumpEnabled && open.table == Table([], Clock(0, false));
    SignalUnfold(schema, open, p, 0);
    RightAt(schema, open, p, seq(|schema.groups|, g => true), 0);
  }

  /** Lines `#0 0! #0 1! #5 0!`: both changes at tick 0 fit, but the slot keeps the first, so the
      section's frame is not the serial converter's. */
  lemma SecondTimestampIsLost(schema: Schema)
    requires OneBit(schema)
    ensures var es := [Tick(0), Change(0, [ZERO], true), Tick(0), Change(0, [ONE], true), Tick(5), Change(0, [ZERO], true)];
            && PiecesFit(schema, [Piece(true, es)])
            && CanEncode(schema, Start(schema), true, Summaries(schema, [Piece(true, es)]))
            && FramesFit(schema, Start(schema), true, Summaries(schema, [Piece(true, es)]))
            && !FramesRight(schema, Start(schema), true, Summaries(schema, [Piece(true, es)]))[0]
  {
    var es := [Tick(0), Change(0, [ZERO], true), Tick(0), Change(0, [ONE], true), Tick(5), Change(0, [ZERO], true)];
    hide *;
    LostParsed(schema, es);
    var ts, rs := [0, 0, 5], LostRecords();
    OneSummary(schema, es, ts, rs);
    OneSignal(schema, es, ts, rs);
    LostCount(schema, ts, rs);
  }

  function LostRecords(): seq<Record> {
    [Record(0, Some(0), Prefix, Inline(ZERO)), Record(0, Some(1), Prefix, Inline(ONE)), Record(0, Some(2), Prefix, Inline(ZERO))]
  }

  lemma ScalarPiece(schema: Schema, es: seq<Event>)
    requires OneBit(schema) && es != [] && es[0].Tick?
    requires forall i :: 0 <= i < |es| ==> es[i].Tick? || (es[i].Change? && es[i].scalar && es[i].group == 0 && |es[i].raw| == 1)
    ensures PiecesFit(schema, [Piece(true, es)])
  {
    assert InSchema(schema, es) && OneForm(es);
    OneFormIsFresh(schema, es);
    hide RawFresh, InSchema;
    assert PieceFits(schema, Piece(true, es));
  }

  lemma LostParsed(schema: Schema, es: seq<Event>)
    requires OneBit(schema)
    requires es == [Tick(0), Change(0, [ZERO], true), Tick(0), Change(0, [ONE], true), Tick(5), Change(0, [ZERO], true)]
    ensures OneChunk(schema, es, [0, 0, 5], LostRecords())
  {
    var ts, rs := [0, 0, 5], LostRecords();
    hide ParsedTo, PiecesFit;
    LostLines(schema, es, ts, rs);
    ScalarPiece(schema, es);
  }

  ghost predicate LostInput(es: seq<Event>, ts: seq<nat>, rs: seq<Record>) {
    && es == [Tick(0), Change(0, [ZERO], true), Tick(0), Change(0, [ONE], true), Tick(5), Change(0, [ZERO], true)]
    && ts == [0, 0, 5] && rs == LostRecords()
  }

  lemma LostHalf(schema: Schema, es: seq<Event>, ts: seq<nat>, rs: seq<Record>)
    requires OneBit(schema) && LostInput(es, ts, rs)
    ensures ParsedUpTo(schema, es, ts, rs, 3, 2, 1)
  {
    hide OneBit, ParsedUpTo;
    NoLines(schema, es, ts, rs);
    TickLine(schema, es, ts, rs, 0, 0, 0);
    ScalarLine(schema, es, ts, rs, 1, 1, 0);
    TickLine(schema, es, ts, rs, 2, 1, 1);
  }

  lemma LostRest(schema: Schema, es: seq<Event>, ts: seq<nat>, rs: seq<Record>)
    requires OneBit(schema) && LostInput(es, ts, rs) && ParsedUpTo(schema, es, ts, rs, 3, 2, 1)
    ensures ParsedUpTo(schema, es, ts, rs, 6, 3, 3)
  {
    hide OneBit, ParsedUpTo;
    ScalarLine(schema, es, ts, rs, 3, 2, 1);
    TickLine(schema, es, ts, rs, 4, 2, 2);
    ScalarLine(schema, es, ts, rs, 5, 3, 2);
  }

  lemma LostLines(schema: Schema, es: seq<Event>, ts: seq<nat>, rs: seq<Record>)
    requires OneBit(schema) && LostInput(es, ts, rs)
    ensures ParsedTo(schema, es, ts, rs)
  {
    assert |es| == 6 && |ts| == 3 && |rs| == 3;
    hide *;
    LostHalf(schema, es, ts, rs);
    LostRest(schema, es, ts, rs);
    AllLines(schema, es, ts, rs);
  }

  lemma LostCount(schema: Schema, ts: seq<nat>, rs: seq<Record>)
    requires OneBit(schema) && ts == [0, 0, 5] && rs == LostRecords()
    requires GroupsFit(schema, rs) && InMap(MarksOf(schema, rs), TimeMap(Table([], Clock(0, false)), ts))
    ensures FrameCount(StampsOf(MarksOf(schema, rs), TimeMap(Table([], Clock(0, false)), ts))) == 2
    ensures !FrameSafe(MarksOf(schema, rs), TimeMap(Table([], Clock(0, false)), ts))
  {
    var marks, map_ := MarksOf(schema, rs), TimeMap(Table([], Clock(0, false)), ts);
    hide *;
    LostTimes(schema, rs);
    LostMap(ts);
    StampIndices(marks, map_);
    FrameCountIs(StampsOf(marks, map_), 2);
    TwoTimesAreUnsafe(marks, map_);
  }

  lemma LostTimes(schema: Schema, rs: seq<Record>)
    requires rs == LostRecords() && GroupsFit(schema, rs)
    ensures var marks := MarksOf(schema, rs); |marks| == 3 && marks[0].time == 0 && marks[1].time == 1 && marks[2].time == 2
  {
    hide Value;
  }

  lemma LostMap(ts: seq<nat>)
    requires ts == [0, 0, 5]
    ensures var map_ := TimeMap(Table([], Clock(0, false)), ts); |map_| == 3 && map_[0].None? && map_[1].None? && map_[2].Some?
  {
    StillZero(ts, false, 1);
    StillZero(ts, false, 2);
    AddTicksNext(Table([], Clock(0, false)), ts, 2);
    hide AddTicks;
  }

  lemma StampIndices(marks: seq<Mark>, map_: seq<Option<nat>>)
    requires InMap(marks, map_)
    ensures |StampsOf(marks, map_)| == |marks| && forall i :: 0 <= i < |marks| ==> marks[i].time < |map_|
    ensures forall i :: 0 <= i < |marks| ==> StampsOf(marks, map_)[i].index == map_[marks[i].time]
  {}

  lemma TwoTimesAreUnsafe(marks: seq<Mark>, map_: seq<Option<nat>>)
    requires InMap(marks, map_) && |marks| > 1 && marks[0].time != marks[1].time && FrameCount(StampsOf(marks, map_)) == 2
    ensures !FrameSafe(marks, map_)
  {}

  /** Lines `#0 0! 1! 0!`: a third change at tick 0 makes the encoder, and with it the conversion, fail. */
  lemma ThirdChangeFails(schema: Schema)
    requires OneBit(schema)
    ensures var es := [Tick(0), Change(0, [ZERO], true), Change(0, [ONE], true), Change(0, [ZERO], true)];
            && PiecesFit(schema, [Piece(true, es)])
            && CanEncode(schema, Start(schema), true, Summaries(schema, [Piece(true, es)]))
            && !FramesFit(schema, Start(schema), true, Summaries(schema, [Piece(true, es)]))
  {
    var es := [Tick(0), Change(0, [ZERO], true), Change(0, [ONE], true), Change(0, [ZERO], true)];
    hide *;
    ThirdParsed(schema, es);
    var ts, rs := [0], ThirdRecords();
    OneSummary(schema, es, ts, rs);
    OneSignal(schema, es, ts, rs);
    ThirdCount(schema, ts, rs);
  }

  function ThirdRecords(): seq<Record> {
    [Record(0, Some(0), Prefix, Inline(ZERO)), Record(0, Some(0), Prefix, Inline(ONE)), Record(0, Some(0), Prefix, Inline(ZERO))]
  }

  lemma ThirdParsed(schema: Schema, es: seq<Event>)
    requires OneBit(schema)
    requires es == [Tick(0), Change(0, [ZERO], true), Change(0, [ONE], true), Change(0, [ZERO], true)]
    ensures OneChunk(schema, es, [0], ThirdRecords())
  {
    var ts, rs := [0], ThirdRecords();
    hide ParsedTo, PiecesFit;
    ThirdLines(schema, es, ts, rs);
    ScalarPiece(schema, es);
  }

  ghost predicate ThirdInput(es: seq<Event>, ts: seq<nat>, rs: seq<Record>) {
    && es == [Tick(0), Change(0, [ZERO], true), Change(0, [ONE], true), Change(0, [ZERO], true)]
    && ts == [0] && rs == ThirdRecords()
  }

  lemma ThirdLines(schema: Schema, es: seq<Event>, ts: seq<nat>, rs: seq<Record>)
    requires OneBit(schema) && ThirdInput(es, ts, rs)
    ensures ParsedTo(schema, es, ts, rs)
  {
    hide OneBit, ParsedUpTo, ParsedTo;
    NoLines(schema, es, ts, rs);
    TickLine(schema, es, ts, rs, 0, 0, 0);
    ScalarLine(schema, es, ts, rs, 1, 1, 0);
    ScalarLine(schema, es, ts, rs, 2, 1, 1);
    ScalarLine(schema, es, ts, rs, 3, 1, 2);
    AllLines(schema, es, ts, rs);
  }

  lemma ThirdCount(schema: Schema, ts: seq<nat>, rs: seq<Record>)
    requires OneBit(schema) && ts == [0] && rs == ThirdRecords()
    requires GroupsFit(schema, rs) && InMap(MarksOf(schema, rs), TimeMap(Table([], Clock(0, false)), ts))
    ensures FrameCount(StampsOf(MarksOf(schema, rs), TimeMap(Table([], Clock(0, false)), ts))) == 3
  {
    var marks, map_ := MarksOf(schema, rs), TimeMap(Table([], Clock(0, false)), ts);
    StillZero(ts, false, 1);
    hide AddTicks, FrameCount, Value;
    assert map_[0] == Now(AddTicks(Table([], Clock(0, false)), ts[..1]));
    FrameCountIs(StampsOf(marks, map_), 3);
  }
}
