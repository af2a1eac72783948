/** The two converters end to end (crates/bwave/src/fst.rs): whatever the chunk targets, the
    section target and the interleaving, the sections the parallel one writes read, at every tick,
    as the serial one's values; frame values at tick 0 are right exactly where `RightFrames` says. */
module Conversion {
  import opened Basics
  import opened BitText
  import opened VcdText
  import opened SerialConversion
  import opened BodyMeaning
  import opened ChunkParsing
  import opened Reconciliation
  import opened ChunkLogs
  import opened SectionEncoding
  import opened SectionEncoder
  import opened StoredContent
  import opened ChunkSource
  import opened Coordination

  // ---- Chunks of a body as pieces of its events ----

  function PieceOf(schema: Schema, bytes: seq<Byte>): Piece {
    Piece(UsesFragments(bytes), Events(schema, bytes))
  }

  function PiecesOf(schema: Schema, chunks: seq<Chunk>): seq<Piece> {
    seq(|chunks|, i requires 0 <= i < |chunks| => PieceOf(schema, chunks[i].bytes))
  }

  lemma {:induction false} AllEventsConcat(x: seq<Piece>, y: seq<Piece>)
    ensures AllEvents(x + y) == AllEvents(x) + AllEvents(y)
  {
    if y == [] {
      assert x + y == x;
      assert AllEvents(x) + AllEvents(y) == AllEvents(x);
    } else {
      var init, last := y[..|y| - 1], y[|y| - 1];
      AllEventsConcat(x, init);
      assert (x + init) + [last] == x + y && init + [last] == y;
      AllEventsSnoc(x + init, last);
      AllEventsSnoc(init, last);
      hide AllEvents;
      assert (AllEvents(x) + AllEvents(init)) + last.events == AllEvents(x) + (AllEvents(init) + last.events);
    }
  }

  lemma AllEventsSnoc(cs: seq<Piece>, c: Piece)
    ensures AllEvents(cs + [c]) == AllEvents(cs) + c.events
  {
    assert (cs + [c])[..|cs|] == cs;
  }

  lemma OnePieceEvents(p: Piece)
    ensures AllEvents([p]) == p.events
  {
    assert AllEvents([]) == [];
  }

  lemma CutEndsLine(rest: seq<Byte>, target: nat)
    requires target > 0 && rest != [] && FirstCut(rest, target) < |rest|
    ensures 0 < FirstCut(rest, target) && EndsLine(rest[..FirstCut(rest, target)])
  {
    FirstCutMeaning(rest, target, FirstCut(rest, target));
  }

  /** Cutting into chunks loses and repeats no event. */
  lemma {:induction false} ChunksKeepEvents(schema: Schema, rest: seq<Byte>, target: nat, offset: nat, sequence: nat)
    requires target > 0
    ensures AllEvents(PiecesOf(schema, Chunks(rest, target, offset, sequence))) == Events(schema, rest)
    decreases |rest|
  {
    hide FirstCut, Events, EndsLine, UsesFragments, AllEvents;
    if rest == [] {
      NoEvents(schema);
    } else {
      ChunksUnfold(rest, target, offset, sequence);
      var cut := FirstCut(rest, target);
      var head, tail := rest[..cut], rest[cut..];
      var more := Chunks(tail, target, offset + cut, sequence + 1);
      ChunksKeepEvents(schema, tail, target, offset + cut, sequence + 1);
      assert PiecesOf(schema, Chunks(rest, target, offset, sequence)) == [PieceOf(schema, head)] + PiecesOf(schema, more);
      AllEventsConcat([PieceOf(schema, head)], PiecesOf(schema, more));
      OnePieceEvents(PieceOf(schema, head));
      assert head + tail == rest;
      if cut < |rest| {
        CutEndsLine(rest, target);
        EventsConcat(schema, head, tail);
      } else {
        assert tail == [] && head == rest;
        NoEvents(schema);
        assert Events(schema, rest) + [] == Events(schema, rest);
      }
    }
  }

  lemma NoEvents(schema: Schema)
    ensures Events(schema, []) == [] && AllEvents([]) == []
  {}

  // ---- The file as a list of sections ----

  ghost predicate SectionsFit(schema: Schema, jobs: seq<Job>) {
    forall i :: 0 <= i < |jobs| ==> JobFits(schema, jobs[i])
  }

  /** The changes handed to the file's sections for a signal, one section after the other. */
  ghost function FileLog(schema: Schema, jobs: seq<Job>, g: nat): seq<Recorded>
    requires SectionsFit(schema, jobs) && g < |schema.groups|
  {
    if jobs == [] then []
    else
      var last := jobs[|jobs| - 1];
      assert JobFits(schema, last);
      FileLog(schema, jobs[..|jobs| - 1], g) + SectionLog(SectionOf(schema, last), g)
  }

  lemma SummariesSlice(schema: Schema, cs: seq<Piece>, from: nat, to: nat)
    requires PiecesFit(schema, cs) && from <= to <= |cs|
    ensures PiecesFit(schema, cs[from..to])
    ensures Summaries(schema, cs)[from..to] == Summaries(schema, cs[from..to])
  {
    hide PieceFits, Summaries, Shaped, ParseAll;
    var a, b := Summaries(schema, cs)[from..to], Summaries(schema, cs[from..to]);
    forall i | 0 <= i < to - from ensures a[i] == b[i] {
      assert cs[from..to][i] == cs[from + i];
    }
  }

  lemma EventsSlice(cs: seq<Piece>, from: nat, to: nat)
    requires from <= to <= |cs|
    ensures AllEvents(cs[..to]) == AllEvents(cs[..from]) + AllEvents(cs[from..to])
  {
    assert cs[..to] == cs[..from] + cs[from..to];
    AllEventsConcat(cs[..from], cs[from..to]);
  }

  /** A section in place starts from the serial state before its first chunk. */
  lemma JobStartsSerial(schema: Schema, cs: seq<Piece>, job: Job)
    requires PiecesFit(schema, cs) && JobInPlace(schema, Summaries(schema, cs), job)
    ensures PiecesFit(schema, cs[..job.sequence]) && InSchema(schema, AllEvents(cs[..job.sequence]))
    ensures job.start == CarriedOf(Run(schema, InitialState(schema), AllEvents(cs[..job.sequence])))
    ensures JobFits(schema, job)
    ensures job.sequence + |job.summaries| <= |cs|
    ensures PiecesFit(schema, cs[job.sequence..job.sequence + |job.summaries|])
    ensures job.summaries == Summaries(schema, cs[job.sequence..job.sequence + |job.summaries|])
  {
    hide PieceFits, Summaries, Shaped, Usable, ReconcileAll, Run, InitialFrame, NoRecords, AllEvents, Fits, InSchema;
    var from, to := job.sequence, job.sequence + |job.summaries|;
    InitialFits(schema);
    SummariesSlice(schema, cs, 0, from);
    SummariesSlice(schema, cs, from, to);
    assert cs[0..from] == cs[..from] && Summaries(schema, cs)[0..from] == Summaries(schema, cs)[..from];
    ChunksComposeToSerial(schema, InitialState(schema), cs[..from]);
    if from == 0 {
      assert cs[..0] == [];
      NothingRun(schema);
    }
    RunKeepsFit(schema, AllEvents(cs[..from]));
    SummariesUsable(schema, cs[from..to]);
  }

  lemma SummariesUsable(schema: Schema, cs: seq<Piece>)
    requires PiecesFit(schema, cs)
    ensures AllUsable(schema, Summaries(schema, cs))
  {
    hide PieceFits, Usable, ParseAll, Shaped;
    forall i | 0 <= i < |cs| ensures Shaped(schema, Summaries(schema, cs)[i]) && Usable(schema, Summaries(schema, cs)[i]) {
      ParsedIsUsable(schema, cs[i]);
    }
  }

  lemma InitialFits(schema: Schema)
    ensures Fits(schema, InitialState(schema)) && |InitialState(schema).frame| == |schema.groups|
  {}

  lemma NothingRun(schema: Schema)
    ensures AllEvents([]) == [] && Fits(schema, InitialState(schema)) && InSchema(schema, [])
    ensures Run(schema, InitialState(schema), []) == InitialState(schema) && InitialState(schema).tick == 0
  {}

  lemma RunKeepsFit(schema: Schema, es: seq<Event>)
    requires Fits(schema, InitialState(schema)) && InSchema(schema, es)
    ensures CarriedFits(schema, CarriedOf(Run(schema, InitialState(schema), es)))
  {}

  lemma {:induction false} FileIsSerial(schema: Schema, cs: seq<Piece>, jobs: seq<Job>, n: nat, g: nat)
    requires PiecesFit(schema, cs) && n <= |cs| && g < |schema.groups|
    requires Cover(schema, Summaries(schema, cs), jobs, n)
    ensures SectionsFit(schema, jobs) && InSchema(schema, AllEvents(cs[..n]))
    ensures SameStored(InitialState(schema).frame[g], FileLog(schema, jobs, g),
                       SerialLog(schema, InitialState(schema), AllEvents(cs[..n]), g))
  {
    var s0 := InitialState(schema);
    hide PieceFits, Summaries, Shaped, ReconcileAll, Run, SameStored, SectionLog, EncodeSection, CanEncode, Fits, InitialFrame, JobInPlace;
    InitialFits(schema);
    if jobs == [] {
      assert cs[..0] == [];
      NoEvents(schema);
      NothingStored(schema, s0, g);
    } else {
      var last := jobs[|jobs| - 1];
      var from := last.sequence;
      JobStartsSerial(schema, cs, last);
      CanStart(schema, last.start, from == 0, last.summaries);
      FileIsSerial(schema, cs, jobs[..|jobs| - 1], from, g);
      var s := Run(schema, s0, AllEvents(cs[..from]));
      SectionIsSerial(schema, s, from == 0, cs[from..n], g);
      EventsSlice(cs, from, n);
      SerialLogConcat(schema, s0, AllEvents(cs[..from]), AllEvents(cs[from..n]), g);
      FrameIsLastOf(schema, s0, AllEvents(cs[..from]), g);
      hide SerialLog;
      SameStoredConcat(s0.frame[g], FileLog(schema, jobs[..|jobs| - 1], g), SerialLog(schema, s0, AllEvents(cs[..from]), g),
                       SectionLog(SectionOf(schema, last), g),
                       SerialLog(schema, s, AllEvents(cs[from..n]), g));
    }
  }

  lemma NothingStored(schema: Schema, s: State, g: nat)
    requires Fits(schema, s) && g < |schema.groups|
    ensures InSchema(schema, []) && SameStored(s.frame[g], [], SerialLog(schema, s, [], g))
  {}

  // ---- Reading the file ----

  ghost predicate InFile(encs: seq<EncodedSection>, g: nat) {
    forall i :: 0 <= i < |encs| ==> g < |encs[i].frame| && g < |encs[i].streams|
  }

  /** The value the file's sections show at a tick: the first frame, then every entry up to the tick. */
  function FileRead(encs: seq<EncodedSection>, g: nat, tick: nat): seq<Byte>
    requires encs != [] && InFile(encs, g)
  {
    var last := encs[|encs| - 1];
    ReadAt(if |encs| == 1 then last.frame[g] else FileRead(encs[..|encs| - 1], g, tick), Entries(last, g), tick)
  }

  /** A section of the file, from the serial state `s` before its events on: later sections start
      with the serial values, a first one with the last value at tick 0 exactly where its frame is
      right; entries are the serial changes without repeats. */
  ghost predicate HoldsSerially(schema: Schema, enc: EncodedSection, job: Job, s: State, es: seq<Event>, g: nat)
  {
    && Fits(schema, s) && InSchema(schema, es) && g < |schema.groups| && JobFits(schema, job)
    && g < |enc.frame| && g < |enc.streams|
    && var log := SerialLog(schema, s, es, g);
       if job.sequence == 0 then
         && Entries(enc, g) == EntriesOf(s.frame[g], log)
         && (RightFrames(schema, job)[g] <==> enc.frame[g] == FrameOf(s.frame[g], log))
       else enc.frame[g] == s.frame[g] && Entries(enc, g) == Normal(s.frame[g], log)
  }

  lemma SectionHoldsSerially(schema: Schema, cs: seq<Piece>, job: Job, enc: EncodedSection, g: nat)
    requires PiecesFit(schema, cs) && JobInPlace(schema, Summaries(schema, cs), job) && EncodedAs(schema, enc, job)
    requires g < |schema.groups|
    ensures job.sequence + |job.summaries| <= |cs| && InSchema(schema, AllEvents(cs[..job.sequence]))
    ensures HoldsSerially(schema, enc, job, Run(schema, InitialState(schema), AllEvents(cs[..job.sequence])),
                          AllEvents(cs[job.sequence..job.sequence + |job.summaries|]), g)
  {
    EncodedUnfold(schema, enc, job);
    hide *;
    InitialFits(schema);
    JobStartsSerial(schema, cs, job);
    var s := Run(schema, InitialState(schema), AllEvents(cs[..job.sequence]));
    var mine := cs[job.sequence..job.sequence + |job.summaries|];
    RunStaysFit(schema, InitialState(schema), AllEvents(cs[..job.sequence]));
    CanStart(schema, job.start, job.sequence == 0, job.summaries);
    if job.sequence == 0 {
      FirstSectionIsSerial(schema, s, mine, enc, g);
    } else {
      LaterSectionIsSerial(schema, s, mine, enc, g);
    }
    HoldsFold(schema, enc, job, s, AllEvents(mine), g);
  }

  lemma EncodedUnfold(schema: Schema, enc: EncodedSection, job: Job)
    requires EncodedAs(schema, enc, job)
    ensures CanEncode(schema, job.start, job.sequence == 0, job.summaries)
    ensures Contains(enc, EncodeSection(schema, job.start, job.sequence == 0, job.summaries), job.start.frame,
                     FramesRight(schema, job.start, job.sequence == 0, job.summaries))
  {}

  lemma RunStaysFit(schema: Schema, s: State, es: seq<Event>)
    requires Fits(schema, s) && InSchema(schema, es)
    ensures Fits(schema, Run(schema, s, es)) && CarriedOf(Run(schema, s, es)).frame == Run(schema, s, es).frame
  {}

  lemma HoldsFold(schema: Schema, enc: EncodedSection, job: Job, s: State, es: seq<Event>, g: nat)
    requires Fits(schema, s) && InSchema(schema, es) && g < |schema.groups|
    requires CanEncode(schema, job.start, job.sequence == 0, job.summaries) && g < |enc.frame| == |enc.streams|
    requires var log := SerialLog(schema, s, es, g);
             if job.sequence == 0 then
               && Entries(enc, g) == EntriesOf(s.frame[g], log)
               && (FramesRight(schema, job.start, true, job.summaries)[g] <==> enc.frame[g] == FrameOf(s.frame[g], log))
             else enc.frame[g] == s.frame[g] && Entries(enc, g) == Normal(s.frame[g], log)
    ensures HoldsSerially(schema, enc, job, s, es, g)
  {
    hide CanEncode, SerialLog, EntriesOf, FrameOf, Normal, Entries, FramesRight, Fits;
  }

  lemma CanStart(schema: Schema, c: Carried, first: bool, ps: seq<ChunkEvents>)
    requires CanEncode(schema, c, first, ps)
    ensures StartFits(schema, c, first)
  {}

  lemma EncodedPrefix(schema: Schema, encs: seq<EncodedSection>, jobs: seq<Job>)
    requires EncodedInOrder(schema, encs, jobs) && |encs| == |jobs| > 0
    ensures EncodedInOrder(schema, encs[..|encs| - 1], jobs[..|jobs| - 1]) && EncodedAs(schema, encs[|encs| - 1], jobs[|jobs| - 1])
  {
    hide JobFits, Encodable, Contains, RightFrames;
    assert EncodedAs(schema, encs[0], jobs[0]);
  }

  lemma CoverStart(schema: Schema, ps: seq<ChunkEvents>, jobs: seq<Job>, n: nat)
    requires AllShaped(schema, ps) && Cover(schema, ps, jobs, n) && jobs != []
    ensures var last := jobs[|jobs| - 1];
            && JobInPlace(schema, ps, last) && last.sequence + |last.summaries| == n
            && Cover(schema, ps, jobs[..|jobs| - 1], last.sequence) && (|jobs| == 1 <==> last.sequence == 0)
  {
    hide Shaped, ReconcileAll;
    if |jobs| > 1 {
      assert JobInPlace(schema, ps, jobs[..|jobs| - 1][|jobs| - 2]);
    }
  }

  /** The frame of the file's first section is right for signal `g`. */
  ghost predicate FrameIsRight(schema: Schema, jobs: seq<Job>, g: nat) {
    jobs != [] ==> JobFits(schema, jobs[0]) && g < |schema.groups| && RightFrames(schema, jobs[0])[g]
  }

  /** At a tick the sections show signal `g` as the serial converter's log of the events does. */
  ghost predicate ShowsSerially(schema: Schema, encs: seq<EncodedSection>, es: seq<Event>, g: nat, tick: nat) {
    && InSchema(schema, es) && Fits(schema, InitialState(schema)) && g < |schema.groups| && encs != [] && InFile(encs, g)
    && FileRead(encs, g, tick) == ReadAt(InitialState(schema).frame[g], SerialLog(schema, InitialState(schema), es, g), tick)
  }

  /** At every tick the file shows the serial value, if the first frame is right. */
  lemma {:induction false} FileReadsSerially(schema: Schema, cs: seq<Piece>, encs: seq<EncodedSection>, jobs: seq<Job>,
                                             n: nat, g: nat, tick: nat)
    requires PiecesFit(schema, cs) && n <= |cs| && g < |schema.groups| && Cover(schema, Summaries(schema, cs), jobs, n)
    requires EncodedInOrder(schema, encs, jobs) && |encs| == |jobs| > 0 && FrameIsRight(schema, jobs, g)
    ensures ShowsSerially(schema, encs, AllEvents(cs[..n]), g, tick)
  {
    hide *;
    var s0 := InitialState(schema);
    var last := jobs[|jobs| - 1];
    var from := last.sequence;
    EncodedPrefix(schema, encs, jobs);
    CoverStart(schema, Summaries(schema, cs), jobs, n);
    FirstFrame(schema, jobs, g);
    InitialFits(schema);
    JobStartsSerial(schema, cs, last);
    var before, mine := AllEvents(cs[..from]), AllEvents(cs[from..n]);
    AllEventsInSchema(schema, cs[from..n]);
    SectionHoldsSerially(schema, cs, last, encs[|encs| - 1], g);
    EventsSlice(cs, from, n);
    SerialLogConcat(schema, s0, before, mine, g);
    SerialLogRises(schema, s0, before + mine, g);
    RunStaysFit(schema, s0, before);
    if |jobs| == 1 {
      NothingBefore(schema, cs, mine);
      FirstRead(schema, encs, last, mine, g, tick);
    } else {
      FileReadsSerially(schema, cs, encs[..|encs| - 1], jobs[..|jobs| - 1], from, g, tick);
      FrameIsLastOf(schema, s0, before, g);
      NextRead(schema, encs, last, before, mine, g, tick);
    }
  }

  lemma FirstFrame(schema: Schema, jobs: seq<Job>, g: nat)
    requires jobs != [] && FrameIsRight(schema, jobs, g)
    ensures |jobs| == 1 ==> JobFits(schema, jobs[|jobs| - 1]) && g < |schema.groups| && RightFrames(schema, jobs[|jobs| - 1])[g]
    ensures |jobs| > 1 ==> FrameIsRight(schema, jobs[..|jobs| - 1], g)
  {
    assert |jobs| > 1 ==> jobs[..|jobs| - 1][0] == jobs[0];
  }

  lemma NothingBefore(schema: Schema, cs: seq<Piece>, mine: seq<Event>)
    ensures AllEvents(cs[..0]) == [] && [] + mine == mine && InSchema(schema, []) && Fits(schema, InitialState(schema))
    ensures Run(schema, InitialState(schema), []) == InitialState(schema)
  {
    assert cs[..0] == [];
  }

  /** A file of one section. */
  lemma FirstRead(schema: Schema, encs: seq<EncodedSection>, job: Job, es: seq<Event>, g: nat, tick: nat)
    requires |encs| == 1 && job.sequence == 0 && JobFits(schema, job) && g < |schema.groups| && RightFrames(schema, job)[g]
    requires InSchema(schema, es) && Fits(schema, InitialState(schema))
    requires HoldsSerially(schema, encs[0], job, InitialState(schema), es, g)
    requires TicksRise(SerialLog(schema, InitialState(schema), es, g))
    ensures ShowsSerially(schema, encs, es, g, tick)
  {
    hide SerialLog, EntriesOf, FrameOf, Normal, Entries, RightFrames, JobFits, ReadAt, TicksRise;
    ReadContent(InitialState(schema).frame[g], SerialLog(schema, InitialState(schema), es, g), tick);
  }

  /** A file with one more section. */
  lemma NextRead(schema: Schema, encs: seq<EncodedSection>, job: Job, before: seq<Event>, mine: seq<Event>, g: nat, tick: nat)
    requires |encs| > 1 && job.sequence != 0 && JobFits(schema, job) && g < |schema.groups|
    requires InSchema(schema, before) && InSchema(schema, mine) && InSchema(schema, before + mine) && Fits(schema, InitialState(schema))
    requires var s := Run(schema, InitialState(schema), before);
             && Fits(schema, s) && HoldsSerially(schema, encs[|encs| - 1], job, s, mine, g)
             && s.frame[g] == LastOf(InitialState(schema).frame[g], SerialLog(schema, InitialState(schema), before, g))
             && SerialLog(schema, InitialState(schema), before + mine, g)
                == SerialLog(schema, InitialState(schema), before, g) + SerialLog(schema, s, mine, g)
    requires TicksRise(SerialLog(schema, InitialState(schema), before + mine, g))
    requires ShowsSerially(schema, encs[..|encs| - 1], before, g, tick)
    ensures ShowsSerially(schema, encs, before + mine, g, tick)
  {
    var s := Run(schema, InitialState(schema), before);
    hide SerialLog, EntriesOf, FrameOf, Normal, Entries, RightFrames, JobFits, ReadAt, TicksRise, Fits, InitialState, Run, LastOf;
    assert forall i :: 0 <= i < |encs| - 1 ==> encs[i] == encs[..|encs| - 1][i];
    ReadLater(InitialState(schema).frame[g], SerialLog(schema, InitialState(schema), before, g), SerialLog(schema, s, mine, g), tick);
  }

  // ---- End to end ----

  datatype ConvertError = Source(source: SourceError) | Parse(parse: ConversionError) | Pipeline(pipeline: PipelineError)

  /** In every chunk that uses fragments, repeated text stands for the value it had. */
  ghost predicate FreshChunks(schema: Schema, chunks: seq<Chunk>)
    requires WellFormed(schema)
  {
    forall i :: 0 <= i < |chunks| ==>
      InSchema(schema, Events(schema, chunks[i].bytes))
      && (UsesFragments(chunks[i].bytes) ==> RawFresh(schema, Events(schema, chunks[i].bytes)))
  }

  /** A body in which no signal mixes scalar and vector lines within a chunk. */
  lemma OneFormChunksAreFresh(schema: Schema, chunks: seq<Chunk>)
    requires WellFormed(schema)
    requires forall i :: 0 <= i < |chunks| ==> OneForm(Events(schema, chunks[i].bytes))
    ensures FreshChunks(schema, chunks)
  {
    hide Events, OneForm, RawFresh, InSchema, UsesFragments;
    forall i | 0 <= i < |chunks|
      ensures InSchema(schema, Events(schema, chunks[i].bytes)) && RawFresh(schema, Events(schema, chunks[i].bytes))
    {
      EventsInSchema(schema, chunks[i].bytes);
      OneFormIsFresh(schema, Events(schema, chunks[i].bytes));
    }
  }

  lemma ParsedPieceFits(schema: Schema, bytes: seq<Byte>)
    requires WellFormed(schema) && !HasMalformed(Events(schema, bytes)) && InSchema(schema, Events(schema, bytes))
    requires UsesFragments(bytes) ==> RawFresh(schema, Events(schema, bytes))
    ensures PieceFits(schema, PieceOf(schema, bytes))
  {
    hide Events, HasMalformed, RawFresh, InSchema, UsesFragments, ModeFits;
    UsesFragmentsFits(schema, bytes);
  }

  /** The parser workers: each chunk on its own, in any mode its text selects. */
  method ParseChunks(schema: Schema, chunks: seq<Chunk>) returns (r: Result<(), ConversionError>, xs: seq<Parsed>)
    requires WellFormed(schema) && FreshChunks(schema, chunks)
    ensures AllFit(schema, xs)
    ensures r.Ok? ==> PiecesFit(schema, PiecesOf(schema, chunks))
    ensures r.Ok? ==> EventsOfAll(xs) == Summaries(schema, PiecesOf(schema, chunks))
    ensures r.Err? <==> exists i :: 0 <= i < |chunks| && HasMalformed(Events(schema, chunks[i].bytes))
  {
    hide Events, HasMalformed, RawFresh, InSchema, UsesFragments, ParseAll, Shaped, Usable, PieceFits, Summaries, EmptyEvents,
         ChunkParser.Valid;
    xs := [];
    ghost var cs := PiecesOf(schema, chunks);
    for k := 0 to |chunks|
      invariant |xs| == k && AllFit(schema, xs)
      invariant forall i :: 0 <= i < k ==> !HasMalformed(Events(schema, chunks[i].bytes))
      invariant forall i :: 0 <= i < k ==>
                  InSchema(schema, cs[i].events) && PieceFits(schema, cs[i])
                  && xs[i].events == ParseAll(schema, cs[i].fragmentMode, cs[i].events)
    {
      var parser := new ChunkParser(schema, chunks[k].bytes);
      var parsed := parser.Parse(chunks[k].bytes);
      if parsed.Err? { return Err(InvalidTimestamp), xs; }
      ParsedPieceFits(schema, chunks[k].bytes);
      ParsedIsUsable(schema, cs[k]);
      var streamBytes: nat := *;
      xs := xs + [Parsed(parsed.value, streamBytes)];
    }
    r := Ok(());
    assert EventsOfAll(xs) == Summaries(schema, cs);
  }

  lemma PipelineStateIsSerial(schema: Schema, sectionTarget: nat, cs: seq<Piece>, xs: seq<Parsed>)
    requires PiecesFit(schema, cs) && AllFit(schema, xs) && EventsOfAll(xs) == Summaries(schema, cs)
    ensures InSchema(schema, AllEvents(cs)) && Fits(schema, InitialState(schema))
    ensures PlanOf(schema, sectionTarget, xs).state == CarriedOf(Run(schema, InitialState(schema), AllEvents(cs)))
  {
    hide PieceFits, Shaped, Usable, PlanOf, Run, InitialFrame, ReconcileAll, Cover;
    PlanCovers(schema, sectionTarget, xs);
    InitialFits(schema);
    ChunksComposeToSerial(schema, InitialState(schema), cs);
  }

  /** The state every signal starts in. */
  function InitialValue(schema: Schema, g: nat): seq<Byte>
    requires g < |schema.groups|
  {
    InitialState(schema).frame[g]
  }

  /** The sections are handed for signal `g` the changes the serial converter records, repeats apart. */
  ghost predicate StoresSerially(schema: Schema, jobs: seq<Job>, es: seq<Event>, g: nat)
    requires InSchema(schema, es) && g < |schema.groups|
  {
    && Fits(schema, InitialState(schema)) && SectionsFit(schema, jobs)
    && SameStored(InitialValue(schema, g), FileLog(schema, jobs, g), SerialLog(schema, InitialState(schema), es, g))
  }

  lemma PipelineLogIsSerial(schema: Schema, sectionTarget: nat, cs: seq<Piece>, xs: seq<Parsed>, g: nat)
    requires PiecesFit(schema, cs) && AllFit(schema, xs) && EventsOfAll(xs) == Summaries(schema, cs) && g < |schema.groups|
    ensures InSchema(schema, AllEvents(cs))
    ensures StoresSerially(schema, SectionsOf(PlanOf(schema, sectionTarget, xs)), AllEvents(cs), g)
  {
    hide PieceFits, Shaped, Usable, PlanOf, Run, InitialFrame, ReconcileAll, Cover, SerialLog, FileLog, SameStored;
    PlanCovers(schema, sectionTarget, xs);
    InitialFits(schema);
    assert cs[..|cs|] == cs;
    FileIsSerial(schema, cs, SectionsOf(PlanOf(schema, sectionTarget, xs)), |cs|, g);
  }

  /** The sections read as the serial converter's values of signal `g` at every tick. */
  ghost predicate ReadsSerially(schema: Schema, sections: seq<EncodedSection>, es: seq<Event>, g: nat)
  {
    sections != [] ==> forall tick: nat :: ShowsSerially(schema, sections, es, g, tick)
  }

  lemma PipelineReadsSerially(schema: Schema, sectionTarget: nat, cs: seq<Piece>, xs: seq<Parsed>, sections: seq<EncodedSection>, g: nat)
    requires PiecesFit(schema, cs) && AllFit(schema, xs) && EventsOfAll(xs) == Summaries(schema, cs) && g < |schema.groups|
    requires var jobs := SectionsOf(PlanOf(schema, sectionTarget, xs));
             && EncodedInOrder(schema, sections, jobs) && |sections| == |jobs|
             && SectionsFit(schema, jobs) && FrameIsRight(schema, jobs, g)
    ensures ReadsSerially(schema, sections, AllEvents(cs), g)
  {
    var jobs := SectionsOf(PlanOf(schema, sectionTarget, xs));
    PlanCovers(schema, sectionTarget, xs);
    hide *;
    InitialFits(schema);
    AllEventsInSchema(schema, cs);
    assert cs[..|cs|] == cs;
    PlanCover(schema, EventsOfAll(xs), PlanOf(schema, sectionTarget, xs), xs);
    if jobs != [] {
      forall tick: nat ensures ShowsSerially(schema, sections, AllEvents(cs), g, tick) {
        FileReadsSerially(schema, cs, sections, jobs, |cs|, g, tick);
      }
    }
    EveryTick(schema, sections, AllEvents(cs), g);
  }

  lemma PlanCover(schema: Schema, ps: seq<ChunkEvents>, plan: Plan, xs: seq<Parsed>)
    requires AllShaped(schema, ps) && Covering(schema, ps, plan) && ps == EventsOfAll(xs)
    ensures Cover(schema, ps, SectionsOf(plan), |ps|) && |ps| == |xs|
  {
    hide Shaped, Cover;
  }

  lemma EveryTick(schema: Schema, sections: seq<EncodedSection>, es: seq<Event>, g: nat)
    requires sections != [] ==> forall tick: nat :: ShowsSerially(schema, sections, es, g, tick)
    ensures ReadsSerially(schema, sections, es, g)
  {
    hide ShowsSerially;
  }

  lemma MalformedConcat(x: seq<Event>, y: seq<Event>)
    ensures HasMalformed(x + y) <==> HasMalformed(x) || HasMalformed(y)
  {
    var all := x + y;
    if HasMalformed(x) {
      var i :| 0 <= i < |x| && x[i].Malformed?;
      assert all[i].Malformed?;
    }
    if HasMalformed(y) {
      var i :| 0 <= i < |y| && y[i].Malformed?;
      assert all[|x| + i].Malformed?;
    }
  }

  /** A malformed line is met in one chunk exactly if it is met in the body. */
  lemma {:induction false} MalformedSomewhere(cs: seq<Piece>)
    ensures HasMalformed(AllEvents(cs)) <==> exists i :: 0 <= i < |cs| && HasMalformed(cs[i].events)
  {
    hide HasMalformed;
    if cs == [] {
      NothingMalformed();
    } else {
      MalformedSomewhere(cs[..|cs| - 1]);
      MalformedConcat(AllEvents(cs[..|cs| - 1]), cs[|cs| - 1].events);
      assert forall i :: 0 <= i < |cs| - 1 ==> cs[i] == cs[..|cs| - 1][i];
    }
  }

  lemma NothingMalformed()
    ensures !HasMalformed([])
  {}

  lemma ChunksMalformed(schema: Schema, chunks: seq<Chunk>)
    ensures HasMalformed(AllEvents(PiecesOf(schema, chunks)))
       <==> exists i :: 0 <= i < |chunks| && HasMalformed(Events(schema, chunks[i].bytes))
  {
    hide HasMalformed, AllEvents, Events;
    var cs := PiecesOf(schema, chunks);
    MalformedSomewhere(cs);
    assert forall i :: 0 <= i < |chunks| ==> cs[i].events == Events(schema, chunks[i].bytes);
  }

  /** Chunks that the parser takes in fragment mode start with a positive timestamp. */
  ghost predicate PositiveStarts(schema: Schema, chunks: seq<Chunk>) {
    forall i :: 0 <= i < |chunks| && UsesFragments(chunks[i].bytes) ==>
      var es := Events(schema, chunks[i].bytes);
      es != [] && es[0].Tick? && es[0].tick > 0
  }

  lemma {:induction false} FirstTimestamp(schema: Schema, fragmentMode: bool, es: seq<Event>)
    requires InSchema(schema, es) && es != [] && es[0].Tick?
    ensures var p := ParseAll(schema, fragmentMode, es); p.timestamps != [] && p.timestamps[0] == es[0].tick
  {
    ParseLast(schema, fragmentMode, es);
    if |es| == 1 {
      assert es[..0] == [];
    } else {
      FirstTimestamp(schema, fragmentMode, es[..|es| - 1]);
    }
    hide ParseAll, Shaped, PushRecord, Encode;
  }

  /** Summaries of such chunks have no change at frame time in a fragment. */
  lemma PositiveSummaries(schema: Schema, chunks: seq<Chunk>)
    requires PiecesFit(schema, PiecesOf(schema, chunks)) && PositiveStarts(schema, chunks)
    ensures AllPositiveStarts(Summaries(schema, PiecesOf(schema, chunks)))
  {
    var cs := PiecesOf(schema, chunks);
    hide Events, PieceFits, Summaries, ParseAll, Shaped, UsesFragments, NoFragments, StartsPositive;
    forall i | 0 <= i < |chunks| ensures NoFragments(Summaries(schema, cs)[i]) || StartsPositive(Summaries(schema, cs)[i]) {
      OneSummary(schema, cs[i]);
    }
  }

  lemma OneSummary(schema: Schema, c: Piece)
    requires PieceFits(schema, c)
    requires c.fragmentMode ==> c.events != [] && c.events[0].Tick? && c.events[0].tick > 0
    ensures var p := ParseAll(schema, c.fragmentMode, c.events); NoFragments(p) || StartsPositive(p)
  {
    hide ParseAll, RawFresh, HasMalformed;
    var p := ParseAll(schema, c.fragmentMode, c.events);
    if c.fragmentMode {
      FirstTimestamp(schema, true, c.events);
    } else {
      forall g | 0 <= g < |p.fragments| ensures p.fragments[g] == [] {
        ChangesModeHasNoFragments(schema, c.events, g);
      }
    }
  }

  /** The section can be encoded, with every frame value right. */
  ghost predicate EncodesRight(schema: Schema, job: Job) {
    JobFits(schema, job) && Encodable(schema, job) && forall g :: 0 <= g < |schema.groups| ==> RightFrames(schema, job)[g]
  }

  ghost predicate AllPositiveStarts(ps: seq<ChunkEvents>) {
    forall i :: 0 <= i < |ps| ==> NoFragments(ps[i]) || StartsPositive(ps[i])
  }

  lemma PositiveJob(schema: Schema, ps: seq<ChunkEvents>, job: Job)
    requires AllShaped(schema, ps) && JobInPlace(schema, ps, job) && JobFits(schema, job) && AllPositiveStarts(ps)
    ensures EncodesRight(schema, job)
  {
    hide Shaped, ReconcileAll, NoFragments, StartsPositive, CanEncode, FramesFit, FramesRight;
    PositiveSectionsEncode(schema, job.start, job.sequence == 0, job.summaries);
  }

  lemma {:induction false} PositiveJobs(schema: Schema, ps: seq<ChunkEvents>, jobs: seq<Job>, n: nat)
    requires AllShaped(schema, ps) && Cover(schema, ps, jobs, n) && SectionsFit(schema, jobs) && AllPositiveStarts(ps)
    ensures forall i :: 0 <= i < |jobs| ==> EncodesRight(schema, jobs[i])
  {
    hide AllShaped, JobInPlace, AllPositiveStarts, EncodesRight, JobFits;
    if jobs != [] {
      var last, init := jobs[|jobs| - 1], jobs[..|jobs| - 1];
      assert SectionsFit(schema, init);
      PositiveJobs(schema, ps, init, last.sequence);
      PositiveJob(schema, ps, last);
    }
  }

  lemma JobsEncodeRight(schema: Schema, jobs: seq<Job>)
    requires forall i :: 0 <= i < |jobs| ==> EncodesRight(schema, jobs[i])
    ensures !Unencodable(schema, jobs)
    ensures forall g :: 0 <= g < |schema.groups| ==> FrameIsRight(schema, jobs, g)
  {
    hide JobFits, Encodable, RightFrames;
  }

  lemma PositivePipeline(schema: Schema, sectionTarget: nat, chunks: seq<Chunk>, xs: seq<Parsed>)
    requires PiecesFit(schema, PiecesOf(schema, chunks)) && AllFit(schema, xs)
    requires EventsOfAll(xs) == Summaries(schema, PiecesOf(schema, chunks)) && PositiveStarts(schema, chunks)
    requires SectionsFit(schema, SectionsOf(PlanOf(schema, sectionTarget, xs)))
    ensures !Unencodable(schema, SectionsOf(PlanOf(schema, sectionTarget, xs)))
    ensures forall g :: 0 <= g < |schema.groups| ==> FrameIsRight(schema, SectionsOf(PlanOf(schema, sectionTarget, xs)), g)
  {
    hide *;
    PiecesCount(schema, chunks);
    PositiveSummaries(schema, chunks);
    PlanCovers(schema, sectionTarget, xs);
    PlanCover(schema, EventsOfAll(xs), PlanOf(schema, sectionTarget, xs), xs);
    PositiveJobs(schema, EventsOfAll(xs), SectionsOf(PlanOf(schema, sectionTarget, xs)), |xs|);
    JobsEncodeRight(schema, SectionsOf(PlanOf(schema, sectionTarget, xs)));
  }

  lemma PipelineFits(schema: Schema, sectionTarget: nat, xs: seq<Parsed>)
    requires AllFit(schema, xs)
    ensures SectionsFit(schema, SectionsOf(PlanOf(schema, sectionTarget, xs)))
  {
    hide Shaped, Usable, PlanOf, SectionsOf, JobFits;
    PlanSound(schema, sectionTarget, xs);
  }

  /** The sections read, at every tick, as this log from this value on. */
  ghost predicate ReadsAs(sections: seq<EncodedSection>, g: nat, log: seq<Recorded>, value: seq<Byte>) {
    sections != [] ==> InFile(sections, g) && forall tick: nat :: FileRead(sections, g, tick) == ReadAt(value, log, tick)
  }

  /** The sections read, at every tick, as a log that has exactly the changes the lines of the body
      record for the signal, starting from all x. */
  ghost predicate ReadsAsLines(schema: Schema, sections: seq<EncodedSection>, lines: seq<seq<Byte>>, g: nat,
                               log: seq<Recorded>, value: seq<Byte>) {
    && LogMeans(schema, lines, g, log, AddingLines(schema, lines, g)) && Unwritten(schema, g, value)
    && ReadsAs(sections, g, log, value)
  }

  lemma SerialLogIsLog(schema: Schema, es: seq<Event>, g: nat)
    requires Fits(schema, InitialState(schema)) && InSchema(schema, es) && g < |schema.groups|
    ensures SerialLog(schema, InitialState(schema), es, g) == Run(schema, InitialState(schema), es).log[g]
  {
    LogIsAppended(schema, InitialState(schema), es, g);
    NoLogYet(schema, g);
    hide Run, SerialLog;
    assert [] + SerialLog(schema, InitialState(schema), es, g) == SerialLog(schema, InitialState(schema), es, g);
  }

  lemma NoLogYet(schema: Schema, g: nat)
    requires g < |schema.groups|
    ensures |InitialState(schema).log| == |schema.groups| && InitialState(schema).log[g] == []
  {}

  lemma SerialReadIsLines(schema: Schema, sections: seq<EncodedSection>, body: seq<Byte>, g: nat)
    requires WellFormed(schema) && g < |schema.groups| && InSchema(schema, Events(schema, body))
    requires Fits(schema, InitialState(schema))
    requires StateMeans(schema, Lines(body), Run(schema, InitialState(schema), Events(schema, body)))
    requires ReadsSerially(schema, sections, Events(schema, body), g)
    ensures ReadsAsLines(schema, sections, Lines(body), g, Run(schema, InitialState(schema), Events(schema, body)).log[g],
                         InitialValue(schema, g))
  {
    hide *;
    var s := Run(schema, InitialState(schema), Events(schema, body));
    SerialLogIsLog(schema, Events(schema, body), g);
    ValueUnwritten(schema, g);
    LogOfState(schema, Lines(body), s, g);
    ReadsLog(schema, sections, Events(schema, body), g, s.log[g]);
    ReadsFold(schema, sections, Lines(body), g, s.log[g], InitialValue(schema, g));
  }

  lemma ValueUnwritten(schema: Schema, g: nat)
    requires g < |schema.groups|
    ensures Unwritten(schema, g, InitialValue(schema, g))
  {
    InitialIsUnwritten(schema, g);
  }

  lemma LogOfState(schema: Schema, lines: seq<seq<Byte>>, s: State, g: nat)
    requires StateMeans(schema, lines, s) && g < |schema.groups|
    ensures g < |s.log| == |schema.groups| && LogMeans(schema, lines, g, s.log[g], AddingLines(schema, lines, g))
  {
    hide LogMeans, AddingLines, Unwritten, BlackedOut, IsClock, HasTime;
    assert SignalMeans(schema, lines, g, s.frame[g], s.log[g]);
  }

  lemma ReadsLog(schema: Schema, sections: seq<EncodedSection>, es: seq<Event>, g: nat, log: seq<Recorded>)
    requires g < |schema.groups| && InSchema(schema, es) && Fits(schema, InitialState(schema))
    requires ReadsSerially(schema, sections, es, g) && log == SerialLog(schema, InitialState(schema), es, g)
    ensures ReadsAs(sections, g, log, InitialValue(schema, g))
  {
    hide SerialLog, ReadAt, FileRead, Fits, InSchema, InitialState;
    if sections != [] {
      assert ShowsSerially(schema, sections, es, g, 0);
      forall tick: nat ensures FileRead(sections, g, tick) == ReadAt(InitialValue(schema, g), log, tick) {
        assert ShowsSerially(schema, sections, es, g, tick);
      }
    }
  }

  lemma ReadsFold(schema: Schema, sections: seq<EncodedSection>, lines: seq<seq<Byte>>, g: nat, log: seq<Recorded>, value: seq<Byte>)
    requires LogMeans(schema, lines, g, log, AddingLines(schema, lines, g)) && Unwritten(schema, g, value)
    requires ReadsAs(sections, g, log, value)
    ensures ReadsAsLines(schema, sections, lines, g, log, value)
  {
    hide LogMeans, AddingLines, Unwritten, ReadsAs;
  }

  lemma NoSections(schema: Schema)
    ensures SectionsFit(schema, []) && EncodedInOrder(schema, [], []) && !Unencodable(schema, [])
  {}

  /** The parallel converter. On success its final frame, time and dump state are the serial
      converter's, the sections are handed the serial changes of every signal, and they read as the
      serial values at every tick for every signal whose first frame is right; all frames are right
      if fragment chunks start with positive timestamps. Encoding fails only if some section has
      more frame-time changes than fit. This holds for every chunk and section target, every
      fragmentation of the reads and every interleaving of the workers. */
  method ParseBytesParallel(schema: Schema, body: seq<Byte>, bodyOffset: nat, chunkTarget: nat, sectionTarget: nat)
    returns (r: Result<(), ConvertError>, state: Carried, sections: seq<EncodedSection>, ghost jobs: seq<Job>)
    requires WellFormed(schema) && chunkTarget > 0
    requires FreshChunks(schema, Chunks(body, chunkTarget, bodyOffset, 0))
    ensures InSchema(schema, Events(schema, body)) && Fits(schema, InitialState(schema))
    ensures StateMeans(schema, Lines(body), Run(schema, InitialState(schema), Events(schema, body)))
    ensures r.Ok? ==> forall k :: 0 <= k < |Lines(body)| ==> !Misread(Lines(body)[k])
    ensures r.Err? && r.error.Parse? ==> exists k :: 0 <= k < |Lines(body)| && Misread(Lines(body)[k])
    ensures SectionsFit(schema, jobs) && EncodedInOrder(schema, sections, jobs)
    ensures EncodeFailed(r) ==> Unencodable(schema, jobs)
    ensures PositiveStarts(schema, Chunks(body, chunkTarget, bodyOffset, 0)) ==>
              !EncodeFailed(r) && forall g :: 0 <= g < |schema.groups| ==> FrameIsRight(schema, jobs, g)
    ensures r.Ok? ==> |sections| == |jobs| && state == CarriedOf(Run(schema, InitialState(schema), Events(schema, body)))
    ensures r.Ok? ==> forall g :: 0 <= g < |schema.groups| ==>
              && StoresSerially(schema, jobs, Events(schema, body), g)
              && (FrameIsRight(schema, jobs, g) ==>
                    ReadsAsLines(schema, sections, Lines(body), g, Run(schema, InitialState(schema), Events(schema, body)).log[g],
                                 InitialValue(schema, g)))
  {
    NoSections(schema);
    NoFailure();
    assert forall g :: 0 <= g < |schema.groups| ==> FrameIsRight(schema, [], g);
    hide *;
    BodyMeans(schema, body);
    InitialFits(schema);
    state, sections, jobs := CarriedOf(InitialState(schema)), [], [];
    var collected, chunks := CollectChunks(body, bodyOffset, chunkTarget);
    if collected.Err? { return Err(Source(collected.error)), state, sections, jobs; }
    ChunksKeepEvents(schema, body, chunkTarget, bodyOffset, 0);
    ChunksMalformed(schema, chunks);
    var parsed, xs := ParseChunks(schema, chunks);
    if parsed.Err? { return Err(Parse(parsed.error)), state, sections, jobs; }
    jobs := SectionsOf(PlanOf(schema, sectionTarget, xs));
    PipelineFits(schema, sectionTarget, xs);
    if PositiveStarts(schema, chunks) { PositivePipeline(schema, sectionTarget, chunks, xs); }
    var ran;
    ran, state, sections := RunPipeline(schema, sectionTarget, xs);
    OutcomeMeaning(schema, PlanOf(schema, sectionTarget, xs), ran, state, sections);
    if ran.Err? { return Err(Pipeline(ran.error)), state, sections, jobs; }
    PipelineStateIsSerial(schema, sectionTarget, PiecesOf(schema, chunks), xs);
    forall g | 0 <= g < |schema.groups|
      ensures StoresSerially(schema, jobs, Events(schema, body), g)
      ensures FrameIsRight(schema, jobs, g) ==>
                ReadsAsLines(schema, sections, Lines(body), g, Run(schema, InitialState(schema), Events(schema, body)).log[g],
                             InitialValue(schema, g))
    {
      PipelineLogIsSerial(schema, sectionTarget, PiecesOf(schema, chunks), xs, g);
      if FrameIsRight(schema, jobs, g) {
        PipelineReadsSerially(schema, sectionTarget, PiecesOf(schema, chunks), xs, sections, g);
        SerialReadIsLines(schema, sections, body, g);
      }
    }
    r := Ok(());
  }

  lemma OutcomeMeaning(schema: Schema, plan: Plan, r: Result<(), PipelineError>, state: Carried, appended: seq<EncodedSection>)
    requires PipelineOutcome(schema, plan, r, state, appended)
    ensures EncodedInOrder(schema, appended, SectionsOf(plan))
    ensures r.Ok? ==> |appended| == |SectionsOf(plan)| && state == plan.state
    ensures r.Err? && r.error.EncoderFailed? ==> Unencodable(schema, SectionsOf(plan))
  {}

  predicate EncodeFailed(r: Result<(), ConvertError>) {
    r.Err? && r.error.Pipeline? && r.error.pipeline.EncoderFailed?
  }

  lemma NoFailure()
    ensures forall e :: !EncodeFailed(Err(Source(e)))
    ensures forall e :: !EncodeFailed(Err(Parse(e)))
    ensures forall e :: EncodeFailed(Err(Pipeline(e))) <==> e.EncoderFailed?
    ensures !EncodeFailed(Ok(()))
  {}

  /** The serial converter, on chunks of any other size. */
  method ParseBytes(schema: Schema, body: seq<Byte>, bodyOffset: nat, chunkTarget: nat)
    returns (r: Result<(), ConvertError>, state: State)
    requires WellFormed(schema) && chunkTarget > 0
    ensures InSchema(schema, Events(schema, body)) && Fits(schema, InitialState(schema))
    ensures StateMeans(schema, Lines(body), Run(schema, InitialState(schema), Events(schema, body)))
    ensures r.Ok? ==> forall k :: 0 <= k < |Lines(body)| ==> !Misread(Lines(body)[k])
    ensures r.Err? && r.error.Parse? ==> exists k :: 0 <= k < |Lines(body)| && Misread(Lines(body)[k])
    ensures r.Ok? ==> state == Run(schema, InitialState(schema), Events(schema, body))
  {
    hide *;
    BodyMeans(schema, body);
    InitialFits(schema);
    var handler := new FstBuildHandler(schema);
    state := InitialState(schema);
    var collected, chunks := CollectChunks(body, bodyOffset, chunkTarget);
    if collected.Err? { return Err(Source(collected.error)), state; }
    ChunksKeepEvents(schema, body, chunkTarget, bodyOffset, 0);
    ghost var cs := PiecesOf(schema, chunks);
    PiecesCount(schema, chunks);
    NothingRun(schema);
    assert cs[..0] == [];
    NothingMalformed();
    for k := 0 to |chunks|
      invariant fresh(handler) && handler.Valid() && handler.schema == schema
      invariant InSchema(schema, AllEvents(cs[..k])) && !HasMalformed(AllEvents(cs[..k]))
      invariant handler.View() == Run(schema, InitialState(schema), AllEvents(cs[..k]))
    {
      NextPiece(schema, chunks, k);
      var processed := handler.ProcessChunk(chunks[k].bytes);
      if processed.Err? {
        ChunksMalformed(schema, chunks);
        return Err(Parse(processed.error)), state;
      }
      RunConcat(schema, InitialState(schema), AllEvents(cs[..k]), Events(schema, chunks[k].bytes));
      MalformedConcat(AllEvents(cs[..k]), Events(schema, chunks[k].bytes));
    }
    assert cs[..|chunks|] == cs;
    state := State(handler.frame, handler.currentTick, handler.anyTimeWritten, handler.inDumpoff, handler.recorded);
    HandlerState(handler);
    r := Ok(());
  }

  lemma NextPiece(schema: Schema, chunks: seq<Chunk>, k: nat)
    requires k < |chunks|
    ensures |PiecesOf(schema, chunks)| == |chunks|
    ensures AllEvents(PiecesOf(schema, chunks)[..k + 1])
         == AllEvents(PiecesOf(schema, chunks)[..k]) + Events(schema, chunks[k].bytes)
  {
    hide Events, UsesFragments;
    var cs := PiecesOf(schema, chunks);
    assert cs[..k + 1][..k] == cs[..k];
  }

  lemma PiecesCount(schema: Schema, chunks: seq<Chunk>)
    ensures |PiecesOf(schema, chunks)| == |chunks|
  {}

  lemma HandlerState(handler: FstBuildHandler)
    ensures handler.View() == State(handler.frame, handler.currentTick, handler.anyTimeWritten, handler.inDumpoff, handler.recorded)
  {}
}
