/** The parallel coordinator: chunk summaries arrive in any order, sections complete in any
    order, and the sections are the same (crates/bwave/src/fst.rs, `parse_bytes_parallel`). The
    coordinator reconciles with `Reconciler` and its workers encode with `EncodeWorker`. */
module Coordination {
  import opened Basics
  import opened VcdText
  import opened SerialConversion
  import opened ChunkParsing
  import opened Reconciliation
  import opened SectionEncoding
  import opened SectionEncoder

  /** A parsed chunk and the number of bytes it adds to its section. */
  datatype Parsed = Parsed(events: ChunkEvents, streamBytes: nat)

  /** What one encoder worker receives between Start and Finish. */
  datatype Job = Job(sequence: nat, start: Carried, summaries: seq<ChunkEvents>)

  ghost predicate AllFit(schema: Schema, xs: seq<Parsed>) {
    forall i :: 0 <= i < |xs| ==> Shaped(schema, xs[i].events) && Usable(schema, xs[i].events)
  }

  // ---- The sections in input order ----

  /** Coordinator state after some chunks in order; `closed` lists the finished sections. */
  datatype Plan = Plan(state: Carried, active: Option<Job>, bytes: nat, closed: seq<Job>)

  /** The section that takes the next chunk. */
  function Taking(plan: Plan, sequence: nat): Job {
    if plan.active.Some? then plan.active.value else Job(sequence, plan.state, [])
  }

  /** Takes the chunk with the given number, closing the section when it reaches the target. */
  function Assign(schema: Schema, target: nat, plan: Plan, sequence: nat, x: Parsed): Plan
    requires CarriedFits(schema, plan.state) && Shaped(schema, x.events)
  {
    var job := Taking(plan, sequence);
    var grown := job.(summaries := job.summaries + [x.events]);
    var bytes := plan.bytes + x.streamBytes;
    var state := Reconcile(schema, plan.state, x.events);
    if bytes >= target then Plan(state, None, 0, plan.closed + [grown])
    else Plan(state, Some(grown), bytes, plan.closed)
  }

  function InitialPlan(schema: Schema): Plan {
    Plan(CarriedOf(InitialState(schema)), None, 0, [])
  }

  function PlanOf(schema: Schema, target: nat, xs: seq<Parsed>): (plan: Plan)
    requires AllFit(schema, xs)
    ensures CarriedFits(schema, plan.state)
  {
    hide Shaped, Usable, Reconcile;
    if xs == [] then InitialPlan(schema)
    else Assign(schema, target, PlanOf(schema, target, xs[..|xs| - 1]), |xs| - 1, xs[|xs| - 1])
  }

  /** All sections once the input has ended. */
  function SectionsOf(plan: Plan): seq<Job> {
    if plan.active.Some? then plan.closed + [plan.active.value] else plan.closed
  }

  lemma PlanNext(schema: Schema, target: nat, xs: seq<Parsed>, k: nat)
    requires AllFit(schema, xs) && k < |xs|
    ensures AllFit(schema, xs[..k]) && AllFit(schema, xs[..k + 1])
    ensures PlanOf(schema, target, xs[..k + 1]) == Assign(schema, target, PlanOf(schema, target, xs[..k]), k, xs[k])
  {
    hide Assign, Shaped;
    assert xs[..k + 1][..k] == xs[..k];
  }

  /** Sections only ever get added. */
  lemma {:induction false} ClosedGrows(schema: Schema, target: nat, xs: seq<Parsed>, k: nat)
    requires AllFit(schema, xs) && k <= |xs|
    ensures AllFit(schema, xs[..k])
    ensures PlanOf(schema, target, xs[..k]).closed <= PlanOf(schema, target, xs).closed
  {
    if k == |xs| {
      assert xs[..k] == xs;
    } else {
      var init := xs[..|xs| - 1];
      ClosedGrows(schema, target, init, k);
      assert init[..k] == xs[..k];
      hide Shaped, Usable, Reconcile;
    }
  }

  // ---- A section ends with the chunk that reaches the target ----

  /** What the chunks `from` up to, not including, `end` add. */
  ghost function StreamSize(xs: seq<Parsed>, from: nat, end: nat): nat
    requires end <= |xs|
    decreases end
  {
    if end <= from then 0 else StreamSize(xs, from, end - 1) + xs[end - 1].streamBytes
  }

  /** The chunks of a finished section reach the target, and without the last they do not. */
  ghost predicate Reaches(xs: seq<Parsed>, target: nat, job: Job) {
    var from, end := job.sequence, job.sequence + |job.summaries|;
    && from < end <= |xs| && target <= StreamSize(xs, from, end)
    && (from < end - 1 ==> StreamSize(xs, from, end - 1) < target)
  }

  ghost predicate Sized(plan: Plan, xs: seq<Parsed>, target: nat) {
    && (forall k :: 0 <= k < |plan.closed| ==> Reaches(xs, target, plan.closed[k]))
    && match plan.active
       case None => plan.bytes == 0
       case Some(job) =>
         && job.sequence < job.sequence + |job.summaries| == |xs|
         && plan.bytes == StreamSize(xs, job.sequence, |xs|) < target
  }

  lemma {:induction false} SizeOfPrefix(xs: seq<Parsed>, x: Parsed, from: nat, end: nat)
    requires end <= |xs|
    ensures StreamSize(xs + [x], from, end) == StreamSize(xs, from, end)
    decreases end
  {
    if from < end { SizeOfPrefix(xs, x, from, end - 1); }
  }

  lemma StillReaches(xs: seq<Parsed>, x: Parsed, target: nat, job: Job)
    requires Reaches(xs, target, job)
    ensures Reaches(xs + [x], target, job)
  {
    var from, end := job.sequence, job.sequence + |job.summaries|;
    SizeOfPrefix(xs, x, from, end);
    SizeOfPrefix(xs, x, from, end - 1);
    hide StreamSize;
  }

  lemma AssignSized(schema: Schema, target: nat, plan: Plan, xs: seq<Parsed>, x: Parsed)
    requires CarriedFits(schema, plan.state) && Shaped(schema, x.events) && Sized(plan, xs, target)
    ensures Sized(Assign(schema, target, plan, |xs|, x), xs + [x], target)
  {
    hide Shaped, CarriedFits, Reconcile, Reaches;
    var all, next := xs + [x], Assign(schema, target, plan, |xs|, x);
    var job := Taking(plan, |xs|);
    SizeOfPrefix(xs, x, job.sequence, |xs|);
    forall k | 0 <= k < |plan.closed| ensures Reaches(all, target, plan.closed[k]) { StillReaches(xs, x, target, plan.closed[k]); }
    var grown := job.(summaries := job.summaries + [x.events]);
    assert StreamSize(all, job.sequence, |all|) == StreamSize(xs, job.sequence, |xs|) + x.streamBytes;
    if next.active.None? {
      GrownReaches(all, target, grown);
      assert next.closed == plan.closed + [grown];
    }
  }

  lemma GrownReaches(xs: seq<Parsed>, target: nat, job: Job)
    requires job.sequence + |job.summaries| == |xs| && job.summaries != []
    requires target <= StreamSize(xs, job.sequence, |xs|) && (|job.summaries| > 1 ==> StreamSize(xs, job.sequence, |xs| - 1) < target)
    ensures Reaches(xs, target, job)
  {}

  /** Every finished section holds just enough chunks to reach the target, and the open one does not reach it. */
  lemma {:induction false} SectionsReachTarget(schema: Schema, target: nat, xs: seq<Parsed>)
    requires AllFit(schema, xs)
    ensures Sized(PlanOf(schema, target, xs), xs, target)
  {
    hide Assign, Sized, Shaped, Usable, CarriedFits;
    if xs == [] {
      NothingSized(schema, target);
    } else {
      var init := xs[..|xs| - 1];
      SectionsReachTarget(schema, target, init);
      assert xs == init + [xs[|xs| - 1]];
      AssignSized(schema, target, PlanOf(schema, target, init), init, xs[|xs| - 1]);
    }
  }

  lemma NothingSized(schema: Schema, target: nat)
    ensures Sized(InitialPlan(schema), [], target)
  {}

  // ---- Sections cover contiguous chunks and start from the state before them ----

  function EventsOfAll(xs: seq<Parsed>): seq<ChunkEvents> {
    seq(|xs|, i requires 0 <= i < |xs| => xs[i].events)
  }

  ghost predicate JobInPlace(schema: Schema, ps: seq<ChunkEvents>, job: Job)
    requires AllShaped(schema, ps)
  {
    var from, to := job.sequence, job.sequence + |job.summaries|;
    && from < to <= |ps| && job.summaries == ps[from..to]
    && job.start == ReconcileAll(schema, CarriedOf(InitialState(schema)), ps[..from])
  }

  /** The sections cover the chunks before `n`, each beginning where its predecessor ends. */
  ghost predicate Cover(schema: Schema, ps: seq<ChunkEvents>, jobs: seq<Job>, n: nat)
    requires AllShaped(schema, ps)
  {
    if jobs == [] then n == 0
    else
      var last := jobs[|jobs| - 1];
      && JobInPlace(schema, ps, last) && last.sequence + |last.summaries| == n
      && Cover(schema, ps, jobs[..|jobs| - 1], last.sequence)
  }

  ghost predicate Covering(schema: Schema, ps: seq<ChunkEvents>, plan: Plan)
    requires AllShaped(schema, ps)
  {
    && Cover(schema, ps, SectionsOf(plan), |ps|)
    && plan.state == ReconcileAll(schema, CarriedOf(InitialState(schema)), ps)
  }

  lemma JobStaysInPlace(schema: Schema, ps: seq<ChunkEvents>, p: ChunkEvents, job: Job)
    requires AllShaped(schema, ps) && Shaped(schema, p) && JobInPlace(schema, ps, job)
    ensures AllShaped(schema, ps + [p]) && JobInPlace(schema, ps + [p], job)
  {
    hide Shaped, Usable, ReconcileAll;
    var from, to := job.sequence, job.sequence + |job.summaries|;
    assert (ps + [p])[..from] == ps[..from] && (ps + [p])[from..to] == ps[from..to];
  }

  lemma GrownJobInPlace(schema: Schema, ps: seq<ChunkEvents>, p: ChunkEvents, job: Job)
    requires AllShaped(schema, ps) && Shaped(schema, p) && job.sequence + |job.summaries| == |ps|
    requires job.start == ReconcileAll(schema, CarriedOf(InitialState(schema)), ps[..job.sequence])
    requires job.summaries == ps[job.sequence..]
    ensures AllShaped(schema, ps + [p]) && JobInPlace(schema, ps + [p], job.(summaries := job.summaries + [p]))
  {
    hide Shaped, Usable, ReconcileAll;
    assert (ps + [p])[..job.sequence] == ps[..job.sequence];
  }

  lemma ReconcileSnoc(schema: Schema, c: Carried, ps: seq<ChunkEvents>, p: ChunkEvents)
    requires CarriedFits(schema, c) && AllShaped(schema, ps) && Shaped(schema, p)
    ensures AllShaped(schema, ps + [p])
    ensures ReconcileAll(schema, c, ps + [p]) == Reconcile(schema, ReconcileAll(schema, c, ps), p)
  {
    hide Shaped, Usable, Reconcile;
    assert (ps + [p])[..|ps|] == ps;
  }

  lemma {:induction false} CoverStays(schema: Schema, ps: seq<ChunkEvents>, p: ChunkEvents, jobs: seq<Job>, n: nat)
    requires AllShaped(schema, ps) && Shaped(schema, p) && Cover(schema, ps, jobs, n)
    ensures AllShaped(schema, ps + [p]) && Cover(schema, ps + [p], jobs, n)
  {
    hide Shaped, Usable, JobInPlace;
    if jobs != [] {
      JobStaysInPlace(schema, ps, p, jobs[|jobs| - 1]);
      CoverStays(schema, ps, p, jobs[..|jobs| - 1], jobs[|jobs| - 1].sequence);
    }
  }

  lemma CoverSnoc(schema: Schema, ps: seq<ChunkEvents>, jobs: seq<Job>, job: Job)
    requires AllShaped(schema, ps) && Cover(schema, ps, jobs, job.sequence) && JobInPlace(schema, ps, job)
    ensures Cover(schema, ps, jobs + [job], job.sequence + |job.summaries|)
  {
    hide Shaped, Usable, JobInPlace;
    assert (jobs + [job])[..|jobs|] == jobs;
  }

  lemma TakingFits(schema: Schema, ps: seq<ChunkEvents>, plan: Plan)
    requires AllShaped(schema, ps) && Covering(schema, ps, plan)
    ensures var job := Taking(plan, |ps|);
            && Cover(schema, ps, plan.closed, job.sequence)
            && job.sequence + |job.summaries| == |ps| && job.summaries == ps[job.sequence..]
            && job.start == ReconcileAll(schema, CarriedOf(InitialState(schema)), ps[..job.sequence])
  {
    hide Shaped, Usable, ReconcileAll;
    assert ps[..|ps|] == ps;
    var jobs := SectionsOf(plan);
    if plan.active.Some? { assert jobs[..|jobs| - 1] == plan.closed; }
  }

  lemma AssignKeepsCovering(schema: Schema, target: nat, ps: seq<ChunkEvents>, plan: Plan, x: Parsed)
    requires AllShaped(schema, ps) && Shaped(schema, x.events) && CarriedFits(schema, plan.state)
    requires Covering(schema, ps, plan)
    ensures AllShaped(schema, ps + [x.events])
    ensures Covering(schema, ps + [x.events], Assign(schema, target, plan, |ps|, x))
  {
    var job := Taking(plan, |ps|);
    var grown := job.(summaries := job.summaries + [x.events]);
    hide Shaped, Usable, Reconcile, ReconcileAll, CarriedFits, JobInPlace, Cover;
    TakingFits(schema, ps, plan);
    ReconcileSnoc(schema, CarriedOf(InitialState(schema)), ps, x.events);
    GrownJobInPlace(schema, ps, x.events, job);
    CoverStays(schema, ps, x.events, plan.closed, job.sequence);
    CoverSnoc(schema, ps + [x.events], plan.closed, grown);
    assert SectionsOf(Assign(schema, target, plan, |ps|, x)) == plan.closed + [grown];
  }

  lemma EventsOfLast(schema: Schema, xs: seq<Parsed>)
    requires AllFit(schema, xs) && xs != []
    ensures AllShaped(schema, EventsOfAll(xs)) && AllShaped(schema, EventsOfAll(xs[..|xs| - 1]))
    ensures EventsOfAll(xs) == EventsOfAll(xs[..|xs| - 1]) + [xs[|xs| - 1].events]
  {
    hide Shaped, Usable;
  }

  /** The sections partition the chunks in order; each starts from the state just before its
      first chunk; the final state folds every chunk exactly once. */
  lemma {:induction false} PlanCovers(schema: Schema, target: nat, xs: seq<Parsed>)
    requires AllFit(schema, xs)
    ensures AllShaped(schema, EventsOfAll(xs))
    ensures Covering(schema, EventsOfAll(xs), PlanOf(schema, target, xs))
  {
    hide Shaped, Usable, Assign, ReconcileAll, InitialState;
    if xs == [] {
      NothingCovered(schema);
      assert EventsOfAll(xs) == [];
    } else {
      var init := xs[..|xs| - 1];
      EventsOfLast(schema, xs);
      PlanCovers(schema, target, init);
      hide Covering, PlanOf;
      PlanLast(schema, target, xs);
      AssignKeepsCovering(schema, target, EventsOfAll(init), PlanOf(schema, target, init), xs[|xs| - 1]);
    }
  }

  lemma NothingCovered(schema: Schema)
    ensures AllShaped(schema, []) && Covering(schema, [], InitialPlan(schema))
  {}

  lemma PlanLast(schema: Schema, target: nat, xs: seq<Parsed>)
    requires AllFit(schema, xs) && xs != []
    ensures AllFit(schema, xs[..|xs| - 1]) && Shaped(schema, xs[|xs| - 1].events)
    ensures PlanOf(schema, target, xs) == Assign(schema, target, PlanOf(schema, target, xs[..|xs| - 1]), |xs| - 1, xs[|xs| - 1])
  {
    hide Assign, Shaped;
  }

  /** Sections are numbered by their first chunk, in increasing order. */
  lemma {:induction false} CoverIncreases(schema: Schema, ps: seq<ChunkEvents>, jobs: seq<Job>, n: nat)
    requires AllShaped(schema, ps) && Cover(schema, ps, jobs, n)
    ensures forall i :: 0 <= i < |jobs| ==> jobs[i].sequence < n
    ensures forall i, j :: 0 <= i < j < |jobs| ==> jobs[i].sequence < jobs[j].sequence
  {
    hide Shaped, Usable, ReconcileAll;
    if jobs != [] {
      CoverIncreases(schema, ps, jobs[..|jobs| - 1], jobs[|jobs| - 1].sequence);
    }
  }

  // ---- Sections and what their workers make of them ----

  ghost predicate JobFits(schema: Schema, job: Job) {
    CanEncode(schema, job.start, job.sequence == 0, job.summaries)
  }

  ghost predicate Encodable(schema: Schema, job: Job)
    requires JobFits(schema, job)
  {
    FramesFit(schema, job.start, job.sequence == 0, job.summaries)
  }

  /** The section as the summaries determine it. */
  ghost function SectionOf(schema: Schema, job: Job): Section
    requires JobFits(schema, job)
  {
    EncodeSection(schema, job.start, job.sequence == 0, job.summaries)
  }

  /** For which signals its frame slot is right. */
  ghost function RightFrames(schema: Schema, job: Job): (right: seq<bool>)
    requires JobFits(schema, job)
    ensures |right| == |schema.groups|
  {
    FramesRight(schema, job.start, job.sequence == 0, job.summaries)
  }

  ghost predicate EncodedAs(schema: Schema, enc: EncodedSection, job: Job) {
    && JobFits(schema, job) && Encodable(schema, job)
    && Contains(enc, SectionOf(schema, job), job.start.frame, RightFrames(schema, job))
  }

  lemma PlaceFits(schema: Schema, ps: seq<ChunkEvents>, job: Job)
    requires AllShaped(schema, ps) && AllUsable(schema, ps) && JobInPlace(schema, ps, job)
    ensures JobFits(schema, job)
  {
    hide Shaped, Usable, Reconcile;
    if job.sequence == 0 { assert ps[..0] == []; }
  }

  lemma {:induction false} CoverFits(schema: Schema, ps: seq<ChunkEvents>, jobs: seq<Job>, n: nat)
    requires AllShaped(schema, ps) && AllUsable(schema, ps) && Cover(schema, ps, jobs, n)
    ensures forall i :: 0 <= i < |jobs| ==> JobFits(schema, jobs[i])
  {
    hide AllShaped, AllUsable, JobInPlace, JobFits;
    if jobs != [] {
      PlaceFits(schema, ps, jobs[|jobs| - 1]);
      CoverFits(schema, ps, jobs[..|jobs| - 1], jobs[|jobs| - 1].sequence);
    }
  }

  // ---- The queue of submitted sections ----

  ghost predicate Increasing(jobs: seq<Job>) {
    forall i, j :: 0 <= i < j < |jobs| ==> jobs[i].sequence < jobs[j].sequence
  }

  ghost predicate Sound(schema: Schema, jobs: seq<Job>) {
    Increasing(jobs) && forall i :: 0 <= i < |jobs| ==> JobFits(schema, jobs[i])
  }

  /** The submitted section is with its encoder worker or completed, never both. */
  ghost predicate Held(schema: Schema, job: Job, inflight: map<nat, Job>, completed: map<nat, EncodedSection>) {
    if job.sequence in inflight then job.sequence !in completed && inflight[job.sequence] == job
    else job.sequence in completed && EncodedAs(schema, completed[job.sequence], job)
  }

  /** Encoded sections, in the order of their jobs. */
  ghost predicate EncodedInOrder(schema: Schema, appended: seq<EncodedSection>, jobs: seq<Job>) {
    |appended| <= |jobs| && forall i :: 0 <= i < |appended| ==> EncodedAs(schema, appended[i], jobs[i])
  }

  /** Appended sections are the first ones closed; the rest wait in submission order. */
  ghost predicate QueueFits(schema: Schema, closed: seq<Job>, appended: seq<EncodedSection>, submitted: seq<nat>,
                            inflight: map<nat, Job>, completed: map<nat, EncodedSection>)
  {
    && EncodedInOrder(schema, appended, closed) && |appended| + |submitted| == |closed| && Sound(schema, closed)
    && (forall i :: |appended| <= i < |closed| ==> submitted[i - |appended|] == closed[i].sequence)
    && (forall i :: |appended| <= i < |closed| ==> Held(schema, closed[i], inflight, completed))
    && (forall q :: q in inflight || q in completed ==> q in submitted)
  }

  lemma QueueSubmits(schema: Schema, closed: seq<Job>, appended: seq<EncodedSection>, submitted: seq<nat>,
                     inflight: map<nat, Job>, completed: map<nat, EncodedSection>, job: Job)
    requires QueueFits(schema, closed, appended, submitted, inflight, completed) && Sound(schema, closed + [job])
    ensures QueueFits(schema, closed + [job], appended, submitted + [job.sequence], inflight[job.sequence := job], completed)
  {
    hide EncodedAs, JobFits;
    var all, queue := closed + [job], submitted + [job.sequence];
    forall i | 0 <= i < |submitted| ensures submitted[i] != job.sequence {
      assert submitted[i + |appended| - |appended|] == closed[i + |appended|].sequence;
      assert all[i + |appended|].sequence < all[|closed|].sequence;
    }
    forall i | |appended| <= i < |all|
      ensures queue[i - |appended|] == all[i].sequence && Held(schema, all[i], inflight[job.sequence := job], completed)
    {
      if i < |closed| {
        assert Held(schema, closed[i], inflight, completed);
        assert all[i].sequence < all[|closed|].sequence;
      }
    }
    assert queue[|submitted|] == job.sequence;
  }

  lemma QueueCompletes(schema: Schema, closed: seq<Job>, appended: seq<EncodedSection>, submitted: seq<nat>,
                       inflight: map<nat, Job>, completed: map<nat, EncodedSection>, q: nat, enc: EncodedSection)
    requires QueueFits(schema, closed, appended, submitted, inflight, completed)
    requires q in inflight && EncodedAs(schema, enc, inflight[q])
    ensures QueueFits(schema, closed, appended, submitted, inflight - {q}, completed[q := enc])
  {
    hide EncodedAs, JobFits;
    forall i | |appended| <= i < |closed| ensures Held(schema, closed[i], inflight - {q}, completed[q := enc]) {
      assert Held(schema, closed[i], inflight, completed);
    }
  }

  /** What an encoder is working on is a closed section that can be encoded or not. */
  lemma QueueJob(schema: Schema, closed: seq<Job>, appended: seq<EncodedSection>, submitted: seq<nat>,
                 inflight: map<nat, Job>, completed: map<nat, EncodedSection>, q: nat)
    requires QueueFits(schema, closed, appended, submitted, inflight, completed) && q in inflight
    ensures inflight[q] in closed && JobFits(schema, inflight[q])
  {
    hide EncodedAs, JobFits;
    var k :| 0 <= k < |submitted| && submitted[k] == q;
    var i := k + |appended|;
    assert submitted[i - |appended|] == closed[i].sequence && Held(schema, closed[i], inflight, completed);
  }

  lemma QueueAppends(schema: Schema, closed: seq<Job>, appended: seq<EncodedSection>, submitted: seq<nat>,
                     inflight: map<nat, Job>, completed: map<nat, EncodedSection>)
    requires QueueFits(schema, closed, appended, submitted, inflight, completed)
    requires submitted != [] && submitted[0] in completed
    ensures QueueFits(schema, closed, appended + [completed[submitted[0]]], submitted[1..], inflight, completed - {submitted[0]})
  {
    hide EncodedAs, JobFits;
    var n := |appended|;
    assert submitted[n - n] == closed[n].sequence && Held(schema, closed[n], inflight, completed);
    var after := appended + [completed[submitted[0]]];
    forall i | n + 1 <= i < |closed|
      ensures submitted[1..][i - (n + 1)] == closed[i].sequence && Held(schema, closed[i], inflight, completed - {submitted[0]})
    {
      assert submitted[i - n] == closed[i].sequence && Held(schema, closed[i], inflight, completed);
      assert closed[n].sequence < closed[i].sequence;
    }
    forall q | q in inflight || q in completed - {submitted[0]} ensures q in submitted[1..] {
      assert q in submitted && q != submitted[0];
    }
  }

  /** With no encoder at work and the front not completed, everything has been appended. */
  lemma QueueEnds(schema: Schema, closed: seq<Job>, appended: seq<EncodedSection>, submitted: seq<nat>,
                  inflight: map<nat, Job>, completed: map<nat, EncodedSection>)
    requires QueueFits(schema, closed, appended, submitted, inflight, completed)
    requires inflight == map[] && (submitted != [] ==> submitted[0] !in completed)
    ensures submitted == [] && completed == map[] && |appended| == |closed|
  {
    hide EncodedAs, JobFits;
    var n := |appended|;
    assert n < |closed| ==> submitted[n - n] == closed[n].sequence && Held(schema, closed[n], inflight, completed);
    assert submitted == [];
    assert forall q :: q in completed ==> q in submitted;
  }

  // ---- The coordinator object ----

  datatype PipelineError = DuplicateChunk | MissingChunks | WorkerFailed | EncoderFailed(error: EncodeError)

  /** Some section has more frame-time changes than fit. */
  ghost predicate Unencodable(schema: Schema, jobs: seq<Job>) {
    exists i :: 0 <= i < |jobs| && JobFits(schema, jobs[i]) && !Encodable(schema, jobs[i])
  }

  /** The only failures besides refused input come from encoding. */
  ghost predicate FailsFairly(schema: Schema, r: Result<(), PipelineError>, jobs: seq<Job>) {
    r.Err? ==> r.error.EncoderFailed? && Unencodable(schema, jobs)
  }

  class Coordinator {
    const schema: Schema
    const sectionTarget: nat
    const reconciler: Reconciler
    ghost const input: seq<Parsed>
    var parsedPending: map<nat, Parsed>
    var nextSequence: nat
    var active: Option<Job>
    var activeBytes: nat
    var submitted: seq<nat>
    var inflight: map<nat, Job>
    var completed: map<nat, EncodedSection>
    var appended: seq<EncodedSection>
    ghost var closed: seq<Job>

    ghost predicate Pending()
      reads this
    {
      && nextSequence <= |input|
      && forall k :: k in parsedPending ==> k < |input| && parsedPending[k] == input[k]
    }

    ghost predicate Arrived(k: nat)
      reads this
    {
      k < nextSequence || k in parsedPending
    }

    /** Nothing waits whose turn is over. */
    ghost predicate NoneStale()
      reads this
    {
      forall k :: k in parsedPending ==> nextSequence <= k
    }

    /** Chunks 0, 1, 2, ... have been taken exactly once, in order, and no other. */
    ghost predicate InOrder()
      reads this, reconciler
    {
      && AllFit(schema, input) && nextSequence <= |input| && AllFit(schema, input[..nextSequence])
      && reconciler.Valid() && reconciler.schema == schema
      && PlanView() == PlanOf(schema, sectionTarget, input[..nextSequence])
    }

    ghost predicate Queue()
      reads this
    {
      QueueFits(schema, closed, appended, submitted, inflight, completed)
    }

    ghost predicate Valid()
      reads this, reconciler
    {
      Pending() && InOrder() && Queue()
    }

    /** The front of the queue is still being encoded. */
    ghost predicate Drained()
      reads this
    {
      submitted != [] ==> submitted[0] !in completed
    }

    ghost function PlanView(): Plan
      reads this, reconciler
    {
      Plan(reconciler.View(), active, activeBytes, closed)
    }

    constructor (schema: Schema, sectionTarget: nat, ghost input: seq<Parsed>)
      requires AllFit(schema, input)
      ensures Valid() && Drained() && parsedPending == map[] && nextSequence == 0 && appended == []
      ensures this.schema == schema && this.sectionTarget == sectionTarget && this.input == input && fresh(reconciler)
    {
      this.schema, this.sectionTarget, this.input := schema, sectionTarget, input;
      reconciler := new Reconciler(schema);
      parsedPending, nextSequence, active, activeBytes := map[], 0, None, 0;
      submitted, inflight, completed, appended, closed := [], map[], map[], [], [];
      new;
      hide Shaped, Usable, Reconciler.Valid, Reconciler.View;
      assert input[..0] == [];
    }

    /** A worker's section arrives: append it, and any that waited for it. */
    method AcceptEncoded(q: nat) returns (r: Result<(), PipelineError>)
      requires Queue() && Drained() && q in inflight
      modifies this`inflight, this`completed, this`submitted, this`appended
      ensures Queue() && Drained() && FailsFairly(schema, r, closed)
      ensures r.Ok? ==> inflight == old(inflight) - {q} && old(appended) <= appended
      ensures r.Err? ==> inflight == old(inflight) && appended == old(appended)
    {
      var job := inflight[q];
      QueueJob(schema, closed, appended, submitted, inflight, completed, q);
      hide QueueFits, CanEncode, FramesFit, Contains, EncodeSection, FramesRight;
      var encoded := EncodeWorker(schema, job.start, job.sequence == 0, job.summaries);
      if encoded.Err? { return Err(EncoderFailed(encoded.error)); }
      QueueCompletes(schema, closed, appended, submitted, inflight, completed, q, encoded.value);
      completed := completed[q := encoded.value];
      inflight := inflight - {q};
      AppendFront();
      r := Ok(());
    }

    method AppendFront()
      requires Queue()
      modifies this`completed, this`submitted, this`appended
      ensures Queue() && Drained() && old(appended) <= appended
    {
      hide QueueFits;
      while submitted != [] && submitted[0] in completed
        invariant Queue() && old(appended) <= appended
        decreases |submitted|
      {
        QueueAppends(schema, closed, appended, submitted, inflight, completed);
        appended := appended + [completed[submitted[0]]];
        completed := completed - {submitted[0]};
        submitted := submitted[1..];
      }
    }

    /** Any number of encoded sections, in any order. */
    method AcceptSome() returns (r: Result<(), PipelineError>)
      requires Queue() && Drained()
      modifies this`inflight, this`completed, this`submitted, this`appended
      ensures Queue() && Drained() && FailsFairly(schema, r, closed) && old(appended) <= appended
    {
      hide Queue, Unencodable;
      var more: bool := *;
      r := Ok(());
      while more && inflight != map[]
        invariant Queue() && Drained() && r.Ok? && old(appended) <= appended
        decreases |inflight|
      {
        var q :| q in inflight;
        r := AcceptEncoded(q);
        if r.Err? { return; }
        more := *;
      }
    }

    /** Every section has been handed over and all encoders run to the end: nothing is left over. */
    method AcceptAll() returns (r: Result<(), PipelineError>)
      requires Queue() && Drained()
      modifies this`inflight, this`completed, this`submitted, this`appended
      ensures Queue() && FailsFairly(schema, r, closed) && old(appended) <= appended
      ensures r.Ok? ==> submitted == [] && completed == map[] && |appended| == |closed|
    {
      hide QueueFits, Unencodable;
      r := Ok(());
      while inflight != map[]
        invariant Queue() && Drained() && r.Ok? && old(appended) <= appended
        decreases |inflight|
      {
        var q :| q in inflight;
        r := AcceptEncoded(q);
        if r.Err? { return; }
      }
      QueueEnds(schema, closed, appended, submitted, inflight, completed);
    }

    /** Sends Finish for the open section. */
    method FinishSection(job: Job)
      requires Queue() && Drained() && Sound(schema, closed + [job])
      modifies this`inflight, this`submitted, this`closed
      ensures Queue() && Drained() && closed == old(closed) + [job]
    {
      QueueSubmits(schema, closed, appended, submitted, inflight, completed, job);
      hide EncodedAs, Sound;
      assert submitted == [] ==> job.sequence !in completed;
      submitted := submitted + [job.sequence];
      inflight := inflight[job.sequence := job];
      closed := closed + [job];
    }

    /** Opens a section if none is open, reconciles, hands the summary over, and closes the
        section when it has reached the target. */
    method AssignChunk(sequence: nat, x: Parsed)
      requires reconciler.Valid() && reconciler.schema == schema && Shaped(schema, x.events) && Queue() && Drained()
      requires Sound(schema, Assign(schema, sectionTarget, PlanView(), sequence, x).closed)
      modifies this`active, this`activeBytes, this`inflight, this`submitted, this`closed, reconciler
      ensures reconciler.Valid() && PlanView() == Assign(schema, sectionTarget, old(PlanView()), sequence, x)
      ensures Queue() && Drained()
    {
      hide QueueFits, Reconcile, Shaped, CarriedFits, Sound;
      if active.None? {
        var start := Carried(reconciler.frame, reconciler.currentTick, reconciler.anyTimeWritten, reconciler.inDumpoff);
        active := Some(Job(sequence, start, []));
      }
      activeBytes := activeBytes + x.streamBytes;
      reconciler.ReconcileChunkEvents(x.events);
      active := Some(active.value.(summaries := active.value.summaries + [x.events]));
      if activeBytes >= sectionTarget {
        var job := active.value;
        active, activeBytes := None, 0;
        FinishSection(job);
      }
    }

    /** Takes the next chunk in order, then any encoded sections that have come back. */
    method TakeNext() returns (r: Result<(), PipelineError>)
      requires Valid() && Drained() && nextSequence in parsedPending
      modifies this, reconciler
      ensures Valid() && Drained() && old(appended) <= appended && FailsFairly(schema, r, closed)
      ensures |parsedPending| < |old(parsedPending)| && nextSequence > old(nextSequence) && (old(NoneStale()) ==> NoneStale())
      ensures forall k: nat :: Arrived(k) <==> old(Arrived(k))
    {
      hide QueueFits, Shaped, Usable, PlanOf, Assign, Sound, Reconciler.Valid, Reconciler.View, Unencodable;
      var sequence := nextSequence;
      var x := parsedPending[sequence];
      TakenFits(schema, sectionTarget, input, sequence);
      parsedPending := parsedPending - {sequence};
      nextSequence := nextSequence + 1;
      ReconcilerFits(reconciler);
      AssignChunk(sequence, x);
      r := AcceptSome();
    }

    /** Takes every chunk whose turn has come. */
    method TakeReady() returns (r: Result<(), PipelineError>)
      requires Valid() && Drained()
      modifies this, reconciler
      ensures Valid() && Drained() && old(appended) <= appended && FailsFairly(schema, r, closed)
      ensures nextSequence >= old(nextSequence) && (old(NoneStale()) ==> NoneStale())
      ensures r.Ok? ==> nextSequence !in parsedPending
      ensures forall k: nat :: Arrived(k) <==> old(Arrived(k))
    {
      hide Valid, Drained, Arrived, NoneStale, Unencodable;
      r := Ok(());
      while nextSequence in parsedPending
        invariant Valid() && Drained() && r.Ok? && old(appended) <= appended && old(nextSequence) <= nextSequence
        invariant old(NoneStale()) ==> NoneStale()
        invariant forall k: nat :: Arrived(k) <==> old(Arrived(k))
        decreases |parsedPending|
      {
        r := TakeNext();
        if r.Err? { return; }
      }
    }

    /** A parsed chunk arrives, early, in order or again; only a copy of a waiting one is refused. */
    method OnParsed(sequence: nat, x: Parsed) returns (r: Result<(), PipelineError>)
      requires Valid() && Drained() && nextSequence !in parsedPending
      requires sequence < |input| && x == input[sequence]
      modifies this, reconciler
      ensures Valid() && Drained() && old(appended) <= appended && nextSequence >= old(nextSequence)
      ensures r == Err(DuplicateChunk) <==> sequence in old(parsedPending)
      ensures r.Err? && r.error != DuplicateChunk ==> r.error.EncoderFailed? && Unencodable(schema, closed)
      ensures r.Ok? ==> nextSequence !in parsedPending && forall k: nat :: Arrived(k) <==> old(Arrived(k)) || k == sequence
      ensures r.Ok? && sequence >= old(nextSequence) && old(NoneStale()) ==> NoneStale()
    {
      if sequence in parsedPending { return Err(DuplicateChunk); }
      hide InOrder, Queue, Unencodable;
      Arrive(sequence, x);
      r := TakeReady();
    }

    method Arrive(sequence: nat, x: Parsed)
      requires Valid() && Drained()
      requires sequence < |input| && x == input[sequence]
      modifies this`parsedPending
      ensures Valid() && Drained() && (sequence >= nextSequence && old(NoneStale()) ==> NoneStale())
      ensures forall k: nat :: Arrived(k) <==> old(Arrived(k)) || k == sequence
    {
      hide PlanOf, QueueFits, Shaped, Usable, Reconciler.Valid, Reconciler.View;
      parsedPending := parsedPending[sequence := x];
    }

    /** The parsers have ended: close the open section and wait for every encoder. It fails if
        chunks are missing, an already taken one came again, or a section cannot be encoded. */
    method Finish() returns (r: Result<(), PipelineError>)
      requires Valid() && Drained() && nextSequence !in parsedPending
      modifies this
      ensures old(appended) <= appended
      ensures r == Err(MissingChunks) <==> old(parsedPending) != map[]
      ensures var jobs := SectionsOf(PlanOf(schema, sectionTarget, input[..old(nextSequence)]));
              && EncodedInOrder(schema, appended, jobs)
              && (r.Ok? ==> |appended| == |jobs|)
              && (r.Err? && r.error != MissingChunks ==> r.error.EncoderFailed? && Unencodable(schema, jobs))
      ensures reconciler.View() == PlanOf(schema, sectionTarget, input[..old(nextSequence)]).state
    {
      PlanSound(schema, sectionTarget, input[..nextSequence]);
      hide PlanOf, QueueFits, Shaped, Usable, Sound, EncodedAs, Unencodable, Reconciler.Valid, Reconciler.View;
      if parsedPending != map[] {
        ClosedEncoded(schema, closed, appended, submitted, inflight, completed);
        return Err(MissingChunks);
      }
      if active.Some? {
        var job := active.value;
        active := None;
        FinishSection(job);
      }
      r := AcceptAll();
      ClosedEncoded(schema, closed, appended, submitted, inflight, completed);
    }
  }

  lemma ClosedEncoded(schema: Schema, closed: seq<Job>, appended: seq<EncodedSection>, submitted: seq<nat>,
                      inflight: map<nat, Job>, completed: map<nat, EncodedSection>)
    requires QueueFits(schema, closed, appended, submitted, inflight, completed)
    ensures EncodedInOrder(schema, appended, closed)
    ensures forall job: Job :: EncodedInOrder(schema, appended, closed + [job])
  {
    hide EncodedAs, Sound, Held;
  }

  lemma ReconcilerFits(reconciler: Reconciler)
    requires reconciler.Valid()
    ensures CarriedFits(reconciler.schema, reconciler.View())
  {}

  lemma PlanSound(schema: Schema, target: nat, xs: seq<Parsed>)
    requires AllFit(schema, xs)
    ensures Sound(schema, SectionsOf(PlanOf(schema, target, xs))) && Sound(schema, PlanOf(schema, target, xs).closed)
  {
    assert AllUsable(schema, EventsOfAll(xs));
    hide Shaped, Usable, PlanOf, ReconcileAll, Cover, JobFits, AllUsable;
    PlanCovers(schema, target, xs);
    var plan := PlanOf(schema, target, xs);
    CoverIncreases(schema, EventsOfAll(xs), SectionsOf(plan), |xs|);
    CoverFits(schema, EventsOfAll(xs), SectionsOf(plan), |xs|);
    assert forall i :: 0 <= i < |plan.closed| ==> plan.closed[i] == SectionsOf(plan)[i];
  }

  lemma TakenFits(schema: Schema, target: nat, input: seq<Parsed>, k: nat)
    requires AllFit(schema, input) && k < |input|
    ensures AllFit(schema, input[..k]) && AllFit(schema, input[..k + 1]) && Shaped(schema, input[k].events)
    ensures PlanOf(schema, target, input[..k + 1]) == Assign(schema, target, PlanOf(schema, target, input[..k]), k, input[k])
    ensures Sound(schema, PlanOf(schema, target, input[..k + 1]).closed)
  {
    hide Shaped, Usable, PlanOf, Assign, Sound;
    PlanNext(schema, target, input, k);
    PlanSound(schema, target, input[..k + 1]);
  }

  function Below(n: nat): (s: set<nat>)
    ensures forall k: nat :: k in s <==> k < n
  {
    if n == 0 then {} else Below(n - 1) + {n - 1}
  }

  /** Chunks `0..n` that have not arrived. */
  ghost predicate AllBut(c: Coordinator, remaining: set<nat>, n: nat)
    reads c
  {
    forall k: nat :: k in remaining <==> k < n && !c.Arrived(k)
  }

  /** Every chunk once, in any order, unless a worker fails. */
  method DeliverAll(c: Coordinator, input: seq<Parsed>) returns (r: Result<(), PipelineError>)
    requires c.Valid() && c.Drained() && c.nextSequence == 0 && c.parsedPending == map[] && c.input == input
    modifies c, c.reconciler
    ensures c.Valid() && c.Drained()
    ensures r.Ok? ==> c.nextSequence == |input| && c.parsedPending == map[]
    ensures r.Err? ==> r.error == WorkerFailed || (r.error.EncoderFailed? && Unencodable(c.schema, c.closed))
  {
    var remaining := Below(|input|);
    hide Coordinator.InOrder, Coordinator.Queue, Unencodable, Coordinator.Drained;
    while remaining != {}
      invariant c.Valid() && c.Drained() && c.nextSequence !in c.parsedPending && c.NoneStale()
      invariant AllBut(c, remaining, |input|)
      decreases remaining
    {
      var failed: bool := *;
      if failed { return Err(WorkerFailed); }
      var k :| k in remaining;
      remaining := remaining - {k};
      r := c.OnParsed(k, input[k]);
      if r.Err? { return; }
    }
    assert c.nextSequence < |input| ==> c.Arrived(c.nextSequence);
    assert c.parsedPending == map[];
    var failed: bool := *;
    if failed { return Err(WorkerFailed); }
    r := Ok(());
  }

  /** How a run may end: what has been appended is always the encoding of the first sections in input
      order; a success has appended all of them; encoding fails only if some section has more
      frame-time changes than fit. */
  ghost predicate PipelineOutcome(schema: Schema, plan: Plan, r: Result<(), PipelineError>, state: Carried, appended: seq<EncodedSection>) {
    && EncodedInOrder(schema, appended, SectionsOf(plan))
    && (r.Ok? ==> |appended| == |SectionsOf(plan)| && state == plan.state)
    && (r.Err? ==> r.error == WorkerFailed || (r.error.EncoderFailed? && Unencodable(schema, SectionsOf(plan))))
  }

  /** Every interleaving of parsers and encoders: chunks arrive in any order, sections are
      accepted at any time in any order, a worker may fail. */
  method RunPipeline(schema: Schema, sectionTarget: nat, input: seq<Parsed>)
    returns (r: Result<(), PipelineError>, state: Carried, appended: seq<EncodedSection>)
    requires AllFit(schema, input)
    ensures PipelineOutcome(schema, PlanOf(schema, sectionTarget, input), r, state, appended)
  {
    assert input[..|input|] == input;
    hide PlanOf, AllFit, SectionsOf, EncodedInOrder, Unencodable, Reconciler.Valid, Coordinator.Valid, Coordinator.Drained;
    var c := new Coordinator(schema, sectionTarget, input);
    r := DeliverAll(c, input);
    state, appended := StateOf(c.reconciler), c.appended;
    if r.Err? {
      AppendedIsPrefix(c);
      return;
    }
    r := c.Finish();
    state, appended := StateOf(c.reconciler), c.appended;
  }

  function StateOf(reconciler: Reconciler): (c: Carried)
    reads reconciler
    ensures c == reconciler.View()
  {
    Carried(reconciler.frame, reconciler.currentTick, reconciler.anyTimeWritten, reconciler.inDumpoff)
  }

  lemma AppendedIsPrefix(c: Coordinator)
    requires c.Valid()
    ensures EncodedInOrder(c.schema, c.appended, SectionsOf(PlanOf(c.schema, c.sectionTarget, c.input)))
    ensures Unencodable(c.schema, c.closed) ==> Unencodable(c.schema, SectionsOf(PlanOf(c.schema, c.sectionTarget, c.input)))
  {
    hide PlanOf, Shaped, Usable, EncodedAs, JobFits, Encodable;
    ClosedGrows(c.schema, c.sectionTarget, c.input, c.nextSequence);
    var jobs := SectionsOf(PlanOf(c.schema, c.sectionTarget, c.input));
    assert forall i :: 0 <= i < |c.closed| ==> c.closed[i] == jobs[i];
  }
}
