/** Parsing one chunk without knowing the state it starts in
    (crates/bwave/src/fst.rs, `ChunkParser`). Arena offsets are modelled by the
    bytes they point at, slot tables by sequences indexed by signal group. */
module ChunkParsing {
  import opened Basics
  import opened BitText
  import opened Packing
  import opened VcdText
  import opened SerialConversion

  // ---- Stored values ----

  datatype Payload =
    | Inline(value: Byte)
    | PackedBinary(bytes: seq<Byte>)
    | Exact(text: seq<Byte>)

  /** The value text a stored payload stands for. */
  function Decode(p: Payload, width: nat): seq<Byte> {
    match p
    case Inline(b) => [b]
    case PackedBinary(bytes) => if width <= 8 * |bytes| then Unpack(bytes, width) else []
    case Exact(text) => text
  }

  function Encode(schema: Schema, group: nat, raw: seq<Byte>, scalar: bool): Payload
    requires EventFits(schema, Change(group, raw, scalar))
  {
    var meta := schema.groups[group];
    if scalar && meta.width == 1 && !meta.isReal then Inline(raw[0])
    else if meta.isReal then Exact(schema.realBytes(raw))
    else if AllBinary(Kept(raw, meta.width)) then PackedBinary(Pack(Canon(raw, meta.width)))
    else Exact(Canon(raw, meta.width))
  }

  /** Whatever form a value is stored in, it stands for the serial converter's value. */
  lemma StoredIsSerialValue(schema: Schema, group: nat, raw: seq<Byte>, scalar: bool)
    requires EventFits(schema, Change(group, raw, scalar))
    ensures Decode(Encode(schema, group, raw, scalar), schema.groups[group].width) == SerialValue(schema, group, raw, scalar)
  {
    hide AllBinary, Kept, Pack, Unpack, Canon;
    var width := schema.groups[group].width;
    assert scalar ==> raw == [raw[0]];
    if AllBinary(Kept(raw, width)) { UnpackOfPack(raw, width); }
  }

  method EncodeValue(schema: Schema, group: nat, raw: seq<Byte>, scalar: bool) returns (p: Payload)
    requires EventFits(schema, Change(group, raw, scalar))
    ensures p == Encode(schema, group, raw, scalar)
  {
    var meta := schema.groups[group];
    if scalar && meta.width == 1 && !meta.isReal {
      return Inline(raw[0]);
    }
    if meta.isReal {
      return Exact(schema.realBytes(raw));
    }
    var overwide, packed := TryPackBinaryBitsAppend(raw, meta.width, []);
    if overwide.Some? {
      assert packed == Pack(Canon(raw, meta.width));
      return PackedBinary(packed);
    }
    var text, _ := CanonBitsAppend(raw, meta.width, packed);
    assert text == Canon(raw, meta.width);
    p := Exact(text);
  }

  // ---- Records ----

  /** Whether a change counts: decided by the incoming state, or by a directive of the chunk. */
  datatype DumpState = Prefix | Enabled | Suppressed

  /** A change stamped with the number of its timestamp in the chunk, if any precedes it. */
  datatype Record = Record(group: nat, time: Option<nat>, dump: DumpState, payload: Payload)

  /** Positions of a signal's last prefix change and last enabled change. */
  datatype Chain = Chain(prefixLast: Option<nat>, enabledLast: Option<nat>)

  datatype ChunkEvents = ChunkEvents(
    timestamps: seq<nat>,
    maxTimestamp: Option<nat>,
    dumpEnabled: Option<bool>,
    changes: seq<Record>,
    chains: seq<Chain>,
    fragments: seq<seq<Record>>,
    raws: seq<Option<seq<Byte>>>)

  function Value(schema: Schema, r: Record): seq<Byte>
    requires r.group < |schema.groups|
  {
    Decode(r.payload, schema.groups[r.group].width)
  }

  ghost predicate RecordFits(schema: Schema, p: ChunkEvents, r: Record) {
    && r.group < |schema.groups|
    && (r.time.Some? ==> r.time.value < |p.timestamps|)
    && (r.payload.Inline? ==> schema.groups[r.group].width == 1 && !schema.groups[r.group].isReal)
  }

  ghost predicate LastFits(p: ChunkEvents, g: nat, last: Option<nat>, dump: DumpState) {
    last.Some? ==> last.value < |p.changes| && p.changes[last.value].group == g && p.changes[last.value].dump == dump
  }

  ghost predicate Shaped(schema: Schema, p: ChunkEvents) {
    && |p.chains| == |p.fragments| == |p.raws| == |schema.groups|
    && (p.maxTimestamp.None? <==> p.timestamps == [])
    && (forall i :: 0 <= i < |p.changes| ==> RecordFits(schema, p, p.changes[i]))
    && (forall g :: 0 <= g < |p.chains| ==>
          LastFits(p, g, p.chains[g].prefixLast, Prefix) && LastFits(p, g, p.chains[g].enabledLast, Enabled))
    && (forall g, i :: 0 <= g < |p.fragments| && 0 <= i < |p.fragments[g]| ==>
          RecordFits(schema, p, p.fragments[g][i]) && p.fragments[g][i].group == g)
  }

  function EmptyEvents(schema: Schema): ChunkEvents {
    var n := |schema.groups|;
    ChunkEvents([], None, None, [], seq(n, g => Chain(None, None)), seq(n, g => []), seq(n, g => None))
  }

  // ---- One event ----

  function Ordinal(p: ChunkEvents): Option<nat> {
    if p.timestamps == [] then None else Some(|p.timestamps| - 1)
  }

  function DumpStateOf(local: Option<bool>): DumpState {
    match local
    case None => Prefix
    case Some(enabled) => if enabled then Enabled else Suppressed
  }

  /** Fragment mode passes over a repeat of the last one-bit value or of the last vector text. */
  predicate Skipped(fragment: seq<Record>, lastRaw: Option<seq<Byte>>, raw: seq<Byte>, scalar: bool)
    requires scalar ==> |raw| == 1
  {
    && fragment != []
    && if scalar then fragment[|fragment| - 1].payload == Inline(raw[0]) else lastRaw == Some(raw)
  }

  function Extended(chain: Chain, dump: DumpState, at: nat): Chain {
    match dump
    case Prefix => chain.(prefixLast := Some(at))
    case Enabled => chain.(enabledLast := Some(at))
    case Suppressed => chain
  }

  /** A fragment keeps a change unless it repeats the value of the last one kept. */
  function PushFragment(schema: Schema, fragment: seq<Record>, r: Record): seq<Record>
    requires r.group < |schema.groups|
    requires fragment != [] ==> fragment[|fragment| - 1].group < |schema.groups|
  {
    if fragment != [] && Value(schema, fragment[|fragment| - 1]) == Value(schema, r) then fragment
    else fragment + [r]
  }

  function PushRecord(schema: Schema, fragmentMode: bool, p: ChunkEvents, r: Record): ChunkEvents
    requires Shaped(schema, p) && RecordFits(schema, p, r)
  {
    var g := r.group;
    if fragmentMode then p.(fragments := p.fragments[g := PushFragment(schema, p.fragments[g], r)])
    else p.(changes := p.changes + [r], chains := p.chains[g := Extended(p.chains[g], r.dump, |p.changes|)])
  }

  function PushChange(schema: Schema, fragmentMode: bool, p: ChunkEvents, g: nat, raw: seq<Byte>, scalar: bool): ChunkEvents
    requires Shaped(schema, p) && EventFits(schema, Change(g, raw, scalar))
  {
    if fragmentMode && Skipped(p.fragments[g], p.raws[g], raw, scalar) then p
    else
      var r := Record(g, Ordinal(p), DumpStateOf(p.dumpEnabled), Encode(schema, g, raw, scalar));
      var pushed := PushRecord(schema, fragmentMode, p, r);
      if fragmentMode && !scalar then pushed.(raws := pushed.raws[g := Some(raw)]) else pushed
  }

  function PushTimestamp(p: ChunkEvents, t: nat): ChunkEvents {
    p.(timestamps := p.timestamps + [t],
       maxTimestamp := Some(if p.maxTimestamp.Some? then Max(p.maxTimestamp.value, t) else t))
  }

  function ParseStep(schema: Schema, fragmentMode: bool, p: ChunkEvents, e: Event): (r: ChunkEvents)
    requires Shaped(schema, p) && EventFits(schema, e)
    ensures Shaped(schema, r)
  {
    hide Shaped, PushChange, PushTimestamp;
    match e
    case Tick(t) => TimestampKeepsShape(schema, p, t); PushTimestamp(p, t)
    case Change(g, raw, scalar) =>
      ChangeKeepsShape(schema, fragmentMode, p, g, raw, scalar);
      PushChange(schema, fragmentMode, p, g, raw, scalar)
    case Dump(enabled) => DumpKeepsShape(schema, p, enabled); p.(dumpEnabled := Some(enabled))
    case Skip => p
    case Malformed => p
  }

  lemma TimestampKeepsShape(schema: Schema, p: ChunkEvents, t: nat)
    requires Shaped(schema, p)
    ensures Shaped(schema, PushTimestamp(p, t))
  {}

  lemma DumpKeepsShape(schema: Schema, p: ChunkEvents, enabled: bool)
    requires Shaped(schema, p)
    ensures Shaped(schema, p.(dumpEnabled := Some(enabled)))
  {}

  lemma FragmentKeepsShape(schema: Schema, p: ChunkEvents, r: Record)
    requires Shaped(schema, p) && RecordFits(schema, p, r)
    ensures Shaped(schema, PushRecord(schema, true, p, r))
  {
    hide Value;
  }

  lemma ChangesKeepShape(schema: Schema, p: ChunkEvents, r: Record)
    requires Shaped(schema, p) && RecordFits(schema, p, r)
    ensures Shaped(schema, PushRecord(schema, false, p, r))
  {}

  lemma ChangeKeepsShape(schema: Schema, fragmentMode: bool, p: ChunkEvents, g: nat, raw: seq<Byte>, scalar: bool)
    requires Shaped(schema, p) && EventFits(schema, Change(g, raw, scalar))
    ensures Shaped(schema, PushChange(schema, fragmentMode, p, g, raw, scalar))
  {
    hide Encode, PushRecord, Skipped;
    EncodeFits(schema, g, raw, scalar);
    var r := Record(g, Ordinal(p), DumpStateOf(p.dumpEnabled), Encode(schema, g, raw, scalar));
    if fragmentMode { FragmentKeepsShape(schema, p, r); } else { ChangesKeepShape(schema, p, r); }
  }

  // ---- Order and repeats ----

  /** Changes before the first timestamp come before all others. */
  function TimeRank(time: Option<nat>): nat {
    match time case None => 0 case Some(t) => t + 1
  }

  ghost predicate TimesRise(rs: seq<Record>) {
    forall i, j :: 0 <= i < j < |rs| ==> TimeRank(rs[i].time) <= TimeRank(rs[j].time)
  }

  ghost predicate TimesUpTo(rs: seq<Record>, time: Option<nat>) {
    TimesRise(rs) && forall i :: 0 <= i < |rs| ==> TimeRank(rs[i].time) <= TimeRank(time)
  }

  ghost predicate GroupsFit(schema: Schema, rs: seq<Record>) {
    forall i :: 0 <= i < |rs| ==> rs[i].group < |schema.groups|
  }

  /** No change repeats the value of the one before it. */
  ghost predicate NeighboursDiffer(schema: Schema, rs: seq<Record>)
    requires GroupsFit(schema, rs)
  {
    forall i :: 0 < i < |rs| ==> Value(schema, rs[i]) != Value(schema, rs[i - 1])
  }

  lemma PushedFragment(schema: Schema, rs: seq<Record>, r: Record)
    requires GroupsFit(schema, rs) && r.group < |schema.groups|
    ensures var after := PushFragment(schema, rs, r);
            && GroupsFit(schema, after) && after != [] && rs <= after
            && Value(schema, after[|after| - 1]) == Value(schema, r)
            && (NeighboursDiffer(schema, rs) ==> NeighboursDiffer(schema, after))
            && (TimesUpTo(rs, r.time) ==> TimesUpTo(after, r.time))
  {
    hide Value;
  }

  lemma EncodeFits(schema: Schema, g: nat, raw: seq<Byte>, scalar: bool)
    requires EventFits(schema, Change(g, raw, scalar))
    ensures Encode(schema, g, raw, scalar).Inline? ==> schema.groups[g].width == 1 && !schema.groups[g].isReal
  {}

  /** The summary of a chunk. */
  function ParseAll(schema: Schema, fragmentMode: bool, es: seq<Event>): (r: ChunkEvents)
    requires InSchema(schema, es)
    ensures Shaped(schema, r)
  {
    if es == [] then EmptyEvents(schema)
    else
      assert InSchema(schema, es[..|es| - 1]) && EventFits(schema, es[|es| - 1]);
      ParseStep(schema, fragmentMode, ParseAll(schema, fragmentMode, es[..|es| - 1]), es[|es| - 1])
  }

  // ---- Fragment mode ----

  /** `pattern` is a piece of the text, at position `i`. */
  predicate OccursAt(text: seq<Byte>, pattern: seq<Byte>, i: nat) {
    i + |pattern| <= |text| && text[i..i + |pattern|] == pattern
  }

  predicate Occurs(text: seq<Byte>, pattern: seq<Byte>) {
    exists i :: 0 <= i <= |text| && OccursAt(text, pattern, i)
  }

  /** Chosen for chunks that start with a timestamp and never mention a dump directive. */
  predicate UsesFragments(bytes: seq<Byte>) {
    && bytes != [] && bytes[0] == HASH
    && !Occurs(bytes, DUMPOFF) && !Occurs(bytes, DUMPON)
  }

  /** A dollar sign and the letters of one of the two dump directives start at position `i`. */
  ghost predicate DirectiveAt(bytes: seq<Byte>, i: int) {
    && 0 <= i && i + 7 <= |bytes| && bytes[i] == 0x24 && bytes[i + 1] == 0x64 && bytes[i + 2] == 0x75 && bytes[i + 3] == 0x6D
    && bytes[i + 4] == 0x70 && bytes[i + 5] == 0x6F
    && (bytes[i + 6] == 0x6E || (bytes[i + 6] == 0x66 && i + 8 <= |bytes| && bytes[i + 7] == 0x66))
  }

  /** Fragment mode is for the chunks whose first byte is # and that have no such letters anywhere. */
  lemma UsesFragmentsExactlyWhen(bytes: seq<Byte>)
    ensures UsesFragments(bytes) <==> |bytes| > 0 && bytes[0] == 0x23 && forall i :: !DirectiveAt(bytes, i)
  {
    forall i | 0 <= i <= |bytes| ensures OccursAt(bytes, DUMPOFF, i) || OccursAt(bytes, DUMPON, i) <==> DirectiveAt(bytes, i) {
      OccursIsDirective(bytes, i);
    }
    hide OccursAt;
    assert forall i :: DirectiveAt(bytes, i) ==> 0 <= i <= |bytes|;
    hide DirectiveAt;
  }

  lemma OccursIsDirective(bytes: seq<Byte>, i: nat)
    requires i <= |bytes|
    ensures OccursAt(bytes, DUMPOFF, i) || OccursAt(bytes, DUMPON, i) <==> DirectiveAt(bytes, i)
  {
    if i + 7 <= |bytes| {
      var part := bytes[i..i + 7];
      assert part == DUMPON <==> part[0] == 0x24 && part[1] == 0x64 && part[2] == 0x75 && part[3] == 0x6D && part[4] == 0x70
                                 && part[5] == 0x6F && part[6] == 0x6E;
    }
    if i + 8 <= |bytes| {
      var part := bytes[i..i + 8];
      assert part == DUMPOFF <==> part[0] == 0x24 && part[1] == 0x64 && part[2] == 0x75 && part[3] == 0x6D && part[4] == 0x70
                                  && part[5] == 0x6F && part[6] == 0x66 && part[7] == 0x66;
    }
  }

  ghost predicate NoDumps(es: seq<Event>) {
    forall i :: 0 <= i < |es| ==> !es[i].Dump?
  }

  /** What fragment mode promises about the events of its chunk. */
  ghost predicate ModeFits(fragmentMode: bool, es: seq<Event>) {
    fragmentMode ==>
      && NoDumps(es)
      && (es != [] ==> es[0].Tick? || es[0].Malformed?)
  }

  lemma CleanPiece(bytes: seq<Byte>, i: nat)
    requires i <= |bytes| && CleanLine(bytes[..i]) != []
    ensures |CleanLine(bytes[..i])| == 1 && OccursAt(bytes, CleanLine(bytes[..i])[0], 0)
  {}

  lemma LaterPiece(bytes: seq<Byte>, before: nat, piece: seq<Byte>, at: nat)
    requires before <= |bytes| && OccursAt(bytes[before..], piece, at)
    ensures OccursAt(bytes, piece, before + at)
  {}

  /** Every line is a piece of the text. */
  lemma {:induction false} LinesArePieces(bytes: seq<Byte>, k: nat) returns (at: nat)
    requires k < |Lines(bytes)|
    ensures OccursAt(bytes, Lines(bytes)[k], at)
    decreases |bytes|
  {
    assert bytes != [];
    var i := IndexOf(NEWLINE, bytes);
    hide Lines, CleanLine, IndexOf, OccursAt;
    var first := CleanLine(bytes[..i]);
    if first != [] { CleanPiece(bytes, i); }
    if i == |bytes| {
      LinesEnd(bytes);
      at := 0;
    } else {
      LinesUnfold(bytes, i);
      if k < |first| {
        at := 0;
      } else {
        var rest := LinesArePieces(bytes[i + 1..], k - |first|);
        LaterPiece(bytes, i + 1, Lines(bytes)[k], rest);
        at := i + 1 + rest;
      }
    }
  }

  lemma LaterOccurs(line: seq<Byte>, text: seq<Byte>, at: nat, pattern: seq<Byte>)
    requires OccursAt(text, line, at) && OccursAt(line, pattern, 0)
    ensures Occurs(text, pattern)
  {
    assert text[at..at + |pattern|] == line[..|pattern|];
    assert OccursAt(text, pattern, at);
  }

  lemma DumpNeedsDirective(schema: Schema, line: seq<Byte>)
    requires line != [] && EventOf(schema, line).Dump?
    ensures OccursAt(line, DUMPOFF, 0) || OccursAt(line, DUMPON, 0)
  {}

  lemma FirstEventIsTimestamp(schema: Schema, bytes: seq<Byte>)
    requires bytes != [] && bytes[0] == HASH
    ensures |Events(schema, bytes)| > 0 && (Events(schema, bytes)[0].Tick? || Events(schema, bytes)[0].Malformed?)
  {
    LinesAreNonEmpty(bytes);
    var i := IndexOf(NEWLINE, bytes);
    assert CleanLine(bytes[..i]) != [] && CleanLine(bytes[..i])[0][0] == HASH;
    if i == |bytes| { assert bytes[..i] == bytes; }
    assert Lines(bytes)[0] == CleanLine(bytes[..i])[0];
  }

  lemma UsesFragmentsFits(schema: Schema, bytes: seq<Byte>)
    ensures ModeFits(UsesFragments(bytes), Events(schema, bytes))
  {
    if UsesFragments(bytes) {
      FirstEventIsTimestamp(schema, bytes);
      LinesAreNonEmpty(bytes);
      hide Lines, EventOf, OccursAt, Occurs;
      forall k | 0 <= k < |Events(schema, bytes)| ensures !Events(schema, bytes)[k].Dump? {
        var at := LinesArePieces(bytes, k);
        var line := Lines(bytes)[k];
        if EventOf(schema, line).Dump? {
          DumpNeedsDirective(schema, line);
          if OccursAt(line, DUMPOFF, 0) {
            LaterOccurs(line, bytes, at, DUMPOFF);
          } else {
            LaterOccurs(line, bytes, at, DUMPON);
          }
        }
      }
    }
  }

  // ---- The parser object ----

  class ChunkParser {
    const schema: Schema
    const fragmentMode: bool
    var timestamps: seq<nat>
    var maxTimestamp: Option<nat>
    var finalDumpEnabled: Option<bool>
    var changes: seq<Record>
    var chains: seq<Chain>
    var fragments: seq<seq<Record>>
    var rawRanges: seq<Option<seq<Byte>>>
    var localDumpEnabled: Option<bool>
    var currentTimeOrdinal: Option<nat>

    ghost predicate Valid()
      reads this
    {
      && WellFormed(schema) && Shaped(schema, View())
      && localDumpEnabled == finalDumpEnabled
      && currentTimeOrdinal == Ordinal(View())
    }

    ghost function View(): ChunkEvents
      reads this
    {
      ChunkEvents(timestamps, maxTimestamp, finalDumpEnabled, changes, chains, fragments, rawRanges)
    }

    constructor (schema: Schema, chunk: seq<Byte>)
      requires WellFormed(schema)
      ensures Valid() && View() == EmptyEvents(schema)
      ensures this.schema == schema && fragmentMode == UsesFragments(chunk)
    {
      this.schema := schema;
      fragmentMode := UsesFragments(chunk);
      timestamps, maxTimestamp, finalDumpEnabled := [], None, None;
      changes, rawRanges := [], seq(|schema.groups|, g => None);
      chains, fragments := seq(|schema.groups|, g => Chain(None, None)), seq(|schema.groups|, g => []);
      localDumpEnabled, currentTimeOrdinal := None, None;
    }

    method AddTimestamp(tick: nat)
      requires Valid()
      modifies this
      ensures Valid() && View() == PushTimestamp(old(View()), tick)
    {
      maxTimestamp := Some(if maxTimestamp.Some? then Max(maxTimestamp.value, tick) else tick);
      currentTimeOrdinal := Some(|timestamps|);
      timestamps := timestamps + [tick];
    }

    /** In fragment mode the signal's fragment ends with the record's value, keeps what it held and
        gains no repeat; otherwise the record joins the change list and its signal's chain points
        at it. Every other signal is left alone. */
    method AddRecord(r: Record)
      requires Valid() && RecordFits(schema, View(), r)
      modifies this
      ensures Valid() && View() == PushRecord(schema, fragmentMode, old(View()), r)
      ensures forall h :: 0 <= h < |schema.groups| && h != r.group ==> fragments[h] == old(fragments)[h] && chains[h] == old(chains)[h]
      ensures fragmentMode ==>
                && changes == old(changes) && chains == old(chains)
                && var kept := fragments[r.group];
                && GroupsFit(schema, kept) && kept != [] && old(fragments)[r.group] <= kept
                && Value(schema, kept[|kept| - 1]) == Value(schema, r)
                && (GroupsFit(schema, old(fragments)[r.group]) && NeighboursDiffer(schema, old(fragments)[r.group])
                    ==> NeighboursDiffer(schema, kept))
      ensures !fragmentMode ==>
                && fragments == old(fragments) && changes == old(changes) + [r]
                && chains[r.group].prefixLast == (if r.dump == Prefix then Some(|changes| - 1) else old(chains)[r.group].prefixLast)
                && chains[r.group].enabledLast == (if r.dump == Enabled then Some(|changes| - 1) else old(chains)[r.group].enabledLast)
    {
      ghost var was := View();
      var g := r.group;
      hide Value;
      if fragmentMode {
        FragmentKeepsShape(schema, was, r);
        PushedFragment(schema, fragments[g], r);
        fragments := fragments[g := PushFragment(schema, fragments[g], r)];
      } else {
        ChangesKeepShape(schema, was, r);
        chains := chains[g := Extended(chains[g], r.dump, |changes|)];
        changes := changes + [r];
      }
    }

    method AddChange(g: nat, raw: seq<Byte>, scalar: bool)
      requires Valid() && EventFits(schema, Change(g, raw, scalar))
      modifies this
      ensures Valid() && View() == PushChange(schema, fragmentMode, old(View()), g, raw, scalar)
    {
      ghost var was := View();
      ChangeKeepsShape(schema, fragmentMode, was, g, raw, scalar);
      EncodeFits(schema, g, raw, scalar);
      hide Value, Encode, PushRecord;
      if fragmentMode && Skipped(fragments[g], rawRanges[g], raw, scalar) {
        return;
      }
      var payload := EncodeValue(schema, g, raw, scalar);
      AddRecord(Record(g, currentTimeOrdinal, DumpStateOf(localDumpEnabled), payload));
      if fragmentMode && !scalar {
        rawRanges := rawRanges[g := Some(raw)];
      }
    }

    /** One line; only a malformed timestamp is an error. */
    method ParseLine(line: seq<Byte>) returns (r: Result<(), ConversionError>)
      requires Valid() && line != []
      modifies this
      ensures Valid() && EventFits(schema, EventOf(schema, line))
      ensures r.Err? <==> EventOf(schema, line).Malformed?
      ensures View() == ParseStep(schema, fragmentMode, old(View()), EventOf(schema, line))
    {
      hide Shaped, PushChange, PushTimestamp, ParseTimestamp, StartsWith;
      var first := line[0];
      if first == HASH {
        var tick := ReadTimestamp(line);
        if tick.None? { return Err(InvalidTimestamp); }
        AddTimestamp(tick.value);
      } else if first in [ZERO, ONE, LOWER_X, LOWER_Z, 0x58, 0x5A] {
        PushLine(line[1..], [Lower(first)], true);
      } else if first in [0x62, 0x42, 0x72, 0x52] {
        ParseVector(line);
      } else if first == DOLLAR {
        DirectiveEvent(schema, line);
        if |line| >= 8 && line[..8] == DUMPOFF {
          DumpKeepsShape(schema, View(), false);
          localDumpEnabled, finalDumpEnabled := Some(false), Some(false);
        } else if |line| >= 7 && line[..7] == DUMPON {
          DumpKeepsShape(schema, View(), true);
          localDumpEnabled, finalDumpEnabled := Some(true), Some(true);
        }
      } else {
        OtherEvent(schema, line);
      }
      r := Ok(());
    }

    method ParseVector(line: seq<Byte>)
      requires Valid() && line != [] && line[0] in [0x62, 0x42, 0x72, 0x52]
      modifies this
      ensures Valid() && EventFits(schema, EventOf(schema, line)) && !EventOf(schema, line).Malformed?
      ensures View() == ParseStep(schema, fragmentMode, old(View()), EventOf(schema, line))
    {
      hide Shaped, PushChange, PushTimestamp, ParseTimestamp, StartsWith;
      var sep := FindBlank(line);
      if sep == |line| { return; }
      var idStart := if sep + 1 < |line| && line[sep + 1] in [SPACE, TAB] then sep + 2 else sep + 1;
      PushLine(line[idStart..], line[1..sep], false);
    }

    /** A change of the signal with this identifier, if there is one. */
    method PushLine(id: seq<Byte>, raw: seq<Byte>, scalar: bool)
      requires Valid() && (scalar ==> |raw| == 1)
      modifies this
      ensures Valid() && EventFits(schema, ChangeOf(schema, id, raw, scalar))
      ensures View() == ParseStep(schema, fragmentMode, old(View()), ChangeOf(schema, id, raw, scalar))
    {
      hide Shaped, PushChange;
      if id in schema.ids {
        AddChange(schema.ids[id], raw, scalar);
      }
    }

    method Parse(chunk: seq<Byte>) returns (r: Result<ChunkEvents, ConversionError>)
      requires Valid() && View() == EmptyEvents(schema)
      modifies this
      ensures InSchema(schema, Events(schema, chunk))
      ensures r.Err? <==> HasMalformed(Events(schema, chunk))
      ensures r.Ok? ==> r.value == ParseAll(schema, fragmentMode, Events(schema, chunk))
    {
      hide ParseAll, ParseStep, EventOf, Lines, Shaped, HasMalformed;
      EventsInSchema(schema, chunk);
      LinesAreNonEmpty(chunk);
      ghost var lines, es := Lines(chunk), Events(schema, chunk);
      var start: nat := 0;
      ghost var k: nat := 0;
      ParseNone(schema, fragmentMode);
      assert es[..0] == [] && chunk[0..] == chunk && lines[0..] == lines;
      while start < |chunk|
        invariant start <= |chunk| && k <= |lines| && Lines(chunk[start..]) == lines[k..]
        invariant Valid() && InSchema(schema, es[..k])
        invariant forall i :: 0 <= i < k ==> !es[i].Malformed?
        invariant View() == ParseAll(schema, fragmentMode, es[..k])
        decreases |chunk| - start
      {
        var line, next := NextLine(chunk, start);
        if line != [] {
          NextIs(lines, k, line, Lines(chunk[next..]));
          ParseNext(schema, fragmentMode, es, k);
          var parsed := ParseLine(line);
          if parsed.Err? {
            GoodUpTo(es, k);
            return Err(InvalidTimestamp);
          }
          k := k + 1;
        } else {
          assert [] + Lines(chunk[next..]) == Lines(chunk[next..]);
        }
        start := next;
      }
      NoLinesLeft(chunk, start);
      assert k == |lines| && es[..k] == es;
      GoodUpTo(es, k);
      r := Ok(ChunkEvents(timestamps, maxTimestamp, finalDumpEnabled, changes, chains, fragments, rawRanges));
    }
  }

  lemma DirectiveEvent(schema: Schema, line: seq<Byte>)
    requires line != [] && line[0] == DOLLAR
    ensures EventOf(schema, line) == if |line| >= 8 && line[..8] == DUMPOFF then Dump(false)
                                     else if |line| >= 7 && line[..7] == DUMPON then Dump(true)
                                     else Skip
  {}

  lemma OtherEvent(schema: Schema, line: seq<Byte>)
    requires line != [] && line[0] != DOLLAR && line[0] != HASH
    requires line[0] !in [ZERO, ONE, LOWER_X, LOWER_Z, 0x58, 0x5A] && line[0] !in [0x62, 0x42, 0x72, 0x52]
    ensures EventOf(schema, line) == Skip
  {}

  lemma ParseNone(schema: Schema, fragmentMode: bool)
    ensures InSchema(schema, []) && ParseAll(schema, fragmentMode, []) == EmptyEvents(schema)
  {}

  lemma ParseNext(schema: Schema, fragmentMode: bool, es: seq<Event>, k: nat)
    requires InSchema(schema, es) && k < |es|
    ensures InSchema(schema, es[..k]) && InSchema(schema, es[..k + 1]) && EventFits(schema, es[k])
    ensures ParseAll(schema, fragmentMode, es[..k + 1])
         == ParseStep(schema, fragmentMode, ParseAll(schema, fragmentMode, es[..k]), es[k])
  {
    hide ParseStep;
    assert es[..k + 1][..k] == es[..k];
  }

  // ---- Summaries are in order and repeat no value ----

  /** Changes and fragments are in time order up to the current timestamp; no fragment repeats a value. */
  ghost predicate Chronological(schema: Schema, p: ChunkEvents) {
    && TimesUpTo(p.changes, Ordinal(p))
    && forall g :: 0 <= g < |p.fragments| ==>
         TimesUpTo(p.fragments[g], Ordinal(p)) && GroupsFit(schema, p.fragments[g]) && NeighboursDiffer(schema, p.fragments[g])
  }

  lemma LaterUpTo(rs: seq<Record>, a: Option<nat>, b: Option<nat>)
    requires TimesUpTo(rs, a) && TimeRank(a) <= TimeRank(b)
    ensures TimesUpTo(rs, b)
  {}

  lemma PushedLast(rs: seq<Record>, r: Record)
    requires TimesUpTo(rs, r.time)
    ensures TimesUpTo(rs + [r], r.time)
  {}

  lemma ChronologicalStep(schema: Schema, fragmentMode: bool, p: ChunkEvents, e: Event)
    requires Shaped(schema, p) && EventFits(schema, e) && Chronological(schema, p)
    ensures Chronological(schema, ParseStep(schema, fragmentMode, p, e))
  {
    var q := ParseStep(schema, fragmentMode, p, e);
    hide Value, NeighboursDiffer, GroupsFit, TimesUpTo, Shaped;
    match e {
      case Tick(t) =>
        LaterUpTo(p.changes, Ordinal(p), Ordinal(q));
        forall g | 0 <= g < |p.fragments| ensures TimesUpTo(q.fragments[g], Ordinal(q)) {
          LaterUpTo(p.fragments[g], Ordinal(p), Ordinal(q));
        }
      case Change(g, raw, scalar) =>
        var r := Record(g, Ordinal(p), DumpStateOf(p.dumpEnabled), Encode(schema, g, raw, scalar));
        PushedLast(p.changes, r);
        if fragmentMode { PushedFragment(schema, p.fragments[g], r); }
      case _ =>
    }
  }

  lemma {:induction false} ParsedIsChronological(schema: Schema, fragmentMode: bool, es: seq<Event>)
    requires InSchema(schema, es)
    ensures Chronological(schema, ParseAll(schema, fragmentMode, es))
  {
    if es != [] {
      var k := |es| - 1;
      assert es[..k + 1] == es;
      ParseNext(schema, fragmentMode, es, k);
      ParsedIsChronological(schema, fragmentMode, es[..k]);
      ChronologicalStep(schema, fragmentMode, ParseAll(schema, fragmentMode, es[..k]), es[k]);
    }
  }
}
