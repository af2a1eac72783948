/** The serial VCD converter: the specification of the conversion
    (crates/bwave/src/fst.rs). */
module SerialConversion {
  import opened Basics
  import opened BitText
  import opened VcdText

  /** A recorded value change of one signal. */
  datatype Recorded = Recorded(tick: nat, value: seq<Byte>)

  /** Frame, time and dump state of a conversion, and the changes recorded per signal. */
  datatype State = State(
    frame: seq<seq<Byte>>,
    tick: nat,
    seen: bool,
    off: bool,
    log: seq<seq<Recorded>>)

  /** The value a change stores for its signal. */
  function SerialValue(schema: Schema, group: nat, raw: seq<Byte>, scalar: bool): seq<Byte>
    requires group < |schema.groups|
  {
    var meta := schema.groups[group];
    if meta.isReal then schema.realBytes(raw)
    else if scalar && meta.width == 1 then raw
    else Canon(raw, meta.width)
  }

  function InitialFrame(schema: Schema): seq<seq<Byte>> {
    seq(|schema.groups|, g requires 0 <= g < |schema.groups| =>
      Repeat(LOWER_X, if schema.groups[g].isReal then 8 else schema.groups[g].width))
  }

  function NoRecords(schema: Schema): seq<seq<Recorded>> {
    seq(|schema.groups|, g => [])
  }

  function InitialState(schema: Schema): State {
    State(InitialFrame(schema), 0, false, false, NoRecords(schema))
  }

  ghost predicate Fits(schema: Schema, s: State) {
    && |s.frame| == |schema.groups| && |s.log| == |schema.groups|
    && (!s.seen ==> s.tick == 0)
  }

  ghost predicate EventFits(schema: Schema, e: Event) {
    e.Change? ==> e.group < |schema.groups| && (e.scalar ==> |e.raw| == 1)
  }

  // ---- Running maximum of timestamps ----

  datatype Clock = Clock(tick: nat, seen: bool)

  function Advance(c: Clock, t: nat): Clock {
    if t > c.tick || !c.seen then Clock(t, true) else c
  }

  function AdvanceAll(c: Clock, ts: seq<nat>): Clock {
    if ts == [] then c else Advance(AdvanceAll(c, ts[..|ts| - 1]), ts[|ts| - 1])
  }

  // ---- One event ----

  function Step(schema: Schema, s: State, e: Event): State
    requires Fits(schema, s) && EventFits(schema, e)
  {
    match e
    case Tick(t) =>
      var c := Advance(Clock(s.tick, s.seen), t);
      s.(tick := c.tick, seen := c.seen)
    case Change(g, raw, scalar) =>
      if s.off then s
      else
        var v := SerialValue(schema, g, raw, scalar);
        s.(frame := s.frame[g := v], log := s.log[g := s.log[g] + [Recorded(s.tick, v)]])
    case Dump(enabled) => s.(off := !enabled)
    case Skip => s
    case Malformed => s
  }

  function Run(schema: Schema, s: State, es: seq<Event>): (r: State)
    requires Fits(schema, s) && InSchema(schema, es)
    ensures Fits(schema, r)
  {
    if es == [] then s
    else
      assert InSchema(schema, es[..|es| - 1]) && EventFits(schema, es[|es| - 1]);
      Step(schema, Run(schema, s, es[..|es| - 1]), es[|es| - 1])
  }

  lemma RunNext(schema: Schema, s: State, es: seq<Event>, k: nat)
    requires Fits(schema, s) && InSchema(schema, es) && k < |es|
    ensures InSchema(schema, es[..k]) && InSchema(schema, es[..k + 1]) && EventFits(schema, es[k])
    ensures Run(schema, s, es[..k + 1]) == Step(schema, Run(schema, s, es[..k]), es[k])
  {
    hide Step;
    assert es[..k + 1][..k] == es[..k];
  }

  lemma RunNone(schema: Schema, s: State)
    requires Fits(schema, s)
    ensures InSchema(schema, []) && Run(schema, s, []) == s
  {}

  lemma {:induction false} RunConcat(schema: Schema, s: State, x: seq<Event>, y: seq<Event>)
    requires Fits(schema, s) && InSchema(schema, x) && InSchema(schema, y)
    ensures InSchema(schema, x + y)
    ensures Run(schema, s, x + y) == Run(schema, Run(schema, s, x), y)
  {
    if y == [] {
      assert x + y == x;
    } else {
      var init := y[..|y| - 1];
      RunConcat(schema, s, x, init);
      assert (x + y)[..|x + y| - 1] == x + init;
    }
  }

  predicate HasMalformed(es: seq<Event>) {
    exists i :: 0 <= i < |es| && es[i].Malformed?
  }

  /** Number of events before the first malformed one. */
  function GoodEvents(es: seq<Event>): (n: nat)
    ensures n <= |es| && (n < |es| ==> es[n].Malformed?)
    ensures forall i :: 0 <= i < n ==> !es[i].Malformed?
  {
    if es == [] || es[0].Malformed? then 0
    else
      var n := GoodEvents(es[1..]);
      assert forall i :: 0 < i < |es| ==> es[i] == es[1..][i - 1];
      n + 1
  }

  /** Whether the converter counts a change as wider than its signal. */
  predicate IsOverWide(schema: Schema, e: Event)
    requires EventFits(schema, e)
  {
    && e.Change? && !schema.groups[e.group].isReal
    && !(e.scalar && schema.groups[e.group].width == 1) && |e.raw| > schema.groups[e.group].width
  }

  /** How many changes were stored after losing characters. */
  function OverWides(schema: Schema, s: State, es: seq<Event>): nat
    requires Fits(schema, s) && InSchema(schema, es)
  {
    if es == [] then 0
    else
      var init := es[..|es| - 1];
      assert InSchema(schema, init) && EventFits(schema, es[|es| - 1]);
      OverWides(schema, s, init) + if !Run(schema, s, init).off && IsOverWide(schema, es[|es| - 1]) then 1 else 0
  }

  lemma OverWidesNext(schema: Schema, s: State, es: seq<Event>, k: nat)
    requires Fits(schema, s) && InSchema(schema, es) && k < |es|
    ensures InSchema(schema, es[..k]) && InSchema(schema, es[..k + 1]) && EventFits(schema, es[k])
    ensures OverWides(schema, s, es[..k + 1])
         == OverWides(schema, s, es[..k]) + if !Run(schema, s, es[..k]).off && IsOverWide(schema, es[k]) then 1 else 0
  {
    hide Run, IsOverWide;
    assert es[..k + 1][..k] == es[..k];
  }

  lemma GoodUpTo(es: seq<Event>, k: nat)
    requires k <= |es| && (forall i :: 0 <= i < k ==> !es[i].Malformed?) && (k < |es| ==> es[k].Malformed?)
    ensures GoodEvents(es) == k && (HasMalformed(es) <==> k < |es|)
  {}

  lemma NextIs(lines: seq<seq<Byte>>, k: nat, line: seq<Byte>, rest: seq<seq<Byte>>)
    requires k <= |lines| && lines[k..] == [line] + rest
    ensures k < |lines| && lines[k] == line && lines[k + 1..] == rest
  {
    assert lines[k..][0] == line && lines[k..][1..] == rest;
  }

  lemma NoLinesLeft(bytes: seq<Byte>, start: nat)
    requires start == |bytes|
    ensures Lines(bytes[start..]) == []
  {}

  lemma StepMalformed(schema: Schema, s: State)
    requires Fits(schema, s)
    ensures Step(schema, s, Malformed) == s
  {}

  /** Nothing happens without a change, or with one while dumping is off. */
  lemma StepNothing(schema: Schema, s: State, e: Event)
    requires Fits(schema, s) && EventFits(schema, e) && (e.Skip? || (e.Change? && s.off))
    ensures Step(schema, s, e) == s
  {}

  lemma NotOverWide(schema: Schema, line: seq<Byte>)
    requires line != []
    ensures EventFits(schema, EventOf(schema, line)) && !EventOf(schema, line).Change? ==> !IsOverWide(schema, EventOf(schema, line))
  {}

  lemma DirectiveLine(schema: Schema, s: State, line: seq<Byte>)
    requires Fits(schema, s) && line != [] && line[0] == DOLLAR
    ensures EventFits(schema, EventOf(schema, line)) && !EventOf(schema, line).Malformed? && !EventOf(schema, line).Change?
    ensures Step(schema, s, EventOf(schema, line))
         == if |line| >= 8 && line[..8] == DUMPOFF then s.(off := true)
            else if |line| >= 7 && line[..7] == DUMPON then s.(off := false)
            else s
    ensures Fits(schema, s.(off := true)) && Fits(schema, s.(off := false))
  {}

  lemma OtherLine(schema: Schema, s: State, line: seq<Byte>)
    requires Fits(schema, s) && line != [] && line[0] != DOLLAR && line[0] != HASH
    requires line[0] !in [ZERO, ONE, LOWER_X, LOWER_Z, 0x58, 0x5A] && line[0] !in [0x62, 0x42, 0x72, 0x52]
    ensures EventOf(schema, line) == Skip && Step(schema, s, EventOf(schema, line)) == s
  {}

  // ---- The converter object ----

  datatype ConversionError = InvalidTimestamp

  /** The builder in serial mode. `recorded` stands for the section encoder. */
  class FstBuildHandler {
    const schema: Schema
    var frame: seq<seq<Byte>>
    var currentTick: nat
    var lastWrittenTime: nat
    var anyTimeWritten: bool
    var inDumpoff: bool
    var recorded: seq<seq<Recorded>>
    var overwideValues: nat

    ghost predicate Valid()
      reads this
    {
      && WellFormed(schema) && Fits(schema, View())
      && (anyTimeWritten ==> lastWrittenTime == currentTick)
      && (!anyTimeWritten ==> lastWrittenTime == 0)
    }

    ghost function View(): State
      reads this
    {
      State(frame, currentTick, anyTimeWritten, inDumpoff, recorded)
    }

    constructor (schema: Schema)
      requires WellFormed(schema)
      ensures Valid() && this.schema == schema && View() == InitialState(schema) && overwideValues == 0
    {
      this.schema := schema;
      frame := InitialFrame(schema);
      currentTick, lastWrittenTime, anyTimeWritten, inDumpoff := 0, 0, false, false;
      recorded, overwideValues := NoRecords(schema), 0;
    }

    method ApplyTimestamp(tick: nat)
      requires Valid()
      modifies this`currentTick, this`lastWrittenTime, this`anyTimeWritten
      ensures Valid() && View() == Step(schema, old(View()), Tick(tick))
    {
      if tick > currentTick || !anyTimeWritten {
        currentTick := tick;
      }
      if tick <= lastWrittenTime && anyTimeWritten {
        return;
      }
      lastWrittenTime := tick;
      anyTimeWritten := true;
    }

    method EmitChange(group: nat, raw: seq<Byte>, scalar: bool)
      requires Valid() && !inDumpoff && EventFits(schema, Change(group, raw, scalar))
      modifies this`frame, this`recorded, this`overwideValues
      ensures Valid() && View() == Step(schema, old(View()), Change(group, raw, scalar))
      ensures overwideValues == old(overwideValues) + if IsOverWide(schema, Change(group, raw, scalar)) then 1 else 0
    {
      var meta := schema.groups[group];
      var value: seq<Byte>;
      if meta.isReal {
        value := schema.realBytes(raw);
      } else if scalar && meta.width == 1 {
        value := raw;
      } else {
        var overwide;
        value, overwide := CanonBitsAppend(raw, meta.width, []);
        if overwide { overwideValues := overwideValues + 1; }
        assert [] + Canon(raw, meta.width) == Canon(raw, meta.width);
      }
      frame := frame[group := value];
      recorded := recorded[group := recorded[group] + [Recorded(currentTick, value)]];
    }

    /** One line. Only a malformed timestamp is an error, and it changes nothing. */
    method ProcessLine(line: seq<Byte>) returns (r: Result<(), ConversionError>)
      requires Valid() && line != []
      modifies this
      ensures Valid() && EventFits(schema, EventOf(schema, line))
      ensures r.Err? <==> EventOf(schema, line).Malformed?
      ensures View() == Step(schema, old(View()), EventOf(schema, line))
      ensures r.Err? ==> View() == old(View()) && overwideValues == old(overwideValues)
      ensures overwideValues
           == old(overwideValues) + if !old(inDumpoff) && IsOverWide(schema, EventOf(schema, line)) then 1 else 0
    {
      hide Step, ParseTimestamp, StartsWith, Fits, IsOverWide;
      var first := line[0];
      if first == HASH {
        NotOverWide(schema, line);
        var tick := ReadTimestamp(line);
        if tick.None? {
          StepMalformed(schema, View());
          return Err(InvalidTimestamp);
        }
        ApplyTimestamp(tick.value);
      } else if first in [ZERO, ONE, LOWER_X, LOWER_Z, 0x58, 0x5A] {
        if !inDumpoff {
          StoreChange(line[1..], [Lower(first)], true);
        } else {
          StepNothing(schema, View(), EventOf(schema, line));
        }
      } else if first in [0x62, 0x42, 0x72, 0x52] {
        var sep := FindBlank(line);
        if !inDumpoff && sep < |line| {
          var idStart := if sep + 1 < |line| && line[sep + 1] in [SPACE, TAB] then sep + 2 else sep + 1;
          StoreChange(line[idStart..], line[1..sep], false);
        } else {
          NotOverWide(schema, line);
          StepNothing(schema, View(), EventOf(schema, line));
        }
      } else if first == DOLLAR {
        NotOverWide(schema, line);
        DirectiveLine(schema, View(), line);
        if |line| >= 8 && line[..8] == DUMPOFF {
          inDumpoff := true;
        } else if |line| >= 7 && line[..7] == DUMPON {
          inDumpoff := false;
        }
      } else {
        OtherLine(schema, View(), line);
        NotOverWide(schema, line);
      }
      r := Ok(());
    }

    /** Stores a value for the signal with this identifier, if there is one. */
    method StoreChange(id: seq<Byte>, raw: seq<Byte>, scalar: bool)
      requires Valid() && !inDumpoff && (scalar ==> |raw| == 1)
      modifies this`frame, this`recorded, this`overwideValues
      ensures EventFits(schema, ChangeOf(schema, id, raw, scalar))
      ensures Valid() && View() == Step(schema, old(View()), ChangeOf(schema, id, raw, scalar))
      ensures overwideValues == old(overwideValues) + if IsOverWide(schema, ChangeOf(schema, id, raw, scalar)) then 1 else 0
    {
      if id in schema.ids {
        EmitChange(schema.ids[id], raw, scalar);
      }
    }

    /** All lines of a piece of body text; on an error, all lines before the first malformed one. */
    method ProcessChunk(bytes: seq<Byte>) returns (r: Result<(), ConversionError>)
      requires Valid()
      modifies this
      ensures Valid() && InSchema(schema, Events(schema, bytes))
      ensures r.Err? <==> HasMalformed(Events(schema, bytes))
      ensures var es := Events(schema, bytes);
              && InSchema(schema, es[..GoodEvents(es)]) && View() == Run(schema, old(View()), es[..GoodEvents(es)])
              && (r.Ok? ==> View() == Run(schema, old(View()), es))
              && overwideValues == old(overwideValues) + OverWides(schema, old(View()), es[..GoodEvents(es)])
    {
      hide Run, Step, EventOf, Lines, Fits, IsOverWide, GoodEvents;
      EventsInSchema(schema, bytes);
      LinesAreNonEmpty(bytes);
      ghost var lines, es := Lines(bytes), Events(schema, bytes);
      var start: nat := 0;
      ghost var k: nat := 0;
      RunNone(schema, View());
      assert es[..0] == [] && bytes[0..] == bytes && lines[0..] == lines;
      while start < |bytes|
        invariant start <= |bytes| && k <= |lines| && Lines(bytes[start..]) == lines[k..]
        invariant Valid() && InSchema(schema, es[..k])
        invariant forall i :: 0 <= i < k ==> !es[i].Malformed?
        invariant View() == Run(schema, old(View()), es[..k])
        invariant overwideValues == old(overwideValues) + OverWides(schema, old(View()), es[..k])
        decreases |bytes| - start
      {
        var line, next := NextLine(bytes, start);
        if line != [] {
          NextIs(lines, k, line, Lines(bytes[next..]));
          RunNext(schema, old(View()), es, k);
          OverWidesNext(schema, old(View()), es, k);
          r := ProcessLine(line);
          if r.Err? {
            GoodUpTo(es, k);
            return;
          }
          k := k + 1;
        } else {
          assert [] + Lines(bytes[next..]) == Lines(bytes[next..]);
        }
        start := next;
      }
      NoLinesLeft(bytes, start);
      assert k == |lines| && es[..k] == es;
      GoodUpTo(es, k);
      r := Ok(());
    }
  }
}
