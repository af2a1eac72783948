/** What the serial conversion of a body means, stated on the bytes of its lines: which changes are
    recorded, with which values and at which ticks, and the time and dump state at the end
    (crates/bwave/src/fst.rs). */
module BodyMeaning {
  import opened Basics
  import opened BitText
  import opened VcdText
  import opened LineMeaning
  import opened SerialConversion

  ghost predicate AreLines(lines: seq<seq<Byte>>) {
    forall k :: 0 <= k < |lines| ==> lines[k] != []
  }

  // ---- Dumping and time ----

  /** The last directive among the lines is $dumpoff. */
  ghost predicate BlackedOut(lines: seq<seq<Byte>>) {
    exists i :: 0 <= i < |lines| && TurnsOff(lines[i]) && forall j :: i < j < |lines| ==> !TurnsOn(lines[j])
  }

  /** The largest tick among the lines, or 0. */
  ghost predicate IsClock(lines: seq<seq<Byte>>, t: nat) {
    && (t == 0 || exists i :: 0 <= i < |lines| && TimestampLine(lines[i], t))
    && forall i, u: nat :: 0 <= i < |lines| && TimestampLine(lines[i], u) ==> u <= t
  }

  ghost predicate HasTime(lines: seq<seq<Byte>>) {
    exists i, t: nat :: 0 <= i < |lines| && TimestampLine(lines[i], t)
  }

  lemma BlackedOutNext(lines: seq<seq<Byte>>, line: seq<Byte>)
    ensures !(TurnsOff(line) && TurnsOn(line))
    ensures BlackedOut(lines + [line]) <==> TurnsOff(line) || (BlackedOut(lines) && !TurnsOn(line))
  {
    var all := lines + [line];
    assert TurnsOff(line) ==> line[6] == line[..8][6] == 0x66;
    assert TurnsOn(line) ==> line[6] == line[..7][6] == 0x6E;
    hide TurnsOff, TurnsOn;
    assert all[|lines|] == line;
    if BlackedOut(lines) && !TurnsOn(line) {
      var i :| 0 <= i < |lines| && TurnsOff(lines[i]) && forall j :: i < j < |lines| ==> !TurnsOn(lines[j]);
      assert TurnsOff(all[i]) && forall j :: i < j < |all| ==> !TurnsOn(all[j]);
    }
    if BlackedOut(all) && !TurnsOff(line) {
      var i :| 0 <= i < |all| && TurnsOff(all[i]) && forall j :: i < j < |all| ==> !TurnsOn(all[j]);
      assert lines[i] == all[i] && forall j :: i < j < |lines| ==> lines[j] == all[j];
    }
  }

  lemma ClockNext(lines: seq<seq<Byte>>, line: seq<Byte>, c: nat)
    requires IsClock(lines, c)
    ensures (forall t: nat :: !TimestampLine(line, t)) ==>
              IsClock(lines + [line], c) && (HasTime(lines + [line]) <==> HasTime(lines))
    ensures forall t: nat :: TimestampLine(line, t) && (forall u: nat :: TimestampLine(line, u) ==> u == t) ==>
              IsClock(lines + [line], Max(c, t)) && HasTime(lines + [line])
  {
    hide TimestampLine;
    var all := lines + [line];
    assert all[|lines|] == line && forall i :: 0 <= i < |lines| ==> all[i] == lines[i];
    forall t: nat | TimestampLine(line, t) && forall u: nat :: TimestampLine(line, u) ==> u == t
      ensures IsClock(all, Max(c, t)) && HasTime(all)
    {
      assert TimestampLine(all[|lines|], t);
      if c > t && c != 0 {
        var i :| 0 <= i < |lines| && TimestampLine(lines[i], c);
        assert TimestampLine(all[i], c);
      }
    }
    if forall t: nat :: !TimestampLine(line, t) {
      if c != 0 {
        var i :| 0 <= i < |lines| && TimestampLine(lines[i], c);
        assert TimestampLine(all[i], c);
      }
      if HasTime(lines) {
        var i, t: nat :| 0 <= i < |lines| && TimestampLine(lines[i], t);
        assert TimestampLine(all[i], t);
      }
    }
  }

  // ---- Values ----

  ghost function LowerCase(b: Byte): Byte {
    if 0x41 <= b <= 0x5A then b + 0x20 else b
  }

  /** The value a text gives a signal: reals by their token, one-bit scalars as they are, others at
      declared width, lower-cased, the excess cut on the left or x, z or 0 added there. */
  ghost predicate Shows(schema: Schema, g: nat, text: seq<Byte>, scalar: bool, value: seq<Byte>) {
    g < |schema.groups| &&
    var width := schema.groups[g].width;
    if schema.groups[g].isReal then value == schema.realBytes(text)
    else if scalar && width == 1 then value == text
    else
      && |value| == width
      && forall i :: 0 <= i < width ==>
           value[i] == if width <= i + |text| then LowerCase(text[i + |text| - width])
                       else if text != [] && LowerCase(text[0]) in [0x78, 0x7A] then LowerCase(text[0])
                       else 0x30
  }

  /** A signal that no line has written is all x. */
  ghost predicate Unwritten(schema: Schema, g: nat, value: seq<Byte>) {
    && g < |schema.groups| && |value| == (if schema.groups[g].isReal then 8 else schema.groups[g].width)
    && forall i :: 0 <= i < |value| ==> value[i] == 0x78
  }

  lemma SerialShows(schema: Schema, g: nat, text: seq<Byte>, scalar: bool)
    requires g < |schema.groups|
    ensures Shows(schema, g, text, scalar, SerialValue(schema, g, text, scalar))
  {}

  lemma InitialIsUnwritten(schema: Schema, g: nat)
    requires g < |schema.groups|
    ensures Unwritten(schema, g, InitialState(schema).frame[g])
  {}

  // ---- Records ----

  /** Line `k` records a change: it writes the signal and the last directive before it is not $dumpoff. */
  ghost predicate Adds(schema: Schema, lines: seq<seq<Byte>>, k: nat, g: nat) {
    && k < |lines| && !BlackedOut(lines[..k])
    && exists text, scalar :: Writes(schema, lines[k], g, text, scalar)
  }

  /** The record is that of line `k`: its value at the largest tick before it. */
  ghost predicate RecordOf(schema: Schema, lines: seq<seq<Byte>>, k: nat, g: nat, r: Recorded) {
    && k < |lines| && IsClock(lines[..k], r.tick)
    && exists text, scalar :: Writes(schema, lines[k], g, text, scalar) && Shows(schema, g, text, scalar, r.value)
  }

  /** The lines that record a change of the signal, in order. */
  ghost function AddingLines(schema: Schema, lines: seq<seq<Byte>>, g: nat): seq<nat> {
    if lines == [] then []
    else
      var n := |lines| - 1;
      AddingLines(schema, lines[..n], g) + if Adds(schema, lines, n, g) then [n] else []
  }

  ghost predicate LogMeans(schema: Schema, lines: seq<seq<Byte>>, g: nat, log: seq<Recorded>, at: seq<nat>) {
    && |at| == |log| && (forall i, j :: 0 <= i < j < |at| ==> at[i] < at[j])
    && (forall k: nat :: k in at <==> Adds(schema, lines, k, g))
    && forall i :: 0 <= i < |at| ==> RecordOf(schema, lines, at[i], g, log[i])
  }

  lemma AddsBefore(schema: Schema, lines: seq<seq<Byte>>, line: seq<Byte>, g: nat)
    ensures forall k: nat :: k < |lines| ==> (Adds(schema, lines + [line], k, g) <==> Adds(schema, lines, k, g))
    ensures forall k: nat, r :: RecordOf(schema, lines, k, g, r) ==> RecordOf(schema, lines + [line], k, g, r)
    ensures (lines + [line])[..|lines|] == lines && (lines + [line])[|lines|] == line
  {
    hide BlackedOut, Writes, IsClock, Shows;
    assert forall k: nat :: k < |lines| ==> (lines + [line])[..k] == lines[..k] && (lines + [line])[k] == lines[k];
  }

  /** One more line. */
  lemma LogNext(schema: Schema, lines: seq<seq<Byte>>, line: seq<Byte>, g: nat, log: seq<Recorded>, at: seq<nat>)
    requires LogMeans(schema, lines, g, log, at)
    ensures !Adds(schema, lines + [line], |lines|, g) ==> LogMeans(schema, lines + [line], g, log, at)
    ensures forall r :: Adds(schema, lines + [line], |lines|, g) && RecordOf(schema, lines + [line], |lines|, g, r) ==>
              LogMeans(schema, lines + [line], g, log + [r], at + [|lines|])
  {
    AddsBefore(schema, lines, line, g);
    hide RecordOf;
    AddsAreLines(schema, lines, g);
    AddsAreLines(schema, lines + [line], g);
    hide Adds;
    assert forall i :: 0 <= i < |at| ==> at[i] in at;
  }

  lemma AddsAreLines(schema: Schema, lines: seq<seq<Byte>>, g: nat)
    ensures forall k: nat :: Adds(schema, lines, k, g) ==> k < |lines|
  {}

  // ---- The whole state ----

  /** The state a body of these lines leads to. */
  ghost predicate StateMeans(schema: Schema, lines: seq<seq<Byte>>, s: State) {
    && Fits(schema, s) && (s.off <==> BlackedOut(lines)) && IsClock(lines, s.tick) && (s.seen <==> HasTime(lines))
    && forall g :: 0 <= g < |schema.groups| ==> SignalMeans(schema, lines, g, s.frame[g], s.log[g])
  }

  /** The log has the recorded changes and the frame the last of them. */
  ghost predicate SignalMeans(schema: Schema, lines: seq<seq<Byte>>, g: nat, frame: seq<Byte>, log: seq<Recorded>) {
    && (if log == [] then Unwritten(schema, g, frame) else frame == log[|log| - 1].value)
    && LogMeans(schema, lines, g, log, AddingLines(schema, lines, g))
  }

  lemma NothingMeans(schema: Schema)
    ensures Fits(schema, InitialState(schema)) && StateMeans(schema, [], InitialState(schema))
  {
    forall g: nat | g < |schema.groups| ensures SignalMeans(schema, [], g, InitialState(schema).frame[g], InitialState(schema).log[g]) {
      InitialIsUnwritten(schema, g);
    }
  }

  /** Whether the event changes the signal while dumping is on. */
  ghost predicate Stores(s: State, e: Event, g: nat) {
    e.Change? && e.group == g && !s.off
  }

  lemma StepSignal(schema: Schema, s: State, e: Event, g: nat)
    requires Fits(schema, s) && EventFits(schema, e) && g < |schema.groups|
    ensures var t := Step(schema, s, e);
            if Stores(s, e, g) then
              var v := SerialValue(schema, g, e.raw, e.scalar);
              t.log[g] == s.log[g] + [Recorded(s.tick, v)] && t.frame[g] == v
            else t.log[g] == s.log[g] && t.frame[g] == s.frame[g]
  {
    hide SerialValue;
  }

  /** A line adds a record exactly if its event is a change while dumping is on. */
  lemma AddsIsStores(schema: Schema, lines: seq<seq<Byte>>, line: seq<Byte>, g: nat, s: State)
    requires line != [] && (s.off <==> BlackedOut(lines)) && IsClock(lines, s.tick)
    requires g < |schema.groups| && EventFits(schema, EventOf(schema, line))
    ensures Adds(schema, lines + [line], |lines|, g) <==> Stores(s, EventOf(schema, line), g)
    ensures Stores(s, EventOf(schema, line), g) ==>
              var e := EventOf(schema, line);
              RecordOf(schema, lines + [line], |lines|, g, Recorded(s.tick, SerialValue(schema, g, e.raw, e.scalar)))
  {
    var e, all := EventOf(schema, line), lines + [line];
    LineSays(schema, line);
    assert all[..|lines|] == lines && all[|lines|] == line;
    hide EventOf, Writes, BlackedOut, IsClock, TurnsOff, TurnsOn, TimestampLine, SerialValue, Shows;
    if Stores(s, e, g) {
      SerialShows(schema, g, e.raw, e.scalar);
      assert Writes(schema, line, g, e.raw, e.scalar);
    }
    forall text, scalar | Writes(schema, line, g, text, scalar) ensures e == Change(g, text, scalar) {}
  }

  /** One signal after one more line. */
  lemma SignalNext(schema: Schema, lines: seq<seq<Byte>>, line: seq<Byte>, g: nat, s: State)
    requires line != [] && StateMeans(schema, lines, s) && g < |schema.groups| && EventFits(schema, EventOf(schema, line))
    ensures var t := Step(schema, s, EventOf(schema, line)); SignalMeans(schema, lines + [line], g, t.frame[g], t.log[g])
  {
    assert SignalMeans(schema, lines, g, s.frame[g], s.log[g]);
    StepSignal(schema, s, EventOf(schema, line), g);
    AddsIsStores(schema, lines, line, g, s);
    AddingNext(schema, lines, line, g);
    hide EventOf, Step, Adds, BlackedOut, IsClock, HasTime, LogMeans, AddingLines, RecordOf, Unwritten, SerialValue, Fits, StateMeans;
    LogNext(schema, lines, line, g, s.log[g], AddingLines(schema, lines, g));
  }

  lemma AddingNext(schema: Schema, lines: seq<seq<Byte>>, line: seq<Byte>, g: nat)
    ensures AddingLines(schema, lines + [line], g)
         == AddingLines(schema, lines, g) + if Adds(schema, lines + [line], |lines|, g) then [|lines|] else []
    ensures AddingLines(schema, lines, g) + [] == AddingLines(schema, lines, g)
  {
    assert (lines + [line])[..|lines|] == lines;
  }

  /** One more line. */
  lemma LineMeans(schema: Schema, lines: seq<seq<Byte>>, line: seq<Byte>, s: State)
    requires line != [] && StateMeans(schema, lines, s) && EventFits(schema, EventOf(schema, line))
    ensures StateMeans(schema, lines + [line], Step(schema, s, EventOf(schema, line)))
  {
    var t := Step(schema, s, EventOf(schema, line));
    forall g: nat | g < |schema.groups| ensures SignalMeans(schema, lines + [line], g, t.frame[g], t.log[g]) {
      SignalNext(schema, lines, line, g, s);
    }
    LineSays(schema, line);
    BlackedOutNext(lines, line);
    ClockNext(lines, line, s.tick);
    hide EventOf, Writes, BlackedOut, IsClock, HasTime, SignalMeans, TurnsOff, TurnsOn, TimestampLine, SerialValue;
  }

  /** The serial conversion of lines leads to the state that their bytes mean. */
  lemma {:induction false} RunMeans(schema: Schema, lines: seq<seq<Byte>>)
    requires WellFormed(schema) && AreLines(lines)
    ensures InSchema(schema, EventsOf(schema, lines)) && Fits(schema, InitialState(schema))
    ensures StateMeans(schema, lines, Run(schema, InitialState(schema), EventsOf(schema, lines)))
  {
    if lines == [] {
      NothingMeans(schema);
    } else {
      var init, line := lines[..|lines| - 1], lines[|lines| - 1];
      RunMeans(schema, init);
      var es := EventsOf(schema, lines);
      assert es[..|init|] == EventsOf(schema, init) && es[|init|] == EventOf(schema, line);
      assert lines == init + [line];
      hide EventOf, StateMeans, Run, Step, InitialState;
      RunOne(schema, InitialState(schema), es);
      LineMeans(schema, init, line, Run(schema, InitialState(schema), EventsOf(schema, init)));
    }
  }

  lemma RunOne(schema: Schema, s: State, es: seq<Event>)
    requires Fits(schema, s) && InSchema(schema, es) && es != []
    ensures InSchema(schema, es[..|es| - 1]) && EventFits(schema, es[|es| - 1])
    ensures Run(schema, s, es) == Step(schema, Run(schema, s, es[..|es| - 1]), es[|es| - 1])
  {
    hide Step;
  }

  /** The serial conversion of a body leads to the state that its lines mean. */
  lemma BodyMeans(schema: Schema, body: seq<Byte>)
    requires WellFormed(schema)
    ensures InSchema(schema, Events(schema, body)) && Fits(schema, InitialState(schema))
    ensures StateMeans(schema, Lines(body), Run(schema, InitialState(schema), Events(schema, body)))
    ensures HasMalformed(Events(schema, body))
       <==> exists k :: 0 <= k < |Lines(body)| && Misread(Lines(body)[k])
  {
    LinesAreNonEmpty(body);
    var lines := Lines(body);
    hide Lines, Run, StateMeans, EventOf, InitialState;
    RunMeans(schema, lines);
    forall k | 0 <= k < |lines| ensures Events(schema, body)[k].Malformed? <==> Misread(lines[k]) {
      LineSays(schema, lines[k]);
    }
    if exists k :: 0 <= k < |lines| && Misread(lines[k]) {
      var k :| 0 <= k < |lines| && Misread(lines[k]);
      assert Events(schema, body)[k].Malformed?;
    }
  }

  /** A line that begins like a timestamp but is none. */
  ghost predicate Misread(line: seq<Byte>) {
    line != [] && line[0] == 0x23 && forall t: nat :: !TimestampLine(line, t)
  }
}
