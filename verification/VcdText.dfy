/** VCD body text as lines and as the events both converters read from a line
    (crates/bwave/src/fst.rs; value changes as in section 18.2 of IEEE 1364-2005). */
module VcdText {
  import opened Basics
  import opened BitText

  const NEWLINE: Byte := 0x0A
  const RETURN: Byte := 0x0D
  const SPACE: Byte := 0x20
  const TAB: Byte := 0x09
  const HASH: Byte := 0x23

  const DOLLAR: Byte := 0x24

  /** "$dumpoff" and "$dumpon". */
  const DUMPOFF: seq<Byte> := [0x24, 0x64, 0x75, 0x6D, 0x70, 0x6F, 0x66, 0x66]
  const DUMPON: seq<Byte> := [0x24, 0x64, 0x75, 0x6D, 0x70, 0x6F, 0x6E]

  // ---- Lines ----

  /** Index of the first occurrence of a byte, or the length. */
  function IndexOf(b: Byte, s: seq<Byte>): (i: nat)
    ensures i <= |s|
    ensures i < |s| ==> s[i] == b
    ensures forall k :: 0 <= k < i ==> s[k] != b
  {
    if s == [] || s[0] == b then 0 else 1 + IndexOf(b, s[1..])
  }

  /** A line without its carriage return; an empty line is no line. */
  function CleanLine(line: seq<Byte>): seq<seq<Byte>> {
    var text := if line != [] && line[|line| - 1] == RETURN then line[..|line| - 1] else line;
    if text == [] then [] else [text]
  }

  /** The lines of a piece of body text; an unterminated last line counts. */
  function Lines(bytes: seq<Byte>): seq<seq<Byte>> {
    if bytes == [] then []
    else
      var i := IndexOf(NEWLINE, bytes);
      if i == |bytes| then CleanLine(bytes)
      else CleanLine(bytes[..i]) + Lines(bytes[i + 1..])
  }

  lemma {:induction false} LinesAreNonEmpty(bytes: seq<Byte>)
    ensures forall k :: 0 <= k < |Lines(bytes)| ==> Lines(bytes)[k] != []
  {
    if bytes != [] {
      var i := IndexOf(NEWLINE, bytes);
      if i < |bytes| { LinesAreNonEmpty(bytes[i + 1..]); }
    }
  }

  predicate EndsLine(bytes: seq<Byte>) {
    bytes == [] || bytes[|bytes| - 1] == NEWLINE
  }

  lemma {:induction false} IndexInPrefix(b: Byte, x: seq<Byte>, y: seq<Byte>)
    requires b in x
    ensures IndexOf(b, x + y) == IndexOf(b, x) < |x|
  {
    if x[0] != b {
      assert (x + y)[1..] == x[1..] + y;
      IndexInPrefix(b, x[1..], y);
    }
  }

  lemma LinesUnfold(bytes: seq<Byte>, i: nat)
    requires IndexOf(NEWLINE, bytes) == i < |bytes|
    ensures Lines(bytes) == CleanLine(bytes[..i]) + Lines(bytes[i + 1..])
  {}

  lemma FirstLine(x: seq<Byte>, y: seq<Byte>) returns (i: nat)
    requires EndsLine(x) && x != []
    ensures i == IndexOf(NEWLINE, x) == IndexOf(NEWLINE, x + y) < |x|
    ensures (x + y)[..i] == x[..i] && (x + y)[i + 1..] == x[i + 1..] + y && EndsLine(x[i + 1..])
  {
    assert x[|x| - 1] in x;
    IndexInPrefix(NEWLINE, x, y);
    i := IndexOf(NEWLINE, x);
  }

  /** Cutting text after a newline cuts its lines. */
  lemma {:induction false} LinesConcat(x: seq<Byte>, y: seq<Byte>)
    requires EndsLine(x)
    ensures Lines(x + y) == Lines(x) + Lines(y)
    decreases |x|
  {
    hide Lines, CleanLine, IndexOf, EndsLine;
    if x == [] {
      NoLines(y);
    } else {
      var i := FirstLine(x, y);
      var rest := x[i + 1..];
      LinesUnfold(x, i);
      LinesUnfold(x + y, i);
      LinesConcat(rest, y);
      Associate(CleanLine(x[..i]), Lines(rest), Lines(y));
    }
  }

  lemma NoLines(y: seq<Byte>)
    ensures [] + y == y && Lines([]) == [] && Lines([]) + Lines(y) == Lines(y)
  {}

  lemma Associate(a: seq<seq<Byte>>, b: seq<seq<Byte>>, c: seq<seq<Byte>>)
    ensures a + (b + c) == (a + b) + c
  {}

  lemma LinesEnd(bytes: seq<Byte>)
    requires IndexOf(NEWLINE, bytes) == |bytes|
    ensures Lines(bytes) == CleanLine(bytes) && Lines([]) == [] && bytes[..|bytes|] == bytes
  {}

  lemma NextPiece(bytes: seq<Byte>, start: nat, end: nat, next: nat)
    requires start < |bytes| && end == start + IndexOf(NEWLINE, bytes[start..])
    requires next == (if end < |bytes| then end + 1 else end) && end <= next <= |bytes|
    ensures end <= |bytes| && Lines(bytes[start..]) == CleanLine(bytes[start..end]) + Lines(bytes[next..])
  {
    hide *;
    Slices(bytes, start, end);
    if end < |bytes| {
      LinesUnfold(bytes[start..], end - start);
    } else {
      LinesEnd(bytes[start..]);
      AddNothing(CleanLine(bytes[start..end]));
    }
  }

  lemma Slices(bytes: seq<Byte>, start: nat, end: nat)
    requires start <= end <= |bytes|
    ensures bytes[start..][..end - start] == bytes[start..end]
    ensures end < |bytes| ==> bytes[start..][end - start + 1..] == bytes[end + 1..]
    ensures end == |bytes| ==> bytes[start..end] == bytes[start..] && bytes[end..] == []
  {}

  lemma AddNothing(lines: seq<seq<Byte>>)
    ensures lines + [] == lines
  {}

  /** One step of the line scan: the text up to the next newline without its carriage return, which
      is empty when there is no line, and where to go on. */
  method NextLine(bytes: seq<Byte>, start: nat) returns (line: seq<Byte>, next: nat)
    requires start < |bytes|
    ensures start < next <= |bytes|
    ensures Lines(bytes[start..]) == (if line == [] then [] else [line]) + Lines(bytes[next..])
  {
    hide Lines, IndexOf;
    var end := start + IndexOf(NEWLINE, bytes[start..]);
    next := if end < |bytes| then end + 1 else end;
    NextPiece(bytes, start, end, next);
    var piece := bytes[start..end];
    line := if end > start && bytes[end - 1] == RETURN then bytes[start..end - 1] else piece;
    if end > start { assert piece[|piece| - 1] == bytes[end - 1] && piece[..|piece| - 1] == bytes[start..end - 1]; }
  }

  // ---- Timestamps ----

  function IsDigit(b: Byte): bool {
    0x30 <= b <= 0x39
  }

  function SkipBlanks(s: seq<Byte>): seq<Byte> {
    if s != [] && (s[0] == SPACE || s[0] == TAB) then SkipBlanks(s[1..]) else s
  }

  datatype Number = Number(value: nat, digits: nat, rest: seq<Byte>) | TooLarge

  /** Leading decimal digits with checked 64-bit accumulation. */
  function ScanDigits(s: seq<Byte>, value: nat, digits: nat): Number
    decreases |s|
  {
    if s != [] && IsDigit(s[0]) then
      var next := value * 10 + (s[0] - 0x30) as nat;
      if next <= U64_MAX then ScanDigits(s[1..], next, digits + 1) else TooLarge
    else Number(value, digits, s)
  }

  /** Tick of a timestamp line, or nothing when it is malformed or overflows. */
  function ParseTimestamp(line: seq<Byte>): Option<nat>
    requires line != []
  {
    match ScanDigits(SkipBlanks(line[1..]), 0, 0)
    case TooLarge => None
    case Number(value, digits, rest) => if digits > 0 && SkipBlanks(rest) == [] then Some(value) else None
  }

  lemma BlanksSkipped(line: seq<Byte>, from: nat, pos: nat)
    requires from <= pos <= |line| && forall i :: from <= i < pos ==> line[i] == SPACE || line[i] == TAB
    requires pos < |line| ==> line[pos] != SPACE && line[pos] != TAB
    ensures SkipBlanks(line[from..]) == line[pos..]
    decreases pos - from
  {
    if from < pos {
      BlanksSkipped(line, from + 1, pos);
      assert line[from..][1..] == line[from + 1..];
    }
  }

  lemma DigitScanned(line: seq<Byte>, pos: nat, value: nat, digits: nat)
    requires pos <= |line|
    ensures ScanDigits(line[pos..], value, digits)
         == if pos < |line| && IsDigit(line[pos]) then
              (var next := value * 10 + (line[pos] - 0x30) as nat;
               if next <= U64_MAX then ScanDigits(line[pos + 1..], next, digits + 1) else TooLarge)
            else Number(value, digits, line[pos..])
  {
    if pos < |line| { assert line[pos..][1..] == line[pos + 1..]; }
  }

  lemma TimestampUnfold(line: seq<Byte>, digitStart: nat)
    requires line != [] && digitStart <= |line| && SkipBlanks(line[1..]) == line[digitStart..]
    ensures ParseTimestamp(line) == match ScanDigits(line[digitStart..], 0, 0)
                                    case TooLarge => None
                                    case Number(value, digits, rest) =>
                                      if digits > 0 && SkipBlanks(rest) == [] then Some(value) else None
  {}

  /** Position of the first character from `pos` on that is no blank. */
  method PastBlanks(line: seq<Byte>, from: nat) returns (pos: nat)
    requires from <= |line|
    ensures from <= pos <= |line| && SkipBlanks(line[from..]) == line[pos..]
  {
    pos := from;
    while pos < |line| && (line[pos] == SPACE || line[pos] == TAB)
      invariant from <= pos <= |line| && forall i :: from <= i < pos ==> line[i] == SPACE || line[i] == TAB
    {
      pos := pos + 1;
    }
    BlanksSkipped(line, from, pos);
  }

  /** The scan of a timestamp line: blanks, digits with checked arithmetic, blanks, end of line. */
  method ReadTimestamp(line: seq<Byte>) returns (r: Option<nat>)
    requires line != []
    ensures r == ParseTimestamp(line)
  {
    hide SkipBlanks, ScanDigits, ParseTimestamp;
    var digitStart := PastBlanks(line, 1);
    TimestampUnfold(line, digitStart);
    var pos, tick: nat := digitStart, 0;
    while pos < |line| && IsDigit(line[pos])
      invariant digitStart <= pos <= |line|
      invariant ScanDigits(line[digitStart..], 0, 0) == ScanDigits(line[pos..], tick, pos - digitStart)
    {
      DigitScanned(line, pos, tick, pos - digitStart);
      tick := tick * 10 + (line[pos] - 0x30) as nat;
      if tick > U64_MAX { return None; }
      pos := pos + 1;
    }
    DigitScanned(line, pos, tick, pos - digitStart);
    if pos == digitStart { return None; }
    var end := PastBlanks(line, pos);
    if end != |line| {
      assert |line[end..]| > 0;
      return None;
    }
    r := Some(tick);
  }

  // ---- Events ----

  datatype Meta = Meta(width: nat, isReal: bool)

  /** Signal groups, their VCD identifiers, and the eight bytes a real token stands for. */
  datatype Schema = Schema(ids: map<seq<Byte>, nat>, groups: seq<Meta>, realBytes: seq<Byte> -> seq<Byte>)

  ghost predicate WellFormed(schema: Schema) {
    forall id :: id in schema.ids ==> schema.ids[id] < |schema.groups|
  }

  datatype Event =
    | Tick(tick: nat)
    | Change(group: nat, raw: seq<Byte>, scalar: bool)
    | Dump(enabled: bool)
    | Skip
    | Malformed

  function ChangeOf(schema: Schema, id: seq<Byte>, raw: seq<Byte>, scalar: bool): Event {
    if id in schema.ids then Change(schema.ids[id], raw, scalar) else Skip
  }

  /** Index of the first space or tab, or the length. */
  function IndexOfBlank(s: seq<Byte>): (i: nat)
    ensures i <= |s|
  {
    if s == [] || s[0] == SPACE || s[0] == TAB then 0 else 1 + IndexOfBlank(s[1..])
  }

  lemma BlankAt(line: seq<Byte>, from: nat, i: nat)
    requires from <= i <= |line| && forall k :: from <= k < i ==> line[k] != SPACE && line[k] != TAB
    requires i < |line| ==> line[i] == SPACE || line[i] == TAB
    ensures IndexOfBlank(line[from..]) == i - from
    decreases i - from
  {
    if from < i {
      BlankAt(line, from + 1, i);
      assert line[from..][1..] == line[from + 1..];
    }
  }

  method FindBlank(line: seq<Byte>) returns (i: nat)
    ensures i == IndexOfBlank(line)
    ensures i <= |line| && (line != [] && line[0] != SPACE && line[0] != TAB ==> 0 < i)
  {
    i := 0;
    while i < |line| && line[i] != SPACE && line[i] != TAB
      invariant i <= |line| && forall k :: 0 <= k < i ==> line[k] != SPACE && line[k] != TAB
    {
      i := i + 1;
    }
    BlankAt(line, 0, i);
    assert line[0..] == line;
  }

  predicate StartsWith(line: seq<Byte>, prefix: seq<Byte>) {
    |prefix| <= |line| && line[..|prefix|] == prefix
  }

  /** What a line says; unknown identifiers and other lines say nothing. */
  function EventOf(schema: Schema, line: seq<Byte>): Event
    requires line != []
  {
    var first := line[0];
    if first == HASH then
      match ParseTimestamp(line) { case Some(t) => Tick(t) case None => Malformed }
    else if first == ZERO || first == ONE || first == LOWER_X || first == LOWER_Z || first == 0x58 || first == 0x5A then
      ChangeOf(schema, line[1..], [Lower(first)], true)
    else if first == 0x62 || first == 0x42 || first == 0x72 || first == 0x52 then
      var sep := IndexOfBlank(line);
      if sep == |line| then Skip
      else
        var idStart := if sep + 1 < |line| && (line[sep + 1] == SPACE || line[sep + 1] == TAB) then sep + 2 else sep + 1;
        ChangeOf(schema, line[idStart..], line[1..sep], false)
    else if StartsWith(line, DUMPOFF) then Dump(false)
    else if StartsWith(line, DUMPON) then Dump(true)
    else Skip
  }

  function EventsOf(schema: Schema, lines: seq<seq<Byte>>): seq<Event>
    requires forall k :: 0 <= k < |lines| ==> lines[k] != []
  {
    seq(|lines|, k requires 0 <= k < |lines| => EventOf(schema, lines[k]))
  }

  /** All events of a piece of body text. */
  function Events(schema: Schema, bytes: seq<Byte>): seq<Event> {
    LinesAreNonEmpty(bytes);
    EventsOf(schema, Lines(bytes))
  }

  lemma EventsOfConcat(schema: Schema, x: seq<seq<Byte>>, y: seq<seq<Byte>>)
    requires forall k :: 0 <= k < |x| ==> x[k] != []
    requires forall k :: 0 <= k < |y| ==> y[k] != []
    ensures forall k :: 0 <= k < |x + y| ==> (x + y)[k] != []
    ensures EventsOf(schema, x + y) == EventsOf(schema, x) + EventsOf(schema, y)
  {
    hide EventOf;
  }

  lemma EventsConcat(schema: Schema, x: seq<Byte>, y: seq<Byte>)
    requires EndsLine(x)
    ensures Events(schema, x + y) == Events(schema, x) + Events(schema, y)
  {
    hide Lines, EventsOf, EndsLine;
    LinesConcat(x, y);
    LinesAreNonEmpty(x);
    LinesAreNonEmpty(y);
    EventsOfConcat(schema, Lines(x), Lines(y));
  }

  ghost predicate InSchema(schema: Schema, es: seq<Event>) {
    forall i :: 0 <= i < |es| ==> match es[i]
                                  case Change(g, raw, scalar) => g < |schema.groups| && (scalar ==> |raw| == 1)
                                  case _ => true
  }

  lemma EventsInSchema(schema: Schema, bytes: seq<Byte>)
    requires WellFormed(schema)
    ensures InSchema(schema, Events(schema, bytes))
  {
    LinesAreNonEmpty(bytes);
  }
}
