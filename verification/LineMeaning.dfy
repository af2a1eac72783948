/** What the bytes of a body say, line by line, independently of how the converters read them
    (crates/bwave/src/fst.rs, `process_line`, `parse_line`, `parse_timestamp`). */
module LineMeaning {
  import opened Basics
  import opened BitText
  import opened VcdText

  // ---- Lines of a text ----

  ghost predicate NewlineFree(piece: seq<Byte>) {
    forall i :: 0 <= i < |piece| ==> piece[i] != 0x0A
  }

  /** Pieces, each ended by a newline. */
  ghost function Terminated(pieces: seq<seq<Byte>>): seq<Byte> {
    if pieces == [] then [] else pieces[0] + [0x0A] + Terminated(pieces[1..])
  }

  /** The pieces that are lines: one trailing carriage return dropped, empty ones left out. */
  ghost function Visible(pieces: seq<seq<Byte>>): seq<seq<Byte>> {
    if pieces == [] then []
    else
      var piece := pieces[0];
      var n := |piece|;
      (if n == 0 || piece == [0x0D] then [] else if piece[n - 1] == 0x0D then [piece[..n - 1]] else [piece])
        + Visible(pieces[1..])
  }

  lemma OneVisible(piece: seq<Byte>)
    ensures Visible([piece]) == CleanLine(piece)
  {
    assert [piece][1..] == [];
  }

  lemma CutPiece(piece: seq<Byte>, rest: seq<Byte>)
    requires NewlineFree(piece)
    ensures IndexOf(NEWLINE, piece + [0x0A] + rest) == |piece|
    ensures IndexOf(NEWLINE, piece) == |piece|
  {
    var text := piece + [0x0A] + rest;
    var i := IndexOf(NEWLINE, text);
    assert text[|piece|] == NEWLINE;
    assert forall k :: 0 <= k < |piece| ==> text[k] == piece[k];
  }

  lemma FirstPiece(pieces: seq<seq<Byte>>, last: seq<Byte>)
    requires pieces != [] && NewlineFree(pieces[0])
    ensures Lines(Terminated(pieces) + last) == CleanLine(pieces[0]) + Lines(Terminated(pieces[1..]) + last)
  {
    var rest := Terminated(pieces[1..]) + last;
    var text := pieces[0] + [0x0A] + rest;
    assert Terminated(pieces) + last == text;
    hide Terminated, Lines, CleanLine, IndexOf;
    CutPiece(pieces[0], rest);
    assert text[..|pieces[0]|] == pieces[0] && text[|pieces[0]| + 1..] == rest;
    LinesUnfold(text, |pieces[0]|);
  }

  lemma LastPiece(last: seq<Byte>)
    requires NewlineFree(last)
    ensures Lines(Terminated([]) + last) == CleanLine(last)
  {
    CutPiece(last, []);
    assert Terminated([]) + last == last;
    LinesEnd(last);
  }

  /** The lines of a text of newline-free pieces, the last one with or without its newline. */
  lemma {:induction false} LinesMeaning(pieces: seq<seq<Byte>>, last: seq<Byte>)
    requires (forall i :: 0 <= i < |pieces| ==> NewlineFree(pieces[i])) && NewlineFree(last)
    ensures Lines(Terminated(pieces) + last) == Visible(pieces) + Visible([last])
  {
    hide *;
    OneVisible(last);
    if pieces == [] {
      LastPiece(last);
      NoneVisible(last);
    } else {
      LinesMeaning(pieces[1..], last);
      FirstPiece(pieces, last);
      VisibleFirst(pieces);
      Associate(CleanLine(pieces[0]), Visible(pieces[1..]), Visible([last]));
    }
  }

  lemma NoneVisible(last: seq<Byte>)
    ensures Visible([]) == [] && [] + Visible([last]) == Visible([last])
  {}

  lemma VisibleFirst(pieces: seq<seq<Byte>>)
    requires pieces != []
    ensures Visible(pieces) == CleanLine(pieces[0]) + Visible(pieces[1..])
  {}

  // ---- Timestamp lines ----

  ghost predicate IsBlank(b: Byte) {
    b == 0x20 || b == 0x09
  }

  ghost predicate AllBlank(s: seq<Byte>) {
    forall i :: 0 <= i < |s| ==> IsBlank(s[i])
  }

  ghost predicate AllDigits(s: seq<Byte>) {
    forall i :: 0 <= i < |s| ==> 0x30 <= s[i] <= 0x39
  }

  /** The number a decimal numeral denotes. */
  ghost function Decimal(s: seq<Byte>): nat
    requires AllDigits(s)
  {
    if s == [] then 0 else 10 * Decimal(s[..|s| - 1]) + (s[|s| - 1] as int - 48)
  }

  /** # and the decimal numeral of a 64-bit tick, blanks around the numeral. */
  ghost predicate Timestamp(line: seq<Byte>, before: seq<Byte>, digits: seq<Byte>, after: seq<Byte>, t: nat) {
    && line == [0x23] + before + digits + after && AllBlank(before) && AllBlank(after)
    && digits != [] && AllDigits(digits) && Decimal(digits) == t <= 0xFFFF_FFFF_FFFF_FFFF
  }

  ghost predicate TimestampLine(line: seq<Byte>, t: nat) {
    exists before, digits, after :: Timestamp(line, before, digits, after, t)
  }

  lemma {:induction false} SkipsBlanks(before: seq<Byte>, rest: seq<Byte>)
    requires AllBlank(before) && (rest != [] ==> !IsBlank(rest[0]))
    ensures SkipBlanks(before + rest) == rest
  {
    if before == [] {
      assert before + rest == rest;
    } else {
      assert (before + rest)[1..] == before[1..] + rest;
      SkipsBlanks(before[1..], rest);
    }
  }

  lemma {:induction false} BlanksFound(s: seq<Byte>) returns (before: seq<Byte>)
    ensures s == before + SkipBlanks(s) && AllBlank(before)
    ensures SkipBlanks(s) != [] ==> !IsBlank(SkipBlanks(s)[0])
  {
    if s != [] && IsBlank(s[0]) {
      var rest := BlanksFound(s[1..]);
      before := [s[0]] + rest;
      assert s == [s[0]] + s[1..];
    } else {
      before := [];
    }
  }

  lemma {:induction false} DecimalGrows(digits: seq<Byte>, k: nat)
    requires AllDigits(digits) && k <= |digits|
    ensures Decimal(digits[..k]) <= Decimal(digits)
    decreases |digits|
  {
    if k < |digits| {
      DecimalGrows(digits[..|digits| - 1], k);
      assert digits[..|digits| - 1][..k] == digits[..k];
    } else {
      assert digits[..k] == digits;
    }
  }

  lemma DecimalSnoc(read: seq<Byte>, d: Byte)
    requires AllDigits(read) && 0x30 <= d <= 0x39
    ensures AllDigits(read + [d]) && Decimal(read + [d]) == 10 * Decimal(read) + (d - 0x30) as int
  {
    assert (read + [d])[..|read|] == read;
    DigitValue(d);
  }

  lemma DigitValue(d: Byte)
    requires 0x30 <= d <= 0x39
    ensures d as int - 48 == (d - 0x30) as int
  {}

  lemma ScanStep(s: seq<Byte>, value: nat, n: nat)
    ensures s != [] && 0x30 <= s[0] <= 0x39 ==>
              ScanDigits(s, value, n) == (var next := value * 10 + (s[0] - 0x30) as nat;
                                          if next <= U64_MAX then ScanDigits(s[1..], next, n + 1) else TooLarge)
    ensures s == [] || !(0x30 <= s[0] <= 0x39) ==> ScanDigits(s, value, n) == Number(value, n, s)
  {}

  /** Scanning digits after some already read. */
  lemma {:induction false} ScansDigits(read: seq<Byte>, digits: seq<Byte>, rest: seq<Byte>)
    requires AllDigits(read) && AllDigits(digits) && (rest != [] ==> !(0x30 <= rest[0] <= 0x39))
    requires Decimal(read) <= U64_MAX
    ensures AllDigits(read + digits)
    ensures ScanDigits(digits + rest, Decimal(read), |read|)
         == if Decimal(read + digits) <= U64_MAX then Number(Decimal(read + digits), |read + digits|, rest) else TooLarge
    decreases |digits|
  {
    hide ScanDigits, Decimal;
    ScanStep(digits + rest, Decimal(read), |read|);
    if digits == [] {
      assert digits + rest == rest && read + digits == read;
    } else {
      var more, tail := read + [digits[0]], digits[1..];
      DecimalSnoc(read, digits[0]);
      TailDigits(digits);
      assert (digits + rest)[1..] == tail + rest && more + tail == read + digits;
      if Decimal(more) <= U64_MAX {
        ScansDigits(more, tail, rest);
      } else {
        DecimalGrows(more + tail, |more|);
        assert (more + tail)[..|more|] == more;
      }
    }
  }

  lemma TailDigits(digits: seq<Byte>)
    requires AllDigits(digits) && digits != []
    ensures AllDigits(digits[1..]) && 0x30 <= digits[0] <= 0x39
    ensures forall read: seq<Byte> :: AllDigits(read) ==> AllDigits(read + digits)
  {}

  lemma {:induction false} DigitsFound(s: seq<Byte>) returns (digits: seq<Byte>, rest: seq<Byte>)
    ensures s == digits + rest && AllDigits(digits) && (rest != [] ==> !(0x30 <= rest[0] <= 0x39))
  {
    if s != [] && 0x30 <= s[0] <= 0x39 {
      var more, end := DigitsFound(s[1..]);
      digits, rest := [s[0]] + more, end;
      assert s == [s[0]] + s[1..];
    } else {
      digits, rest := [], s;
    }
  }

  /** A decimal numeral between blanks is read as its number. */
  lemma ReadsTimestamp(line: seq<Byte>, before: seq<Byte>, digits: seq<Byte>, after: seq<Byte>)
    requires line == [0x23] + before + digits + after && AllBlank(before) && AllBlank(after)
    requires digits != [] && AllDigits(digits)
    ensures ParseTimestamp(line) == if Decimal(digits) <= U64_MAX then Some(Decimal(digits)) else None
  {
    assert line[1..] == before + (digits + after);
    assert [] + digits == digits && Decimal([]) == 0 && after + [] == after;
    assert (digits + after)[0] == digits[0];
    SkipsBlanks(before, digits + after);
    ScansDigits([], digits, after);
    SkipsBlanks(after, []);
    hide SkipBlanks, ScanDigits, Decimal;
  }

  lemma AcceptedParts(line: seq<Byte>, digits: seq<Byte>, after: seq<Byte>)
    requires line != [] && SkipBlanks(line[1..]) == digits + after && AllDigits(digits) && ParseTimestamp(line).Some?
    requires ScanDigits(digits + after, 0, 0) == if Decimal(digits) <= U64_MAX then Number(Decimal(digits), |digits|, after) else TooLarge
    ensures digits != [] && SkipBlanks(after) == [] && ParseTimestamp(line) == Some(Decimal(digits)) && Decimal(digits) <= U64_MAX
  {
    hide SkipBlanks, ScanDigits, Decimal;
  }

  /** What is read as a number is such a numeral. */
  lemma TimestampParts(line: seq<Byte>) returns (before: seq<Byte>, digits: seq<Byte>, after: seq<Byte>)
    requires line != [] && line[0] == 0x23 && ParseTimestamp(line).Some?
    ensures Timestamp(line, before, digits, after, ParseTimestamp(line).value)
  {
    NothingRead();
    hide SkipBlanks, ScanDigits, Decimal, ParseTimestamp;
    before := BlanksFound(line[1..]);
    digits, after := DigitsFound(SkipBlanks(line[1..]));
    assert [] + digits == digits;
    ScansDigits([], digits, after);
    AcceptedParts(line, digits, after);
    var end := BlanksFound(after);
    assert after == end + [] == end;
    assert line == [0x23] + line[1..] == [0x23] + before + digits + after;
  }

  lemma NothingRead()
    ensures AllDigits([]) && Decimal([]) == 0
  {}

  /** A timestamp line is read as its decimal number, and any other line after # as malformed. */
  lemma TimestampMeaning(line: seq<Byte>)
    requires line != [] && line[0] == 0x23
    ensures forall t: nat :: ParseTimestamp(line) == Some(t) <==> TimestampLine(line, t)
  {
    forall t: nat ensures ParseTimestamp(line) == Some(t) <==> TimestampLine(line, t) {
      if ParseTimestamp(line) == Some(t) {
        var before, digits, after := TimestampParts(line);
        assert Timestamp(line, before, digits, after, t);
      }
      if TimestampLine(line, t) {
        var b, d, r :| Timestamp(line, b, d, r, t);
        ReadsTimestamp(line, b, d, r);
      }
    }
  }

  // ---- Value lines ----

  /** A value character and an identifier; x and z may be written in upper case. */
  ghost predicate ScalarLine(line: seq<Byte>, value: Byte, id: seq<Byte>) {
    && line != [] && line[1..] == id
    && (value == 0x30 || value == 0x31 || value == 0x78 || value == 0x7A)
    && (line[0] == value || (value == 0x78 && line[0] == 0x58) || (value == 0x7A && line[0] == 0x5A))
  }

  /** One blank, or two, between a text and an identifier. */
  ghost predicate Gap(line: seq<Byte>, text: seq<Byte>, gap: seq<Byte>, id: seq<Byte>) {
    && line != [] && line == [line[0]] + text + gap + id && AllBlank(gap)
    && (|gap| == 2 || (|gap| == 1 && (id != [] ==> !IsBlank(id[0]))))
  }

  /** b or r in either case, a text without blanks, one or two blanks, and the rest as identifier. */
  ghost predicate VectorLine(line: seq<Byte>, text: seq<Byte>, id: seq<Byte>) {
    && line != [] && (line[0] == 0x62 || line[0] == 0x42 || line[0] == 0x72 || line[0] == 0x52)
    && (forall i :: 0 <= i < |text| ==> !IsBlank(text[i]))
    && exists gap: seq<Byte> :: Gap(line, text, gap, id)
  }

  /** The line sets the signal to a text. */
  ghost predicate Writes(schema: Schema, line: seq<Byte>, g: nat, text: seq<Byte>, scalar: bool) {
    exists id :: id in schema.ids && schema.ids[id] == g &&
                 if scalar then |text| == 1 && ScalarLine(line, text[0], id) else VectorLine(line, text, id)
  }

  /** The line begins with "$dumpoff" or "$dumpon". */
  ghost predicate TurnsOff(line: seq<Byte>) {
    |line| >= 8 && line[..8] == [0x24, 0x64, 0x75, 0x6D, 0x70, 0x6F, 0x66, 0x66]
  }

  ghost predicate TurnsOn(line: seq<Byte>) {
    |line| >= 7 && line[..7] == [0x24, 0x64, 0x75, 0x6D, 0x70, 0x6F, 0x6E]
  }

  lemma {:induction false} FirstBlank(s: seq<Byte>)
    ensures forall k :: 0 <= k < IndexOfBlank(s) ==> !IsBlank(s[k])
    ensures IndexOfBlank(s) < |s| ==> IsBlank(s[IndexOfBlank(s)])
  {
    if s != [] && !IsBlank(s[0]) {
      FirstBlank(s[1..]);
      assert forall k :: 0 < k < |s| ==> s[k] == s[1..][k - 1];
    }
  }

  lemma VectorParts(line: seq<Byte>, text: seq<Byte>, gap: seq<Byte>, id: seq<Byte>)
    requires line != [] && !IsBlank(line[0]) && line == [line[0]] + text + gap + id && gap != []
    requires AllBlank(gap) && forall i :: 0 <= i < |text| ==> !IsBlank(text[i])
    ensures IndexOfBlank(line) == 1 + |text| && line[1..1 + |text|] == text && line[1 + |text| + |gap|..] == id
    ensures forall k :: 0 <= k < |gap| ==> line[1 + |text| + k] == gap[k]
    ensures id != [] ==> line[1 + |text| + |gap|] == id[0]
  {
    FirstBlank(line);
    var n := 1 + |text|;
    assert forall k :: 0 <= k < |text| ==> line[1 + k] == text[k];
    assert line[n] == gap[0];
    var i := IndexOfBlank(line);
    assert i <= n;
    assert forall k :: 1 <= k < n ==> line[k] == text[k - 1];
  }

  lemma GapFound(line: seq<Byte>, text: seq<Byte>, gap: seq<Byte>, id: seq<Byte>)
    requires Gap(line, text, gap, id) && !IsBlank(line[0]) && forall i :: 0 <= i < |text| ==> !IsBlank(text[i])
    ensures var sep := IndexOfBlank(line); 0 < sep < |line| && text == line[1..sep] && id == line[IdStart(line, sep)..]
  {
    VectorParts(line, text, gap, id);
    hide IndexOfBlank;
  }

  /** Where the identifier starts after the first blank. */
  ghost function IdStart(line: seq<Byte>, sep: nat): (i: nat)
    requires sep < |line|
    ensures sep < i <= |line|
  {
    if sep + 1 < |line| && IsBlank(line[sep + 1]) then sep + 2 else sep + 1
  }

  lemma GapMade(line: seq<Byte>, sep: nat)
    requires 0 < sep < |line| && IsBlank(line[sep])
    ensures Gap(line, line[1..sep], line[sep..IdStart(line, sep)], line[IdStart(line, sep)..])
  {
    var i := IdStart(line, sep);
    assert line == [line[0]] + line[1..sep] + line[sep..i] + line[i..];
    assert |line[sep..i]| == i - sep;
  }

  /** Where a vector line has its identifier. */
  lemma VectorMeaning(line: seq<Byte>, text: seq<Byte>, id: seq<Byte>)
    requires line != [] && (line[0] == 0x62 || line[0] == 0x42 || line[0] == 0x72 || line[0] == 0x52)
    ensures var sep := IndexOfBlank(line);
            VectorLine(line, text, id) <==> 0 < sep < |line| && text == line[1..sep] && id == line[IdStart(line, sep)..]
  {
    var sep := IndexOfBlank(line);
    FirstBlank(line);
    hide IndexOfBlank, IdStart, AllBlank;
    if VectorLine(line, text, id) {
      var gap: seq<Byte> :| Gap(line, text, gap, id);
      GapFound(line, text, gap, id);
    }
    if 0 < sep < |line| && text == line[1..sep] && id == line[IdStart(line, sep)..] {
      GapMade(line, sep);
    }
  }

  /** The events the converters read from a line are what its bytes say. */
  lemma LineSays(schema: Schema, line: seq<Byte>)
    requires line != []
    ensures forall t: nat :: EventOf(schema, line) == Tick(t) <==> TimestampLine(line, t)
    ensures EventOf(schema, line).Malformed? <==> line[0] == 0x23 && forall t: nat :: !TimestampLine(line, t)
    ensures EventOf(schema, line) == Dump(false) <==> TurnsOff(line)
    ensures EventOf(schema, line) == Dump(true) <==> TurnsOn(line)
    ensures forall g: nat, text: seq<Byte>, scalar: bool ::
              EventOf(schema, line) == Change(g, text, scalar) <==> Writes(schema, line, g, text, scalar)
  {
    NotATimestamp(line);
    if line[0] == 0x23 { TimestampMeaning(line); }
    forall g: nat, text: seq<Byte>, scalar: bool
      ensures EventOf(schema, line) == Change(g, text, scalar) <==> Writes(schema, line, g, text, scalar)
    {
      if scalar { ScalarSays(schema, line, g, text); } else { VectorSays(schema, line, g, text); }
    }
    Directives(schema, line);
    hide ParseTimestamp, TimestampLine, TurnsOff, TurnsOn, IndexOfBlank, Writes;
  }

  lemma NotATimestamp(line: seq<Byte>)
    requires line != []
    ensures line[0] != 0x23 ==> forall t: nat :: !TimestampLine(line, t)
  {}

  lemma Directives(schema: Schema, line: seq<Byte>)
    requires line != []
    ensures EventOf(schema, line) == Dump(false) <==> TurnsOff(line)
    ensures EventOf(schema, line) == Dump(true) <==> TurnsOn(line)
  {
    hide ParseTimestamp, IndexOfBlank;
    if TurnsOff(line) { assert line[..8][0] == line[0] && line[..8][6] == line[6]; }
    if TurnsOn(line) { assert line[..7][0] == line[0] && line[..7][6] == line[6]; }
  }

  lemma ScalarSays(schema: Schema, line: seq<Byte>, g: nat, text: seq<Byte>)
    requires line != []
    ensures EventOf(schema, line) == Change(g, text, true) <==> Writes(schema, line, g, text, true)
  {
    hide ParseTimestamp, IndexOfBlank;
    if EventOf(schema, line) == Change(g, text, true) {
      assert ScalarLine(line, text[0], line[1..]);
    }
    if Writes(schema, line, g, text, true) {
      var id :| id in schema.ids && schema.ids[id] == g && |text| == 1 && ScalarLine(line, text[0], id);
      assert text == [text[0]];
    }
  }

  lemma VectorSays(schema: Schema, line: seq<Byte>, g: nat, text: seq<Byte>)
    requires line != []
    ensures EventOf(schema, line) == Change(g, text, false) <==> Writes(schema, line, g, text, false)
  {
    var sep := IndexOfBlank(line);
    FirstBlank(line);
    if line[0] == 0x62 || line[0] == 0x42 || line[0] == 0x72 || line[0] == 0x52 {
      if sep < |line| { VectorMeaning(line, text, line[IdStart(line, sep)..]); }
      forall id | VectorLine(line, text, id)
        ensures 0 < sep < |line| && text == line[1..sep] && id == line[IdStart(line, sep)..]
      {
        VectorMeaning(line, text, id);
      }
      hide ParseTimestamp, IndexOfBlank, VectorLine;
    }
  }
}
