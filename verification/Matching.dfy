/** Value matching and trigger modes (crates/bwave/src/format.rs). */
module Matching {
  import opened Basics
  import opened Radix

  predicate EqIgnoreCase(a: string, b: string) {
    UpperAll(a) == UpperAll(b)
  }

  predicate ContainsXz(s: string) {
    exists i :: 0 <= i < |s| && s[i] in "xXzZ"
  }

  predicate CanonicalHexEq(a: string, b: string) {
    EqIgnoreCase(TrimZeros(a), TrimZeros(b))
  }

  predicate ValuesMatch(actual: string, target: string) {
    if EqIgnoreCase(actual, target) then true
    else if EqIgnoreCase(target, "Z") then exists i :: 0 <= i < |actual| && actual[i] in "zZ"
    else if EqIgnoreCase(target, "X") then exists i :: 0 <= i < |actual| && actual[i] in "xX"
    else if ContainsXz(actual) || ContainsXz(target) then false
    else if |target| > 1 && IsNumeral(target, Bin) then CanonicalHexEq(actual, HexOfBinary(target).value)
    else CanonicalHexEq(actual, target)
  }

  datatype TriggerMode = Literal | Rising | Falling | Change {

    static function Classify(value: string): TriggerMode {
      if EqIgnoreCase(value, "rising") then Rising
      else if EqIgnoreCase(value, "falling") then Falling
      else if EqIgnoreCase(value, "change") then Change
      else Literal
    }

    predicate Matches(previous: Option<string>, current: string, width: nat, literal: string) {
      match this
      case Literal => ValuesMatch(current, literal)
      case Change => previous.Some? && previous.value != current
      case Rising => width == 1 && previous == Some("0") && current == "1"
      case Falling => width == 1 && previous == Some("1") && current == "0"
    }
  }

  // ---- Matching numerals of any width is numeric equality ----

  /** Trimmed and upper-cased, a numeral is determined by its value. */
  function HexText(v: nat): string {
    if v == 0 then [] else Render(v, Hex)
  }

  lemma TrimmedIsHexText(a: string)
    requires IsNumeral(a, Hex)
    ensures UpperAll(TrimZeros(a)) == HexText(Value(a, Hex))
  {
    TrimNumeral(a, Hex);
    var s := TrimZeros(a);
    if s != [] {
      RenderValue(s, Hex);
      ValuePositive(s, Hex);
    } else {
      assert Value(s, Hex) == 0 && UpperAll(s) == [];
    }
  }

  lemma HexTextInjective(v: nat, w: nat)
    ensures HexText(v) == HexText(w) ==> v == w
  {
    RenderIsNumeral(v, Hex);
    RenderIsNumeral(w, Hex);
    assert Value([], Hex) == 0;
    hide Render, Value, IsNumeral;
  }

  lemma HexEqIsValueEq(a: string, b: string)
    requires IsNumeral(a, Hex) && IsNumeral(b, Hex)
    ensures CanonicalHexEq(a, b) <==> Value(a, Hex) == Value(b, Hex)
  {
    hide UpperAll, TrimZeros, HexText, Value, IsNumeral, HexDigit;
    TrimmedIsHexText(a);
    TrimmedIsHexText(b);
    HexTextInjective(Value(a, Hex), Value(b, Hex));
  }

  lemma NumeralHasNoXz(s: string)
    requires IsNumeral(s, Hex)
    ensures !ContainsXz(s)
    ensures !EqIgnoreCase(s, "Z") && !EqIgnoreCase(s, "X")
  {
    assert EqIgnoreCase(s, "Z") ==> |UpperAll(s)| == 1 && UpperAll(s)[0] == Upper('Z');
    assert EqIgnoreCase(s, "X") ==> |UpperAll(s)| == 1 && UpperAll(s)[0] == Upper('X');
  }

  /** A stored hexadecimal value matches a numeral target exactly if both denote
      the same number, whatever their width; a target of several 0s and 1s is
      read as binary, unless it is the stored text itself. */
  lemma ValuesMatchIsNumeric(actual: string, target: string)
    requires IsNumeral(actual, Hex) && IsNumeral(target, Hex)
    ensures ValuesMatch(actual, target) <==>
              if |target| > 1 && IsNumeral(target, Bin)
              then EqIgnoreCase(actual, target) || Value(actual, Hex) == Value(target, Bin)
              else Value(actual, Hex) == Value(target, Hex)
  {
    NumeralHasNoXz(actual);
    NumeralHasNoXz(target);
    HexEqIsValueEq(actual, target);
    if |target| > 1 && IsNumeral(target, Bin) {
      RenderIsNumeral(Value(target, Bin), Hex);
      HexEqIsValueEq(actual, Render(Value(target, Bin), Hex));
    } else if EqIgnoreCase(actual, target) {
      SameUpperSameValue(actual, target);
    }
  }

  lemma {:induction false} SameUpperSameValue(a: string, b: string)
    requires IsNumeral(a, Hex) && IsNumeral(b, Hex) && EqIgnoreCase(a, b)
    ensures Value(a, Hex) == Value(b, Hex)
  {
    assert |UpperAll(a)| == |a| && |UpperAll(b)| == |b|;
    if a != [] {
      var n := |a| - 1;
      assert UpperAll(a)[n] == UpperAll(b)[n];
      assert UpperAll(a[..n]) == UpperAll(a)[..n] == UpperAll(b)[..n] == UpperAll(b[..n]);
      SameUpperSameValue(a[..n], b[..n]);
    }
  }

  // ---- What matching and triggers mean, on the characters ----

  ghost function Folded(c: char): int {
    if 'A' <= c <= 'Z' then c as int + 32 else c as int
  }

  /** The same text, letters of either case. */
  ghost predicate SameText(a: string, b: string) {
    |a| == |b| && forall i :: 0 <= i < |a| ==> Folded(a[i]) == Folded(b[i])
  }

  ghost predicate OnlyZeros(s: string) {
    forall i :: 0 <= i < |s| ==> s[i] == '0'
  }

  /** The same text apart from leading zeros. */
  ghost predicate SameDigits(a: string, b: string) {
    exists i, j :: 0 <= i <= |a| && 0 <= j <= |b| && OnlyZeros(a[..i]) && OnlyZeros(b[..j]) && SameText(a[i..], b[j..])
  }

  ghost predicate HasZ(s: string) {
    exists i :: 0 <= i < |s| && (s[i] == 'z' || s[i] == 'Z')
  }

  ghost predicate HasX(s: string) {
    exists i :: 0 <= i < |s| && (s[i] == 'x' || s[i] == 'X')
  }

  /** Several characters, all 0 or 1. */
  ghost predicate ReadsAsBinary(s: string) {
    |s| > 1 && forall i :: 0 <= i < |s| ==> s[i] == '0' || s[i] == '1'
  }

  /** A value agrees with a target: the same text; or the target is Z or X and the value has such a bit; or
      neither has an unknown bit and they are the same digits, a target of several 0s and 1s being read
      as a binary number. */
  ghost predicate Agrees(actual: string, target: string) {
    || SameText(actual, target)
    || (SameText(target, "z") && HasZ(actual))
    || (SameText(target, "x") && HasX(actual))
    || (!HasX(actual) && !HasZ(actual) && !HasX(target) && !HasZ(target) && !ReadsAsBinary(target) && SameDigits(actual, target))
    || (!HasX(actual) && !HasZ(actual) && ReadsAsBinary(target)
        && exists h :: IsNumeral(h, Hex) && IsNumeral(target, Bin) && Value(h, Hex) == Value(target, Bin) && SameDigits(actual, h))
  }

  lemma UpperIsFolded(c: char, d: char)
    ensures Upper(c) == Upper(d) <==> Folded(c) == Folded(d)
    ensures Upper(c) == '0' <==> c == '0'
  {}

  lemma EqIsSameText(a: string, b: string)
    ensures EqIgnoreCase(a, b) <==> SameText(a, b)
  {
    assert |UpperAll(a)| == |a| && |UpperAll(b)| == |b|;
    forall i | 0 <= i < |a| && i < |b| ensures UpperAll(a)[i] == UpperAll(b)[i] <==> Folded(a[i]) == Folded(b[i]) {
      UpperIsFolded(a[i], b[i]);
    }
    hide Upper, Folded;
    if SameText(a, b) { assert UpperAll(a) == UpperAll(b); }
  }

  lemma {:induction false} TrimPast(s: string, i: nat)
    requires i <= |s| && OnlyZeros(s[..i])
    ensures TrimZeros(s) == TrimZeros(s[i..])
    decreases i
  {
    if i == 0 {
      assert s[0..] == s;
    } else {
      assert s[..i][0] == '0';
      assert s[1..][..i - 1] == s[..i][1..] && s[1..][i - 1..] == s[i..];
      TrimPast(s[1..], i - 1);
    }
  }

  lemma {:induction false} TrimParts(s: string) returns (i: nat)
    ensures i <= |s| && OnlyZeros(s[..i]) && TrimZeros(s) == s[i..]
  {
    if s != [] && s[0] == '0' {
      var j := TrimParts(s[1..]);
      i := j + 1;
      assert s[..i] == [s[0]] + s[1..][..j] && s[i..] == s[1..][j..];
    } else {
      i := 0;
    }
  }

  lemma {:induction false} SameTextTrims(a: string, b: string)
    requires SameText(a, b)
    ensures SameText(TrimZeros(a), TrimZeros(b))
  {
    if a != [] {
      UpperIsFolded(a[0], b[0]);
      UpperIsFolded(a[0], '0');
      UpperIsFolded(b[0], '0');
      if a[0] == '0' {
        assert SameText(a[1..], b[1..]);
        SameTextTrims(a[1..], b[1..]);
      }
    }
  }

  lemma HexEqIsSameDigits(a: string, b: string)
    ensures CanonicalHexEq(a, b) <==> SameDigits(a, b)
  {
    var i := TrimParts(a);
    var j := TrimParts(b);
    EqIsSameText(TrimZeros(a), TrimZeros(b));
    hide TrimZeros, EqIgnoreCase, SameText, OnlyZeros;
    if SameDigits(a, b) {
      var k, l :| 0 <= k <= |a| && 0 <= l <= |b| && OnlyZeros(a[..k]) && OnlyZeros(b[..l]) && SameText(a[k..], b[l..]);
      TrimPast(a, k);
      TrimPast(b, l);
      SameTextTrims(a[k..], b[l..]);
    }
  }

  lemma {:induction false} SameDigitsSameValue(a: string, h: string, k: string)
    requires IsNumeral(h, Hex) && IsNumeral(k, Hex) && Value(h, Hex) == Value(k, Hex)
    ensures SameDigits(a, h) <==> SameDigits(a, k)
  {
    HexEqIsSameDigits(a, h);
    HexEqIsSameDigits(a, k);
    HexEqIsValueEq(h, k);
    hide UpperAll, TrimZeros, SameDigits, Value, IsNumeral;
  }

  lemma UnknownParts(s: string)
    ensures ContainsXz(s) <==> HasX(s) || HasZ(s)
    ensures HasZ(s) <==> exists i :: 0 <= i < |s| && s[i] in "zZ"
    ensures HasX(s) <==> exists i :: 0 <= i < |s| && s[i] in "xX"
  {
    if HasX(s) {
      var i :| 0 <= i < |s| && (s[i] == 'x' || s[i] == 'X');
      assert s[i] in "xX" && s[i] in "xXzZ";
    }
    if HasZ(s) {
      var i :| 0 <= i < |s| && (s[i] == 'z' || s[i] == 'Z');
      assert s[i] in "zZ" && s[i] in "xXzZ";
    }
  }

  lemma BinaryIsNumeral(s: string)
    ensures ReadsAsBinary(s) <==> |s| > 1 && IsNumeral(s, Bin)
    ensures ReadsAsBinary(s) ==> !HasX(s) && !HasZ(s)
  {
    forall c: char ensures HexDigit(c).Some? && HexDigit(c).value < 2 <==> c == '0' || c == '1' {}
  }

  /** Matching a value is agreeing with it, for every pair of texts. */
  lemma ValuesMatchAgrees(actual: string, target: string)
    ensures ValuesMatch(actual, target) <==> Agrees(actual, target)
  {
    EqIsSameText(actual, target);
    EqIsSameText(target, "Z");
    EqIsSameText(target, "X");
    TargetLetters(target);
    UnknownParts(actual);
    UnknownParts(target);
    BinaryIsNumeral(target);
    HexEqIsSameDigits(actual, target);
    hide EqIgnoreCase, SameText, SameDigits, CanonicalHexEq, HasX, HasZ, ContainsXz, Value, IsNumeral, ReadsAsBinary;
    if |target| > 1 && IsNumeral(target, Bin) {
      BinaryAgrees(actual, target);
    }
  }

  lemma TargetLetters(target: string)
    ensures SameText(target, "Z") <==> SameText(target, "z")
    ensures SameText(target, "X") <==> SameText(target, "x")
    ensures SameText(target, "Z") ==> HasZ(target) && |target| == 1
    ensures SameText(target, "X") ==> HasX(target) && |target| == 1
    ensures !(SameText(target, "Z") && SameText(target, "X"))
  {
    if SameText(target, "Z") { assert target[0] == 'z' || target[0] == 'Z'; }
    if SameText(target, "X") { assert target[0] == 'x' || target[0] == 'X'; }
  }

  lemma BinaryAgrees(actual: string, target: string)
    requires IsNumeral(target, Bin)
    ensures HexOfBinary(target).Some?
    ensures CanonicalHexEq(actual, HexOfBinary(target).value)
       <==> exists h :: IsNumeral(h, Hex) && IsNumeral(target, Bin) && Value(h, Hex) == Value(target, Bin) && SameDigits(actual, h)
  {
    var k := Render(Value(target, Bin), Hex);
    RenderIsNumeral(Value(target, Bin), Hex);
    HexEqIsSameDigits(actual, k);
    hide CanonicalHexEq, SameDigits, Render, Value, IsNumeral;
    forall h | IsNumeral(h, Hex) && Value(h, Hex) == Value(target, Bin) ensures SameDigits(actual, h) <==> SameDigits(actual, k) {
      SameDigitsSameValue(actual, h, k);
    }
  }

  /** What a trigger waits for between two neighbouring samples. */
  ghost predicate Happens(previous: Option<string>, current: string, width: nat, literal: string) {
    if SameText(literal, "rising") then width == 1 && previous == Some("0") && current == "1"
    else if SameText(literal, "falling") then width == 1 && previous == Some("1") && current == "0"
    else if SameText(literal, "change") then previous.Some? && previous.value != current
    else Agrees(current, literal)
  }

  /** A literal that names no edge and no change is matched as a level. */
  ghost predicate IsLevel(literal: string) {
    !SameText(literal, "rising") && !SameText(literal, "falling") && !SameText(literal, "change")
  }

  lemma MatchesHappens(previous: Option<string>, current: string, width: nat, literal: string)
    ensures TriggerMode.Classify(literal).Matches(previous, current, width, literal) <==> Happens(previous, current, width, literal)
    ensures TriggerMode.Classify(literal).Literal? <==> IsLevel(literal)
  {
    EqIsSameText(literal, "rising");
    EqIsSameText(literal, "falling");
    EqIsSameText(literal, "change");
    hide EqIgnoreCase, SameText, ValuesMatch, Agrees;
    ValuesMatchAgrees(current, literal);
  }
}
