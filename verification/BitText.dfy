/** Bit-vector text of IEEE 1364 value changes: left extension to a declared width
    and the shortest text that extends to the same value
    (crates/bwave/src/fst.rs, crates/bwave/src/cache.rs). */
module BitText {

  type Byte = bv8

  const ZERO: Byte := 0x30
  const ONE: Byte := 0x31
  const LOWER_X: Byte := 0x78
  const LOWER_Z: Byte := 0x7A

  function Lower(b: Byte): Byte {
    if 0x41 <= b <= 0x5A then b + 0x20 else b
  }

  function LowerAll(s: seq<Byte>): seq<Byte> {
    seq(|s|, i requires 0 <= i < |s| => Lower(s[i]))
  }

  function Repeat(b: Byte, n: nat): seq<Byte> {
    seq(n, i => b)
  }

  // ---- Left extension ----

  /** The character a short value is extended with: x and z extend themselves, anything else with 0. */
  function FillOf(bits: seq<Byte>): Byte {
    var first := if bits == [] then ZERO else Lower(bits[0]);
    if first == LOWER_X then LOWER_X else if first == LOWER_Z then LOWER_Z else ZERO
  }

  /** The rightmost `width` characters, left-extended when there are fewer, in lower case. */
  function Canon(bits: seq<Byte>, width: nat): (r: seq<Byte>)
    ensures |r| == width
  {
    if |bits| < width then Repeat(FillOf(bits), width - |bits|) + LowerAll(bits)
    else LowerAll(bits[|bits| - width..])
  }

  /** Appends `width` characters: the value's rightmost ones in lower case, and in front of a short value
      its own x or z, or 0. Over-wide values, and only those, lose characters. */
  method CanonBitsAppend(bits: seq<Byte>, width: nat, out: seq<Byte>) returns (r: seq<Byte>, overwide: bool)
    ensures r == out + Canon(bits, width)
    ensures |r| == |out| + width && r[..|out|] == out
    ensures forall i :: |out| <= i < |r| ==>
              r[i] == if width <= i - |out| + |bits| then Lower(bits[i - |out| + |bits| - width])
                      else if bits != [] && Lower(bits[0]) in [LOWER_X, LOWER_Z] then Lower(bits[0])
                      else ZERO
    ensures overwide <==> !(|bits| <= width && r[|r| - |bits|..] == LowerAll(bits))
  {
    r := out;
    if |bits| < width {
      r := r + Repeat(FillOf(bits), width - |bits|);
    }
    var src := if |bits| > width then bits[|bits| - width..] else bits;
    r := r + LowerAll(src);
    overwide := |bits| > width;
  }

  // ---- Minimal form ----

  predicate IsXz(b: Byte) {
    Lower(b) == LOWER_X || Lower(b) == LOWER_Z
  }

  predicate IsBitChar(b: Byte) {
    b == ZERO || b == ONE || IsXz(b)
  }

  predicate IsBitText(s: seq<Byte>) {
    forall i :: 0 <= i < |s| ==> IsBitChar(s[i])
  }

  predicate HasXz(s: seq<Byte>) {
    exists i :: 0 <= i < |s| && IsXz(s[i])
  }

  /** Collapses a leading run of one character. */
  function DropRun(s: seq<Byte>): seq<Byte> {
    if |s| > 1 && s[1] == s[0] then DropRun(s[1..]) else s
  }

  /** Drops leading zeros, keeping one in front of an x or z. */
  function DropZeros(s: seq<Byte>): seq<Byte> {
    if |s| > 1 && s[0] == ZERO && !IsXz(s[1]) then DropZeros(s[1..]) else s
  }

  function MinimalOf(s: seq<Byte>): seq<Byte> {
    if |s| <= 1 then s
    else if IsXz(s[0]) then DropRun(s)
    else if s[0] == ZERO && IsBitText(s) && HasXz(s) then DropZeros(s)
    else s
  }

  method MinimalXz(s: seq<Byte>) returns (r: seq<Byte>)
    ensures r == MinimalOf(s)
  {
    if |s| <= 1 { return s; }
    if IsXz(s[0]) {
      var run := 0;
      while run + 1 < |s| && s[run + 1] == s[0]
        invariant run < |s| && s[run] == s[0]
        invariant DropRun(s) == DropRun(s[run..])
      {
        assert s[run..][1..] == s[run + 1..];
        run := run + 1;
      }
      return s[run..];
    }
    if Lower(s[0]) == ZERO {
      if IsBitText(s) && HasXz(s) {
        var start := 0;
        while start + 1 < |s| && s[start] == ZERO
          invariant start < |s|
          invariant forall i :: 0 <= i < start ==> s[i] == ZERO
          invariant DropZeros(s) == DropZeros(if start > 0 && IsXz(s[start]) then s[start - 1..] else s[start..])
        {
          assert s[start..][1..] == s[start + 1..];
          start := start + 1;
        }
        if IsXz(s[start]) && start > 0 {
          start := start - 1;
        }
        return s[start..];
      }
    }
    r := s;
  }

  // ---- The minimal form is a normal form of left extension ----

  /** Lower-case bit text that mentions an unknown bit. */
  predicate UnknownText(s: seq<Byte>) {
    && (forall i :: 0 <= i < |s| ==> s[i] == ZERO || s[i] == ONE || s[i] == LOWER_X || s[i] == LOWER_Z)
    && exists i :: 0 <= i < |s| && (s[i] == LOWER_X || s[i] == LOWER_Z)
  }

  /** The first character is what left extension would put there anyway. */
  predicate Padded(s: seq<Byte>) {
    |s| > 1 && s[0] == FillOf(s[1..])
  }

  lemma UnknownTail(s: seq<Byte>)
    requires UnknownText(s) && Padded(s)
    ensures UnknownText(s[1..])
    ensures s[0] == ZERO ==> s[1] == ZERO || s[1] == ONE
    ensures s[0] != ZERO ==> s[1] == s[0]
  {
    var t := s[1..];
    var i :| 0 <= i < |s| && (s[i] == LOWER_X || s[i] == LOWER_Z);
    assert t[0] == s[1];
    assert i > 0 ==> t[i - 1] == s[i];
    assert forall k :: 0 <= k < |t| ==> t[k] == s[k + 1];
  }

  lemma UnknownIsBitText(s: seq<Byte>)
    requires UnknownText(s)
    ensures IsBitText(s) && HasXz(s)
    ensures |s| == 1 ==> IsXz(s[0])
  {
    var i :| 0 <= i < |s| && (s[i] == LOWER_X || s[i] == LOWER_Z);
    assert IsXz(s[i]);
  }

  lemma MinimalDropsPadding(s: seq<Byte>)
    requires UnknownText(s) && Padded(s)
    ensures UnknownText(s[1..]) && MinimalOf(s) == MinimalOf(s[1..])
  {
    UnknownTail(s);
    UnknownIsBitText(s);
    UnknownIsBitText(s[1..]);
    if s[0] == ZERO {
      assert MinimalOf(s) == DropZeros(s) == DropZeros(s[1..]);
    } else {
      assert MinimalOf(s) == DropRun(s) == DropRun(s[1..]);
    }
  }

  lemma {:induction false} MinimalStops(s: seq<Byte>)
    requires UnknownText(s) && !Padded(s)
    ensures MinimalOf(s) == s
  {
    if |s| > 1 { assert s[1..][0] == s[1]; }
  }

  lemma ExtendByOne(s: seq<Byte>, width: nat)
    requires 0 < |s| <= width
    ensures Repeat(Lower(s[0]), width - |s|) + LowerAll(s) == Repeat(Lower(s[0]), width - |s| + 1) + LowerAll(s[1..])
  {}

  lemma CanonShort(s: seq<Byte>, width: nat)
    requires |s| <= width
    ensures Canon(s, width) == Repeat(FillOf(s), width - |s|) + LowerAll(s)
  {
    if |s| == width { assert s[0..] == s; }
  }

  lemma PaddingIsExtension(s: seq<Byte>, width: nat)
    requires UnknownText(s) && Padded(s) && |s| <= width
    ensures Canon(s[1..], width) == Canon(s, width)
  {
    assert FillOf(s) == FillOf(s[1..]) == Lower(s[0]);
    hide FillOf, Lower, Canon, Repeat, LowerAll;
    ExtendByOne(s, width);
    CanonShort(s, width);
    CanonShort(s[1..], width);
  }

  /** Extending the minimal form gives back the same `width`-bit value. */
  lemma {:induction false} MinimalKeepsValue(s: seq<Byte>, width: nat)
    requires UnknownText(s) && |s| <= width
    ensures UnknownText(MinimalOf(s)) && |MinimalOf(s)| <= |s|
    ensures Canon(MinimalOf(s), width) == Canon(s, width)
  {
    if Padded(s) {
      MinimalDropsPadding(s);
      PaddingIsExtension(s, width);
      MinimalKeepsValue(s[1..], width);
    } else {
      MinimalStops(s);
    }
  }

  lemma UnknownCons(s: seq<Byte>, t: seq<Byte>)
    requires UnknownText(s) && t == [FillOf(s)] + s
    ensures UnknownText(t) && Padded(t) && t[1..] == s
  {
    var i :| 0 <= i < |s| && (s[i] == LOWER_X || s[i] == LOWER_Z);
    assert t[i + 1] == s[i];
    assert forall k :: 0 < k < |t| ==> t[k] == s[k - 1];
  }

  lemma FullWidth(s: seq<Byte>)
    requires UnknownText(s)
    ensures Canon(s, |s|) == s
  {
    assert s[0..] == s;
    assert forall k :: 0 <= k < |s| ==> Lower(s[k]) == s[k];
  }

  /** Minimising after any amount of extension gives the same text. */
  lemma {:induction false} MinimalOfExtension(s: seq<Byte>, width: nat)
    requires UnknownText(s) && |s| <= width
    ensures MinimalOf(Canon(s, width)) == MinimalOf(s)
    decreases width - |s|
  {
    if |s| == width {
      FullWidth(s);
    } else {
      var t := [FillOf(s)] + s;
      UnknownCons(s, t);
      PaddingIsExtension(t, width);
      MinimalDropsPadding(t);
      MinimalOfExtension(t, width);
    }
  }

  /** Normal form: two texts mean the same value exactly if they minimise to the same text. */
  lemma MinimalIsNormalForm(s: seq<Byte>, t: seq<Byte>, width: nat)
    requires UnknownText(s) && |s| <= width
    requires UnknownText(t) && |t| <= width
    ensures Canon(s, width) == Canon(t, width) <==> MinimalOf(s) == MinimalOf(t)
    ensures Canon(s, width) == Canon(t, width) ==> |MinimalOf(s)| <= |t|
  {
    MinimalKeepsValue(s, width);
    MinimalKeepsValue(t, width);
    MinimalOfExtension(s, width);
    MinimalOfExtension(t, width);
  }
}
