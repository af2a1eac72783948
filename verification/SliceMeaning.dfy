/** What the text of a slice shows, character by character (crates/bwave/src/format.rs). */
module SliceMeaning {
  import opened Basics
  import opened Radix
  import opened Matching
  import opened BitSlices

  // ---- The bits of a stored value ----

  ghost predicate UnknownChar(c: char) {
    c == 'x' || c == 'X' || c == 'z' || c == 'Z'
  }

  ghost predicate HexChar(c: char) {
    '0' <= c <= '9' || 'A' <= c <= 'F' || 'a' <= c <= 'f'
  }

  /** The number a hexadecimal character stands for. */
  ghost function CharNumber(c: char): int {
    if '0' <= c <= '9' then c as int - 48 else if 'A' <= c <= 'F' then c as int - 55 else c as int - 87
  }

  ghost function Small(c: char): char {
    if c == 'X' then 'x' else if c == 'Z' then 'z' else c
  }

  /** Bit `b` of a hexadecimal character, or the unknown that stands for four bits. */
  ghost function BitOf(c: char, b: int): char {
    if UnknownChar(c) then Small(c)
    else
      var n := CharNumber(c);
      if (if b == 0 then n else if b == 1 then n / 2 else if b == 2 then n / 4 else n / 8) % 2 == 1 then '1' else '0'
  }

  /** One character per bit: a value with unknown bits that fits the signal. */
  ghost predicate IsBitText(value: string, width: nat) {
    && |value| <= width && (HasX(value) || HasZ(value))
    && forall i :: 0 <= i < |value| ==> value[i] == '0' || value[i] == '1' || UnknownChar(value[i])
  }

  ghost predicate IsNibbleText(value: string) {
    forall i :: 0 <= i < |value| ==> HexChar(value[i]) || UnknownChar(value[i])
  }

  /** Bit `k` of a stored value, counted from the least significant. */
  ghost function StoredBit(value: string, width: nat, k: nat): char {
    if IsBitText(value, width) then
      if k < |value| then Small(value[|value| - 1 - k]) else '0'
    else
      if k / 4 < |value| then BitOf(value[|value| - 1 - k / 4], k % 4) else '0'
  }

  lemma SmallIsLower(c: char)
    ensures LowerXz(c) == Small(c)
    ensures UnknownChar(c) <==> c in "xXzZ"
    ensures UnknownChar(c) <==> c in "xX" || c in "zZ"
    ensures c == '0' || c == '1' || UnknownChar(c) <==> c in "01xXzZ"
  {}

  lemma NibbleMeaning(c: char)
    ensures Nibble(c).Some? <==> HexChar(c) || UnknownChar(c)
    ensures Nibble(c).Some? ==> |Nibble(c).value| == 4 && forall b :: 0 <= b < 4 ==> Nibble(c).value[3 - b] == BitOf(c, b)
  {
    if HexChar(c) {
      var d := CharNumber(c);
      assert HexDigit(c) == Some(d);
      assert FourBits(d) == [DigitChar(d / 8), DigitChar(d / 4 % 2), DigitChar(d / 2 % 2), DigitChar(d % 2)];
      assert d / 8 % 2 == d / 8;
    }
  }

  /** The character `k` places from the right. */
  ghost function Right(s: string, k: nat): char
    requires k < |s|
  {
    s[|s| - 1 - k]
  }

  ghost predicate SpellsOut(bits: string, value: string) {
    |bits| == 4 * |value| && forall k :: 0 <= k < |bits| ==> Right(bits, k) == BitOf(Right(value, k / 4), k % 4)
  }

  /** One character for each bit of the signal. */
  ghost predicate IsExpansion(bits: string, value: string, width: nat) {
    |bits| == width && forall k :: 0 <= k < width ==> Right(bits, k) == StoredBit(value, width, k)
  }

  lemma {:induction false} NibblesMeaning(value: string)
    ensures Nibbles(value).Some? <==> IsNibbleText(value)
    ensures Nibbles(value).Some? ==> SpellsOut(Nibbles(value).value, value)
  {
    hide BitOf, Nibble, HexChar, UnknownChar, SpellsOut;
    if value != [] {
      var n := |value| - 1;
      NibblesMeaning(value[..n]);
      NibbleMeaning(value[n]);
      assert value == value[..n] + [value[n]];
      if Nibbles(value).Some? { SpellsSnoc(Nibbles(value[..n]).value, value[..n], Nibble(value[n]).value, value[n]); }
    } else {
      NothingSpelled();
    }
  }

  lemma NothingSpelled()
    ensures SpellsOut([], [])
  {}

  lemma SpellsSnoc(bits: string, value: string, last: string, c: char)
    requires SpellsOut(bits, value) && |last| == 4 && forall b :: 0 <= b < 4 ==> last[3 - b] == BitOf(c, b)
    ensures SpellsOut(bits + last, value + [c])
  {
    var all, text := bits + last, value + [c];
    forall k | 0 <= k < |all| ensures Right(all, k) == BitOf(Right(text, k / 4), k % 4) {
      if k < 4 {
        assert Right(all, k) == last[3 - k] && Right(text, 0) == c;
      } else {
        var j := k - 4;
        assert j / 4 == k / 4 - 1 && j % 4 == k % 4;
        assert Right(all, k) == Right(bits, j) && Right(text, k / 4) == Right(value, j / 4);
      }
    }
  }

  lemma PadBits(bits: string, width: nat)
    ensures |PadTo(bits, width)| == Max(|bits|, width)
    ensures forall k :: 0 <= k < |PadTo(bits, width)| ==> Right(PadTo(bits, width), k) == if k < |bits| then Right(bits, k) else '0'
  {}

  lemma Lowered(value: string, lowered: string)
    requires |lowered| == |value| && forall i :: 0 <= i < |value| ==> lowered[i] == LowerXz(value[i])
    ensures forall k :: 0 <= k < |value| ==> Right(lowered, k) == Small(Right(value, k))
  {
    forall k | 0 <= k < |value| ensures Right(lowered, k) == Small(Right(value, k)) { SmallIsLower(Right(value, k)); }
  }

  lemma BitTextExpansion(value: string, width: nat)
    requires 0 < width && IsBitText(value, width)
    ensures IsExpansion(ExpandToBits(value, width), value, width)
  {
    BitTextGuard(value, width);
    var lowered := seq(|value|, i requires 0 <= i < |value| => LowerXz(value[i]));
    assert ExpandToBits(value, width) == PadTo(lowered, width);
    Lowered(value, lowered);
    hide PadTo, LowerXz, Small, BitOf, IsBitText, ExpandToBits, Right;
    PadBits(lowered, width);
    forall k | 0 <= k < width ensures Right(ExpandToBits(value, width), k) == StoredBit(value, width, k) {
      StoredBitText(value, width, k);
    }
  }

  lemma StoredBitText(value: string, width: nat, k: nat)
    ensures IsBitText(value, width) ==> StoredBit(value, width, k) == if k < |value| then Small(Right(value, k)) else '0'
    ensures !IsBitText(value, width) ==>
              StoredBit(value, width, k) == if k / 4 < |value| then BitOf(Right(value, k / 4), k % 4) else '0'
  {
    hide IsBitText, Small, BitOf;
  }

  lemma NibbleTextExpansion(value: string, width: nat)
    requires 0 < width && !IsBitText(value, width) && Nibbles(value).Some?
    ensures IsExpansion(ExpandToBits(value, width), value, width)
  {
    BitTextGuard(value, width);
    NibblesMeaning(value);
    var bits := Nibbles(value).value;
    var all := PadTo(bits, width);
    PadBits(bits, width);
    assert ExpandToBits(value, width) == all[|all| - width..];
    hide *;
    SuffixExpansion(value, width, bits, all);
  }

  lemma SuffixExpansion(value: string, width: nat, bits: string, all: string)
    requires !IsBitText(value, width) && SpellsOut(bits, value) && |all| == Max(|bits|, width)
    requires forall k :: 0 <= k < |all| ==> Right(all, k) == if k < |bits| then Right(bits, k) else '0'
    ensures IsExpansion(all[|all| - width..], value, width)
  {
    var last := all[|all| - width..];
    assert |last| == width;
    hide BitOf, IsBitText;
    forall k | 0 <= k < width ensures Right(last, k) == StoredBit(value, width, k) {
      StoredBitText(value, width, k);
      assert Right(last, k) == Right(all, k);
    }
  }

  /** The expansion holds every bit of the value; only a text that is no number expands to nothing. */
  lemma ExpansionMeaning(value: string, width: nat)
    requires 0 < width
    ensures ExpandToBits(value, width) == [] <==> !IsBitText(value, width) && !IsNibbleText(value)
    ensures ExpandToBits(value, width) != [] ==> IsExpansion(ExpandToBits(value, width), value, width)
  {
    NibblesMeaning(value);
    if IsBitText(value, width) {
      BitTextExpansion(value, width);
    } else if Nibbles(value).Some? {
      NibbleTextExpansion(value, width);
    } else {
      BitTextGuard(value, width);
    }
    hide IsBitText, IsNibbleText, StoredBit;
  }

  lemma BitTextGuard(value: string, width: nat)
    ensures IsBitText(value, width)
       <==> ContainsXz(value) && |value| <= width && forall i :: 0 <= i < |value| ==> value[i] in "01xXzZ"
  {
    UnknownParts(value);
    forall i | 0 <= i < |value| ensures value[i] in "01xXzZ" <==> value[i] == '0' || value[i] == '1' || UnknownChar(value[i]) {
      SmallIsLower(value[i]);
    }
    hide ContainsXz, HasX, HasZ, UnknownChar;
  }

  // ---- The characters of a slice ----

  /** Bit `t` of the slice, counted from its least significant. */
  ghost function SlicedBit(value: string, width: nat, slice: BitSlice, t: nat): char {
    if slice.lsb + t <= slice.msb then StoredBit(value, width, slice.lsb + t) else '0'
  }

  /** A character stands for its four bits: X if one of them is unknown, else Z if one of them floats, else their
      hexadecimal digit in upper case. */
  ghost predicate StandsFor(c: char, b3: char, b2: char, b1: char, b0: char) {
    if b3 == 'x' || b2 == 'x' || b1 == 'x' || b0 == 'x' then c == 'X'
    else if b3 == 'z' || b2 == 'z' || b1 == 'z' || b0 == 'z' then c == 'Z'
    else
      && ('0' <= c <= '9' || 'A' <= c <= 'F')
      && BitOf(c, 3) == b3 && BitOf(c, 2) == b2 && BitOf(c, 1) == b1 && BitOf(c, 0) == b0
  }

  ghost predicate IsBit(c: char) {
    c == '0' || c == '1' || c == 'x' || c == 'z'
  }

  lemma FourValue(bits: string)
    requires |bits| == 4 && IsNumeral(bits, Bin)
    ensures Value(bits, Bin)
         == 8 * HexDigit(bits[0]).value + 4 * HexDigit(bits[1]).value + 2 * HexDigit(bits[2]).value + HexDigit(bits[3]).value
  {
    NoBits(bits);
    var start := |bits| - 4;
    FourPrefix(bits, start);
    hide *;
    assert bits[..start + 4] == bits && bits[..start] == [];
  }

  lemma KnownBits(bits: string)
    requires |bits| == 4 && 'x' !in bits && 'z' !in bits && forall i :: 0 <= i < 4 ==> IsBit(bits[i])
    ensures IsNumeral(bits, Bin) && forall i :: 0 <= i < 4 ==> bits[i] == if HexDigit(bits[i]).value == 1 then '1' else '0'
  {
    assert forall i :: 0 <= i < 4 ==> bits[i] in bits;
  }

  lemma PackNibbleMeaning(bits: string)
    requires |bits| == 4 && forall i :: 0 <= i < 4 ==> IsBit(bits[i])
    ensures StandsFor(PackNibble(bits), bits[0], bits[1], bits[2], bits[3])
  {
    if 'x' !in bits && 'z' !in bits {
      KnownBits(bits);
      hide Value, DigitChar, BitOf, IsBit;
      FourValue(bits);
      var d3, d2, d1, d0 := HexDigit(bits[0]).value, HexDigit(bits[1]).value, HexDigit(bits[2]).value, HexDigit(bits[3]).value;
      hide HexDigit;
      DigitBits(Value(bits, Bin), d3, d2, d1, d0);
      hide IsNumeral;
    }
  }

  lemma DigitBits(v: nat, d3: nat, d2: nat, d1: nat, d0: nat)
    requires d3 < 2 && d2 < 2 && d1 < 2 && d0 < 2 && v == 8 * d3 + 4 * d2 + 2 * d1 + d0
    ensures var c := DigitChar(v);
            && ('0' <= c <= '9' || 'A' <= c <= 'F')
            && (BitOf(c, 3) == '1' <==> d3 == 1) && (BitOf(c, 2) == '1' <==> d2 == 1)
            && (BitOf(c, 1) == '1' <==> d1 == 1) && (BitOf(c, 0) == '1' <==> d0 == 1)
            && (forall b :: BitOf(c, b) == '0' || BitOf(c, b) == '1')
  {
    assert CharNumber(DigitChar(v)) == v && !UnknownChar(DigitChar(v));
  }

  lemma {:induction false} PackNibblesMeaning(bits: string)
    requires |bits| % 4 == 0 && forall i :: 0 <= i < |bits| ==> IsBit(bits[i])
    ensures |PackNibbles(bits)| == |bits| / 4
    ensures forall i :: 0 <= i < |bits| / 4 ==>
              StandsFor(PackNibbles(bits)[i], bits[4 * i], bits[4 * i + 1], bits[4 * i + 2], bits[4 * i + 3])
  {
    hide StandsFor, PackNibble, IsBit;
    if |bits| >= 4 {
      PackNibblesMeaning(bits[..|bits| - 4]);
      PackNibbleMeaning(bits[|bits| - 4..]);
      assert PackNibbles(bits) == PackNibbles(bits[..|bits| - 4]) + [PackNibble(bits[|bits| - 4..])];
      hide PackNibbles;
      PackedSnoc(bits, PackNibbles(bits[..|bits| - 4]), PackNibble(bits[|bits| - 4..]));
    }
  }

  lemma PackedSnoc(bits: string, init: string, last: char)
    requires |bits| % 4 == 0 && |bits| >= 4 && |init| == |bits| / 4 - 1
    requires forall i :: 0 <= i < |init| ==>
               var rest := bits[..|bits| - 4]; StandsFor(init[i], rest[4 * i], rest[4 * i + 1], rest[4 * i + 2], rest[4 * i + 3])
    requires StandsFor(last, bits[|bits| - 4], bits[|bits| - 3], bits[|bits| - 2], bits[|bits| - 1])
    ensures forall i :: 0 <= i < |bits| / 4 ==>
              StandsFor((init + [last])[i], bits[4 * i], bits[4 * i + 1], bits[4 * i + 2], bits[4 * i + 3])
  {
    hide StandsFor;
    forall i | 0 <= i < |bits| / 4
      ensures StandsFor((init + [last])[i], bits[4 * i], bits[4 * i + 1], bits[4 * i + 2], bits[4 * i + 3])
    {
      if i < |init| {
        assert (init + [last])[i] == init[i];
      } else {
        assert (init + [last])[i] == last && 4 * i == |bits| - 4;
      }
    }
  }

  /** The slice has one character per four bits, each standing for its bits. */
  ghost predicate ShowsSlice(r: string, value: string, width: nat, slice: BitSlice)
    requires slice.lsb <= slice.msb
  {
    && |r| == (slice.msb - slice.lsb) / 4 + 1
    && forall j :: 0 <= j < |r| ==>
         StandsFor(Right(r, j),
                   SlicedBit(value, width, slice, 4 * j + 3), SlicedBit(value, width, slice, 4 * j + 2),
                   SlicedBit(value, width, slice, 4 * j + 1), SlicedBit(value, width, slice, 4 * j))
  }

  lemma StoredBitIsBit(value: string, width: nat, k: nat)
    requires IsBitText(value, width) || IsNibbleText(value)
    ensures IsBit(StoredBit(value, width, k))
  {}

  /** The bits of a slice, padded in front to whole characters. */
  lemma PaddedSlice(value: string, width: nat, slice: BitSlice, bits: string, padded: string)
    requires slice.lsb <= slice.msb < width && IsExpansion(bits, value, width)
    requires var part := bits[width - 1 - slice.msb..width - slice.lsb]; padded == ZeroBits((4 - |part| % 4) % 4) + part
    ensures |padded| == 4 * ((slice.msb - slice.lsb) / 4 + 1)
    ensures forall t :: 0 <= t < |padded| ==> Right(padded, t) == SlicedBit(value, width, slice, t)
  {
    hide StoredBit;
    var part := bits[width - 1 - slice.msb..width - slice.lsb];
    assert |padded| == (4 - |part| % 4) % 4 + |part|;
    forall t | 0 <= t < |padded| ensures Right(padded, t) == SlicedBit(value, width, slice, t) {
      if t < |part| { assert Right(padded, t) == part[|part| - 1 - t] == Right(bits, slice.lsb + t); }
    }
  }

  /** The text of a slice: "0" for one that does not lie in the signal, the whole text when it is no number, and
      otherwise one character for every four bits of the slice. */
  lemma HexSliceShows(value: string, width: nat, slice: BitSlice)
    ensures slice.msb < slice.lsb || width <= slice.msb ==> HexSlice(value, width, slice) == "0"
    ensures slice.lsb <= slice.msb < width && !IsBitText(value, width) && !IsNibbleText(value) ==> HexSlice(value, width, slice) == value
    ensures slice.lsb <= slice.msb < width && (IsBitText(value, width) || IsNibbleText(value)) ==>
              ShowsSlice(HexSlice(value, width, slice), value, width, slice)
  {
    if slice.lsb <= slice.msb < width {
      ExpansionMeaning(value, width);
      hide ExpandToBits, IsBitText, IsNibbleText, PackBitsToHex, ShowsSlice;
      if IsBitText(value, width) || IsNibbleText(value) {
        SliceUnfold(value, width, slice);
        SliceOfBits(value, width, slice, ExpandToBits(value, width));
      }
    }
  }

  lemma SlicedIsBit(value: string, width: nat, slice: BitSlice, t: nat)
    requires IsBitText(value, width) || IsNibbleText(value)
    ensures IsBit(SlicedBit(value, width, slice, t))
  {
    StoredBitIsBit(value, width, slice.lsb + t);
    hide StoredBit, IsBitText, IsNibbleText;
  }

  lemma SliceOfBits(value: string, width: nat, slice: BitSlice, bits: string)
    requires slice.lsb <= slice.msb < width && (IsBitText(value, width) || IsNibbleText(value))
    requires IsExpansion(bits, value, width)
    ensures ShowsSlice(PackBitsToHex(bits[width - 1 - slice.msb..width - slice.lsb]), value, width, slice)
  {
    assert |bits| == width;
    var part := bits[width - 1 - slice.msb..width - slice.lsb];
    var padded := ZeroBits((4 - |part| % 4) % 4) + part;
    hide *;
    PadLength(part);
    PaddedSlice(value, width, slice, bits, padded);
    forall i | 0 <= i < |padded| ensures IsBit(padded[i]) {
      SlicedIsBit(value, width, slice, |padded| - 1 - i);
      RightIs(padded, |padded| - 1 - i);
    }
    PackNibblesMeaning(padded);
    PackedShows(PackNibbles(padded), padded, value, width, slice);
  }

  lemma RightIs(s: string, k: nat)
    requires k < |s|
    ensures Right(s, k) == s[|s| - 1 - k]
  {}

  lemma PackedShows(r: string, padded: string, value: string, width: nat, slice: BitSlice)
    requires slice.lsb <= slice.msb && |padded| == 4 * |r| == 4 * ((slice.msb - slice.lsb) / 4 + 1)
    requires forall i :: 0 <= i < |r| ==> StandsFor(r[i], padded[4 * i], padded[4 * i + 1], padded[4 * i + 2], padded[4 * i + 3])
    requires forall t :: 0 <= t < |padded| ==> Right(padded, t) == SlicedBit(value, width, slice, t)
    ensures ShowsSlice(r, value, width, slice)
  {
    hide StandsFor, SlicedBit;
    forall j | 0 <= j < |r|
      ensures StandsFor(Right(r, j),
                        SlicedBit(value, width, slice, 4 * j + 3), SlicedBit(value, width, slice, 4 * j + 2),
                        SlicedBit(value, width, slice, 4 * j + 1), SlicedBit(value, width, slice, 4 * j))
    {
      var i := |r| - 1 - j;
      assert padded[4 * i] == Right(padded, 4 * j + 3) && padded[4 * i + 1] == Right(padded, 4 * j + 2)
          && padded[4 * i + 2] == Right(padded, 4 * j + 1) && padded[4 * i + 3] == Right(padded, 4 * j);
    }
  }
}
