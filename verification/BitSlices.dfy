/** Slicing stored values: as 128-bit numbers, and as texts that may contain unknown bits
    (crates/bwave/src/format.rs). */
module BitSlices {
  import opened Basics
  import opened Arithmetic
  import opened Radix
  import opened Matching

  datatype BitSlice = BitSlice(msb: nat, lsb: nat)

  function Pow2(n: nat): (p: nat)
    ensures p > 0
  {
    if n == 0 then 1 else 2 * Pow2(n - 1)
  }

  // ---- Numbers ----

  /** A stored value as a 128-bit number, if it is one. */
  function HexToU128(hex: string): Option<nat> {
    var digits := TrimZeros(hex);
    if digits == [] then Some(0)
    else if |digits| > 32 || ContainsXz(digits) then None
    else
      var unsigned := if digits[0] == '+' then digits[1..] else digits;
      if unsigned != [] && IsNumeral(unsigned, Hex) then Some(Value(unsigned, Hex)) else None
  }

  /** Bits `msb` down to `lsb`, except that a slice of 128 bits or more is the value itself and
      that the 128-bit shift takes its distance modulo 128. */
  function SliceBits(value: nat, slice: BitSlice): nat {
    if slice.msb < slice.lsb then 0
    else
      var width := slice.msb - slice.lsb + 1;
      if width >= 128 then value else (value / Pow2(slice.lsb % 128)) % Pow2(width)
  }

  function NumericValue(hex: string, slice: Option<BitSlice>): Option<nat> {
    var full := HexToU128(hex);
    if full.None? || slice.None? then full else Some(SliceBits(full.value, slice.value))
  }

  // ---- Texts ----

  function LowerXz(c: char): char {
    if c == 'X' then 'x' else if c == 'Z' then 'z' else c
  }

  function ZeroBits(n: nat): string {
    seq(n, i => '0')
  }

  /** The four bits a character stands for. */
  function Nibble(c: char): Option<string> {
    if c in "xX" then Some("xxxx")
    else if c in "zZ" then Some("zzzz")
    else match HexDigit(c) case None => None case Some(d) => Some(FourBits(d))
  }

  function Nibbles(value: string): Option<string> {
    if value == [] then Some([])
    else
      var init, last := Nibbles(value[..|value| - 1]), Nibble(value[|value| - 1]);
      if init.Some? && last.Some? then Some(init.value + last.value) else None
  }

  function PadTo(bits: string, width: nat): string {
    if |bits| <= width then ZeroBits(width - |bits|) + bits else bits
  }

  /** One character per bit; nothing when the text is no number. */
  function ExpandToBits(value: string, width: nat): string {
    if width == 0 then []
    else if ContainsXz(value) && |value| <= width && forall i :: 0 <= i < |value| ==> value[i] in "01xXzZ" then
      PadTo(seq(|value|, i requires 0 <= i < |value| => LowerXz(value[i])), width)
    else
      match Nibbles(value)
      case None => []
      case Some(bits) => var all := PadTo(bits, width); all[|all| - width..]
  }

  function PackNibble(bits: string): char {
    if 'x' in bits then 'X' else if 'z' in bits then 'Z'
    else if IsNumeral(bits, Bin) && Value(bits, Bin) < 16 then DigitChar(Value(bits, Bin)) else '0'
  }

  function PackNibbles(bits: string): string {
    if |bits| < 4 then [] else PackNibbles(bits[..|bits| - 4]) + [PackNibble(bits[|bits| - 4..])]
  }

  function PackBitsToHex(bits: string): string {
    if bits == [] then "0" else PackNibbles(ZeroBits((4 - |bits| % 4) % 4) + bits)
  }

  /** Bits `msb` down to `lsb` of a stored value, unknown bits inside the slice kept. */
  function HexSlice(value: string, width: nat, slice: BitSlice): string {
    if slice.msb < slice.lsb || slice.msb >= width then "0"
    else
      var bits := ExpandToBits(value, width);
      if |bits| != width then value
      else PackBitsToHex(bits[width - 1 - slice.msb..width - slice.lsb])
  }

  // ---- Both slices of a number are the same number ----

  lemma BinSnoc(a: string, c: char, d: nat)
    requires IsNumeral(a, Bin) && HexDigit(c) == Some(d) && d < 2
    ensures IsNumeral(a + [c], Bin) && Value(a + [c], Bin) == 2 * Value(a, Bin) + d
  {
    assert (a + [c])[..|a|] == a;
  }

  lemma BinLast(b: string) returns (init: string, c: char, d: nat)
    requires IsNumeral(b, Bin) && b != []
    ensures b == init + [c] && IsNumeral(init, Bin) && HexDigit(c) == Some(d) && d < 2
    ensures Value(b, Bin) == 2 * Value(init, Bin) + d && Pow2(|b|) == 2 * Pow2(|init|)
  {
    init, c, d := b[..|b| - 1], b[|b| - 1], HexDigit(b[|b| - 1]).value;
  }

  lemma NoBits(a: string)
    ensures a + [] == a && Value([], Bin) == 0 && Pow2(0) == 1
  {}

  lemma Regroup(a: string, init: string, c: char)
    ensures a + (init + [c]) == (a + init) + [c]
  {}

  lemma DoubleProduct(x: nat, p: nat, v: nat, d: nat)
    ensures x * (2 * p) + (2 * v + d) == 2 * (x * p + v) + d
  {}

  lemma {:induction false} BinConcat(a: string, b: string)
    requires IsNumeral(a, Bin) && IsNumeral(b, Bin)
    ensures IsNumeral(a + b, Bin) && Value(b, Bin) < Pow2(|b|)
    ensures Value(a + b, Bin) == Value(a, Bin) * Pow2(|b|) + Value(b, Bin)
    decreases |b|
  {
    hide *;
    if b == [] {
      NoBits(a);
    } else {
      var init, c, d := BinLast(b);
      BinConcat(a, init);
      BinSnoc(a + init, c, d);
      Regroup(a, init, c);
      DoubleProduct(Value(a, Bin), Pow2(|init|), Value(init, Bin), d);
    }
  }

  lemma {:induction false} ZeroValue(n: nat)
    ensures IsNumeral(ZeroBits(n), Bin) && Value(ZeroBits(n), Bin) == 0
  {
    if n > 0 {
      ZeroValue(n - 1);
      assert ZeroBits(n)[..n - 1] == ZeroBits(n - 1);
    }
  }

  lemma PadValue(bits: string, width: nat)
    requires IsNumeral(bits, Bin)
    ensures IsNumeral(PadTo(bits, width), Bin) && Value(PadTo(bits, width), Bin) == Value(bits, Bin)
    ensures |PadTo(bits, width)| >= width
  {
    if |bits| <= width {
      ZeroValue(width - |bits|);
      BinConcat(ZeroBits(width - |bits|), bits);
    }
  }

  lemma NibbleBits(d: nat)
    requires d < 16
    ensures IsNumeral(FourBits(d), Bin) && Value(FourBits(d), Bin) == d && Pow2(4) == 16
  {
    var s := FourBits(d);
    SplitNibble(d);
    assert s[..0] == [] && s[..4] == s && Value([], Bin) == 0;
    assert forall i :: 0 <= i < 4 ==> HexDigit(s[i]).Some? && HexDigit(s[i]).value < 2;
    FourPrefix(s, 0);
    assert Pow2(4) == 2 * Pow2(3) && Pow2(3) == 2 * Pow2(2) && Pow2(2) == 2 * Pow2(1) && Pow2(1) == 2 * Pow2(0);
  }

  lemma {:induction false} NibblesValue(value: string)
    requires IsNumeral(value, Hex)
    ensures Nibbles(value).Some? && IsNumeral(Nibbles(value).value, Bin)
    ensures Value(Nibbles(value).value, Bin) == Value(value, Hex)
  {
    if value != [] {
      var init, last := value[..|value| - 1], value[|value| - 1];
      NibblesValue(init);
      NibbleBits(HexDigit(last).value);
      BinConcat(Nibbles(init).value, FourBits(HexDigit(last).value));
      hide FourBits, IsNumeral;
    }
  }

  lemma BinaryHasNoXz(bits: string)
    requires IsNumeral(bits, Bin)
    ensures 'x' !in bits && 'z' !in bits
  {
    assert forall i :: 0 <= i < |bits| ==> HexDigit(bits[i]).Some?;
  }

  lemma PackNibbleValue(bits: string)
    requires IsNumeral(bits, Bin) && |bits| == 4
    ensures HexDigit(PackNibble(bits)) == Some(Value(bits, Bin)) && Value(bits, Bin) < 16 && Pow2(4) == 16
  {
    NoBits(bits);
    BinConcat([], bits);
    NibbleBits(0);
    BinaryHasNoXz(bits);
    DigitRoundTrip('0', Value(bits, Bin));
  }

  lemma HexSnoc(a: string, c: char, d: nat)
    requires IsNumeral(a, Hex) && HexDigit(c) == Some(d) && d < 16
    ensures IsNumeral(a + [c], Hex) && Value(a + [c], Hex) == 16 * Value(a, Hex) + d
  {
    assert (a + [c])[..|a|] == a;
  }

  lemma {:induction false} PackNibblesValue(bits: string)
    requires IsNumeral(bits, Bin) && |bits| % 4 == 0
    ensures IsNumeral(PackNibbles(bits), Hex) && Value(PackNibbles(bits), Hex) == Value(bits, Bin)
  {
    if |bits| >= 4 {
      hide IsNumeral, Value, PackNibble, HexDigit;
      var init, last := bits[..|bits| - 4], bits[|bits| - 4..];
      PartNumeral(bits, |bits| - 4, |bits|);
      PackNibblesValue(init);
      assert init + last == bits;
      BinConcat(init, last);
      PackNibbleValue(last);
      HexSnoc(PackNibbles(init), PackNibble(last), Value(last, Bin));
    }
  }

  lemma SliceParts(high: nat, mid: nat, low: nat, p: nat, q: nat)
    requires 0 < p && 0 < q && mid < p && low < q
    ensures (((high * p + mid) * q + low) / q) % p == mid
  {
    var x := high * p + mid;
    DivBounds(x, p);
    assert (x + 1) * q == x * q + q;
    DivUnique(x * q + low, q, x);
    assert (high + 1) * p == high * p + p;
    DivUnique(x, p, high);
  }

  lemma PartNumeral(bits: string, from: nat, to: nat)
    requires IsNumeral(bits, Bin) && from <= to <= |bits|
    ensures IsNumeral(bits[..from], Bin) && IsNumeral(bits[from..to], Bin) && IsNumeral(bits[to..], Bin)
    ensures bits == (bits[..from] + bits[from..to]) + bits[to..]
  {}

  /** A part of a bit string is the corresponding quotient and remainder of its value. */
  lemma PartValue(bits: string, from: nat, to: nat)
    requires IsNumeral(bits, Bin) && from <= to <= |bits|
    ensures IsNumeral(bits[from..to], Bin)
    ensures Value(bits[from..to], Bin) == (Value(bits, Bin) / Pow2(|bits| - to)) % Pow2(to - from)
  {
    hide *;
    PartNumeral(bits, from, to);
    var a, b, c := bits[..from], bits[from..to], bits[to..];
    BinConcat(a, b);
    BinConcat(a + b, c);
    SliceParts(Value(a, Bin), Value(b, Bin), Value(c, Bin), Pow2(|b|), Pow2(|c|));
  }

  lemma PadLength(bits: string)
    requires bits != []
    ensures PackBitsToHex(bits) == PackNibbles(ZeroBits((4 - |bits| % 4) % 4) + bits)
    ensures |ZeroBits((4 - |bits| % 4) % 4) + bits| % 4 == 0
  {
    hide PackNibbles;
    assert |ZeroBits((4 - |bits| % 4) % 4)| == (4 - |bits| % 4) % 4;
  }

  lemma PackValue(bits: string)
    requires IsNumeral(bits, Bin) && bits != []
    ensures IsNumeral(PackBitsToHex(bits), Hex) && Value(PackBitsToHex(bits), Hex) == Value(bits, Bin)
  {
    hide *;
    PadLength(bits);
    var n := (4 - |bits| % 4) % 4;
    ZeroValue(n);
    BinConcat(ZeroBits(n), bits);
    PackNibblesValue(ZeroBits(n) + bits);
    assert 0 * Pow2(|bits|) == 0;
  }

  lemma NumberSlice(value: string, width: nat, slice: BitSlice)
    requires IsNumeral(value, Hex) && slice.lsb <= slice.msb < width
    requires Nibbles(value).Some?
    ensures var all := PadTo(Nibbles(value).value, width);
            && |all| >= width
            && HexSlice(value, width, slice) == PackBitsToHex(all[|all| - 1 - slice.msb..|all| - slice.lsb])
  {
    hide *;
    var all := PadTo(Nibbles(value).value, width);
    PadAtLeast(Nibbles(value).value, width);
    ExpandNumber(value, width);
    SliceOfSuffix(all, width, width - 1 - slice.msb, width - slice.lsb);
    SliceUnfold(value, width, slice);
  }

  lemma PadAtLeast(bits: string, width: nat)
    ensures |PadTo(bits, width)| >= width
  {}

  lemma ExpandNumber(value: string, width: nat)
    requires IsNumeral(value, Hex) && Nibbles(value).Some? && 0 < width <= |PadTo(Nibbles(value).value, width)|
    ensures var all := PadTo(Nibbles(value).value, width); ExpandToBits(value, width) == all[|all| - width..]
  {
    NumeralHasNoXz(value);
    hide Nibbles, PadTo, IsNumeral;
  }

  lemma SliceOfSuffix(all: string, width: nat, from: nat, to: nat)
    requires from <= to <= width <= |all|
    ensures all[|all| - width..][from..to] == all[|all| - width + from..|all| - width + to]
  {}

  lemma SliceUnfold(value: string, width: nat, slice: BitSlice)
    requires slice.lsb <= slice.msb < width && |ExpandToBits(value, width)| == width
    ensures HexSlice(value, width, slice) == PackBitsToHex(ExpandToBits(value, width)[width - 1 - slice.msb..width - slice.lsb])
  {
    hide ExpandToBits, PackBitsToHex;
  }

  /** Slicing the text of a number gives the number's bits `msb` to `lsb`, at any width. */
  lemma HexSliceIsSlice(value: string, width: nat, slice: BitSlice)
    requires IsNumeral(value, Hex) && slice.lsb <= slice.msb < width
    ensures IsNumeral(HexSlice(value, width, slice), Hex)
    ensures Value(HexSlice(value, width, slice), Hex)
         == (Value(value, Hex) / Pow2(slice.lsb)) % Pow2(slice.msb - slice.lsb + 1)
  {
    hide *;
    NibblesValue(value);
    NumberSlice(value, width, slice);
    var all := PadTo(Nibbles(value).value, width);
    PadValue(Nibbles(value).value, width);
    PartValue(all, |all| - 1 - slice.msb, |all| - slice.lsb);
    PackValue(all[|all| - 1 - slice.msb..|all| - slice.lsb]);
  }

  lemma PackNibbleUnknown(bits: string)
    ensures PackNibble(bits) == 'X' <==> 'x' in bits
    ensures PackNibble(bits) == 'Z' <==> 'x' !in bits && 'z' in bits
  {}

  lemma {:induction false} PackUnknown(bits: string)
    requires |bits| % 4 == 0
    ensures 'X' in PackNibbles(bits) <==> 'x' in bits
    ensures 'x' !in bits ==> ('Z' in PackNibbles(bits) <==> 'z' in bits)
  {
    if |bits| >= 4 {
      var init, last := bits[..|bits| - 4], bits[|bits| - 4..];
      PackUnknown(init);
      PackNibbleUnknown(last);
      assert init + last == bits;
      hide PackNibble;
    }
  }

  /** Whatever the text, its slice shows an unknown bit exactly if one lies inside `msb` to `lsb`;
      otherwise it is the numeral of those bits. */
  lemma UnknownBitsShow(value: string, width: nat, slice: BitSlice)
    requires slice.lsb <= slice.msb < width && |ExpandToBits(value, width)| == width
    ensures var part, r := ExpandToBits(value, width)[width - 1 - slice.msb..width - slice.lsb], HexSlice(value, width, slice);
            && ('X' in r <==> 'x' in part) && ('x' !in part ==> ('Z' in r <==> 'z' in part))
            && (IsNumeral(part, Bin) ==> IsNumeral(r, Hex) && Value(r, Hex) == Value(part, Bin))
  {
    var part := ExpandToBits(value, width)[width - 1 - slice.msb..width - slice.lsb];
    var zeros := ZeroBits((4 - |part| % 4) % 4);
    assert 'x' !in zeros && 'z' !in zeros;
    hide *;
    SliceUnfold(value, width, slice);
    PadLength(part);
    PackUnknown(zeros + part);
    if IsNumeral(part, Bin) { PackValue(part); }
  }

  /** Equality tests, which compare sliced texts, and order tests, which compare sliced
      128-bit numbers, see the same number of a stored value. */
  ghost predicate SlicesAgree(value: string, width: nat, slice: BitSlice) {
    IsNumeral(value, Hex) && HexToU128(value).Some? ==>
      && IsNumeral(HexSlice(value, width, slice), Hex)
      && NumericValue(value, Some(slice)) == Some(Value(HexSlice(value, width, slice), Hex))
  }

  lemma {:induction false} Pow2Grows(a: nat, b: nat)
    requires a <= b
    ensures Pow2(a) <= Pow2(b) && (a < b ==> Pow2(a) < Pow2(b)) && a < Pow2(a)
  {
    if a < b { Pow2Grows(a, b - 1); }
    if a > 0 { Pow2Grows(a - 1, a - 1); }
  }

  lemma {:induction false} NumeralBound(s: string)
    requires IsNumeral(s, Hex)
    ensures Value(s, Hex) < Pow2(4 * |s|)
  {
    if s != [] {
      NumeralBound(s[..|s| - 1]);
      var n := 4 * |s|;
      assert Pow2(n) == 2 * Pow2(n - 1) && Pow2(n - 1) == 2 * Pow2(n - 2) && Pow2(n - 2) == 2 * Pow2(n - 3)
          && Pow2(n - 3) == 2 * Pow2(n - 4);
    }
  }

  /** A stored number and both ways to slice it. */
  lemma BothSlices(value: string, width: nat, slice: BitSlice)
    requires IsNumeral(value, Hex) && HexToU128(value).Some? && slice.lsb <= slice.msb < width
    ensures IsNumeral(HexSlice(value, width, slice), Hex)
    ensures NumericValue(value, Some(slice)) == Some(SliceBits(Value(value, Hex), slice))
    ensures Value(HexSlice(value, width, slice), Hex)
         == (Value(value, Hex) / Pow2(slice.lsb)) % Pow2(slice.msb - slice.lsb + 1)
    ensures Value(value, Hex) < Pow2(128)
  {
    HexSliceIsSlice(value, width, slice);
    TrimNumeral(value, Hex);
    NoPlus(TrimZeros(value));
    NumeralBound(TrimZeros(value));
    Pow2Grows(4 * |TrimZeros(value)|, 128);
    hide HexSlice, SliceBits, Pow2, Value;
  }

  lemma SliceCases(value: nat, slice: BitSlice)
    requires slice.lsb <= slice.msb
    ensures slice.msb - slice.lsb >= 127 ==> SliceBits(value, slice) == value
    ensures slice.msb - slice.lsb < 127 ==>
              SliceBits(value, slice) == (value / Pow2(slice.lsb % 128)) % Pow2(slice.msb - slice.lsb + 1)
    ensures slice.lsb < 128 ==> slice.lsb % 128 == slice.lsb
  {}

  lemma Whole(v: nat, p: nat)
    requires v < p
    ensures (v / 1) % p == v
  {
    DivUnique(v, p, 0);
    DivBounds(v, p);
  }

  lemma Shifted(q: nat, p: nat)
    requires 0 < q && 1 < p
    ensures (q / q) % p == 1
  {
    DivUnique(q, q, 1);
    Whole(1, p);
  }

  lemma Missed(v: nat, q: nat, p: nat)
    requires v < q && 0 < p
    ensures (v / q) % p == 0
  {
    DivUnique(v, q, 0);
    Whole(0, p);
  }

  lemma SameNumber(value: string, width: nat, slice: BitSlice)
    requires slice.lsb <= slice.msb < width && (slice.lsb == 0 || (slice.lsb < 128 && slice.msb - slice.lsb < 127))
    requires IsNumeral(value, Hex) && HexToU128(value).Some?
    ensures IsNumeral(HexSlice(value, width, slice), Hex)
    ensures NumericValue(value, Some(slice)) == Some(Value(HexSlice(value, width, slice), Hex))
  {
    hide *;
    BothSlices(value, width, slice);
    var v, bits := Value(value, Hex), slice.msb - slice.lsb + 1;
    SliceCases(v, slice);
    if slice.msb - slice.lsb >= 127 {
      Pow2Grows(128, bits);
      OnePower();
      Whole(v, Pow2(bits));
    }
  }

  lemma AgreeWithin(value: string, width: nat, slice: BitSlice)
    requires slice.lsb <= slice.msb < width && (slice.lsb == 0 || (slice.lsb < 128 && slice.msb - slice.lsb < 127))
    ensures SlicesAgree(value, width, slice)
  {
    hide IsNumeral, HexToU128, HexSlice, NumericValue, Value;
    if IsNumeral(value, Hex) && HexToU128(value).Some? {
      SameNumber(value, width, slice);
    }
  }

  lemma AgreeFold(value: string, width: nat, slice: BitSlice)
    ensures SlicesAgree(value, width, slice) && IsNumeral(value, Hex) && HexToU128(value).Some?
            ==> IsNumeral(HexSlice(value, width, slice), Hex)
                && NumericValue(value, Some(slice)) == Some(Value(HexSlice(value, width, slice), Hex))
  {}

  lemma OnePower()
    ensures Pow2(0) == 1 && Pow2(2) == 4
  {
    assert Pow2(2) == 2 * Pow2(1);
  }

  // ---- Where the two slices differ ----

  /** The numeral of one bit. */
  function OneBit(k: nat): string {
    if k < 4 then [DigitChar(if k == 0 then 1 else if k == 1 then 2 else if k == 2 then 4 else 8)] else OneBit(k - 4) + "0"
  }

  lemma {:induction false} OneBitValue(k: nat)
    ensures IsNumeral(OneBit(k), Hex) && Value(OneBit(k), Hex) == Pow2(k)
    ensures |OneBit(k)| == 1 + k / 4 && OneBit(k)[0] in "1248"
  {
    if k < 4 {
      assert Pow2(3) == 2 * Pow2(2) && Pow2(2) == 2 * Pow2(1) && Pow2(1) == 2 * Pow2(0);
      assert OneBit(k)[..0] == [];
    } else {
      OneBitValue(k - 4);
      assert OneBit(k)[..|OneBit(k)| - 1] == OneBit(k - 4);
      assert Pow2(k) == 2 * Pow2(k - 1) && Pow2(k - 1) == 2 * Pow2(k - 2) && Pow2(k - 2) == 2 * Pow2(k - 3)
          && Pow2(k - 3) == 2 * Pow2(k - 4);
    }
  }

  lemma OneBitStored(k: nat)
    requires k < 128
    ensures HexToU128(OneBit(k)) == Some(Pow2(k))
  {
    OneBitValue(k);
    var s := OneBit(k);
    assert TrimZeros(s) == s;
    NumeralHasNoXz(s);
  }

  /** Bit `k` of a stored number, sliced as text from above it: nothing is left. */
  lemma TextMisses(k: nat, width: nat, slice: BitSlice)
    requires k < 128 && k < slice.lsb <= slice.msb < width
    ensures IsNumeral(OneBit(k), Hex) && HexToU128(OneBit(k)) == Some(Pow2(k))
    ensures IsNumeral(HexSlice(OneBit(k), width, slice), Hex) && Value(HexSlice(OneBit(k), width, slice), Hex) == 0
    ensures NumericValue(OneBit(k), Some(slice)) == Some(SliceBits(Pow2(k), slice))
  {
    hide *;
    OneBitValue(k);
    OneBitStored(k);
    BothSlices(OneBit(k), width, slice);
    Pow2Grows(k, slice.lsb);
    Missed(Pow2(k), Pow2(slice.lsb), Pow2(slice.msb - slice.lsb + 1));
  }

  /** A slice of 128 bits or more that does not start at bit 0: bit 0 stays in the number. */
  lemma WideSliceDiffers(width: nat, slice: BitSlice)
    requires 0 < slice.lsb <= slice.msb < width && slice.msb - slice.lsb >= 127
    ensures !SlicesAgree(OneBit(0), width, slice)
  {
    hide *;
    TextMisses(0, width, slice);
    SliceCases(Pow2(0), slice);
    AgreeFold(OneBit(0), width, slice);
  }

  /** Of a bit below 128 a slice from bit 128 or above shows the bit that the shift wraps to. */
  lemma WrappedBit(slice: BitSlice)
    requires slice.lsb <= slice.msb && slice.msb - slice.lsb < 127
    ensures SliceBits(Pow2(slice.lsb % 128), slice) == 1
  {
    hide *;
    SliceCases(Pow2(slice.lsb % 128), slice);
    OnePower();
    Pow2Grows(0, slice.msb - slice.lsb + 1);
    Shifted(Pow2(slice.lsb % 128), Pow2(slice.msb - slice.lsb + 1));
  }

  /** A slice from bit 128 or above: the shift wraps, so a bit below it shows up. */
  lemma HighSliceDiffers(width: nat, slice: BitSlice)
    requires 128 <= slice.lsb <= slice.msb < width && slice.msb - slice.lsb < 127
    ensures !SlicesAgree(OneBit(slice.lsb % 128), width, slice)
  {
    hide *;
    TextMisses(slice.lsb % 128, width, slice);
    WrappedBit(slice);
    AgreeFold(OneBit(slice.lsb % 128), width, slice);
  }

  /** The two agree on every stored number exactly if the slice starts at bit 0, or starts below
      bit 128 and has fewer than 128 bits. */
  lemma SlicesAgreeExactlyWhen(width: nat, slice: BitSlice)
    requires slice.lsb <= slice.msb < width
    ensures (forall value: string :: SlicesAgree(value, width, slice))
       <==> slice.lsb == 0 || (slice.lsb < 128 && slice.msb - slice.lsb < 127)
  {
    if slice.lsb == 0 || (slice.lsb < 128 && slice.msb - slice.lsb < 127) {
      forall value: string ensures SlicesAgree(value, width, slice) {
        AgreeWithin(value, width, slice);
      }
    } else if slice.msb - slice.lsb >= 127 {
      WideSliceDiffers(width, slice);
    } else {
      HighSliceDiffers(width, slice);
    }
  }

  /** "4" in a signal of 200 bits: order tests on bits 140 to 130 see 1, equality tests 0. */
  lemma HighSliceOfFour(value: string, width: nat, slice: BitSlice)
    requires value == "4" && width == 200 && slice == BitSlice(140, 130)
    ensures NumericValue(value, Some(slice)) == Some(1)
    ensures IsNumeral(HexSlice(value, width, slice), Hex) && Value(HexSlice(value, width, slice), Hex) == 0
  {
    FourIsOneBit(value, 2);
    hide *;
    TextMisses(2, width, slice);
    var k := slice.lsb % 128;
    assert k == 2;
    WrappedBit(slice);
  }

  /** "4" in a signal of 200 bits: order tests on bits 129 to 2 see 4, equality tests 1. */
  lemma WideSliceOfFour(value: string, width: nat, slice: BitSlice)
    requires value == "4" && width == 200 && slice == BitSlice(129, 2)
    ensures NumericValue(value, Some(slice)) == Some(4)
    ensures IsNumeral(HexSlice(value, width, slice), Hex) && Value(HexSlice(value, width, slice), Hex) == 1
  {
    FourIsOneBit(value, 2);
    hide *;
    OneBitValue(2);
    OneBitStored(2);
    BothSlices(value, width, slice);
    SliceCases(4, slice);
    OnePower();
    Pow2Grows(0, slice.msb - slice.lsb + 1);
    Shifted(4, Pow2(slice.msb - slice.lsb + 1));
  }

  lemma FourIsOneBit(value: string, k: nat)
    requires value == "4" && k == 2
    ensures OneBit(k) == value
  {}

  lemma NoPlus(digits: string)
    requires IsNumeral(digits, Hex)
    ensures digits != [] ==> digits[0] != '+'
  {}
}
