/** Packing binary value text eight bits to the byte, and unpacking it
    (crates/bwave/src/fst.rs). */
module Packing {
  import opened Basics
  import opened BitText

  // ---- Bits of a byte, most significant first ----

  function Bit(b: Byte, k: nat): bool
    requires k < 8
  {
    match k
    case 0 => b & 0x80 != 0
    case 1 => b & 0x40 != 0
    case 2 => b & 0x20 != 0
    case 3 => b & 0x10 != 0
    case 4 => b & 0x08 != 0
    case 5 => b & 0x04 != 0
    case 6 => b & 0x02 != 0
    case _ => b & 0x01 != 0
  }

  lemma SameBits(a: Byte, b: Byte)
    requires forall k :: 0 <= k < 8 ==> Bit(a, k) == Bit(b, k)
    ensures a == b
  {
    assert Bit(a, 0) == Bit(b, 0) && Bit(a, 1) == Bit(b, 1) && Bit(a, 2) == Bit(b, 2) && Bit(a, 3) == Bit(b, 3);
    assert Bit(a, 4) == Bit(b, 4) && Bit(a, 5) == Bit(b, 5) && Bit(a, 6) == Bit(b, 6) && Bit(a, 7) == Bit(b, 7);
  }

  lemma OrBits(x: Byte, y: Byte, k: nat)
    requires k < 8
    ensures Bit(x | y, k) == (Bit(x, k) || Bit(y, k))
  {}

  lemma ShiftedRight(p: Byte, s: nat, k: nat)
    requires s < 8 && k < 8
    ensures Bit(p >> s, k) == (s <= k && Bit(p, k - s))
  {
    if s == 0 {} else if s == 1 {} else if s == 2 {} else if s == 3 {}
    else if s == 4 {} else if s == 5 {} else if s == 6 {} else { assert s == 7; }
  }

  lemma ShiftedLeft(p: Byte, s: nat, k: nat)
    requires 0 < s < 8 && k < 8
    ensures Bit(p << (8 - s), k) == (k < s && Bit(p, k + 8 - s))
  {
    if s == 1 {} else if s == 2 {} else if s == 3 {}
    else if s == 4 {} else if s == 5 {} else if s == 6 {} else { assert s == 7; }
  }

  /** ORing a byte shifted right moves its bits `s` places towards the end. */
  lemma OrShiftRight(x: Byte, p: Byte, s: nat, k: nat)
    requires s < 8 && k < 8
    ensures Bit(x | (p >> s), k) == (Bit(x, k) || (s <= k && Bit(p, k - s)))
  {
    OrBits(x, p >> s, k);
    ShiftedRight(p, s, k);
    hide Bit;
  }

  lemma OrShiftLeft(x: Byte, p: Byte, s: nat, k: nat)
    requires 0 < s < 8 && k < 8
    ensures Bit(x | (p << (8 - s)), k) == (Bit(x, k) || (k < s && Bit(p, k + 8 - s)))
  {
    OrBits(x, p << (8 - s), k);
    ShiftedLeft(p, s, k);
    hide Bit;
  }

  lemma ExtractBit(b: Byte, k: nat)
    requires k < 8
    ensures (b >> (7 - k)) & 1 == if Bit(b, k) then 1 else 0
  {
    if k == 0 {} else if k == 1 {} else if k == 2 {} else if k == 3 {}
    else if k == 4 {} else if k == 5 {} else if k == 6 {} else { assert k == 7; }
  }

  // ---- The eight-byte multiply step ----

  predicate IsBinary(c: Byte) {
    c == ZERO || c == ONE
  }

  /** Little-endian load of eight characters. */
  function Load(c: seq<Byte>): bv64
    requires |c| == 8
  {
    (c[0] as bv64) | (c[1] as bv64 << 8) | (c[2] as bv64 << 16) | (c[3] as bv64 << 24)
    | (c[4] as bv64 << 32) | (c[5] as bv64 << 40) | (c[6] as bv64 << 48) | (c[7] as bv64 << 56)
  }

  /** One mask tests all eight characters. */
  lemma MaskTest(c: seq<Byte>)
    requires |c| == 8
    ensures Load(c) & 0xfefefefefefefefe == 0x3030303030303030 <==> forall i :: 0 <= i < 8 ==> IsBinary(c[i])
  {
    MaskTestBytes(c[0], c[1], c[2], c[3], c[4], c[5], c[6], c[7]);
  }

  lemma MaskTestBytes(c0: Byte, c1: Byte, c2: Byte, c3: Byte, c4: Byte, c5: Byte, c6: Byte, c7: Byte)
    ensures ((c0 as bv64) | (c1 as bv64 << 8) | (c2 as bv64 << 16) | (c3 as bv64 << 24)
             | (c4 as bv64 << 32) | (c5 as bv64 << 40) | (c6 as bv64 << 48) | (c7 as bv64 << 56))
            & 0xfefefefefefefefe == 0x3030303030303030
       <==> IsBinary(c0) && IsBinary(c1) && IsBinary(c2) && IsBinary(c3)
            && IsBinary(c4) && IsBinary(c5) && IsBinary(c6) && IsBinary(c7)
  {}

  function MultiplyPack(c: seq<Byte>): Byte
    requires |c| == 8
  {
    (((Load(c) & 0x0101010101010101) * 0x8040201008040201) >> 56) as Byte
  }

  /** One multiplication gathers the eight low bits, first character first. */
  lemma MultiplyGathers(c: seq<Byte>, k: nat)
    requires |c| == 8 && (forall i :: 0 <= i < 8 ==> IsBinary(c[i])) && k < 8
    ensures Bit(MultiplyPack(c), k) == (c[k] == ONE)
  {
    MultiplyBytes(c[0], c[1], c[2], c[3], c[4], c[5], c[6], c[7]);
  }

  lemma MultiplyBytes(c0: Byte, c1: Byte, c2: Byte, c3: Byte, c4: Byte, c5: Byte, c6: Byte, c7: Byte)
    requires IsBinary(c0) && IsBinary(c1) && IsBinary(c2) && IsBinary(c3)
    requires IsBinary(c4) && IsBinary(c5) && IsBinary(c6) && IsBinary(c7)
    ensures var w := (c0 as bv64) | (c1 as bv64 << 8) | (c2 as bv64 << 16) | (c3 as bv64 << 24)
                     | (c4 as bv64 << 32) | (c5 as bv64 << 40) | (c6 as bv64 << 48) | (c7 as bv64 << 56);
            var p := (((w & 0x0101010101010101) * 0x8040201008040201) >> 56) as Byte;
            && Bit(p, 0) == (c0 == ONE) && Bit(p, 1) == (c1 == ONE) && Bit(p, 2) == (c2 == ONE) && Bit(p, 3) == (c3 == ONE)
            && Bit(p, 4) == (c4 == ONE) && Bit(p, 5) == (c5 == ONE) && Bit(p, 6) == (c6 == ONE) && Bit(p, 7) == (c7 == ONE)
  {}

  // ---- Packed text ----

  predicate AllBinary(s: seq<Byte>) {
    forall i :: 0 <= i < |s| ==> IsBinary(s[i])
  }

  /** Bit `d` of a byte string, counted from its start. */
  predicate BitAt(bytes: seq<Byte>, d: nat)
    requires d < 8 * |bytes|
  {
    Bit(bytes[d / 8], d % 8)
  }

  /** `bytes` holds `values` most significant bit first, padded with zero bits. */
  ghost predicate Packs(bytes: seq<Byte>, values: seq<Byte>) {
    && |bytes| == (|values| + 7) / 8
    && forall d :: 0 <= d < 8 * |bytes| ==> BitAt(bytes, d) == (d < |values| && values[d] == ONE)
  }

  /** Only one byte string packs given values. */
  lemma PacksUnique(a: seq<Byte>, b: seq<Byte>, values: seq<Byte>)
    requires Packs(a, values) && Packs(b, values)
    ensures a == b
  {
    forall j | 0 <= j < |a| ensures a[j] == b[j] {
      forall k | 0 <= k < 8 ensures Bit(a[j], k) == Bit(b[j], k) {
        assert (8 * j + k) / 8 == j && (8 * j + k) % 8 == k;
        assert BitAt(a, 8 * j + k) == BitAt(b, 8 * j + k);
      }
      SameBits(a[j], b[j]);
    }
  }

  predicate OneAt(values: seq<Byte>, d: nat) {
    d < |values| && values[d] == ONE
  }

  function Gather(b0: bool, b1: bool, b2: bool, b3: bool, b4: bool, b5: bool, b6: bool, b7: bool): Byte {
    (if b0 then 0x80 else 0) | (if b1 then 0x40 else 0) | (if b2 then 0x20 else 0) | (if b3 then 0x10 else 0)
    | (if b4 then 0x08 else 0) | (if b5 then 0x04 else 0) | (if b6 then 0x02 else 0) | (if b7 then 0x01 else 0)
  }

  function ByteOf(values: seq<Byte>, j: nat): Byte {
    Gather(OneAt(values, 8 * j), OneAt(values, 8 * j + 1), OneAt(values, 8 * j + 2), OneAt(values, 8 * j + 3),
           OneAt(values, 8 * j + 4), OneAt(values, 8 * j + 5), OneAt(values, 8 * j + 6), OneAt(values, 8 * j + 7))
  }

  /** The byte string that packs the values. */
  function Pack(values: seq<Byte>): seq<Byte> {
    seq((|values| + 7) / 8, j requires j >= 0 => ByteOf(values, j))
  }

  lemma ByteOfBit(values: seq<Byte>, j: nat, k: nat)
    requires k < 8
    ensures Bit(ByteOf(values, j), k) == OneAt(values, 8 * j + k)
  {
    hide OneAt;
    if k == 0 {} else if k == 1 {} else if k == 2 {} else if k == 3 {}
    else if k == 4 {} else if k == 5 {} else if k == 6 {} else { assert k == 7; }
  }

  lemma PackPacks(values: seq<Byte>)
    ensures Packs(Pack(values), values)
  {
    hide Bit, ByteOf;
    forall d | 0 <= d < 8 * |Pack(values)| ensures BitAt(Pack(values), d) == OneAt(values, d) {
      ByteOfBit(values, d / 8, d % 8);
    }
  }

  function Unpack(bytes: seq<Byte>, n: nat): seq<Byte>
    requires n <= 8 * |bytes|
  {
    seq(n, d requires 0 <= d < n => if BitAt(bytes, d) then ONE else ZERO)
  }

  lemma UnpackPacked(bytes: seq<Byte>, values: seq<Byte>)
    requires AllBinary(values) && Packs(bytes, values)
    ensures Unpack(bytes, |values|) == values
  {}

  method UnpackBinaryBitsInto(bytes: seq<Byte>, out: array<Byte>)
    requires out.Length <= 8 * |bytes|
    modifies out
    ensures out[..] == Unpack(bytes, out.Length)
  {
    for index := 0 to out.Length
      invariant out[..index] == Unpack(bytes, out.Length)[..index]
    {
      var bit := (bytes[index / 8] >> (7 - index % 8)) & 1;
      ExtractBit(bytes[index / 8], index % 8);
      out[index] := ZERO + bit;
    }
  }

  // ---- Packing ----

  /** The characters that are kept: the last `width` of them. */
  function Kept(bits: seq<Byte>, width: nat): seq<Byte> {
    if |bits| > width then bits[|bits| - width..] else bits
  }

  /** The first `done` characters of `src` are in place, `offset` bits into the region. */
  ghost predicate PackedPart(region: seq<Byte>, src: seq<Byte>, offset: nat, done: nat)
    requires done <= |src|
  {
    forall d :: 0 <= d < 8 * |region| ==> BitAt(region, d) == (offset <= d < offset + done && src[d - offset] == ONE)
  }

  /** One packed group of up to eight characters. */
  ghost predicate PackedGroup(packed: Byte, group: seq<Byte>) {
    forall k :: 0 <= k < 8 ==> Bit(packed, k) == (k < |group| && group[k] == ONE)
  }

  /** The two ORs that place a packed group `shift` bits into byte number `byte`. */
  function Place(region: seq<Byte>, packed: Byte, byte: nat, shift: nat): seq<Byte>
    requires byte < |region| && shift < 8
  {
    var first := region[byte := region[byte] | (packed >> shift)];
    if shift != 0 && byte + 1 < |region| then first[byte + 1 := first[byte + 1] | (packed << (8 - shift))] else first
  }

  lemma PlacedByte(region: seq<Byte>, packed: Byte, byte: nat, shift: nat, j: nat)
    requires byte < |region| && shift < 8 && j < |region|
    ensures |Place(region, packed, byte, shift)| == |region|
    ensures j == byte ==> Place(region, packed, byte, shift)[j] == region[j] | (packed >> shift)
    ensures j == byte + 1 && shift > 0 ==> Place(region, packed, byte, shift)[j] == region[j] | (packed << (8 - shift))
    ensures j != byte && (j != byte + 1 || shift == 0) ==> Place(region, packed, byte, shift)[j] == region[j]
  {}

  lemma PlaceAt(region: seq<Byte>, packed: Byte, byte: nat, shift: nat, j: nat, k: nat)
    requires byte < |region| && shift < 8 && j < |region| && k < 8
    ensures |Place(region, packed, byte, shift)| == |region|
    ensures Bit(Place(region, packed, byte, shift)[j], k)
       <==> || Bit(region[j], k)
            || (j == byte && shift <= k && Bit(packed, k - shift))
            || (j == byte + 1 && k < shift && Bit(packed, k + 8 - shift))
  {
    hide Bit, Place;
    PlacedByte(region, packed, byte, shift, j);
    OrShiftRight(region[j], packed, shift, k);
    if shift > 0 { OrShiftLeft(region[j], packed, shift, k); }
  }

  /** The same, by bit position. */
  lemma PlaceBit(region: seq<Byte>, packed: Byte, position: nat, d: nat)
    requires position / 8 < |region| && d < 8 * |region|
    ensures |Place(region, packed, position / 8, position % 8)| == |region|
    ensures BitAt(Place(region, packed, position / 8, position % 8), d)
       <==> BitAt(region, d) || (position <= d < position + 8 && Bit(packed, d - position))
  {
    hide Bit, Place;
    PlaceAt(region, packed, position / 8, position % 8, d / 8, d % 8);
  }

  lemma PlaceGroup(region: seq<Byte>, src: seq<Byte>, offset: nat, done: nat, packed: Byte, n: nat)
    requires done + n <= |src| && n <= 8 && (offset + done) / 8 < |region|
    requires PackedPart(region, src, offset, done)
    requires PackedGroup(packed, src[done..done + n])
    ensures PackedPart(Place(region, packed, (offset + done) / 8, (offset + done) % 8), src, offset, done + n)
  {
    var placed := Place(region, packed, (offset + done) / 8, (offset + done) % 8);
    PlaceBit(region, packed, offset + done, 0);
    forall d | 0 <= d < 8 * |placed|
      ensures BitAt(placed, d) == (offset <= d < offset + (done + n) && src[d - offset] == ONE)
    {
      PlaceGroupBit(region, src, offset, done, packed, n, d);
    }
  }

  lemma PlaceGroupBit(region: seq<Byte>, src: seq<Byte>, offset: nat, done: nat, packed: Byte, n: nat, d: nat)
    requires done + n <= |src| && n <= 8 && (offset + done) / 8 < |region| && d < 8 * |region|
    requires BitAt(region, d) == (offset <= d < offset + done && src[d - offset] == ONE)
    requires PackedGroup(packed, src[done..done + n])
    ensures |Place(region, packed, (offset + done) / 8, (offset + done) % 8)| == |region|
    ensures BitAt(Place(region, packed, (offset + done) / 8, (offset + done) % 8), d)
         == (offset <= d < offset + (done + n) && src[d - offset] == ONE)
  {
    hide Bit, Place, BitAt, PackedGroup;
    PlaceBit(region, packed, offset + done, d);
    var e := d - (offset + done);
    if 0 <= e < 8 {
      GroupBit(packed, src, done, n, e);
      assert done + e == d - offset;
    }
  }

  lemma GroupBit(packed: Byte, src: seq<Byte>, done: nat, n: nat, e: nat)
    requires done + n <= |src| && n <= 8 && e < 8 && PackedGroup(packed, src[done..done + n])
    ensures Bit(packed, e) == (e < n && src[done + e] == ONE)
  {
    hide Bit;
    assert e < n ==> src[done..done + n][e] == src[done + e];
  }

  /** Bits of a partial group, most significant first, then padded with zero bits. */
  function ShiftIn(packed: Byte, value: Byte): Byte {
    (packed << 1) | (value - ZERO)
  }

  lemma ShiftInBits(packed: Byte, value: Byte, k: nat)
    requires IsBinary(value) && k < 8
    ensures Bit(ShiftIn(packed, value), k) == if k < 7 then Bit(packed, k + 1) else value == ONE
  {
    if k == 0 {} else if k == 1 {} else if k == 2 {} else if k == 3 {}
    else if k == 4 {} else if k == 5 {} else if k == 6 {} else { assert k == 7; }
  }

  lemma ShiftUpBits(packed: Byte, n: nat, k: nat)
    requires 0 < n < 8 && k < 8
    ensures Bit(packed << (8 - n), k) == (k < n && Bit(packed, k + 8 - n))
  {
    OrShiftLeft(0, packed, n, k);
  }

  /** The bit-by-bit loop for a group of fewer than eight characters. */
  method PackShort(group: seq<Byte>) returns (packed: Option<Byte>)
    requires 0 < |group| < 8
    ensures packed.Some? <==> AllBinary(group)
    ensures packed.Some? ==> PackedGroup(packed.value, group)
  {
    var bits: Byte := 0;
    for i := 0 to |group|
      invariant forall k :: 0 <= k < i ==> IsBinary(group[k])
      invariant forall k :: 0 <= k < 8 ==> Bit(bits, k) == (8 - i <= k && group[k - (8 - i)] == ONE)
    {
      if !IsBinary(group[i]) { return None; }
      forall k | 0 <= k < 8
        ensures Bit(ShiftIn(bits, group[i]), k) == (7 - i <= k && group[k - (7 - i)] == ONE)
      {
        ShiftInBits(bits, group[i], k);
      }
      hide Bit, ShiftIn;
      bits := ShiftIn(bits, group[i]);
    }
    packed := Some(bits << (8 - |group|));
    forall k | 0 <= k < 8 ensures Bit(packed.value, k) == (k < |group| && group[k] == ONE) {
      ShiftUpBits(bits, |group|, k);
    }
  }

  /** The multiply step for exactly eight characters. */
  method PackEight(group: seq<Byte>) returns (packed: Option<Byte>)
    requires |group| == 8
    ensures packed.Some? <==> AllBinary(group)
    ensures packed.Some? ==> PackedGroup(packed.value, group)
  {
    var word := Load(group);
    MaskTest(group);
    if word & 0xfefefefefefefefe != 0x3030303030303030 { return None; }
    packed := Some(MultiplyPack(group));
    forall k | 0 <= k < 8 ensures Bit(MultiplyPack(group), k) == (group[k] == ONE) {
      MultiplyGathers(group, k);
    }
  }

  function Zeros(n: nat): seq<Byte> {
    seq(n, i => 0)
  }

  lemma NothingPacked(n: nat, src: seq<Byte>, offset: nat)
    ensures PackedPart(Zeros(n), src, offset, 0)
  {}

  lemma AllPacked(region: seq<Byte>, bits: seq<Byte>, width: nat)
    requires |region| == (width + 7) / 8 && AllBinary(Kept(bits, width))
    requires PackedPart(region, Kept(bits, width), width - |Kept(bits, width)|, |Kept(bits, width)|)
    ensures Packs(region, Canon(bits, width))
    ensures AllBinary(Canon(bits, width))
  {
    var src := Kept(bits, width);
    var values := Canon(bits, width);
    var offset := width - |src|;
    KeptCanon(bits, width);
    hide Canon, Kept, Bit;
    forall d | 0 <= d < 8 * |region| ensures BitAt(region, d) == (d < |values| && values[d] == ONE) {}
  }

  lemma KeptCanon(bits: seq<Byte>, width: nat)
    requires AllBinary(Kept(bits, width))
    ensures |Kept(bits, width)| <= width == |Canon(bits, width)|
    ensures forall d :: 0 <= d < width ==>
              Canon(bits, width)[d] == if d < width - |Kept(bits, width)| then ZERO else Kept(bits, width)[d - (width - |Kept(bits, width)|)]
  {
    var src := Kept(bits, width);
    assert forall i :: 0 <= i < |src| ==> Lower(src[i]) == src[i];
    if |bits| < width && bits != [] { assert src[0] == bits[0]; }
  }

  method PackGroup(group: seq<Byte>) returns (packed: Option<Byte>)
    requires 0 < |group| <= 8
    ensures packed.Some? <==> AllBinary(group)
    ensures packed.Some? ==> PackedGroup(packed.value, group)
  {
    if |group| == 8 { packed := PackEight(group); } else { packed := PackShort(group); }
  }

  /** Places the group of `size` characters that starts at `done`. */
  method PackNext(bytes: seq<Byte>, src: seq<Byte>, offset: nat, done: nat, size: nat) returns (r: Option<seq<Byte>>)
    requires 0 < size <= 8 && done + size <= |src| && (offset + done) / 8 < |bytes|
    requires PackedPart(bytes, src, offset, done)
    ensures r.Some? <==> AllBinary(src[done..done + size])
    ensures r.Some? ==> |r.value| == |bytes| && PackedPart(r.value, src, offset, done + size)
  {
    hide *;
    var packed := PackGroup(src[done..done + size]);
    if packed.None? { return None; }
    PlaceGroup(bytes, src, offset, done, packed.value, size);
    PlaceBit(bytes, packed.value, offset + done, 0);
    r := Some(Place(bytes, packed.value, (offset + done) / 8, (offset + done) % 8));
  }

  /** ORs all characters into `n` zero bytes, `offset` bits in. */
  method PackRegion(src: seq<Byte>, offset: nat, n: nat) returns (region: Option<seq<Byte>>)
    requires offset + |src| <= 8 * n
    ensures region.Some? <==> AllBinary(src)
    ensures region.Some? ==> |region.value| == n && PackedPart(region.value, src, offset, |src|)
  {
    var bytes := Zeros(n);
    NothingPacked(n, src, offset);
    var done := 0;
    assert AllBinary(src[..0]);
    hide PackedPart, PackedGroup, BitAt, Bit, AllBinary;
    while done < |src|
      invariant 0 <= done <= |src|
      invariant |bytes| == n && AllBinary(src[..done])
      invariant PackedPart(bytes, src, offset, done)
    {
      var size := if |src| - done < 8 then |src| - done else 8;
      BinaryGroup(src, done, size);
      var next := PackNext(bytes, src, offset, done, size);
      if next.None? {
        return None;
      }
      bytes := next.value;
      done := done + size;
    }
    assert src[..done] == src;
    region := Some(bytes);
  }

  /** Packing succeeds exactly if the kept characters are all 0 or 1, appends the
      canonical value packed, and otherwise leaves the buffer as it was. */
  method TryPackBinaryBitsAppend(bits: seq<Byte>, width: nat, out: seq<Byte>) returns (overwide: Option<bool>, r: seq<Byte>)
    ensures overwide.Some? <==> AllBinary(Kept(bits, width))
    ensures overwide.None? ==> r == out
    ensures overwide.Some? ==> overwide.value == (|bits| > width) && r == out + Pack(Canon(bits, width))
    ensures overwide.Some? ==> AllBinary(Canon(bits, width))
  {
    KeptLength(bits, width);
    var src := Kept(bits, width);
    var region := PackRegion(src, width - |src|, (width + 7) / 8);
    hide Kept, Canon, AllBinary, Packs, Pack, PackedPart;
    if region.None? { return None, out; }
    AllPacked(region.value, bits, width);
    PackPacks(Canon(bits, width));
    PacksUnique(region.value, Pack(Canon(bits, width)), Canon(bits, width));
    return Some(|bits| > width), out + region.value;
  }

  lemma KeptLength(bits: seq<Byte>, width: nat)
    ensures |Kept(bits, width)| <= width
  {}

  lemma BinaryGroup(src: seq<Byte>, done: nat, n: nat)
    requires done + n <= |src|
    ensures AllBinary(src[..done]) && AllBinary(src[done..done + n]) ==> AllBinary(src[..done + n])
    ensures AllBinary(src) ==> AllBinary(src[done..done + n])
  {
    assert src[..done + n] == src[..done] + src[done..done + n];
  }

  /** Round trip: what was packed unpacks to the canonical value. */
  lemma UnpackOfPack(bits: seq<Byte>, width: nat)
    requires AllBinary(Kept(bits, width))
    ensures AllBinary(Canon(bits, width))
    ensures |Pack(Canon(bits, width))| == (width + 7) / 8
    ensures Unpack(Pack(Canon(bits, width)), width) == Canon(bits, width)
  {
    KeptCanon(bits, width);
    PackPacks(Canon(bits, width));
    UnpackPacked(Pack(Canon(bits, width)), Canon(bits, width));
  }
}
