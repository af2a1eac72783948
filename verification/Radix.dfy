/** Arbitrary-width radix conversion over digit strings (crates/bwave/src/format.rs). */
module Radix {
  import opened Basics

  // ---- Digit strings and their values ----

  /** Value of one hexadecimal digit of either case. */
  function HexDigit(c: char): Option<nat> {
    if '0' <= c <= '9' then Some(c as int - '0' as int)
    else if 'A' <= c <= 'F' then Some(c as int - 'A' as int + 10)
    else if 'a' <= c <= 'f' then Some(c as int - 'a' as int + 10)
    else None
  }

  function DigitChar(n: nat): char
    requires n < 16
  {
    if n < 10 then ('0' as int + n) as char else ('A' as int + n - 10) as char
  }

  function Upper(c: char): char {
    if 'a' <= c <= 'z' then (c as int - 32) as char else c
  }

  function UpperAll(s: string): string {
    seq(|s|, i requires 0 <= i < |s| => Upper(s[i]))
  }

  lemma DigitRoundTrip(c: char, n: nat)
    ensures n < 16 ==> HexDigit(DigitChar(n)) == Some(n)
    ensures HexDigit(c).Some? ==> HexDigit(c).value < 16 && DigitChar(HexDigit(c).value) == Upper(c)
  {}

  /** The three radices of the source. */
  datatype Base = Bin | Dec | Hex {
    function Size(): nat {
      match this case Bin => 2 case Dec => 10 case Hex => 16
    }

    function Times(v: nat): nat {
      match this case Bin => 2 * v case Dec => 10 * v case Hex => 16 * v
    }

    function Quotient(n: nat): nat {
      match this case Bin => n / 2 case Dec => n / 10 case Hex => n / 16
    }

    function Remainder(n: nat): (r: nat)
      ensures r < Size() && n == Times(Quotient(n)) + r
    {
      match this case Bin => n % 2 case Dec => n % 10 case Hex => n % 16
    }
  }

  predicate IsNumeral(s: string, base: Base) {
    forall i :: 0 <= i < |s| ==> HexDigit(s[i]).Some? && HexDigit(s[i]).value < base.Size()
  }

  /** Big-endian value of a numeral. */
  function Value(s: string, base: Base): nat
    requires IsNumeral(s, base)
  {
    if s == [] then 0 else base.Times(Value(s[..|s| - 1], base)) + HexDigit(s[|s| - 1]).value
  }

  /** The numeral of `n` without leading zeros. */
  function Render(n: nat, base: Base): string
    decreases n
  {
    if n < base.Size() then [DigitChar(n)]
    else Render(base.Quotient(n), base) + [DigitChar(base.Remainder(n))]
  }

  function TrimZeros(s: string): string {
    if s != [] && s[0] == '0' then TrimZeros(s[1..]) else s
  }

  /** Leading zeros stripped, but never to nothing; letters in upper case. */
  function Canonical(s: string): string {
    if TrimZeros(s) == [] then "0" else UpperAll(TrimZeros(s))
  }

  lemma {:induction false} RenderPush(v: nat, d: nat, base: Base)
    requires d < base.Size() && 0 < v
    ensures Render(base.Times(v) + d, base) == Render(v, base) + [DigitChar(d)]
  {
    assert base.Quotient(base.Times(v) + d) == v && base.Remainder(base.Times(v) + d) == d;
  }

  lemma {:induction false} RenderIsNumeral(n: nat, base: Base)
    ensures IsNumeral(Render(n, base), base)
    ensures Value(Render(n, base), base) == n
    decreases n
  {
    var r := Render(n, base);
    if n < base.Size() {
      DigitRoundTrip('0', n);
      assert r[..0] == [];
    } else {
      RenderIsNumeral(base.Quotient(n), base);
      DigitRoundTrip('0', base.Remainder(n));
      assert r[..|r| - 1] == Render(base.Quotient(n), base);
    }
  }

  lemma {:induction false} ValuePositive(s: string, base: Base)
    requires IsNumeral(s, base) && s != [] && s[0] != '0'
    ensures 0 < Value(s, base)
  {
    if |s| == 1 {
      assert s[..0] == [];
    } else {
      ValuePositive(s[..|s| - 1], base);
    }
  }

  /** Rendering is the inverse of reading, up to case. */
  lemma {:induction false} RenderValue(s: string, base: Base)
    requires IsNumeral(s, base) && s != [] && s[0] != '0'
    ensures Render(Value(s, base), base) == UpperAll(s)
  {
    var init, last := s[..|s| - 1], s[|s| - 1];
    DigitRoundTrip(last, 0);
    assert UpperAll(s) == UpperAll(init) + [Upper(last)];
    if |s| > 1 {
      RenderValue(init, base);
      ValuePositive(init, base);
      RenderPush(Value(init, base), HexDigit(last).value, base);
    } else {
      assert init == [];
    }
  }

  lemma {:induction false} DropZero(s: string, base: Base)
    requires IsNumeral(s, base) && s != [] && s[0] == '0'
    ensures Value(s[1..], base) == Value(s, base)
  {
    if |s| > 1 {
      DropZero(s[..|s| - 1], base);
      assert s[1..][..|s| - 2] == s[..|s| - 1][1..];
    } else {
      assert s[..0] == [];
    }
  }

  lemma {:induction false} TrimNumeral(s: string, base: Base)
    ensures IsNumeral(TrimZeros(s), base) <==> IsNumeral(s, base)
    ensures IsNumeral(s, base) ==> Value(TrimZeros(s), base) == Value(s, base)
    ensures TrimZeros(s) != [] ==> TrimZeros(s)[0] != '0'
  {
    if s != [] && s[0] == '0' {
      TrimNumeral(s[1..], base);
      assert IsNumeral(s[1..], base) ==> forall i :: 0 < i < |s| ==> s[i] == s[1..][i - 1];
      if IsNumeral(s, base) { DropZero(s, base); }
    }
  }

  /** Reading and rendering any numeral gives its canonical form. */
  lemma {:induction false} RenderCanonical(s: string, base: Base)
    requires IsNumeral(s, base)
    ensures Render(Value(s, base), base) == Canonical(s)
  {
    TrimNumeral(s, base);
    if TrimZeros(s) != [] { RenderValue(TrimZeros(s), base); }
  }

  // ---- Little-endian digit vectors ----

  predicate AllBelow(ds: seq<nat>, base: Base) {
    forall i :: 0 <= i < |ds| ==> ds[i] < base.Size()
  }

  function LeValue(ds: seq<nat>, base: Base): nat {
    if ds == [] then 0 else ds[0] + base.Times(LeValue(ds[1..], base))
  }

  /** A digit vector without a superfluous most significant zero. */
  predicate Minimal(ds: seq<nat>, base: Base) {
    |ds| > 0 && AllBelow(ds, base) && (|ds| == 1 || ds[|ds| - 1] != 0)
  }

  /** Characters of a digit vector, most significant first. */
  function Characters(ds: seq<nat>): string
    requires AllBelow(ds, Hex)
  {
    if ds == [] then [] else Characters(ds[1..]) + [DigitChar(ds[0])]
  }

  lemma {:induction false} LePositive(ds: seq<nat>, base: Base)
    requires Minimal(ds, base) && ds[|ds| - 1] != 0
    ensures 0 < LeValue(ds, base)
  {
    if |ds| > 1 { LePositive(ds[1..], base); }
  }

  /** A minimal digit vector spells the canonical numeral of its value. */
  lemma {:induction false} CharactersRender(ds: seq<nat>, base: Base)
    requires Minimal(ds, base)
    ensures Characters(ds) == Render(LeValue(ds, base), base)
  {
    if |ds| == 1 {
      assert ds[1..] == [];
    } else {
      CharactersRender(ds[1..], base);
      LePositive(ds[1..], base);
      RenderPush(LeValue(ds[1..], base), ds[0], base);
    }
  }

  /** `v` times the size of the radix read from when converting into `base`. */
  function Scaled(base: Base, v: nat): nat {
    match base case Bin => 2 * v case Dec => 16 * v case Hex => 10 * v
  }

  function Emit(carry: nat, base: Base): seq<nat>
    decreases carry
  {
    if carry == 0 then [] else [base.Remainder(carry)] + Emit(base.Quotient(carry), base)
  }

  /** Schoolbook `digits * factor + carry`, least significant digit first. */
  function Propagate(ds: seq<nat>, carry: nat, base: Base): seq<nat> {
    if ds == [] then Emit(carry, base)
    else
      var v := Scaled(base, ds[0]) + carry;
      [base.Remainder(v)] + Propagate(ds[1..], base.Quotient(v), base)
  }

  lemma {:induction false} EmitValue(carry: nat, base: Base)
    ensures AllBelow(Emit(carry, base), base) && LeValue(Emit(carry, base), base) == carry
    ensures carry > 0 ==> Emit(carry, base) != [] && Emit(carry, base)[|Emit(carry, base)| - 1] != 0
    decreases carry
  {
    if carry > 0 {
      EmitValue(base.Quotient(carry), base);
      assert Emit(carry, base)[1..] == Emit(base.Quotient(carry), base);
    }
  }

  lemma PropagateHead(d: nat, rest: nat, carry: nat, base: Base)
    ensures base.Remainder(Scaled(base, d) + carry)
            + base.Times(Scaled(base, rest) + base.Quotient(Scaled(base, d) + carry))
         == Scaled(base, d + base.Times(rest)) + carry
  {}

  lemma LeCons(d: nat, ds: seq<nat>, base: Base)
    ensures LeValue([d] + ds, base) == d + base.Times(LeValue(ds, base))
  {
    assert ([d] + ds)[1..] == ds;
  }

  /** Value, digit range and leading digit of a carry propagation. */
  ghost predicate Propagated(r: seq<nat>, ds: seq<nat>, carry: nat, base: Base) {
    && AllBelow(r, base) && |r| >= |ds|
    && LeValue(r, base) == Scaled(base, LeValue(ds, base)) + carry
    && (r != [] ==> r[|r| - 1] != 0 || (ds == [0] && carry == 0 && r == [0]))
    && (ds == [] && carry == 0 ==> r == [])
  }

  /** A top digit that becomes zero hands a carry on. */
  lemma CarryOut(d: nat, carry: nat, base: Base)
    requires base != Bin && d < base.Size()
    ensures Scaled(base, 0) == 0
    ensures d != 0 || carry > 0 ==> base.Remainder(Scaled(base, d) + carry) != 0 || base.Quotient(Scaled(base, d) + carry) > 0
    ensures d == 0 && carry == 0 ==> base.Remainder(Scaled(base, d) + carry) == 0 && base.Quotient(Scaled(base, d) + carry) == 0
  {}

  lemma PropagatedCons(d: nat, ds: seq<nat>, carry: nat, base: Base, tail: seq<nat>)
    requires base != Bin && d < base.Size()
    requires Propagated(tail, ds, base.Quotient(Scaled(base, d) + carry), base)
    requires ds != [] ==> ds[|ds| - 1] != 0
    ensures Propagated([base.Remainder(Scaled(base, d) + carry)] + tail, [d] + ds, carry, base)
  {
    var v := Scaled(base, d) + carry;
    LeCons(base.Remainder(v), tail, base);
    LeCons(d, ds, base);
    PropagateHead(d, LeValue(ds, base), carry, base);
    CarryOut(d, carry, base);
    assert base.Remainder(v) < base.Size();
    assert tail == [] ==> base.Quotient(v) == 0;
    hide Scaled, Base.Times, Base.Quotient, Base.Remainder, Base.Size, LeValue;
  }

  lemma PropagatedNil(carry: nat, base: Base)
    requires base != Bin
    ensures Propagated(Propagate([], carry, base), [], carry, base)
  {
    EmitValue(carry, base);
    CarryOut(0, 0, base);
  }

  lemma PropagateUnfold(ds: seq<nat>, carry: nat, base: Base)
    requires ds != []
    ensures Propagate(ds, carry, base)
         == [base.Remainder(Scaled(base, ds[0]) + carry)] + Propagate(ds[1..], base.Quotient(Scaled(base, ds[0]) + carry), base)
  {}

  lemma {:induction false} PropagateValue(ds: seq<nat>, carry: nat, base: Base)
    requires base != Bin && AllBelow(ds, base) && (ds == [] || ds[|ds| - 1] != 0 || |ds| == 1)
    ensures Propagated(Propagate(ds, carry, base), ds, carry, base)
    decreases |ds|
  {
    hide Propagated, Propagate, Scaled, Base.Quotient, Base.Remainder, Base.Size;
    if ds == [] {
      PropagatedNil(carry, base);
    } else {
      var q := base.Quotient(Scaled(base, ds[0]) + carry);
      assert [ds[0]] + ds[1..] == ds;
      PropagateUnfold(ds, carry, base);
      PropagateValue(ds[1..], q, base);
      PropagatedCons(ds[0], ds[1..], carry, base, Propagate(ds[1..], q, base));
    }
  }

  lemma PropagateStep(r: seq<nat>, i: nat, carry: nat, base: Base)
    requires i < |r|
    ensures var v := Scaled(base, r[i]) + carry;
            var s := r[i := base.Remainder(v)];
            r[..i] + Propagate(r[i..], carry, base) == s[..i + 1] + Propagate(s[i + 1..], base.Quotient(v), base)
  {
    var v := Scaled(base, r[i]) + carry;
    var s := r[i := base.Remainder(v)];
    assert r[i..][1..] == s[i + 1..];
    assert s[..i + 1] == r[..i] + [base.Remainder(v)];
  }

  lemma EmitStep(r: seq<nat>, carry: nat, base: Base)
    requires carry > 0
    ensures r + Emit(carry, base) == (r + [base.Remainder(carry)]) + Emit(base.Quotient(carry), base)
  {}

  lemma CarryBound(d: nat, carry: nat, base: Base)
    requires base != Bin && d < base.Size() && carry < Scaled(base, 1)
    ensures Scaled(base, d) + carry <= 159 && base.Quotient(Scaled(base, d) + carry) < Scaled(base, 1)
  {}

  lemma PropagateMinimal(digits: seq<nat>, addend: nat, base: Base, r: seq<nat>)
    requires base != Bin && Minimal(digits, base) && r == Propagate(digits, addend, base)
    ensures Minimal(r, base) && LeValue(r, base) == Scaled(base, LeValue(digits, base)) + addend
  {
    PropagateValue(digits, addend, base);
  }

  /** `digits := digits * factor + addend` in place. Every intermediate fits the
      source's 16-bit accumulator with room to spare. */
  method MultiplyAdd(digits: seq<nat>, addend: nat, base: Base) returns (r: seq<nat>)
    requires base != Bin && addend < Scaled(base, 1) && Minimal(digits, base)
    ensures Minimal(r, base)
    ensures LeValue(r, base) == Scaled(base, LeValue(digits, base)) + addend
  {
    r := digits;
    var carry: nat := addend;
    var i := 0;
    ghost var goal := Propagate(digits, addend, base);
    assert r[0..] == r;
    while i < |r|
      invariant 0 <= i <= |r| == |digits| && carry < Scaled(base, 1)
      invariant forall k :: i <= k < |r| ==> r[k] == digits[k]
      invariant r[..i] + Propagate(r[i..], carry, base) == goal
    {
      CarryBound(r[i], carry, base);
      PropagateStep(r, i, carry, base);
      var v := Scaled(base, r[i]) + carry;
      assert v <= 159;
      r := r[i := base.Remainder(v)];
      carry := base.Quotient(v);
      i := i + 1;
    }
    assert r[..i] == r && r[i..] == [];
    while carry > 0
      invariant r + Emit(carry, base) == goal
    {
      EmitStep(r, carry, base);
      r := r + [base.Remainder(carry)];
      carry := base.Quotient(carry);
    }
    assert r + [] == r;
    PropagateMinimal(digits, addend, base, r);
  }

  // ---- The conversions ----

  /** Hexadecimal to decimal; text that is not hexadecimal comes back without its leading zeros. */
  method HexToDecimal(hex: string) returns (r: string)
    ensures IsNumeral(hex, Hex) ==> r == Render(Value(hex, Hex), Dec)
    ensures !IsNumeral(hex, Hex) ==> r == TrimZeros(hex)
  {
    var h := TrimZeros(hex);
    TrimNumeral(hex, Hex);
    if h == [] { return "0"; }
    var digits: seq<nat> := [0];
    for k := 0 to |h|
      invariant IsNumeral(h[..k], Hex) && Minimal(digits, Dec)
      invariant LeValue(digits, Dec) == Value(h[..k], Hex)
    {
      if HexDigit(h[k]).None? {
        return h;
      }
      assert h[..k + 1][..k] == h[..k];
      digits := MultiplyAdd(digits, HexDigit(h[k]).value, Dec);
    }
    assert h[..|h|] == h;
    CharactersRender(digits, Dec);
    r := Characters(digits);
  }

  /** Decimal to upper-case hexadecimal; other text comes back without its leading zeros. */
  method DecimalToHex(dec: string) returns (r: string)
    ensures IsNumeral(dec, Dec) ==> r == Render(Value(dec, Dec), Hex)
    ensures !IsNumeral(dec, Dec) ==> r == TrimZeros(dec)
  {
    var d := TrimZeros(dec);
    TrimNumeral(dec, Dec);
    if d == [] { return "0"; }
    if !IsNumeral(d, Dec) { return d; }
    var nibbles: seq<nat> := [0];
    for k := 0 to |d|
      invariant Minimal(nibbles, Hex) && LeValue(nibbles, Hex) == Value(d[..k], Dec)
    {
      assert d[..k + 1][..k] == d[..k];
      nibbles := MultiplyAdd(nibbles, HexDigit(d[k]).value, Hex);
    }
    assert d[..|d|] == d;
    CharactersRender(nibbles, Hex);
    r := Characters(nibbles);
  }

  function FourBits(n: nat): string
    requires n < 16
  {
    [DigitChar(n / 8), DigitChar(n / 4 % 2), DigitChar(n / 2 % 2), DigitChar(n % 2)]
  }

  lemma RenderBits(v: nat, b3: nat, b2: nat, b1: nat, b0: nat)
    requires 0 < v && b3 < 2 && b2 < 2 && b1 < 2 && b0 < 2
    ensures Render(2 * (2 * (2 * (2 * v + b3) + b2) + b1) + b0, Bin)
         == Render(v, Bin) + [DigitChar(b3), DigitChar(b2), DigitChar(b1), DigitChar(b0)]
  {
    RenderPush(v, b3, Bin);
    RenderPush(2 * v + b3, b2, Bin);
    RenderPush(2 * (2 * v + b3) + b2, b1, Bin);
    RenderPush(2 * (2 * (2 * v + b3) + b2) + b1, b0, Bin);
  }

  lemma SplitNibble(n: nat)
    requires n < 16
    ensures n / 8 < 2 && n == 8 * (n / 8) + 4 * (n / 4 % 2) + 2 * (n / 2 % 2) + n % 2
  {}

  lemma RenderNibble(v: nat, n: nat)
    requires n < 16 && 0 < v
    ensures Render(16 * v + n, Bin) == Render(v, Bin) + FourBits(n)
  {
    SplitNibble(n);
    RenderBits(v, n / 8, n / 4 % 2, n / 2 % 2, n % 2);
    hide Render, DigitChar;
  }

  lemma BinaryStep(h: string, k: nat)
    requires k < |h| && h[0] != '0' && IsNumeral(h[..k], Hex) && HexDigit(h[k]).Some?
    ensures IsNumeral(h[..k + 1], Hex) && 0 < Value(h[..k + 1], Hex)
    ensures Render(Value(h[..k + 1], Hex), Bin)
         == if k == 0 then Render(HexDigit(h[k]).value, Bin) else Render(Value(h[..k], Hex), Bin) + FourBits(HexDigit(h[k]).value)
  {
    var t := h[..k + 1];
    assert t[..k] == h[..k] && t[k] == h[k];
    assert forall i :: 0 <= i < k ==> t[i] == h[..k][i];
    ValuePositive(t, Hex);
    if k > 0 {
      assert h[..k][0] == h[0];
      ValuePositive(h[..k], Hex);
      RenderNibble(Value(h[..k], Hex), HexDigit(h[k]).value);
    }
  }

  /** Hexadecimal to binary: the first nibble unpadded, the others four bits each. */
  method HexToBinary(hex: string) returns (r: string)
    ensures IsNumeral(hex, Hex) ==> r == Render(Value(hex, Hex), Bin)
    ensures !IsNumeral(hex, Hex) ==> r == TrimZeros(hex)
  {
    var h := TrimZeros(hex);
    TrimNumeral(hex, Hex);
    if h == [] { return "0"; }
    r := [];
    var first := true;
    for k := 0 to |h|
      invariant IsNumeral(h[..k], Hex) && first == (k == 0)
      invariant k > 0 ==> r == Render(Value(h[..k], Hex), Bin)
      invariant k == 0 ==> r == []
    {
      if HexDigit(h[k]).None? {
        return h;
      }
      var nibble := HexDigit(h[k]).value;
      BinaryStep(h, k);
      hide Value, Render, FourBits;
      if first {
        r := r + Render(nibble, Bin);
        first := false;
      } else {
        r := r + FourBits(nibble);
      }
    }
    assert h[..|h|] == h;
  }

  /** What `BinToHex` returns. */
  function HexOfBinary(bin: string): Option<string> {
    if IsNumeral(bin, Bin) then Some(Render(Value(bin, Bin), Hex)) else None
  }

  lemma PrefixValue(bin: string, i: nat)
    requires i < |bin| && IsNumeral(bin, Bin)
    ensures Value(bin[..i + 1], Bin) == 2 * Value(bin[..i], Bin) + HexDigit(bin[i]).value
  {
    assert bin[..i + 1][..i] == bin[..i];
  }

  lemma FourPrefix(bin: string, i: nat)
    requires i + 4 <= |bin| && IsNumeral(bin, Bin)
    ensures Value(bin[..i + 4], Bin)
         == 16 * Value(bin[..i], Bin) + 8 * HexDigit(bin[i]).value + 4 * HexDigit(bin[i + 1]).value
            + 2 * HexDigit(bin[i + 2]).value + HexDigit(bin[i + 3]).value
  {
    hide Value, HexDigit;
    PrefixValue(bin, i);
    PrefixValue(bin, i + 1);
    PrefixValue(bin, i + 2);
    PrefixValue(bin, i + 3);
  }

  lemma NibbleValue(bin: string, i: nat)
    requires i + 4 <= |bin| && IsNumeral(bin, Bin)
    ensures Value(bin[..i + 4], Bin) == 16 * Value(bin[..i], Bin) + Value(bin[i..i + 4], Bin)
    ensures Value(bin[i..i + 4], Bin) < 16
  {
    var s := bin[i..i + 4];
    assert s[..0] == [] && s[..4] == s && Value([], Bin) == 0;
    FourPrefix(bin, i);
    FourPrefix(s, 0);
    assert s[0] == bin[i] && s[1] == bin[i + 1] && s[2] == bin[i + 2] && s[3] == bin[i + 3];
    hide Value, HexDigit;
  }

  lemma {:induction false} ShortValue(bin: string)
    requires |bin| < 4 && IsNumeral(bin, Bin)
    ensures Value(bin, Bin) < 8
  {
    assert bin[..|bin|] == bin && bin[..0] == [];
    if |bin| > 0 { PrefixValue(bin, 0); }
    if |bin| > 1 { PrefixValue(bin, 1); }
    if |bin| > 2 { PrefixValue(bin, 2); }
  }

  /** Output after a prefix of value `v`: nothing while only zeros were read. */
  function HexPrefix(v: nat, last: bool): string {
    if v == 0 && !last then [] else Render(v, Hex)
  }

  lemma HexPrefixStep(v: nat, nibble: nat, last: bool)
    requires nibble < 16
    ensures HexPrefix(16 * v + nibble, last)
         == HexPrefix(v, false) + (if v > 0 || nibble > 0 || last then [DigitChar(nibble)] else [])
  {
    if v > 0 { RenderPush(v, nibble, Hex); }
  }

  lemma HexPrefixShape(v: nat, last: bool)
    ensures HexPrefix(v, last) == [] <==> v == 0 && !last
    ensures last ==> HexPrefix(v, last) == Render(v, Hex)
    ensures 0 < v < 16 ==> HexPrefix(v, last) == [DigitChar(v)]
  {}

  lemma HexOfBinaryMeaning(bin: string)
    ensures HexOfBinary(bin) == if IsNumeral(bin, Bin) then Some(Render(Value(bin, Bin), Hex)) else None
    ensures HexOfBinary([]) == Some("0")
    ensures IsNumeral(bin, Bin) ==> Value(bin[..0], Bin) == 0
  {
    assert bin[..0] == [];
  }

  /** Binary to hexadecimal, nibble by nibble, skipping leading zero nibbles. */
  method BinToHex(bin: string) returns (r: Option<string>)
    ensures r == HexOfBinary(bin)
  {
    HexOfBinaryMeaning(bin);
    hide HexOfBinary, Value, Render, HexPrefix, DigitChar;
    if bin == [] { return Some("0"); }
    if !IsNumeral(bin, Bin) { return None; }
    var hex := [];
    var remainder := |bin| % 4;
    var start := 0;
    HexPrefixShape(0, false);
    if remainder > 0 {
      ShortValue(bin[..remainder]);
      var nibble := Value(bin[..remainder], Bin);
      HexPrefixShape(nibble, |bin| < 4);
      HexPrefixStep(0, nibble, |bin| < 4);
      if nibble > 0 || |bin| <= 4 {
        hex := hex + [DigitChar(nibble)];
      }
      start := remainder;
    }
    var i := start;
    var skipLeading := hex == [];
    while i + 4 <= |bin|
      invariant 0 <= i <= |bin| && (|bin| - i) % 4 == 0
      invariant !skipLeading ==> hex != []
      invariant hex == HexPrefix(Value(bin[..i], Bin), i == |bin|)
    {
      NibbleValue(bin, i);
      var nibble := Value(bin[i..i + 4], Bin);
      HexPrefixStep(Value(bin[..i], Bin), nibble, i + 4 == |bin|);
      HexPrefixShape(Value(bin[..i], Bin), false);
      if !skipLeading || nibble > 0 || hex != [] || i + 4 >= |bin| {
        hex := hex + [DigitChar(nibble)];
      }
      i := i + 4;
    }
    assert bin[..|bin|] == bin;
    HexPrefixShape(Value(bin, Bin), true);
    if hex == [] { r := Some("0"); } else { r := Some(hex); }
  }

  // ---- Round trips ----

  /** Decimal to hexadecimal and back gives the decimal text without leading zeros. */
  lemma DecimalRoundTrip(dec: string)
    requires IsNumeral(dec, Dec)
    ensures IsNumeral(Render(Value(dec, Dec), Hex), Hex)
    ensures Render(Value(Render(Value(dec, Dec), Hex), Hex), Dec) == Canonical(dec)
  {
    RenderIsNumeral(Value(dec, Dec), Hex);
    RenderCanonical(dec, Dec);
  }

  /** Hexadecimal to binary and back gives the upper-case hexadecimal text without leading zeros. */
  lemma BinaryRoundTrip(hex: string)
    requires IsNumeral(hex, Hex)
    ensures HexOfBinary(Render(Value(hex, Hex), Bin)) == Some(Canonical(hex))
  {
    RenderIsNumeral(Value(hex, Hex), Bin);
    RenderCanonical(hex, Hex);
  }

  /** The two round trips through the methods themselves. */
  method RoundTrips(dec: string, hex: string) returns (d: string, h: Option<string>)
    requires IsNumeral(dec, Dec) && IsNumeral(hex, Hex)
    ensures d == Canonical(dec)
    ensures h == Some(Canonical(hex))
  {
    var x := DecimalToHex(dec);
    DecimalRoundTrip(dec);
    d := HexToDecimal(x);
    var b := HexToBinary(hex);
    BinaryRoundTrip(hex);
    h := BinToHex(b);
  }
}
