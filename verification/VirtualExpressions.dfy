/** Expressions of virtual signals at one point in time (crates/bwave/src/virtual_signal.rs): how they are
    evaluated, and what they say about the values. */
module VirtualExpressions {
  import opened Basics
  import opened BitSlices
  import opened Matching
  import opened Radix

  // ---- Resolved expressions ----

  datatype Rhs = Literal(text: string) | Signal(index: nat, width: nat, slice: Option<BitSlice>)

  datatype Relation = Equal | NotEqual | Gt | Gte | Lt | Lte

  datatype Atom =
    | NonZero(index: nat, width: nat, slice: Option<BitSlice>)
    | Compare(relation: Relation, index: nat, width: nat, slice: Option<BitSlice>, rhs: Rhs)
    | VirtualRef(virtual: nat)

  datatype CombineOp = And | Or | Xor

  datatype Expr = AtomExpr(atom: Atom) | Not(inner: Expr) | Combine(op: CombineOp, children: seq<Expr>)

  datatype ResolvedVirtual = ResolvedVirtual(name: string, expr: Expr)

  predicate AtomFits(a: Atom, signals: nat, virtuals: nat) {
    match a
    case NonZero(i, _, _) => i < signals
    case Compare(_, i, _, _, rhs) => i < signals && (rhs.Signal? ==> rhs.index < signals)
    case VirtualRef(v) => v < virtuals
  }

  /** Signal numbers exist, and references go to earlier definitions only. */
  predicate ExprFits(e: Expr, signals: nat, virtuals: nat) {
    match e
    case AtomExpr(a) => AtomFits(a, signals, virtuals)
    case Not(inner) => ExprFits(inner, signals, virtuals)
    case Combine(_, children) => forall i :: 0 <= i < |children| ==> ExprFits(children[i], signals, virtuals)
  }

  predicate ChainFits(defs: seq<ResolvedVirtual>, signals: nat) {
    forall k :: 0 <= k < |defs| ==> ExprFits(defs[k].expr, signals, k)
  }

  // ---- Pointwise evaluation ----

  function CompareText(value: string, width: nat, slice: Option<BitSlice>): string {
    match slice case None => value case Some(sl) => HexSlice(value, width, sl)
  }

  function RhsText(rhs: Rhs, values: seq<string>): string
    requires rhs.Signal? ==> rhs.index < |values|
  {
    match rhs
    case Literal(text) => text
    case Signal(i, width, slice) => CompareText(values[i], width, slice)
  }

  function RhsNumber(rhs: Rhs, values: seq<string>): Option<nat>
    requires rhs.Signal? ==> rhs.index < |values|
  {
    match rhs
    case Literal(text) => HexToU128(text)
    case Signal(i, _, slice) => NumericValue(values[i], slice)
  }

  predicate OrderHolds(relation: Relation, l: Option<nat>, r: Option<nat>) {
    l.Some? && r.Some? &&
    match relation
    case Gt => l.value > r.value
    case Gte => l.value >= r.value
    case Lt => l.value < r.value
    case Lte => l.value <= r.value
    case _ => false
  }

  predicate EvalAtom(a: Atom, values: seq<string>, virtuals: seq<bool>)
    requires AtomFits(a, |values|, |virtuals|)
  {
    match a
    case NonZero(i, _, slice) =>
      if slice.Some? then
        var n := NumericValue(values[i], slice);
        n.Some? && n.value != 0
      else TrimZeros(values[i]) != "" && values[i] != "0"
    case Compare(relation, i, width, slice, rhs) =>
      if relation == Equal then ValuesMatch(CompareText(values[i], width, slice), RhsText(rhs, values))
      else if relation == NotEqual then !ValuesMatch(CompareText(values[i], width, slice), RhsText(rhs, values))
      else OrderHolds(relation, NumericValue(values[i], slice), RhsNumber(rhs, values))
    case VirtualRef(v) => virtuals[v]
  }

  predicate Xor(vals: seq<bool>) {
    vals != [] && Xor(vals[..|vals| - 1]) != vals[|vals| - 1]
  }

  predicate CombineAll(op: CombineOp, vals: seq<bool>) {
    match op
    case And => forall i :: 0 <= i < |vals| ==> vals[i]
    case Or => exists i :: 0 <= i < |vals| && vals[i]
    case Xor => Xor(vals)
  }

  predicate EvalExpr(e: Expr, values: seq<string>, virtuals: seq<bool>)
    requires ExprFits(e, |values|, |virtuals|)
  {
    match e
    case AtomExpr(a) => EvalAtom(a, values, virtuals)
    case Not(inner) => !EvalExpr(inner, values, virtuals)
    case Combine(op, children) =>
      CombineAll(op, seq(|children|, i requires 0 <= i < |children| => EvalExpr(children[i], values, virtuals)))
  }

  // ---- What an expression says ----

  /** The text is the numeral of `n` after leading zeros: nothing for 0, else at most 32 characters, of which
      the first may be a plus sign. */
  ghost predicate ReadsAs(text: string, n: nat) {
    exists i, j :: 0 <= i <= j <= |text| && OnlyZeros(text[..i]) && DigitsRead(text, i, j, n)
  }

  ghost predicate DigitsRead(text: string, i: int, j: int, n: nat)
    requires 0 <= i <= j <= |text|
  {
    if i == |text| then n == 0
    else
      && text[i] != '0' && |text| - i <= 32 && j < |text| && (j == i || (j == i + 1 && text[i] == '+'))
      && IsNumeral(text[j..], Hex) && Value(text[j..], Hex) == n
  }

  /** The number of a slice: nothing of an inverted one, all of one of 128 bits or more, else the bits from `lsb`
      (counted modulo 128) on. */
  ghost predicate SliceReads(text: string, slice: Option<BitSlice>, n: nat) {
    exists v: nat :: ReadsAs(text, v) &&
      match slice
      case None => n == v
      case Some(BitSlice(msb, lsb)) =>
        if msb < lsb then n == 0
        else if msb - lsb + 1 >= 128 then n == v
        else n == (v / Pow2(lsb % 128)) % Pow2(msb - lsb + 1)
  }

  ghost predicate RhsReads(rhs: Rhs, values: seq<string>, n: nat)
    requires rhs.Signal? ==> rhs.index < |values|
  {
    match rhs
    case Literal(text) => ReadsAs(text, n)
    case Signal(i, _, slice) => SliceReads(values[i], slice, n)
  }

  /** The text that equality looks at. */
  ghost function Shown(text: string, width: nat, slice: Option<BitSlice>): string {
    if slice.None? then text else HexSlice(text, width, slice.value)
  }

  ghost function RhsShown(rhs: Rhs, values: seq<string>): string
    requires rhs.Signal? ==> rhs.index < |values|
  {
    if rhs.Literal? then rhs.text else Shown(values[rhs.index], rhs.width, rhs.slice)
  }

  /** An order between two texts needs both to be numbers. */
  ghost predicate Compares(relation: Relation, text: string, slice: Option<BitSlice>, rhs: Rhs, values: seq<string>)
    requires rhs.Signal? ==> rhs.index < |values|
  {
    exists l: nat, r: nat :: SliceReads(text, slice, l) && RhsReads(rhs, values, r) &&
      ((relation.Gt? && l > r) || (relation.Gte? && l >= r) || (relation.Lt? && l < r) || (relation.Lte? && l <= r))
  }

  ghost predicate AtomHolds(a: Atom, values: seq<string>, prior: seq<bool>)
    requires AtomFits(a, |values|, |prior|)
  {
    match a
    case NonZero(i, _, None) => exists k :: 0 <= k < |values[i]| && values[i][k] != '0'
    case NonZero(i, _, slice) => exists n: nat :: SliceReads(values[i], slice, n) && n > 0
    case Compare(Equal, i, width, slice, rhs) => Agrees(Shown(values[i], width, slice), RhsShown(rhs, values))
    case Compare(NotEqual, i, width, slice, rhs) => !Agrees(Shown(values[i], width, slice), RhsShown(rhs, values))
    case Compare(relation, i, _, slice, rhs) => Compares(relation, values[i], slice, rhs, values)
    case VirtualRef(v) => prior[v]
  }

  /** Every operand, some operand, or an odd number of operands. */
  ghost predicate Holds(e: Expr, values: seq<string>, prior: seq<bool>)
    requires ExprFits(e, |values|, |prior|)
    decreases e, 1
  {
    match e
    case AtomExpr(a) => AtomHolds(a, values, prior)
    case Not(inner) => !Holds(inner, values, prior)
    case Combine(And, cs) => forall i :: 0 <= i < |cs| ==> Holds(cs[i], values, prior)
    case Combine(Or, cs) => exists i :: 0 <= i < |cs| && Holds(cs[i], values, prior)
    case Combine(Xor, _) => exists trues: set<int> :: |trues| % 2 == 1 && AreTrue(trues, e, values, prior)
  }

  /** The operands that hold. */
  ghost predicate AreTrue(trues: set<int>, e: Expr, values: seq<string>, prior: seq<bool>)
    requires e.Combine? && ExprFits(e, |values|, |prior|)
    decreases e, 0
  {
    forall i :: i in trues <==> 0 <= i < |e.children| && Holds(e.children[i], values, prior)
  }

  // ---- Evaluation is that meaning ----

  lemma TrimmedReads(text: string, i: nat, n: nat)
    requires i <= |text| && OnlyZeros(text[..i]) && (i < |text| ==> text[i] != '0')
    ensures TrimZeros(text) == text[i..]
    ensures HexToU128(text) == Some(n) <==> exists j :: i <= j <= |text| && DigitsRead(text, i, j, n)
  {
    TrimPast(text, i);
    var digits := text[i..];
    assert TrimZeros(digits) == digits;
    if i < |text| {
      var j := if digits[0] == '+' then i + 1 else i;
      assert text[j..] == if digits[0] == '+' then digits[1..] else digits;
      hide TrimZeros, IsNumeral, Value, ContainsXz, OnlyZeros;
      SomeDigits(text[j..]);
      UnknownInDigits(digits, text[j..]);
      if HexToU128(text) == Some(n) { assert DigitsRead(text, i, j, n); }
      forall k | i <= k <= |text| && DigitsRead(text, i, k, n) ensures k == j || (digits[0] == '+' && k == i) {}
      if digits[0] == '+' { PlusIsNoDigit(digits); }
    } else {
      assert n == 0 ==> DigitsRead(text, i, i, n);
    }
  }

  lemma SomeDigits(s: string)
    ensures s != [] <==> |s| > 0
  {}

  lemma PlusIsNoDigit(s: string)
    requires s != [] && s[0] == '+'
    ensures !IsNumeral(s, Hex)
  {}

  lemma UnknownInDigits(digits: string, unsigned: string)
    requires digits == unsigned || (digits != [] && digits[0] == '+' && unsigned == digits[1..])
    ensures IsNumeral(unsigned, Hex) ==> !ContainsXz(digits)
  {
    if IsNumeral(unsigned, Hex) { NumeralHasNoXz(unsigned); }
  }

  /** A text has at most one number, the one it is converted to. */
  lemma ReadsIsNumber(text: string, n: nat)
    ensures ReadsAs(text, n) <==> HexToU128(text) == Some(n)
  {
    var i := TrimParts(text);
    TrimStops(text, i);
    TrimmedReads(text, i, n);
    hide HexToU128, TrimZeros;
    forall k, j | 0 <= k <= j <= |text| && OnlyZeros(text[..k]) && DigitsRead(text, k, j, n) ensures k == i {
      SameStart(text, i, k);
    }
  }

  lemma {:induction false} TrimStops(text: string, i: nat)
    requires i <= |text| && TrimZeros(text) == text[i..]
    ensures i < |text| ==> text[i] != '0'
    decreases |text|
  {
    TrimHead(text);
    if i < |text| { assert text[i..][0] == text[i]; }
  }

  lemma {:induction false} TrimHead(text: string)
    ensures TrimZeros(text) != [] ==> TrimZeros(text)[0] != '0'
  {
    if text != [] && text[0] == '0' { TrimHead(text[1..]); }
  }

  lemma SameStart(text: string, i: nat, k: nat)
    requires i <= |text| && k <= |text| && OnlyZeros(text[..i]) && OnlyZeros(text[..k])
    requires (i < |text| ==> text[i] != '0') && (k < |text| ==> text[k] != '0')
    ensures i == k
  {
    ZerosBelow(text, i);
    ZerosBelow(text, k);
  }

  lemma ZerosBelow(text: string, i: nat)
    requires i <= |text| && OnlyZeros(text[..i])
    ensures forall k :: 0 <= k < i ==> text[k] == '0'
  {
    forall k | 0 <= k < i ensures text[k] == '0' { assert text[..i][k] == '0'; }
  }

  lemma SliceReadsIsNumber(text: string, slice: Option<BitSlice>, n: nat)
    ensures SliceReads(text, slice, n) <==> NumericValue(text, slice) == Some(n)
  {
    forall v: nat ensures ReadsAs(text, v) <==> HexToU128(text) == Some(v) { ReadsIsNumber(text, v); }
    hide ReadsAs, HexToU128, Pow2;
  }

  lemma RhsReadsIsNumber(rhs: Rhs, values: seq<string>, n: nat)
    requires rhs.Signal? ==> rhs.index < |values|
    ensures RhsReads(rhs, values, n) <==> RhsNumber(rhs, values) == Some(n)
  {
    hide SliceReads, NumericValue, ReadsAs, HexToU128;
    match rhs
    case Literal(text) => ReadsIsNumber(text, n);
    case Signal(i, _, slice) => SliceReadsIsNumber(values[i], slice, n);
  }

  lemma ComparesIsOrder(relation: Relation, text: string, slice: Option<BitSlice>, rhs: Rhs, values: seq<string>)
    requires (rhs.Signal? ==> rhs.index < |values|) && !relation.Equal? && !relation.NotEqual?
    ensures Compares(relation, text, slice, rhs, values) <==> OrderHolds(relation, NumericValue(text, slice), RhsNumber(rhs, values))
  {
    forall n: nat
      ensures SliceReads(text, slice, n) <==> NumericValue(text, slice) == Some(n)
      ensures RhsReads(rhs, values, n) <==> RhsNumber(rhs, values) == Some(n)
    {
      SliceReadsIsNumber(text, slice, n);
      RhsReadsIsNumber(rhs, values, n);
    }
    hide SliceReads, NumericValue, RhsReads, RhsNumber;
  }

  lemma SomethingLeft(text: string)
    ensures TrimZeros(text) != "" && text != "0" <==> exists k :: 0 <= k < |text| && text[k] != '0'
  {
    var i := TrimParts(text);
    TrimStops(text, i);
    ZerosBelow(text, i);
    hide TrimZeros;
  }

  lemma NonZeroSlice(text: string, slice: Option<BitSlice>)
    ensures (exists n: nat :: SliceReads(text, slice, n) && n > 0)
       <==> NumericValue(text, slice).Some? && NumericValue(text, slice).value != 0
  {
    forall n: nat ensures SliceReads(text, slice, n) <==> NumericValue(text, slice) == Some(n) {
      SliceReadsIsNumber(text, slice, n);
    }
    hide SliceReads, NumericValue;
  }

  lemma ShownIsCompared(text: string, width: nat, slice: Option<BitSlice>)
    ensures Shown(text, width, slice) == CompareText(text, width, slice)
  {
    hide HexSlice;
  }

  lemma AtomIsMeaning(a: Atom, values: seq<string>, prior: seq<bool>)
    requires AtomFits(a, |values|, |prior|)
    ensures EvalAtom(a, values, prior) <==> AtomHolds(a, values, prior)
  {
    hide SliceReads, NumericValue, Compares, OrderHolds, ValuesMatch, Agrees, Shown, CompareText, TrimZeros, RhsNumber;
    match a
    case NonZero(i, _, slice) =>
      SomethingLeft(values[i]);
      NonZeroSlice(values[i], slice);
    case Compare(relation, i, width, slice, rhs) =>
      ShownIsCompared(values[i], width, slice);
      if rhs.Signal? { ShownIsCompared(values[rhs.index], rhs.width, rhs.slice); }
      ValuesMatchAgrees(CompareText(values[i], width, slice), RhsText(rhs, values));
      if !relation.Equal? && !relation.NotEqual? { ComparesIsOrder(relation, values[i], slice, rhs, values); }
    case VirtualRef(v) =>
  }

  lemma {:induction false} XorIsOdd(vals: seq<bool>)
    ensures Xor(vals) <==> |set i | 0 <= i < |vals| && vals[i]| % 2 == 1
  {
    if vals != [] {
      var n := |vals| - 1;
      XorIsOdd(vals[..n]);
      var before, all := set i | 0 <= i < n && vals[..n][i], set i | 0 <= i < |vals| && vals[i];
      assert all == if vals[n] then before + {n} else before;
    }
  }

  /** Evaluation is the meaning, for every expression. */
  lemma {:induction false} EvalIsMeaning(e: Expr, values: seq<string>, prior: seq<bool>)
    requires ExprFits(e, |values|, |prior|)
    ensures EvalExpr(e, values, prior) <==> Holds(e, values, prior)
  {
    hide EvalAtom, AtomHolds, Xor, AtomFits;
    match e
    case AtomExpr(a) => AtomIsMeaning(a, values, prior);
    case Not(inner) => EvalIsMeaning(inner, values, prior);
    case Combine(op, cs) =>
      var vals := seq(|cs|, i requires 0 <= i < |cs| => EvalExpr(cs[i], values, prior));
      forall i | 0 <= i < |cs| ensures vals[i] == Holds(cs[i], values, prior) {
        EvalIsMeaning(cs[i], values, prior);
      }
      EvalCombine(op, cs, values, prior, vals);
      CombineIsMeaning(op, cs, values, prior, vals);
  }

  lemma EvalCombine(op: CombineOp, cs: seq<Expr>, values: seq<string>, prior: seq<bool>, vals: seq<bool>)
    requires ExprFits(Combine(op, cs), |values|, |prior|)
    requires |vals| == |cs| && forall i :: 0 <= i < |cs| ==> vals[i] == EvalExpr(cs[i], values, prior)
    ensures EvalExpr(Combine(op, cs), values, prior) == CombineAll(op, vals)
  {
    var mine := seq(|cs|, i requires 0 <= i < |cs| => EvalExpr(cs[i], values, prior));
    assert mine == vals;
    hide CombineAll;
  }

  lemma CombineIsMeaning(op: CombineOp, cs: seq<Expr>, values: seq<string>, prior: seq<bool>, vals: seq<bool>)
    requires ExprFits(Combine(op, cs), |values|, |prior|)
    requires |vals| == |cs| && forall i :: 0 <= i < |cs| ==> vals[i] == Holds(cs[i], values, prior)
    ensures CombineAll(op, vals) <==> Holds(Combine(op, cs), values, prior)
  {
    hide Xor, AtomHolds, AtomFits;
    if op.Xor? { OddIsMeaning(Combine(op, cs), values, prior, vals); }
  }

  lemma OddIsMeaning(e: Expr, values: seq<string>, prior: seq<bool>, vals: seq<bool>)
    requires e.Combine? && e.op.Xor? && ExprFits(e, |values|, |prior|)
    requires |vals| == |e.children| && forall i :: 0 <= i < |e.children| ==> vals[i] == Holds(e.children[i], values, prior)
    ensures Xor(vals) <==> Holds(e, values, prior)
  {
    hide Xor, AtomHolds, AtomFits;
    XorIsOdd(vals);
    var mine := set i | 0 <= i < |vals| && vals[i];
    assert AreTrue(mine, e, values, prior);
    forall trues: set<int> | AreTrue(trues, e, values, prior) ensures trues == mine {}
  }

  // ---- Atoms on numerals ----

  /** A numeral that fits 128 bits. */
  ghost predicate Stored(text: string) {
    IsNumeral(text, Hex) && |TrimZeros(text)| <= 32
  }

  lemma StoredReads(text: string)
    requires Stored(text)
    ensures HexToU128(text) == Some(Value(text, Hex))
  {
    TrimNumeral(text, Hex);
    NoPlus(TrimZeros(text));
    NumeralHasNoXz(TrimZeros(text));
    assert Value([], Hex) == 0;
    hide TrimZeros, Value, IsNumeral, ContainsXz;
  }

  /** On two numerals every relation is the one on their values; a target of several 0s and 1s is, for equality only,
      read in binary. */
  lemma RelationsOnNumerals(relation: Relation, i: nat, width: nat, target: string, values: seq<string>, prior: seq<bool>)
    requires i < |values| && Stored(values[i]) && Stored(target)
    ensures var l, r := Value(values[i], Hex), Value(target, Hex);
            var holds := EvalAtom(Compare(relation, i, width, None, Rhs.Literal(target)), values, prior);
            match relation
            case Gt => holds <==> l > r
            case Gte => holds <==> l >= r
            case Lt => holds <==> l < r
            case Lte => holds <==> l <= r
            case Equal => !ReadsAsBinary(target) ==> (holds <==> l == r)
            case NotEqual => !ReadsAsBinary(target) ==> (holds <==> l != r)
  {
    StoredReads(values[i]);
    StoredReads(target);
    ValuesMatchIsNumeric(values[i], target);
    BinaryIsNumeral(target);
    hide Value, IsNumeral, ValuesMatch, HexToU128, TrimZeros, ReadsAsBinary;
  }

  /** A stored number counts as true exactly if it is not 0. */
  lemma NonZeroOnNumerals(i: nat, width: nat, values: seq<string>, prior: seq<bool>)
    requires i < |values| && Stored(values[i])
    ensures EvalAtom(NonZero(i, width, None), values, prior) <==> Value(values[i], Hex) != 0
  {
    TrimNumeral(values[i], Hex);
    SomethingLeft(values[i]);
    var digits := TrimZeros(values[i]);
    TrimHead(values[i]);
    if digits == [] {
      assert Value(digits, Hex) == 0;
    } else {
      ValuePositive(digits, Hex);
      var j := TrimParts(values[i]);
      assert values[i][j] == digits[0];
    }
    hide TrimZeros, Value, IsNumeral;
  }
}
