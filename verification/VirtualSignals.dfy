/** Virtual signals: expressions over signals, compiled to transition lists
    (crates/bwave/src/virtual_signal.rs). */
module VirtualSignals {
  import opened Basics
  import opened Ordering
  import opened BitSlices
  import opened Matching
  import opened Waveform
  import opened VirtualExpressions

  // ---- Pointwise evaluation of a chain ----

  /** Values of an ordered chain of definitions at one point in time. */
  function ChainValues(defs: seq<ResolvedVirtual>, values: seq<string>): (r: seq<bool>)
    requires ChainFits(defs, |values|)
    ensures |r| == |defs|
  {
    if defs == [] then []
    else
      var prior := ChainValues(defs[..|defs| - 1], values);
      prior + [EvalExpr(defs[|defs| - 1].expr, values, prior)]
  }

  datatype VirtualValue = VirtualValue(name: string, value: string)

  function Truth(b: bool): string {
    if b then "1" else "0"
  }

  /** What the first `k` definitions came out as. */
  ghost function Flags(r: seq<VirtualValue>, k: nat): (flags: seq<bool>)
    requires k <= |r|
    ensures |flags| == k
  {
    seq(k, i requires 0 <= i < k => r[i].value == "1")
  }

  lemma FlagsSnoc(r: seq<VirtualValue>, x: VirtualValue)
    ensures forall k :: 0 <= k <= |r| ==> Flags(r + [x], k) == Flags(r, k)
    ensures Flags(r + [x], |r| + 1) == Flags(r, |r|) + [x.value == "1"]
  {
    forall k | 0 <= k <= |r| ensures Flags(r + [x], k) == Flags(r, k) {
      assert forall i :: 0 <= i < k ==> (r + [x])[i] == r[i];
    }
  }

  /** Every definition reads "1" or "0" as its expression holds or not, given the values of the signals and what the
      definitions before it came out as. */
  ghost predicate MeanValues(defs: seq<ResolvedVirtual>, values: seq<string>, r: seq<VirtualValue>)
    requires ChainFits(defs, |values|) && |r| <= |defs|
  {
    forall k :: 0 <= k < |r| ==> MeansValue(defs[k], values, Flags(r, k), r[k])
  }

  ghost predicate MeansValue(def: ResolvedVirtual, values: seq<string>, prior: seq<bool>, x: VirtualValue)
    requires ExprFits(def.expr, |values|, |prior|)
  {
    x.name == def.name && x.value == if Holds(def.expr, values, prior) then "1" else "0"
  }

  lemma MeanSnoc(defs: seq<ResolvedVirtual>, values: seq<string>, r: seq<VirtualValue>, x: VirtualValue)
    requires ChainFits(defs, |values|) && |r| < |defs| && MeanValues(defs, values, r)
    requires x.name == defs[|r|].name && x.value == if EvalExpr(defs[|r|].expr, values, Flags(r, |r|)) then "1" else "0"
    ensures MeanValues(defs, values, r + [x])
  {
    FlagsSnoc(r, x);
    EvalIsMeaning(defs[|r|].expr, values, Flags(r, |r|));
    assert MeansValue(defs[|r|], values, Flags(r, |r|), x);
    hide EvalExpr, Holds, Flags, ExprFits, MeansValue;
    var all := r + [x];
    forall k | 0 <= k < |all| ensures MeansValue(defs[k], values, Flags(all, k), all[k]) {
      if k < |r| {
        assert all[k] == r[k] && Flags(all, k) == Flags(r, k);
      } else {
        assert all[k] == x && Flags(all, k) == Flags(r, |r|);
      }
    }
  }

  method EvaluateVirtualValues(defs: seq<ResolvedVirtual>, values: seq<string>) returns (r: seq<VirtualValue>)
    requires ChainFits(defs, |values|)
    ensures |r| == |defs| && MeanValues(defs, values, r)
    ensures Flags(r, |r|) == ChainValues(defs, values)
  {
    hide EvalExpr, ExprFits, Flags, Holds, MeanValues;
    var priorValues: seq<bool> := [];
    r := [];
    NothingMeant(defs, values);
    for k := 0 to |defs|
      invariant |r| == k && ChainFits(defs[..k], |values|)
      invariant priorValues == ChainValues(defs[..k], values) == Flags(r, k)
      invariant MeanValues(defs, values, r)
    {
      assert defs[..k + 1][..k] == defs[..k];
      var value := EvalExpr(defs[k].expr, values, priorValues);
      priorValues := priorValues + [value];
      var named := VirtualValue(defs[k].name, if value then "1" else "0");
      MeanSnoc(defs, values, r, named);
      FlagsSnoc(r, named);
      r := r + [named];
    }
    assert defs[..|defs|] == defs;
  }

  lemma NothingMeant(defs: seq<ResolvedVirtual>, values: seq<string>)
    requires ChainFits(defs, |values|)
    ensures MeanValues(defs, values, []) && Flags([], 0) == []
  {}

  // ---- Ticks where an expression can change ----

  type Traces = seq<seq<Transition>>

  ghost predicate AllStrict(traces: Traces) {
    forall i :: 0 <= i < |traces| ==> StrictlyOrdered(traces[i])
  }

  function TicksOf(ts: seq<Transition>, lo: nat, hi: nat): seq<int> {
    if ts == [] then []
    else
      var t := ts[|ts| - 1].tick;
      TicksOf(ts[..|ts| - 1], lo, hi) + if lo <= t <= hi then [t] else []
  }

  function AtomTicks(a: Atom, virtuals: Traces, signals: Traces, lo: nat, hi: nat): seq<int>
    requires AtomFits(a, |signals|, |virtuals|)
  {
    match a
    case NonZero(i, _, _) => TicksOf(signals[i], lo, hi)
    case Compare(_, i, _, _, rhs) =>
      TicksOf(signals[i], lo, hi) + if rhs.Signal? then TicksOf(signals[rhs.index], lo, hi) else []
    case VirtualRef(v) => TicksOf(virtuals[v], lo, hi)
  }

  function ExprTicks(e: Expr, virtuals: Traces, signals: Traces, lo: nat, hi: nat): seq<int>
    requires ExprFits(e, |signals|, |virtuals|)
    decreases e, 0
  {
    match e
    case AtomExpr(a) => AtomTicks(a, virtuals, signals, lo, hi)
    case Not(inner) => ExprTicks(inner, virtuals, signals, lo, hi)
    case Combine(_, children) => ChildTicks(e, |children|, virtuals, signals, lo, hi)
  }

  function ChildTicks(e: Expr, n: nat, virtuals: Traces, signals: Traces, lo: nat, hi: nat): seq<int>
    requires e.Combine? && n <= |e.children| && ExprFits(e, |signals|, |virtuals|)
    decreases e, 0, n
  {
    if n == 0 then []
    else ChildTicks(e, n - 1, virtuals, signals, lo, hi) + ExprTicks(e.children[n - 1], virtuals, signals, lo, hi)
  }

  method CollectTicks(ts: seq<Transition>, lo: nat, hi: nat, out: seq<int>) returns (r: seq<int>)
    ensures r == out + TicksOf(ts, lo, hi)
  {
    r := out;
    for k := 0 to |ts|
      invariant r == out + TicksOf(ts[..k], lo, hi)
    {
      assert ts[..k + 1][..k] == ts[..k];
      if ts[k].tick >= lo && ts[k].tick <= hi {
        r := r + [ts[k].tick];
      }
    }
    assert ts[..|ts|] == ts;
  }

  method CollectExprTicks(e: Expr, virtuals: Traces, signals: Traces, lo: nat, hi: nat, out: seq<int>) returns (r: seq<int>)
    requires ExprFits(e, |signals|, |virtuals|)
    ensures r == out + ExprTicks(e, virtuals, signals, lo, hi)
    decreases e
  {
    match e
    case AtomExpr(NonZero(i, _, _)) =>
      r := CollectTicks(signals[i], lo, hi, out);
    case AtomExpr(Compare(_, i, _, _, rhs)) =>
      r := CollectTicks(signals[i], lo, hi, out);
      if rhs.Signal? {
        r := CollectTicks(signals[rhs.index], lo, hi, r);
      }
    case AtomExpr(VirtualRef(v)) =>
      r := CollectTicks(virtuals[v], lo, hi, out);
    case Not(inner) =>
      r := CollectExprTicks(inner, virtuals, signals, lo, hi, out);
    case Combine(_, children) =>
      r := out;
      for k := 0 to |children|
        invariant r == out + ChildTicks(e, k, virtuals, signals, lo, hi)
      {
        r := CollectExprTicks(children[k], virtuals, signals, lo, hi, r);
      }
  }

  // ---- Compiling a definition to transitions ----

  function ValuesAt(signals: Traces, tick: int): (r: seq<string>)
    requires AllStrict(signals)
    ensures |r| == |signals|
  {
    seq(|signals|, i requires 0 <= i < |signals| => Lookup(signals[i], tick))
  }

  /** A compiled signal is true unless it reads "0". */
  function TruthsAt(virtuals: Traces, tick: int): (r: seq<bool>)
    requires AllStrict(virtuals)
    ensures |r| == |virtuals|
  {
    seq(|virtuals|, i requires 0 <= i < |virtuals| => Lookup(virtuals[i], tick) != "0")
  }

  /** Value of a definition at a tick, given the compiled earlier definitions. */
  function EvalAt(e: Expr, virtuals: Traces, signals: Traces, tick: int): bool
    requires AllStrict(signals) && AllStrict(virtuals) && ExprFits(e, |signals|, |virtuals|)
  {
    EvalExpr(e, ValuesAt(signals, tick), TruthsAt(virtuals, tick))
  }

  /** The change points of the values at the given ticks. */
  function ChangePoints(ticks: seq<int>, vals: seq<bool>): seq<Transition>
    requires |ticks| == |vals| && forall i :: 0 <= i < |ticks| ==> ticks[i] >= 0
  {
    if ticks == [] then []
    else
      var n := |ticks| - 1;
      ChangePoints(ticks[..n], vals[..n])
        + if n == 0 || vals[n] != vals[n - 1] then [Transition(ticks[n], Truth(vals[n]))] else []
  }

  /** Sorted distinct ticks, from `lo` on. */
  function Timeline(ticks: seq<int>, lo: nat): seq<int> {
    var sorted := SortDedup(ticks);
    if sorted == [] || sorted[0] > lo then [lo] + sorted else sorted
  }

  function EvalAll(e: Expr, virtuals: Traces, signals: Traces, ticks: seq<int>): (r: seq<bool>)
    requires AllStrict(signals) && AllStrict(virtuals) && ExprFits(e, |signals|, |virtuals|)
    ensures |r| == |ticks|
  {
    seq(|ticks|, k requires 0 <= k < |ticks| => EvalAt(e, virtuals, signals, ticks[k]))
  }

  lemma {:induction false} TicksInRange(ts: seq<Transition>, lo: nat, hi: nat)
    ensures forall x :: x in TicksOf(ts, lo, hi) <==> lo <= x <= hi && exists i :: 0 <= i < |ts| && ts[i].tick == x
  {
    if ts != [] {
      var init := ts[..|ts| - 1];
      TicksInRange(init, lo, hi);
      assert forall i :: 0 <= i < |init| ==> init[i] == ts[i];
    }
  }

  lemma {:induction false} ExprTicksInRange(e: Expr, virtuals: Traces, signals: Traces, lo: nat, hi: nat)
    requires ExprFits(e, |signals|, |virtuals|)
    ensures forall x :: x in ExprTicks(e, virtuals, signals, lo, hi) ==> lo <= x <= hi
    decreases e, 0
  {
    hide TicksOf;
    match e
    case AtomExpr(NonZero(i, _, _)) => TicksInRange(signals[i], lo, hi);
    case AtomExpr(Compare(_, i, _, _, rhs)) =>
      TicksInRange(signals[i], lo, hi);
      if rhs.Signal? { TicksInRange(signals[rhs.index], lo, hi); }
    case AtomExpr(VirtualRef(v)) => TicksInRange(virtuals[v], lo, hi);
    case Not(inner) => ExprTicksInRange(inner, virtuals, signals, lo, hi);
    case Combine(_, children) => ChildTicksInRange(e, |children|, virtuals, signals, lo, hi);
  }

  lemma {:induction false} ChildTicksInRange(e: Expr, n: nat, virtuals: Traces, signals: Traces, lo: nat, hi: nat)
    requires e.Combine? && n <= |e.children| && ExprFits(e, |signals|, |virtuals|)
    ensures forall x :: x in ChildTicks(e, n, virtuals, signals, lo, hi) ==> lo <= x <= hi
    decreases e, 0, n
  {
    if n > 0 {
      ChildTicksInRange(e, n - 1, virtuals, signals, lo, hi);
      ExprTicksInRange(e.children[n - 1], virtuals, signals, lo, hi);
    }
  }

  lemma {:induction false} ChildTicksInclude(e: Expr, n: nat, k: nat, virtuals: Traces, signals: Traces, lo: nat, hi: nat)
    requires e.Combine? && k < n <= |e.children| && ExprFits(e, |signals|, |virtuals|)
    ensures forall x :: x in ExprTicks(e.children[k], virtuals, signals, lo, hi) ==> x in ChildTicks(e, n, virtuals, signals, lo, hi)
    decreases n
  {
    if k < n - 1 { ChildTicksInclude(e, n - 1, k, virtuals, signals, lo, hi); }
  }

  /** No transition between `from` and `to`, no change of the lookup. */
  lemma LookupHolds(ts: seq<Transition>, lo: nat, hi: nat, from: nat, to: nat)
    requires StrictlyOrdered(ts) && lo <= from <= to <= hi
    requires forall x :: x in TicksOf(ts, lo, hi) ==> !(from < x <= to)
    ensures Lookup(ts, from) == Lookup(ts, to)
  {
    TicksInRange(ts, lo, hi);
    LookupIsValueAtTick(ts, from);
    LookupIsValueAtTick(ts, to);
    forall i | 0 <= i < |ts| ensures !(from < ts[i].tick <= to) {
      assert lo <= ts[i].tick <= hi ==> ts[i].tick in TicksOf(ts, lo, hi);
    }
    ValueHolds(ts, from, to);
  }

  /** Between the collected ticks an expression keeps its value. */
  lemma {:induction false} EvalHolds(e: Expr, virtuals: Traces, signals: Traces, lo: nat, hi: nat, from: nat, to: nat)
    requires AllStrict(signals) && AllStrict(virtuals) && ExprFits(e, |signals|, |virtuals|)
    requires lo <= from <= to <= hi
    requires forall x :: x in ExprTicks(e, virtuals, signals, lo, hi) ==> !(from < x <= to)
    ensures EvalAt(e, virtuals, signals, from) == EvalAt(e, virtuals, signals, to)
    decreases e
  {
    hide TicksOf, Lookup, ValuesMatch, NumericValue, CompareText, HexToU128;
    var mine := ExprTicks(e, virtuals, signals, lo, hi);
    assert forall x :: x in mine ==> !(from < x <= to);
    match e
    case AtomExpr(NonZero(i, _, _)) => LookupHolds(signals[i], lo, hi, from, to);
    case AtomExpr(Compare(_, i, _, _, rhs)) =>
      assert forall x :: x in TicksOf(signals[i], lo, hi) ==> x in mine;
      assert rhs.Signal? ==> forall x :: x in TicksOf(signals[rhs.index], lo, hi) ==> x in mine;
      LookupHolds(signals[i], lo, hi, from, to);
      if rhs.Signal? { LookupHolds(signals[rhs.index], lo, hi, from, to); }
    case AtomExpr(VirtualRef(v)) => LookupHolds(virtuals[v], lo, hi, from, to);
    case Not(inner) => EvalHolds(inner, virtuals, signals, lo, hi, from, to);
    case Combine(op, children) =>
      var a := seq(|children|, i requires 0 <= i < |children| => EvalAt(children[i], virtuals, signals, from));
      var b := seq(|children|, i requires 0 <= i < |children| => EvalAt(children[i], virtuals, signals, to));
      forall i | 0 <= i < |children| ensures a[i] == b[i] {
        ChildTicksInclude(e, |children|, i, virtuals, signals, lo, hi);
        EvalHolds(children[i], virtuals, signals, lo, hi, from, to);
      }
      assert a == b;
      CombineUnfold(op, children, virtuals, signals, from, a);
      CombineUnfold(op, children, virtuals, signals, to, b);
  }

  lemma CombineUnfold(op: CombineOp, children: seq<Expr>, virtuals: Traces, signals: Traces, tick: nat, vals: seq<bool>)
    requires AllStrict(signals) && AllStrict(virtuals) && ExprFits(Combine(op, children), |signals|, |virtuals|)
    requires |vals| == |children| && forall i :: 0 <= i < |children| ==> vals[i] == EvalAt(children[i], virtuals, signals, tick)
    ensures EvalAt(Combine(op, children), virtuals, signals, tick) == CombineAll(op, vals)
  {
    var values, truths := ValuesAt(signals, tick), TruthsAt(virtuals, tick);
    var mine := seq(|children|, i requires 0 <= i < |children| => EvalExpr(children[i], values, truths));
    assert mine == vals;
    hide CombineAll, ValuesAt, TruthsAt;
  }

  // ---- The compiled list ----

  ghost predicate Timed(ticks: seq<int>, vals: seq<bool>) {
    |ticks| == |vals| && StrictlyIncreasing(ticks) && forall i :: 0 <= i < |ticks| ==> ticks[i] >= 0
  }

  lemma ValueAtSnoc(ts: seq<Transition>, x: Transition, tick: int)
    requires StrictlyOrdered(ts + [x])
    ensures Ordered(ts + [x]) && Ordered(ts)
    ensures ValueAtTick(ts + [x], tick) == if x.tick <= tick then x.value else ValueAtTick(ts, tick)
  {
    assert (ts + [x])[..|ts|] == ts;
    assert forall i :: 0 <= i < |ts| ==> (ts + [x])[i] == ts[i];
  }

  /** Values alternate between "0" and "1". */
  ghost predicate Alternates(ts: seq<Transition>) {
    forall i :: 0 <= i < |ts| ==> (ts[i].value == "0" || ts[i].value == "1") && (i > 0 ==> ts[i].value != ts[i - 1].value)
  }

  lemma SnocShape(ts: seq<Transition>, x: Transition)
    requires StrictlyOrdered(ts) && Alternates(ts) && ts != []
    requires ts[|ts| - 1].tick < x.tick && ts[|ts| - 1].value != x.value && (x.value == "0" || x.value == "1")
    ensures StrictlyOrdered(ts + [x]) && Alternates(ts + [x])
  {
    var all := ts + [x];
    assert forall i :: 0 <= i < |ts| ==> all[i] == ts[i];
    assert all[|ts|] == x;
  }

  /** Strictly ordered and alternating, from the first tick's value to the last one's. */
  ghost predicate Shape(ts: seq<Transition>, ticks: seq<int>, vals: seq<bool>)
    requires Timed(ticks, vals) && ticks != []
  {
    && StrictlyOrdered(ts) && Alternates(ts) && ts != []
    && ts[0] == Transition(ticks[0], Truth(vals[0]))
    && ts[|ts| - 1].tick <= ticks[|ticks| - 1] && ts[|ts| - 1].value == Truth(vals[|vals| - 1])
  }

  lemma OneChangePoint(ticks: seq<int>, vals: seq<bool>)
    requires Timed(ticks, vals) && |ticks| == 1
    ensures ChangePoints(ticks, vals) == [Transition(ticks[0], Truth(vals[0]))]
  {
    assert ChangePoints(ticks[..0], vals[..0]) == [];
  }

  lemma ChangePointsUnfold(ticks: seq<int>, vals: seq<bool>)
    requires Timed(ticks, vals) && |ticks| > 1
    ensures var n := |ticks| - 1;
            && Timed(ticks[..n], vals[..n]) && ticks[n - 1] < ticks[n]
            && ChangePoints(ticks, vals) == ChangePoints(ticks[..n], vals[..n])
              + if vals[n] != vals[n - 1] then [Transition(ticks[n], Truth(vals[n]))] else []
  {}

  lemma GrownShape(ts: seq<Transition>, ticks: seq<int>, vals: seq<bool>)
    requires Timed(ticks, vals) && |ticks| > 1 && Timed(ticks[..|ticks| - 1], vals[..|ticks| - 1])
    requires Shape(ts, ticks[..|ticks| - 1], vals[..|ticks| - 1]) && ticks[|ticks| - 2] < ticks[|ticks| - 1]
    ensures var n := |ticks| - 1;
            Shape(ts + if vals[n] != vals[n - 1] then [Transition(ticks[n], Truth(vals[n]))] else [], ticks, vals)
  {
    hide StrictlyIncreasing, Alternates, StrictlyOrdered;
    var n := |ticks| - 1;
    if vals[n] != vals[n - 1] {
      SnocShape(ts, Transition(ticks[n], Truth(vals[n])));
    } else {
      assert ts + [] == ts;
    }
  }

  /** Change points are strictly ordered, begin with the first tick and alternate. */
  lemma {:induction false} ChangePointsShape(ticks: seq<int>, vals: seq<bool>)
    requires Timed(ticks, vals) && ticks != []
    ensures Shape(ChangePoints(ticks, vals), ticks, vals)
  {
    var n := |ticks| - 1;
    if n == 0 {
      OneChangePoint(ticks, vals);
    } else {
      hide *;
      ChangePointsUnfold(ticks, vals);
      TimedLength(ticks, vals);
      ChangePointsShape(ticks[..n], vals[..n]);
      GrownShape(ChangePoints(ticks[..n], vals[..n]), ticks, vals);
    }
  }

  lemma TimedLength(ticks: seq<int>, vals: seq<bool>)
    requires Timed(ticks, vals)
    ensures |ticks| == |vals|
    ensures forall i :: 0 <= i < |ticks| ==> ticks[i] >= 0
    ensures forall i, j :: 0 <= i < j < |ticks| ==> ticks[i] < ticks[j]
  {}

  lemma OneLookup(x: Transition, tick: int)
    requires x.tick <= tick
    ensures Ordered([x]) && ValueAtTick([x], tick) == x.value
  {}

  /** Reading the change points at a tick gives the value of the last listed tick before it. */
  lemma {:induction false} ChangePointsLookup(ticks: seq<int>, vals: seq<bool>, s: nat, tick: int)
    requires Timed(ticks, vals) && s < |ticks| && ticks[s] <= tick && (s + 1 < |ticks| ==> tick < ticks[s + 1])
    ensures Ordered(ChangePoints(ticks, vals)) && ValueAtTick(ChangePoints(ticks, vals), tick) == Truth(vals[s])
    decreases |ticks|
  {
    var n := |ticks| - 1;
    if n == 0 {
      hide *;
      OneChangePoint(ticks, vals);
      TimedLength(ticks, vals);
      OneLookup(Transition(ticks[0], Truth(vals[0])), tick);
    } else {
      var k := if s < n then s else n - 1;
      PrefixTimed(ticks, vals, s, tick);
      hide *;
      if s < n || vals[n] == vals[n - 1] {
        ChangePointsLookup(ticks[..n], vals[..n], k, tick);
      }
      LookupStep(ticks, vals, s, tick);
    }
  }

  lemma PrefixTimed(ticks: seq<int>, vals: seq<bool>, s: nat, tick: int)
    requires Timed(ticks, vals) && |ticks| > 1
    requires s < |ticks| && ticks[s] <= tick && (s + 1 < |ticks| ==> tick < ticks[s + 1])
    ensures var n := |ticks| - 1;
            var k := if s < n then s else n - 1;
            && |ticks| == |vals| && Timed(ticks[..n], vals[..n]) && ticks[..n][k] <= tick
            && (k + 1 < n ==> tick < ticks[..n][k + 1])
            && vals[..n][k] == vals[k] && (forall i :: 0 <= i < |ticks| ==> ticks[i] >= 0)
            && (s < n ==> tick < ticks[n])
  {
    var n := |ticks| - 1;
    assert s < n - 1 ==> ticks[s + 1] < ticks[n];
  }

  lemma LookupStep(ticks: seq<int>, vals: seq<bool>, s: nat, tick: int)
    requires Timed(ticks, vals) && |ticks| > 1 && Timed(ticks[..|ticks| - 1], vals[..|ticks| - 1])
    requires s < |ticks| && ticks[s] <= tick && (s < |ticks| - 1 ==> tick < ticks[|ticks| - 1])
    requires Ordered(ChangePoints(ticks[..|ticks| - 1], vals[..|ticks| - 1])) || vals[|ticks| - 1] != vals[|ticks| - 2]
    requires s < |ticks| - 1 || vals[|ticks| - 1] == vals[|ticks| - 2] ==>
               var init := ChangePoints(ticks[..|ticks| - 1], vals[..|ticks| - 1]);
               Ordered(init) && ValueAtTick(init, tick) == Truth(vals[if s < |ticks| - 1 then s else |ticks| - 2])
    ensures Ordered(ChangePoints(ticks, vals)) && ValueAtTick(ChangePoints(ticks, vals), tick) == Truth(vals[s])
  {
    var n := |ticks| - 1;
    var init := ChangePoints(ticks[..n], vals[..n]);
    TimedLength(ticks, vals);
    hide *;
    ChangePointsUnfold(ticks, vals);
    ChangePointsShape(ticks, vals);
    ShapeIsOrdered(ChangePoints(ticks, vals), ticks, vals);
    if vals[n] != vals[n - 1] {
      ValueAtSnoc(init, Transition(ticks[n], Truth(vals[n])), tick);
    } else {
      assert init + [] == init;
    }
  }

  lemma ShapeIsOrdered(ts: seq<Transition>, ticks: seq<int>, vals: seq<bool>)
    requires Timed(ticks, vals) && ticks != [] && Shape(ts, ticks, vals)
    ensures StrictlyOrdered(ts)
  {}

  lemma TimelineMeaning(ticks: seq<int>, lo: nat)
    requires forall x :: x in ticks ==> lo <= x
    ensures var line := Timeline(ticks, lo);
            && StrictlyIncreasing(line) && line != [] && line[0] == lo
            && (forall x :: x in line <==> x == lo || x in ticks)
            && (forall i :: 0 <= i < |line| ==> line[i] >= lo)
  {
    SortDedupMeaning(ticks);
    hide SortDedup;
    var sorted := SortDedup(ticks);
    forall i | 0 <= i < |sorted| ensures sorted[i] >= lo {
      assert sorted[i] in sorted;
      assert sorted[i] in ticks;
    }
  }

  /** What `BuildVirtualTransitions` returns. */
  ghost function Compiled(e: Expr, virtuals: Traces, signals: Traces, lo: nat, hi: nat): seq<Transition>
    requires AllStrict(signals) && AllStrict(virtuals) && ExprFits(e, |signals|, |virtuals|)
  {
    ExprTicksInRange(e, virtuals, signals, lo, hi);
    TimelineMeaning(ExprTicks(e, virtuals, signals, lo, hi), lo);
    var line := Timeline(ExprTicks(e, virtuals, signals, lo, hi), lo);
    ChangePoints(line, EvalAll(e, virtuals, signals, line))
  }

  /** Position of the last listed tick at or before `tick`. */
  lemma {:induction false} LastBefore(line: seq<int>, tick: int) returns (s: nat)
    requires StrictlyIncreasing(line) && line != [] && line[0] <= tick
    ensures s < |line| && line[s] <= tick
    ensures forall x :: x in line ==> !(line[s] < x <= tick)
    ensures s + 1 < |line| ==> tick < line[s + 1]
  {
    s := |line| - 1;
    while line[s] > tick
      invariant s < |line| && forall i :: s < i < |line| ==> line[i] > tick
    {
      s := s - 1;
    }
  }

  /** The compiled list of one definition reads, anywhere in the window, as the expression does. */
  lemma CompiledIsPointwise(e: Expr, virtuals: Traces, signals: Traces, lo: nat, hi: nat, tick: nat)
    requires AllStrict(signals) && AllStrict(virtuals) && ExprFits(e, |signals|, |virtuals|)
    requires lo <= tick <= hi
    ensures var ts := Compiled(e, virtuals, signals, lo, hi);
            StrictlyOrdered(ts) && Lookup(ts, tick) == Truth(EvalAt(e, virtuals, signals, tick))
  {
    var ticks := ExprTicks(e, virtuals, signals, lo, hi);
    var line := Timeline(ticks, lo);
    var vals := EvalAll(e, virtuals, signals, line);
    ExprTicksInRange(e, virtuals, signals, lo, hi);
    TimelineMeaning(ticks, lo);
    hide Timeline, ExprTicks, EvalAt, ChangePoints, ExprFits;
    var s := LastBefore(line, tick);
    assert line[s] >= lo;
    EvalHolds(e, virtuals, signals, lo, hi, line[s], tick);
    ChangePointsShape(line, vals);
    ChangePointsLookup(line, vals, s, tick);
    LookupIsValueAtTick(ChangePoints(line, vals), tick);
  }

  lemma CompiledShape(e: Expr, virtuals: Traces, signals: Traces, lo: nat, hi: nat)
    requires AllStrict(signals) && AllStrict(virtuals) && ExprFits(e, |signals|, |virtuals|)
    ensures var ts := Compiled(e, virtuals, signals, lo, hi);
            StrictlyOrdered(ts) && ts != [] && ts[0].tick == lo && Alternates(ts)
  {
    var ticks := ExprTicks(e, virtuals, signals, lo, hi);
    ExprTicksInRange(e, virtuals, signals, lo, hi);
    TimelineMeaning(ticks, lo);
    hide Timeline, ExprTicks, EvalAt, ChangePoints, ExprFits;
    ChangePointsShape(Timeline(ticks, lo), EvalAll(e, virtuals, signals, Timeline(ticks, lo)));
  }

  lemma ChangePointsNext(ticks: seq<int>, vals: seq<bool>, k: nat)
    requires |ticks| == |vals| && k < |ticks| && forall i :: 0 <= i < |ticks| ==> ticks[i] >= 0
    ensures ChangePoints(ticks[..k + 1], vals[..k + 1])
         == ChangePoints(ticks[..k], vals[..k])
              + if k == 0 || vals[k] != vals[k - 1] then [Transition(ticks[k], Truth(vals[k]))] else []
  {
    assert ticks[..k + 1][..k] == ticks[..k] && vals[..k + 1][..k] == vals[..k];
  }

  /** Evaluates an expression at each tick and keeps the changes. */
  method KeepChanges(e: Expr, virtuals: Traces, signals: Traces, ticks: seq<int>) returns (result: seq<Transition>)
    requires AllStrict(signals) && AllStrict(virtuals) && ExprFits(e, |signals|, |virtuals|)
    requires forall i :: 0 <= i < |ticks| ==> ticks[i] >= 0
    ensures result == ChangePoints(ticks, EvalAll(e, virtuals, signals, ticks))
  {
    hide *;
    ghost var vals := EvalAll(e, virtuals, signals, ticks);
    NoChangePoints(ticks, vals);
    result := [];
    var prevVal: Option<bool> := None;
    for k := 0 to |ticks|
      invariant prevVal == if k == 0 then None else Some(vals[k - 1])
      invariant result == ChangePoints(ticks[..k], vals[..k])
    {
      ChangePointsNext(ticks, vals, k);
      var val := EvalTick(e, virtuals, signals, ticks, k);
      if prevVal != Some(val) {
        result := result + [Transition(ticks[k], Truth(val))];
        prevVal := Some(val);
      } else {
        assert result + [] == result;
      }
    }
    WholeLists(ticks, vals);
  }

  method EvalTick(e: Expr, virtuals: Traces, signals: Traces, ticks: seq<int>, k: nat) returns (val: bool)
    requires AllStrict(signals) && AllStrict(virtuals) && ExprFits(e, |signals|, |virtuals|) && k < |ticks|
    ensures val == EvalAll(e, virtuals, signals, ticks)[k]
  {
    val := EvalExpr(e, ValuesAt(signals, ticks[k]), TruthsAt(virtuals, ticks[k]));
  }

  /** Collects the ticks an expression depends on and keeps the changes among its values there. */
  method BuildVirtualTransitions(rv: ResolvedVirtual, virtuals: Traces, signals: Traces, lo: nat, hi: nat)
    returns (result: seq<Transition>)
    requires AllStrict(signals) && AllStrict(virtuals) && ExprFits(rv.expr, |signals|, |virtuals|)
    ensures result == Compiled(rv.expr, virtuals, signals, lo, hi)
  {
    hide ExprTicks, EvalExpr, ExprFits, SortDedup, ChangePoints, AllStrict;
    var collected := CollectExprTicks(rv.expr, virtuals, signals, lo, hi, []);
    assert [] + ExprTicks(rv.expr, virtuals, signals, lo, hi) == ExprTicks(rv.expr, virtuals, signals, lo, hi);
    ExprTicksInRange(rv.expr, virtuals, signals, lo, hi);
    TimelineMeaning(collected, lo);
    var allTicks := SortDedup(collected);
    if allTicks == [] || allTicks[0] > lo {
      allTicks := [lo] + allTicks;
    }
    assert allTicks == Timeline(collected, lo);
    result := KeepChanges(rv.expr, virtuals, signals, allTicks);
  }

  lemma NoChangePoints(ticks: seq<int>, vals: seq<bool>)
    requires |ticks| == |vals|
    ensures ChangePoints(ticks[..0], vals[..0]) == []
  {}

  lemma WholeLists(ticks: seq<int>, vals: seq<bool>)
    requires |ticks| == |vals|
    ensures ticks[..|ticks|] == ticks && vals[..|ticks|] == vals
  {}

  // ---- Chains of definitions ----

  /** The compiled lists of an ordered chain, each built from the ones before it. */
  ghost function CompiledChain(defs: seq<ResolvedVirtual>, signals: Traces, lo: nat, hi: nat): (r: Traces)
    requires AllStrict(signals) && ChainFits(defs, |signals|)
    ensures |r| == |defs| && AllStrict(r)
  {
    if defs == [] then []
    else
      var n := |defs| - 1;
      var prior := CompiledChain(defs[..n], signals, lo, hi);
      CompiledShape(defs[n].expr, prior, signals, lo, hi);
      prior + [Compiled(defs[n].expr, prior, signals, lo, hi)]
  }

  lemma TruthsSnoc(virtuals: Traces, ts: seq<Transition>, tick: int)
    requires AllStrict(virtuals) && StrictlyOrdered(ts)
    ensures AllStrict(virtuals + [ts])
    ensures TruthsAt(virtuals + [ts], tick) == TruthsAt(virtuals, tick) + [Lookup(ts, tick) != "0"]
  {
    hide Lookup;
  }

  /** Through any chain of definitions, reading the compiled lists at any tick of the window
      gives what evaluating the definitions in order at that tick gives. */
  lemma {:induction false} ChainIsPointwise(defs: seq<ResolvedVirtual>, signals: Traces, lo: nat, hi: nat, tick: nat)
    requires AllStrict(signals) && ChainFits(defs, |signals|) && lo <= tick <= hi
    ensures TruthsAt(CompiledChain(defs, signals, lo, hi), tick) == ChainValues(defs, ValuesAt(signals, tick))
    ensures forall k :: 0 <= k < |defs| ==>
              Lookup(CompiledChain(defs, signals, lo, hi)[k], tick) == Truth(ChainValues(defs, ValuesAt(signals, tick))[k])
  {
    if defs != [] {
      var n := |defs| - 1;
      var prior := CompiledChain(defs[..n], signals, lo, hi);
      ChainIsPointwise(defs[..n], signals, lo, hi, tick);
      CompiledIsPointwise(defs[n].expr, prior, signals, lo, hi, tick);
      hide Compiled, EvalExpr, Lookup, ValuesAt, StrictlyOrdered;
      TruthsSnoc(prior, Compiled(defs[n].expr, prior, signals, lo, hi), tick);
    }
  }

  lemma {:induction false} ChainShape(defs: seq<ResolvedVirtual>, signals: Traces, lo: nat, hi: nat, k: nat)
    requires AllStrict(signals) && ChainFits(defs, |signals|) && k < |defs|
    ensures var ts := CompiledChain(defs, signals, lo, hi)[k];
            StrictlyOrdered(ts) && ts != [] && ts[0].tick == lo && Alternates(ts)
  {
    var n := |defs| - 1;
    if k < n {
      ChainShape(defs[..n], signals, lo, hi, k);
    } else {
      CompiledShape(defs[n].expr, CompiledChain(defs[..n], signals, lo, hi), signals, lo, hi);
    }
    hide Compiled;
  }

  /** The values in force at a tick. */
  ghost predicate InForce(values: seq<string>, signals: Traces, tick: nat)
    requires AllStrict(signals)
  {
    |values| == |signals| && forall i :: 0 <= i < |signals| ==> values[i] == Lookup(signals[i], tick)
  }

  /** Which of the first `k` compiled signals read "1" at a tick. */
  ghost predicate AreOnes(prior: seq<bool>, compiled: Traces, k: nat, tick: nat)
    requires AllStrict(compiled) && k <= |compiled|
  {
    |prior| == k && forall i :: 0 <= i < k ==> (prior[i] <==> Lookup(compiled[i], tick) == "1")
  }

  /** Read at a tick, a compiled signal says whether its expression holds of the values in force there. */
  ghost predicate MeansAt(defs: seq<ResolvedVirtual>, signals: Traces, compiled: Traces, k: nat, tick: nat)
    requires AllStrict(signals) && AllStrict(compiled) && ChainFits(defs, |signals|) && k < |defs| == |compiled|
  {
    forall values: seq<string>, prior: seq<bool> :: InForce(values, signals, tick) && AreOnes(prior, compiled, k, tick) ==>
      Lookup(compiled[k], tick) == if Holds(defs[k].expr, values, prior) then "1" else "0"
  }

  lemma {:induction false} ChainPrefix(defs: seq<ResolvedVirtual>, signals: Traces, lo: nat, hi: nat, k: nat)
    requires AllStrict(signals) && ChainFits(defs, |signals|) && k < |defs|
    ensures AllStrict(CompiledChain(defs[..k], signals, lo, hi))
    ensures CompiledChain(defs, signals, lo, hi)[..k] == CompiledChain(defs[..k], signals, lo, hi)
    ensures CompiledChain(defs, signals, lo, hi)[k] == Compiled(defs[k].expr, CompiledChain(defs[..k], signals, lo, hi), signals, lo, hi)
  {
    hide Compiled, StrictlyOrdered, ExprFits;
    var n := |defs| - 1;
    if k < n {
      ChainPrefix(defs[..n], signals, lo, hi, k);
      assert defs[..n][..k] == defs[..k];
    }
  }

  lemma ChainMeansAt(defs: seq<ResolvedVirtual>, signals: Traces, lo: nat, hi: nat, k: nat, tick: nat)
    requires AllStrict(signals) && ChainFits(defs, |signals|) && k < |defs| && lo <= tick <= hi
    ensures MeansAt(defs, signals, CompiledChain(defs, signals, lo, hi), k, tick)
  {
    var r := CompiledChain(defs, signals, lo, hi);
    var e, earlier := defs[k].expr, CompiledChain(defs[..k], signals, lo, hi);
    ChainPrefix(defs, signals, lo, hi, k);
    CompiledIsPointwise(e, earlier, signals, lo, hi, tick);
    ChainIsPointwise(defs, signals, lo, hi, tick);
    hide CompiledChain, Compiled, ChainValues, Lookup, Holds, EvalExpr, StrictlyOrdered, ExprFits;
    forall values: seq<string>, prior: seq<bool> | InForce(values, signals, tick) && AreOnes(prior, r, k, tick)
      ensures Lookup(r[k], tick) == if Holds(e, values, prior) then "1" else "0"
    {
      assert values == ValuesAt(signals, tick);
      forall i | 0 <= i < k ensures prior[i] == TruthsAt(earlier, tick)[i] { assert r[..k][i] == earlier[i]; }
      assert prior == TruthsAt(earlier, tick);
      EvalIsMeaning(e, values, prior);
    }
  }

  /** Builds every definition of a chain: at every tick of the window a compiled list reads as its expression says. The
      lists are minimal: they start at the window's first tick and their values alternate. */
  method BuildChain(defs: seq<ResolvedVirtual>, signals: Traces, lo: nat, hi: nat) returns (r: Traces)
    requires AllStrict(signals) && ChainFits(defs, |signals|)
    ensures |r| == |defs| && AllStrict(r)
    ensures forall k :: 0 <= k < |defs| ==> r[k] != [] && r[k][0].tick == lo && Alternates(r[k])
    ensures forall k, tick: nat :: 0 <= k < |defs| && lo <= tick <= hi ==> MeansAt(defs, signals, r, k, tick)
    ensures forall k, tick: nat :: 0 <= k < |defs| && lo <= tick <= hi ==>
              Lookup(r[k], tick) == Truth(ChainValues(defs, ValuesAt(signals, tick))[k])
  {
    r := [];
    hide Compiled, EvalExpr, Lookup, ExprFits, Alternates, StrictlyOrdered, MeansAt;
    for n := 0 to |defs|
      invariant ChainFits(defs[..n], |signals|)
      invariant r == CompiledChain(defs[..n], signals, lo, hi)
    {
      assert defs[..n + 1][..n] == defs[..n];
      var built := BuildVirtualTransitions(defs[n], r, signals, lo, hi);
      r := r + [built];
    }
    assert defs[..|defs|] == defs;
    hide CompiledChain, ChainValues;
    forall k | 0 <= k < |defs| ensures r[k] != [] && r[k][0].tick == lo && Alternates(r[k]) {
      ChainShape(defs, signals, lo, hi, k);
    }
    forall k, tick: nat | 0 <= k < |defs| && lo <= tick <= hi
      ensures MeansAt(defs, signals, r, k, tick)
      ensures Lookup(r[k], tick) == Truth(ChainValues(defs, ValuesAt(signals, tick))[k])
    {
      ChainMeansAt(defs, signals, lo, hi, k, tick);
      ChainIsPointwise(defs, signals, lo, hi, tick);
    }
  }
}
