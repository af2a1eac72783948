/** Machine integers, optional values and inclusive intervals shared by the other modules. */
module Basics {

  /** Ticks, cycles and counts are `nat`; this bound is stated where the source's
      unsigned 64-bit arithmetic is checked, saturates or could wrap. */
  const U64_MAX: nat := 0xFFFF_FFFF_FFFF_FFFF

  /** What a signed 64-bit query bound can hold. */
  type Int64 = n: int | -0x8000_0000_0000_0000 <= n <= 0x7FFF_FFFF_FFFF_FFFF

  datatype Option<+T> = None | Some(value: T)

  datatype Result<+T, +E> = Ok(value: T) | Err(error: E)

  function Min(a: int, b: int): int { if a <= b then a else b }

  function Max(a: int, b: int): int { if a <= b then b else a }

  function CheckedAdd(a: nat, b: nat): Option<nat> {
    if a + b <= U64_MAX then Some(a + b) else None
  }

  function SaturatingAdd(a: nat, b: nat): nat {
    if a + b <= U64_MAX then a + b else U64_MAX
  }

  /** Inclusive interval of ticks or of cycle numbers. */
  datatype Interval = Interval(lo: nat, hi: nat)

  ghost predicate Covers(rs: seq<Interval>, c: int) {
    exists i :: 0 <= i < |rs| && rs[i].lo <= c <= rs[i].hi
  }

  ghost predicate NonEmpty(rs: seq<Interval>) {
    forall i :: 0 <= i < |rs| ==> rs[i].lo <= rs[i].hi
  }

  /** Ascending, pairwise disjoint and non-empty. */
  ghost predicate Ascending(rs: seq<Interval>) {
    && NonEmpty(rs)
    && forall i, j :: 0 <= i < j < |rs| ==> rs[i].hi < rs[j].lo
  }

  /** Ascending with at least one uncovered number between neighbours. */
  ghost predicate Separated(rs: seq<Interval>) {
    && NonEmpty(rs)
    && forall i, j :: 0 <= i < j < |rs| ==> rs[i].hi + 1 < rs[j].lo
  }

  lemma CoversAppend(rs: seq<Interval>, r: Interval)
    ensures forall c :: Covers(rs + [r], c) <==> Covers(rs, c) || r.lo <= c <= r.hi
  {
    forall c
      ensures Covers(rs + [r], c) <==> Covers(rs, c) || r.lo <= c <= r.hi
    {
      var all := rs + [r];
      if Covers(rs, c) {
        var i :| 0 <= i < |rs| && rs[i].lo <= c <= rs[i].hi;
        assert all[i] == rs[i];
      }
      assert all[|rs|] == r;
    }
  }
}
