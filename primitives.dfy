/**
 * Scalar representations shared by the whole model: identifiers, instants,
 * money, and the 32-bit `int` of C#.
 */
module Primitives {
  import opened Wrappers

  /** A `Guid`; every identifier the source draws with `Guid.NewGuid()` is a parameter here. */
  type Guid = nat

  /** A `DateTime`, as whole seconds since 0001-01-01T00:00:00 UTC. */
  type DateTime = int

  /** The range of `DateTime`: from 0001-01-01 up to the last second of 9999-12-31. */
  predicate IsDateTime(t: int) { 0 <= t < 3_652_059 * SecondsPerDay }

  /** A `decimal(18,2)` amount, in cents. */
  type Money = int

  const SecondsPerDay: int := 86400
  const SecondsPerWeek: int := 7 * SecondsPerDay

  const MinInt32: int := -0x8000_0000
  const MaxInt32: int := 0x7FFF_FFFF

  predicate IsInt32(x: int) { MinInt32 <= x <= MaxInt32 }

  /** C#'s unchecked `int` arithmetic: the result is reduced into 32 bits, with wrap-around. */
  function Wrap32(x: int): (r: int)
    ensures IsInt32(r)
    ensures (r - x) % 0x1_0000_0000 == 0
    ensures IsInt32(x) ==> r == x
  {
    (x - MinInt32) % 0x1_0000_0000 + MinInt32
  }

  /** The exact sum of a sequence of integers. */
  function Sum(xs: seq<int>): int
  {
    if xs == [] then 0 else xs[0] + Sum(xs[1..])
  }

  /**
   * `Enumerable.Sum` over `int`: it adds from left to right onto `acc` in a
   * `checked` context, so it fails (throws `OverflowException`; `None` here) as
   * soon as one partial sum leaves the 32-bit range.
   */
  function CheckedSum(xs: seq<int>, acc: int): (r: Option<int>)
    ensures r.Some? ==> r.value == acc + Sum(xs)
    ensures r.Some? && IsInt32(acc) ==> IsInt32(r.value)
  {
    if xs == [] then Some(acc)
    else
      var next := acc + xs[0];
      if !IsInt32(next) then None else CheckedSum(xs[1..], next)
  }

  lemma {:induction false} SumNonNegative(xs: seq<int>)
    requires forall i :: 0 <= i < |xs| ==> xs[i] >= 0
    ensures Sum(xs) >= 0
  {
    if xs != [] {
      SumNonNegative(xs[1..]);
    }
  }

  /**
   * Over non-negative terms the partial sums only grow, so `CheckedSum`
   * succeeds exactly when the whole total fits in an `int`.
   */
  lemma {:induction false} CheckedSumOfNaturals(xs: seq<int>, acc: int)
    requires 0 <= acc <= MaxInt32
    requires forall i :: 0 <= i < |xs| ==> xs[i] >= 0
    ensures CheckedSum(xs, acc).Some? <==> acc + Sum(xs) <= MaxInt32
    ensures CheckedSum(xs, acc).Some? ==> CheckedSum(xs, acc).value == acc + Sum(xs)
  {
    if xs != [] {
      SumNonNegative(xs[1..]);
      if IsInt32(acc + xs[0]) {
        CheckedSumOfNaturals(xs[1..], acc + xs[0]);
      }
    }
  }

  function Max(a: int, b: int): (r: int)
    ensures r >= a && r >= b && (r == a || r == b)
  {
    if a >= b then a else b
  }
}
