/**
  Binary search over the sorted scalar ranges of a Unicode class. Every
  comparison is charged before it is made, and the worst case is computed by a
  logarithmic recurrence.
 */
module ScalarSearch {
  import opened Wrappers
  import opened Metering

  datatype ScalarRange = ScalarRange(start: nat, end: nat)

  /** Canonical ranges: none empty, sorted, disjoint. */
  predicate Canonical(ranges: seq<ScalarRange>) {
    && |ranges| <= USIZE_MAX
    && (forall i :: 0 <= i < |ranges| ==> ranges[i].start <= ranges[i].end)
    && (forall i, j :: 0 <= i < j < |ranges| ==> ranges[i].end < ranges[j].start)
  }

  predicate Within(ranges: seq<ScalarRange>, scalar: nat, i: int) {
    0 <= i < |ranges| && ranges[i].start <= scalar <= ranges[i].end
  }

  ghost predicate Member(ranges: seq<ScalarRange>, scalar: nat) {
    exists i :: Within(ranges, scalar, i)
  }

  function SaturatingAdd(a: nat, b: nat): nat {
    if a + b <= USIZE_MAX then a + b else USIZE_MAX
  }

  function SaturatingSub(a: nat, b: nat): nat {
    if b <= a then a - b else 0
  }

  // ----- Cost of a search -----

  /** Comparisons made by a search between `lower` and `upper`. */
  function Comparisons(ranges: seq<ScalarRange>, scalar: nat, lower: nat, upper: nat): nat
    requires lower <= upper <= |ranges|
    decreases upper - lower
  {
    if lower == upper then 0
    else
      var middle := lower + (upper - lower) / 2;
      if scalar < ranges[middle].start then 1 + Comparisons(ranges, scalar, lower, middle)
      else if scalar > ranges[middle].end then 2 + Comparisons(ranges, scalar, middle + 1, upper)
      else 2
  }

  /** The worst search over `n` ranges: one comparison to go left, two to stop or go right. */
  function Worst(n: nat): nat {
    if n == 0 then 0 else Max(1 + Worst(n / 2), 2 + Worst(n - 1 - n / 2))
  }

  /** The source's recurrence: the bounds for `n` and for `n - 1` ranges. */
  function ComparisonBound(n: nat): (nat, nat) {
    if n == 0 then (0, 0)
    else if n == 1 then (2, 0)
    else
      var (half, preceding) := ComparisonBound(n / 2);
      if n % 2 == 0 then (Max(SaturatingAdd(half, 1), SaturatingAdd(preceding, 2)), SaturatingAdd(preceding, 2))
      else (SaturatingAdd(half, 2), Max(SaturatingAdd(half, 1), SaturatingAdd(preceding, 2)))
  }

  /** The worst case stays far below the range of a machine word. */
  lemma {:induction false} WorstIsSmall(n: nat)
    ensures Worst(n) <= n + 1
    ensures n >= 4 ==> Worst(n) <= n
  {
    hide Worst;
    WorstOfNone();
    WorstOfFew();
    if n > 3 {
      WorstStep(n);
      WorstIsSmall(n / 2);
      WorstIsSmall(n - 1 - n / 2);
    }
  }

  lemma WorstStep(n: nat)
    requires n > 0
    ensures Worst(n) == Max(1 + Worst(n / 2), 2 + Worst(n - 1 - n / 2))
  {
  }

  lemma WorstOfFew()
    ensures Worst(1) == 2 && Worst(2) == 3 && Worst(3) == 4
  {
    assert Worst(0) == 0;
    assert Worst(1) == 2;
    assert Worst(2) == 3;
  }

  lemma WorstOfEven(h: nat)
    requires h > 0
    ensures Worst(2 * h) == Max(1 + Worst(h), 2 + Worst(h - 1))
  {
    assert (2 * h) / 2 == h;
  }

  lemma WorstOfOdd(h: nat)
    ensures Worst(2 * h + 1) == 2 + Worst(h)
  {
    assert (2 * h + 1) / 2 == h;
  }

  lemma BoundOfFew()
    ensures ComparisonBound(0) == (0, 0) && ComparisonBound(1) == (2, 0)
  {
  }

  lemma BoundOfMany(h: nat)
    requires h > 0
    ensures var half, preceding := ComparisonBound(h).0, ComparisonBound(h).1;
      && ComparisonBound(2 * h) ==
           (Max(SaturatingAdd(half, 1), SaturatingAdd(preceding, 2)), SaturatingAdd(preceding, 2))
      && ComparisonBound(2 * h + 1) ==
           (SaturatingAdd(half, 2), Max(SaturatingAdd(half, 1), SaturatingAdd(preceding, 2)))
  {
    assert (2 * h) / 2 == h && (2 * h + 1) / 2 == h;
  }

  /** The recurrence computes the worst case of a search exactly. */
  lemma {:induction false} BoundIsWorst(n: nat)
    requires n <= USIZE_MAX
    ensures ComparisonBound(n).0 == Worst(n)
    ensures n > 0 ==> ComparisonBound(n).1 == Worst(n - 1)
  {
    hide Worst, ComparisonBound;
    WorstOfNone();
    WorstOfFew();
    BoundOfFew();
    if n >= 2 {
      var h := n / 2;
      BoundIsWorst(h);
      WorstIsSmall(h);
      WorstIsSmall(h - 1);
      WorstOfEven(h);
      BoundOfMany(h);
      if n % 2 == 0 {
        assert n == 2 * h;
        WorstOfOdd(h - 1);
      } else {
        assert n == 2 * h + 1;
        WorstOfOdd(h);
      }
    }
  }

  /** The range a search looks at. */
  function Middle(lower: nat, upper: nat): (m: nat)
    requires lower < upper
    ensures lower <= m < upper
  {
    lower + (upper - lower) / 2
  }

  lemma OneLook(ranges: seq<ScalarRange>, scalar: nat, lower: nat, upper: nat)
    requires lower < upper <= |ranges|
    ensures var m := Middle(lower, upper);
      Comparisons(ranges, scalar, lower, upper) ==
        if scalar < ranges[m].start then 1 + Comparisons(ranges, scalar, lower, m)
        else if scalar > ranges[m].end then 2 + Comparisons(ranges, scalar, m + 1, upper)
        else 2
  {
  }

  lemma WorstLook(lower: nat, upper: nat)
    requires lower < upper
    ensures var m := Middle(lower, upper);
      Worst(upper - lower) == Max(1 + Worst(m - lower), 2 + Worst(upper - (m + 1)))
  {
    var m, n := Middle(lower, upper), upper - lower;
    assert m - lower == n / 2 && upper - (m + 1) == n - 1 - n / 2;
  }

  lemma {:induction false} NeverWorse(ranges: seq<ScalarRange>, scalar: nat, lower: nat, upper: nat)
    requires lower <= upper <= |ranges|
    ensures Comparisons(ranges, scalar, lower, upper) <= Worst(upper - lower)
    decreases upper - lower
  {
    hide Worst, Middle;
    if lower < upper {
      OneLook(ranges, scalar, lower, upper);
      WorstLook(lower, upper);
      NeverWorse(ranges, scalar, lower, Middle(lower, upper));
      NeverWorse(ranges, scalar, Middle(lower, upper) + 1, upper);
      hide Comparisons;
    }
  }

  /** Some range between `lower` and `upper` takes the worst number of comparisons to find. */
  lemma {:induction false} WorstIsReached(ranges: seq<ScalarRange>, lower: nat, upper: nat) returns (i: nat)
    requires Canonical(ranges) && lower < upper <= |ranges|
    ensures lower <= i < upper && Comparisons(ranges, ranges[i].start, lower, upper) == Worst(upper - lower)
    decreases upper - lower
  {
    hide Worst, Comparisons, Middle;
    var m := Middle(lower, upper);
    var left, right := m - lower, upper - (m + 1);
    WorstLook(lower, upper);
    WorstOfFew();
    WorstOfNone();
    if left == 0 && right == 0 {
      i := lower;
      OneLook(ranges, ranges[i].start, lower, upper);
    } else if 1 + Worst(left) >= 2 + Worst(right) {
      i := WorstIsReached(ranges, lower, m);
      assert ranges[i].start <= ranges[i].end < ranges[m].start;
      OneLook(ranges, ranges[i].start, lower, upper);
    } else {
      AtLeastTwo(left);
      i := WorstIsReached(ranges, m + 1, upper);
      assert ranges[i].start > ranges[m].end >= ranges[m].start;
      OneLook(ranges, ranges[i].start, lower, upper);
    }
  }

  lemma WorstOfNone()
    ensures Worst(0) == 0
  {
  }

  lemma AtLeastTwo(n: nat)
    ensures n > 0 ==> Worst(n) >= 2
  {
  }

  /** For every nonempty list, the bound is never exceeded, and some member costs exactly that much. */
  lemma BoundIsExact(ranges: seq<ScalarRange>) returns (worst: nat)
    requires Canonical(ranges) && ranges != []
    ensures forall scalar :: Comparisons(ranges, scalar, 0, |ranges|) <= ComparisonBound(|ranges|).0
    ensures Member(ranges, worst) && Comparisons(ranges, worst, 0, |ranges|) == ComparisonBound(|ranges|).0
  {
    hide Comparisons, Worst, ComparisonBound;
    BoundIsWorst(|ranges|);
    forall scalar
      ensures Comparisons(ranges, scalar, 0, |ranges|) <= Worst(|ranges|)
    {
      NeverWorse(ranges, scalar, 0, |ranges|);
    }
    var i := WorstIsReached(ranges, 0, |ranges|);
    worst := ranges[i].start;
    assert Within(ranges, worst, i);
  }

  // ----- The search -----

  /** The overflow-proof midpoint is the midpoint. */
  lemma MiddleIsSafe(lower: nat, upper: nat)
    requires lower < upper <= USIZE_MAX
    ensures SaturatingAdd(lower, SaturatingSub(upper, lower) / 2) == Middle(lower, upper)
  {
  }

  lemma NoLook(ranges: seq<ScalarRange>, scalar: nat)
    ensures forall i: nat {:trigger Comparisons(ranges, scalar, i, i)} :: i <= |ranges| ==> Comparisons(ranges, scalar, i, i) == 0
  {
  }

  datatype Searched<E> = Found(member: bool) | Refused(error: E)

  /**
    The search proper. `charge` answers its k-th call with nothing or with an
    error; `calls` counts the calls. Without an error the answer is membership,
    at exactly the cost above; an error is passed on at once.
   */
  method ContainsWith<E>(ranges: seq<ScalarRange>, scalar: nat, charge: nat -> Option<E>)
    returns (r: Searched<E>, calls: nat)
    requires Canonical(ranges)
    ensures calls <= Comparisons(ranges, scalar, 0, |ranges|) <= ComparisonBound(|ranges|).0
    ensures r.Found? ==> calls == Comparisons(ranges, scalar, 0, |ranges|) && (r.member <==> Member(ranges, scalar))
    ensures r.Found? ==> forall k: nat :: k < calls ==> charge(k).None?
    ensures r.Refused? ==> calls > 0 && charge(calls - 1) == Some(r.error) && forall k: nat :: k < calls - 1 ==> charge(k).None?
  {
    hide Comparisons, ComparisonBound, Worst, Middle;
    ghost var total := Comparisons(ranges, scalar, 0, |ranges|);
    NeverWorse(ranges, scalar, 0, |ranges|);
    BoundIsWorst(|ranges|);
    var lower: nat, upper: nat := 0, |ranges|;
    NoLook(ranges, scalar);
    calls := 0;
    while lower < upper
      invariant lower <= upper <= |ranges|
      invariant calls + Comparisons(ranges, scalar, lower, upper) == total
      invariant forall k: nat :: k < calls ==> charge(k).None?
      invariant forall i :: Within(ranges, scalar, i) ==> lower <= i < upper
      decreases upper - lower
    {
      OneLook(ranges, scalar, lower, upper);
      MiddleIsSafe(lower, upper);
      var paid := charge(calls);
      calls := calls + 1;
      if paid.Some? {
        return Refused(paid.value), calls;
      }
      var middle := SaturatingAdd(lower, SaturatingSub(upper, lower) / 2);
      var range := ranges[middle];
      if scalar < range.start {
        upper := middle;
        continue;
      }
      paid := charge(calls);
      calls := calls + 1;
      if paid.Some? {
        return Refused(paid.value), calls;
      }
      if scalar > range.end {
        lower := SaturatingAdd(middle, 1);
      } else {
        assert Within(ranges, scalar, middle);
        return Found(true), calls;
      }
    }
    return Found(false), calls;
  }
}
