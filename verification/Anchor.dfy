/**
  The choice of an anchor: a contiguous segment of parts whose words are
  finite, within limits and at least two bytes long. `BestAnchor` scans the
  segments with early breaks; `BestAnchorIsOptimal` says that it still finds
  the first segment, in scan order, with the greatest least width and then the
  fewest words.
 */
module Anchoring {
  import opened Wrappers
  import opened Hir
  import opened Metering
  import opened Census

  datatype Anchor = Anchor(start: nat, end: nat, facts: Facts)

  predicate Better(candidate: Facts, current: Facts) {
    candidate.min > current.min || (candidate.min == current.min && candidate.count < current.count)
  }

  function Pick(best: Option<Anchor>, candidate: Anchor): Option<Anchor> {
    if best.None? || Better(candidate.facts, best.value.facts) then Some(candidate) else best
  }

  /** The facts of `acc` times one more part, if it has a census and the product is within limits. */
  function Extended(acc: Facts, part: Hir): Option<Facts> {
    if FactsOf(part).None? then None else ConcatFacts(acc, FactsOf(part).value)
  }

  function Considered(best: Option<Anchor>, start: nat, end: nat, facts: Facts): Option<Anchor> {
    if facts.min < MIN_ANCHOR_WORD_BYTES then best else Pick(best, Anchor(start, end, facts))
  }

  predicate InBounds(parts: seq<Hir>, best: Option<Anchor>) {
    best.Some? ==> best.value.start <= best.value.end <= |parts|
  }

  function Scan(parts: seq<Hir>, start: nat, end: nat, combined: Facts, best: Option<Anchor>): (r: Option<Anchor>)
    requires start <= end <= |parts|
    ensures InBounds(parts, best) ==> InBounds(parts, r)
    decreases |parts| - end
  {
    if end == |parts| || Extended(combined, parts[end]).None? then best
    else
      var next := Extended(combined, parts[end]).value;
      Scan(parts, start, end + 1, next, Considered(best, start, end + 1, next))
  }

  function BestFrom(parts: seq<Hir>, start: nat, best: Option<Anchor>): (r: Option<Anchor>)
    requires start <= |parts|
    ensures InBounds(parts, best) ==> InBounds(parts, r)
    decreases |parts| - start
  {
    if start == |parts| then best
    else BestFrom(parts, start + 1, Scan(parts, start, start, EMPTY_FACTS, best))
  }

  function BestAnchor(parts: seq<Hir>): (r: Option<Anchor>)
    ensures InBounds(parts, r)
  {
    BestFrom(parts, 0, None)
  }

  // ----- Segments -----

  predicate Finite(parts: seq<Hir>, start: nat, end: nat)
    requires end <= |parts|
  {
    forall k :: start <= k < end ==> FactsOf(parts[k]).Some?
  }

  /** The facts of the whole segment, with no limit checked on the way. */
  function SegmentFacts(parts: seq<Hir>, start: nat, end: nat): Facts
    requires start <= end <= |parts| && Finite(parts, start, end)
  {
    if start == end then EMPTY_FACTS
    else Product(SegmentFacts(parts, start, end - 1), FactsOf(parts[end - 1]).value)
  }

  /** A segment that could serve as anchor. */
  predicate Eligible(parts: seq<Hir>, start: nat, end: nat) {
    && start < end <= |parts| && Finite(parts, start, end)
    && WithinLimits(SegmentFacts(parts, start, end))
    && SegmentFacts(parts, start, end).min >= MIN_ANCHOR_WORD_BYTES
  }

  lemma {:induction false} SegmentFactsPositive(parts: seq<Hir>, start: nat, end: nat)
    requires start <= end <= |parts| && Finite(parts, start, end)
    ensures var f := SegmentFacts(parts, start, end);
      1 <= f.count && 0 <= f.total && 0 <= f.min <= f.max
  {
    if start < end {
      SegmentFactsPositive(parts, start, end - 1);
      FactsSane(parts[end - 1]);
      ProductGrows(SegmentFacts(parts, start, end - 1), FactsOf(parts[end - 1]).value);
    }
  }

  /** A longer segment is over a limit as soon as a shorter one is. */
  lemma {:induction false} LimitsAreMonotone(parts: seq<Hir>, start: nat, middle: nat, end: nat)
    requires start <= middle <= end <= |parts| && Finite(parts, start, end)
    requires WithinLimits(SegmentFacts(parts, start, end))
    ensures WithinLimits(SegmentFacts(parts, start, middle))
    decreases end - middle
  {
    if middle < end {
      SegmentFactsPositive(parts, start, end - 1);
      FactsSane(parts[end - 1]);
      ProductGrows(SegmentFacts(parts, start, end - 1), FactsOf(parts[end - 1]).value);
      LimitsAreMonotone(parts, start, middle, end - 1);
    }
  }

  /** The checked fold over a segment gives its facts exactly when they are within limits. */
  lemma {:induction false} SegmentFold(parts: seq<Hir>, start: nat, middle: nat, end: nat)
    requires start <= middle <= end <= |parts| && Finite(parts, start, end)
    requires WithinLimits(SegmentFacts(parts, start, end))
    ensures ConcatFold(parts[middle..end], SegmentFacts(parts, start, middle)) == Some(SegmentFacts(parts, start, end))
    decreases end - middle
  {
    if middle < end {
      LimitsAreMonotone(parts, start, middle + 1, end);
      SegmentFold(parts, start, middle + 1, end);
      assert parts[middle..end][0] == parts[middle] && parts[middle..end][1..] == parts[middle + 1..end];
    }
  }

  // ----- Optimality -----

  /** `(s, e)` was reached once the scan has passed `(start, end)`. */
  predicate Seen(start: nat, end: nat, s: nat, e: nat) {
    s < start || (s == start && e <= end)
  }

  /** `best` is the first best of the eligible segments seen so far. */
  ghost predicate FirstBest(parts: seq<Hir>, best: Option<Anchor>, start: nat, end: nat) {
    match best
    case None => forall s: nat, e: nat :: Eligible(parts, s, e) ==> !Seen(start, end, s, e)
    case Some(a) =>
      && Eligible(parts, a.start, a.end) && a.facts == SegmentFacts(parts, a.start, a.end) && Seen(start, end, a.start, a.end)
      && forall s: nat, e: nat :: Eligible(parts, s, e) && Seen(start, end, s, e) ==>
        && !Better(SegmentFacts(parts, s, e), a.facts)
        && (s < a.start || (s == a.start && e < a.end) ==> Better(a.facts, SegmentFacts(parts, s, e)))
  }

  lemma {:induction false} ScanFindsBest(parts: seq<Hir>, start: nat, end: nat, combined: Facts, best: Option<Anchor>)
    requires start <= end <= |parts| && Finite(parts, start, end)
    requires combined == SegmentFacts(parts, start, end) && FirstBest(parts, best, start, end)
    ensures FirstBest(parts, Scan(parts, start, end, combined, best), start, |parts|)
    decreases |parts| - end
  {
    if end < |parts| {
      var next := Extended(combined, parts[end]);
      if next.Some? {
        assert Finite(parts, start, end + 1) && next.value == SegmentFacts(parts, start, end + 1);
        var picked := Considered(best, start, end + 1, next.value);
        PickKeepsBest(parts, best, start, end);
        ScanFindsBest(parts, start, end + 1, next.value, picked);
      } else {
        BreakLosesNothing(parts, start, end, best);
      }
    }
  }

  lemma BreakLosesNothing(parts: seq<Hir>, start: nat, end: nat, best: Option<Anchor>)
    requires start <= end < |parts| && Finite(parts, start, end) && FirstBest(parts, best, start, end)
    requires Extended(SegmentFacts(parts, start, end), parts[end]).None?
    ensures FirstBest(parts, best, start, |parts|)
  {
    forall e: nat | Eligible(parts, start, e)
      ensures e <= end
    {
      NoLongerSegment(parts, start, end, e);
    }
  }

  lemma PickKeepsBest(parts: seq<Hir>, best: Option<Anchor>, start: nat, end: nat)
    requires start <= end < |parts| && Finite(parts, start, end + 1) && FirstBest(parts, best, start, end)
    requires WithinLimits(SegmentFacts(parts, start, end + 1))
    ensures FirstBest(parts, Considered(best, start, end + 1, SegmentFacts(parts, start, end + 1)), start, end + 1)
  {
  }

  /** Where the scan breaks, no longer segment from the same start is eligible. */
  lemma NoLongerSegment(parts: seq<Hir>, start: nat, end: nat, e: nat)
    requires start <= end < |parts| && Finite(parts, start, end)
    requires Extended(SegmentFacts(parts, start, end), parts[end]).None?
    requires Eligible(parts, start, e)
    ensures e <= end
  {
    if e > end {
      LimitsAreMonotone(parts, start, end + 1, e);
      assert false;
    }
  }

  lemma {:induction false} BestFromIsOptimal(parts: seq<Hir>, start: nat, best: Option<Anchor>)
    requires start <= |parts| && FirstBest(parts, best, start, start)
    ensures FirstBest(parts, BestFrom(parts, start, best), |parts|, |parts|)
    decreases |parts| - start
  {
    hide FirstBest, Scan;
    if start < |parts| {
      var scanned := ScanRound(parts, start, best);
      BestFromIsOptimal(parts, start + 1, scanned);
      assert BestFrom(parts, start, best) == BestFrom(parts, start + 1, scanned);
    }
  }

  lemma ScanRound(parts: seq<Hir>, start: nat, best: Option<Anchor>) returns (scanned: Option<Anchor>)
    requires start < |parts| && FirstBest(parts, best, start, start)
    ensures scanned == Scan(parts, start, start, EMPTY_FACTS, best)
    ensures FirstBest(parts, scanned, start + 1, start + 1)
  {
    scanned := Scan(parts, start, start, EMPTY_FACTS, best);
    ScanFindsBest(parts, start, start, EMPTY_FACTS, best);
    NextStart(parts, scanned, start);
  }

  lemma NextStart(parts: seq<Hir>, best: Option<Anchor>, start: nat)
    requires FirstBest(parts, best, start, |parts|)
    ensures FirstBest(parts, best, start + 1, start + 1)
  {
    forall s: nat, e: nat | Eligible(parts, s, e) && Seen(start + 1, start + 1, s, e)
      ensures Seen(start, |parts|, s, e)
    {
    }
  }

  /**
    The chosen anchor is eligible; no eligible segment has a greater least
    width, or the same with fewer words; every eligible segment that starts or
    ends earlier in scan order is strictly worse. None is chosen only when no
    segment is eligible.
   */
  lemma BestAnchorIsOptimal(parts: seq<Hir>)
    ensures match BestAnchor(parts)
      case None => forall s: nat, e: nat :: !Eligible(parts, s, e)
      case Some(a) =>
        && Eligible(parts, a.start, a.end) && a.facts == SegmentFacts(parts, a.start, a.end)
        && forall s: nat, e: nat :: Eligible(parts, s, e) ==>
          && !Better(SegmentFacts(parts, s, e), a.facts)
          && (s < a.start || (s == a.start && e < a.end) ==> Better(a.facts, SegmentFacts(parts, s, e)))
  {
    BestFromIsOptimal(parts, 0, None);
    assert forall s: nat, e: nat :: Eligible(parts, s, e) ==> Seen(|parts|, |parts|, s, e);
  }

  // ----- The metered scan -----

  function ScanWork(parts: seq<Hir>, end: nat, combined: Facts): nat
    requires end <= |parts|
    decreases |parts| - end
  {
    if end == |parts| then 0
    else if Extended(combined, parts[end]).None? then ExtendWork(parts[end])
    else
      var next := Extended(combined, parts[end]).value;
      ExtendWork(parts[end]) + (if next.min < MIN_ANCHOR_WORD_BYTES then 0 else 1) + ScanWork(parts, end + 1, next)
  }

  /** The visit of one more part, its census and the product with the segment so far. */
  function ExtendWork(part: Hir): nat {
    1 + FactsWork(part) + if FactsOf(part).None? then 0 else 1
  }

  function BestWork(parts: seq<Hir>, start: nat): nat
    requires start <= |parts|
    decreases |parts| - start
  {
    if start == |parts| then 0 else ScanWork(parts, start, EMPTY_FACTS) + BestWork(parts, start + 1)
  }

  method ExtendSegment(combined: Facts, part: Hir, meter: Meter) returns (r: Outcome<Option<Facts>>)
    requires meter.Valid() && Sane(combined)
    modifies meter`work, meter.budget`work
    ensures meter.Valid() && Spent(old(meter.Now()), meter.Now(), ExtendWork(part), r)
    ensures r.Success? ==> r.value == Extended(combined, part) && (r.value.Some? ==> Sane(r.value.value))
  {
    var _ :- meter.Charge(1);
    FactsSane(part);
    var facts :- LanguageFacts(part, meter);
    if facts.None? {
      return Success(None);
    }
    ConcatSane(combined, facts.value);
    r := CombineFacts(combined, facts.value, meter);
  }

  method ScanSegments(parts: seq<Hir>, start: nat, current: Option<Anchor>, meter: Meter) returns (r: Outcome<Option<Anchor>>)
    requires meter.Valid() && start <= |parts|
    modifies meter`work, meter.budget`work
    ensures meter.Valid() && Spent(old(meter.Now()), meter.Now(), ScanWork(parts, start, EMPTY_FACTS), r)
    ensures r.Success? ==> r.value == Scan(parts, start, start, EMPTY_FACTS, current)
  {
    var best := current;
    var combined := EMPTY_FACTS;
    ghost var done: nat := 0;
    for end := start to |parts|
      invariant Sane(combined) && Charged(old(meter.Now()), done, meter)
      invariant done + ScanWork(parts, end, combined) == ScanWork(parts, start, EMPTY_FACTS)
      invariant Scan(parts, start, end, combined, best) == Scan(parts, start, start, EMPTY_FACTS, current)
    {
      var next :- ExtendSegment(combined, parts[end], meter);
      if next.None? {
        return Success(best);
      }
      combined := next.value;
      done := done + ExtendWork(parts[end]);
      if combined.min >= MIN_ANCHOR_WORD_BYTES {
        var _ :- meter.Charge(1);
        done := done + 1;
        best := Pick(best, Anchor(start, end + 1, combined));
      }
    }
    return Success(best);
  }

  method FindBestAnchor(parts: seq<Hir>, meter: Meter) returns (r: Outcome<Option<Anchor>>)
    requires meter.Valid()
    modifies meter`work, meter.budget`work
    ensures meter.Valid() && Spent(old(meter.Now()), meter.Now(), BestWork(parts, 0), r)
    ensures r.Success? ==> r.value == BestAnchor(parts)
  {
    var best: Option<Anchor> := None;
    ghost var done: nat := 0;
    for start := 0 to |parts|
      invariant Charged(old(meter.Now()), done, meter)
      invariant done + BestWork(parts, start) == BestWork(parts, 0)
      invariant BestFrom(parts, start, best) == BestAnchor(parts)
    {
      done := done + ScanWork(parts, start, EMPTY_FACTS);
      best :- ScanSegments(parts, start, best, meter);
    }
    return Success(best);
  }
}
