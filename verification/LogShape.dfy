/** What a finished log looks like, whoever wrote it. */
module LogShape {
  import opened Wrappers
  import opened BenchLog
  import opened Resume

  /** A pair on record: its slot, its results, and its two records. */
  datatype Entry = Entry(slot: Slot, arms: Pair, first: Event, second: Event)

  datatype CellLog = CellLog(calibration: seq<Entry>, warmup: seq<Entry>, measured: seq<Entry>)

  /** Both records are there in the slot's order, valid, and agree with each other. */
  predicate Holds(cfg: Config, e: Entry) {
    && ValidInvocation(cfg, e.slot, FirstSide(e.slot.order), e.first)
    && ValidInvocation(cfg, e.slot, SecondSide(e.slot.order), e.second)
    && e.arms == Joined(e.slot.order, e.first.payload.result, e.second.payload.result)
    && ValidPair(cfg, e.arms)
  }

  function Flat(entries: seq<Entry>): seq<Event> {
    if entries == [] then [] else [entries[0].first, entries[0].second] + Flat(entries[1..])
  }

  /** Entry `i` is pair `from + i` of a phase, at an iteration count. */
  predicate Follows(cfg: Config, c: nat, phase: Phase, from: nat, iterations: int, entries: seq<Entry>) {
    c < |cfg.cells| &&
    forall i :: 0 <= i < |entries| ==>
      Holds(cfg, entries[i]) && entries[i].slot == SlotFor(cfg, c, phase, from + i, iterations)
  }

  function SlotFor(cfg: Config, c: nat, phase: Phase, ordinal: nat, iterations: int): Slot
    requires c < |cfg.cells|
  {
    Slot(phase, ordinal, if phase.Measure? then Some(ordinal) else None, OrderOf(c, ordinal), cfg.cells[c], iterations)
  }

  /** Calibration from pair `k` at `iterations` on: every pair but the last falls short of the minimum. */
  predicate Calibrates(cfg: Config, c: nat, k: nat, iterations: int, entries: seq<Entry>) {
    && c < |cfg.cells| && entries != [] && k + |entries| <= MAX_CALIBRATION_PAIRS
    && (forall i :: 0 <= i < |entries| ==>
          Holds(cfg, entries[i]) && entries[i].slot == SlotFor(cfg, c, Calibration, k + i, entries[i].slot.iterations))
    && entries[0].slot.iterations == iterations
    && (forall i :: 0 <= i < |entries| - 1 ==>
          && Fastest(entries[i].arms) < cfg.options.minimumNs
          && entries[i + 1].slot.iterations == Scaled(cfg, entries[i].slot.iterations, Fastest(entries[i].arms)) <= MAX_ITERATIONS)
    && Fastest(entries[|entries| - 1].arms) >= cfg.options.minimumNs
  }

  function Settled(l: CellLog): int {
    if l.calibration == [] then 0 else l.calibration[|l.calibration| - 1].slot.iterations
  }

  function Measurements(entries: seq<Entry>): seq<Measured> {
    seq(|entries|, i requires 0 <= i < |entries| => Measured(entries[i].slot.order, entries[i].arms))
  }

  predicate Shaped(cfg: Config, c: nat, l: CellLog) {
    && Calibrates(cfg, c, 0, 1, l.calibration)
    && Follows(cfg, c, Warmup, 0, Settled(l), l.warmup) && |l.warmup| == cfg.options.warmupPairs
    && Follows(cfg, c, Measure, 0, Settled(l), l.measured) && |l.measured| == cfg.options.pairs
  }

  function SummaryOf(cfg: Config, c: nat, l: CellLog): string
    requires c < |cfg.cells|
  {
    cfg.env.summarize(cfg.cells[c], Measurements(l.measured))
  }

  function CellRecords(cfg: Config, c: nat, l: CellLog): seq<Event>
    requires c < |cfg.cells|
  {
    Flat(l.calibration) + ([Calibrated(cfg.cells[c], Settled(l))] +
    (Flat(l.warmup) + (Flat(l.measured) + [PairedSummary(SummaryOf(cfg, c, l))])))
  }

  /** The records of the cells from `c` on, and of the aggregate. */
  function AllRecords(cfg: Config, c: nat, cells: seq<CellLog>, summaries: seq<string>): seq<Event>
    requires c + |cells| == |cfg.cells|
    decreases |cells|
  {
    if cells == [] then [AggregateSummary(cfg.env.aggregate(summaries, cfg.options.pairs))]
    else CellRecords(cfg, c, cells[0]) + AllRecords(cfg, c + 1, cells[1..], summaries + [SummaryOf(cfg, c, cells[0])])
  }

  // ----- Taking a finished log apart -----

  predicate Finishes(cfg: Config, p: Progress, events: seq<Event>) {
    InRange(cfg, p) && Replay(cfg, p, events).Some? && Replay(cfg, p, events).value.stage.Complete?
  }

  lemma OneRecord(cfg: Config, p: Progress, events: seq<Event>)
    requires Finishes(cfg, p, events) && !p.stage.Complete?
    ensures events != [] && Accept(cfg, p, events[0]).Some? && Finishes(cfg, Accept(cfg, p, events[0]).value, events[1..])
  {
    hide Accept;
  }

  lemma TakePair(cfg: Config, p: Progress, slot: Slot, events: seq<Event>) returns (e: Entry, rest: seq<Event>)
    requires Finishes(cfg, p, events) && SlotOf(cfg, p) == Some(slot) && PartialOf(p.stage).None?
    ensures Holds(cfg, e) && e.slot == slot && events == [e.first, e.second] + rest
    ensures AfterPair(cfg, p, e.arms).Some? && Finishes(cfg, p.(stage := AfterPair(cfg, p, e.arms).value), rest)
  {
    hide Replay, ValidInvocation, ValidPair, AfterPair, Finishes;
    FinishesInRange(cfg, p, events);
    OneRecord(cfg, p, events);
    var first := events[0];
    var q := Accept(cfg, p, first).value;
    OneRecord(cfg, q, events[1..]);
    var second := events[1];
    var arms := Joined(slot.order, ResultOf(cfg, slot, FirstSide(slot.order), first), ResultOf(cfg, slot, SecondSide(slot.order), second));
    AfterPairIgnoresPartial(cfg, p, Arm(FirstSide(slot.order), first.payload.result), arms);
    e, rest := Entry(slot, arms, first, second), events[2..];
    assert events[1..][1..] == rest;
  }

  lemma FinishesInRange(cfg: Config, p: Progress, events: seq<Event>)
    requires Finishes(cfg, p, events)
    ensures InRange(cfg, p)
  {
  }

  lemma TakeOwed(cfg: Config, p: Progress, events: seq<Event>) returns (rest: seq<Event>)
    requires Finishes(cfg, p, events) && Owed(cfg, p).Some?
    ensures events == [Owed(cfg, p).value.0] + rest && Finishes(cfg, Owed(cfg, p).value.1, rest)
  {
    hide Replay;
    OneRecord(cfg, p, events);
    rest := events[1..];
  }

  lemma FlatStep(e: Entry, entries: seq<Entry>, rest: seq<Event>)
    ensures Flat([e] + entries) + rest == [e.first, e.second] + (Flat(entries) + rest)
  {
    assert ([e] + entries)[1..] == entries;
  }

  lemma {:induction false} TakeCalibration(cfg: Config, summaries: seq<string>, k: nat, iterations: int, events: seq<Event>)
    returns (entries: seq<Entry>, rest: seq<Event>)
    requires Finishes(cfg, Progress(summaries, Calibrating(iterations, k, None)), events)
    ensures Calibrates(cfg, |summaries|, k, iterations, entries) && events == Flat(entries) + rest
    ensures Finishes(cfg,
      Progress(summaries, RecordCalibrated(entries[|entries| - 1].slot.iterations, k + |entries| - 1)), rest)
    decreases MAX_CALIBRATION_PAIRS - k
  {
    hide Flat, Finishes, Holds, Scaled;
    var p, c := Progress(summaries, Calibrating(iterations, k, None)), |summaries|;
    FinishesInRange(cfg, p, events);
    ExhaustedNeverFinishes(cfg, p, events);
    var e, after := TakePair(cfg, p, SlotFor(cfg, c, Calibration, k, iterations), events);
    if Fastest(e.arms) >= cfg.options.minimumNs {
      entries, rest := [e], after;
      FlatStep(e, [], rest);
      FlatNothing(rest);
      assert [e] + [] == [e];
    } else {
      var more;
      more, rest := TakeCalibration(cfg, summaries, k + 1, Scaled(cfg, iterations, Fastest(e.arms)), after);
      entries := [e] + more;
      FlatStep(e, more, rest);
      CalibratesStep(cfg, c, k, e, more);
    }
  }

  lemma FlatNothing(rest: seq<Event>)
    ensures Flat([]) + rest == rest
  {
  }

  lemma ExhaustedNeverFinishes(cfg: Config, p: Progress, events: seq<Event>)
    requires Finishes(cfg, p, events) && p.stage.Calibrating?
    ensures p.stage.ordinal < MAX_CALIBRATION_PAIRS
  {
    if p.stage.ordinal >= MAX_CALIBRATION_PAIRS {
      OneRecord(cfg, p, events);
      NothingFits(cfg, p, events[0]);
    }
  }

  lemma CalibratesStep(cfg: Config, c: nat, k: nat, e: Entry, more: seq<Entry>)
    requires c < |cfg.cells| && Holds(cfg, e) && e.slot == SlotFor(cfg, c, Calibration, k, e.slot.iterations)
    requires var next := Scaled(cfg, e.slot.iterations, Fastest(e.arms));
      Fastest(e.arms) < cfg.options.minimumNs && next <= MAX_ITERATIONS && Calibrates(cfg, c, k + 1, next, more)
    ensures Calibrates(cfg, c, k, e.slot.iterations, [e] + more)
  {
    hide Holds, Scaled;
    var entries := [e] + more;
    assert entries[0] == e;
    forall i | 0 <= i < |entries|
      ensures Holds(cfg, entries[i]) && entries[i].slot == SlotFor(cfg, c, Calibration, k + i, entries[i].slot.iterations)
    {
      if i > 0 {
        assert entries[i] == more[i - 1];
        assert k + i == k + 1 + (i - 1);
      }
    }
    forall i | 0 <= i < |entries| - 1
      ensures Fastest(entries[i].arms) < cfg.options.minimumNs
      ensures entries[i + 1].slot.iterations == Scaled(cfg, entries[i].slot.iterations, Fastest(entries[i].arms)) <= MAX_ITERATIONS
    {
      assert entries[i + 1] == more[i];
      if i > 0 {
        assert entries[i] == more[i - 1];
      }
    }
  }

  lemma FollowsStep(cfg: Config, c: nat, phase: Phase, from: nat, iterations: int, e: Entry, more: seq<Entry>)
    requires c < |cfg.cells| && Holds(cfg, e) && e.slot == SlotFor(cfg, c, phase, from, iterations)
    requires Follows(cfg, c, phase, from + 1, iterations, more)
    ensures Follows(cfg, c, phase, from, iterations, [e] + more)
  {
    hide Holds;
    var entries := [e] + more;
    forall i | 0 <= i < |entries|
      ensures Holds(cfg, entries[i]) && entries[i].slot == SlotFor(cfg, c, phase, from + i, iterations)
    {
      if i > 0 {
        assert entries[i] == more[i - 1];
        assert from + i == from + 1 + (i - 1);
      }
    }
  }

  lemma {:induction false} TakeWarmup(cfg: Config, summaries: seq<string>, k: nat, iterations: int, events: seq<Event>)
    returns (entries: seq<Entry>, rest: seq<Event>)
    requires |summaries| < |cfg.cells| && k < cfg.options.warmupPairs
    requires Finishes(cfg, Progress(summaries, Warming(iterations, k, None)), events)
    ensures Follows(cfg, |summaries|, Warmup, k, iterations, entries) && k + |entries| == cfg.options.warmupPairs
    ensures events == Flat(entries) + rest && Finishes(cfg, Progress(summaries, BeginMeasuring(cfg, iterations)), rest)
    decreases cfg.options.warmupPairs - k
  {
    hide Flat, Finishes, Holds, BeginMeasuring, Follows;
    var p, c := Progress(summaries, Warming(iterations, k, None)), |summaries|;
    FinishesInRange(cfg, p, events);
    var e, after := TakePair(cfg, p, SlotFor(cfg, c, Warmup, k, iterations), events);
    var more := [];
    rest := after;
    if k + 1 < cfg.options.warmupPairs {
      more, rest := TakeWarmup(cfg, summaries, k + 1, iterations, after);
    } else {
      NothingFollows(cfg, c, Warmup, k + 1, iterations);
      FlatNothing(rest);
    }
    entries := [e] + more;
    FlatStep(e, more, rest);
    FollowsStep(cfg, c, Warmup, k, iterations, e, more);
  }

  lemma NothingFollows(cfg: Config, c: nat, phase: Phase, from: nat, iterations: int)
    requires c < |cfg.cells|
    ensures Follows(cfg, c, phase, from, iterations, [])
  {
  }

  lemma MeasurementsStep(ms: seq<Measured>, e: Entry, more: seq<Entry>)
    ensures ms + [Measured(e.slot.order, e.arms)] + Measurements(more) == ms + Measurements([e] + more)
  {
  }

  lemma {:induction false} TakeMeasured(cfg: Config, summaries: seq<string>, iterations: int, ms: seq<Measured>, events: seq<Event>)
    returns (entries: seq<Entry>, rest: seq<Event>)
    requires |summaries| < |cfg.cells| && |ms| < cfg.options.pairs
    requires Finishes(cfg, Progress(summaries, Measuring(iterations, ms, None)), events)
    ensures Follows(cfg, |summaries|, Measure, |ms|, iterations, entries) && |ms| + |entries| == cfg.options.pairs
    ensures events == Flat(entries) + rest
    ensures Finishes(cfg, Progress(summaries, Summarizing(iterations, ms + Measurements(entries))), rest)
    decreases cfg.options.pairs - |ms|
  {
    hide Flat, Finishes, Holds, Follows;
    var p, c := Progress(summaries, Measuring(iterations, ms, None)), |summaries|;
    FinishesInRange(cfg, p, events);
    var e, after := TakePair(cfg, p, SlotFor(cfg, c, Measure, |ms|, iterations), events);
    var m, more := Measured(e.slot.order, e.arms), [];
    rest := after;
    if |ms| + 1 < cfg.options.pairs {
      more, rest := TakeMeasured(cfg, summaries, iterations, ms + [m], after);
    } else {
      NothingFollows(cfg, c, Measure, |ms| + 1, iterations);
      FlatNothing(rest);
      assert ms + [m] + Measurements([]) == ms + [m];
    }
    entries := [e] + more;
    MeasurementsStep(ms, e, more);
    FlatStep(e, more, rest);
    FollowsStep(cfg, c, Measure, |ms|, iterations, e, more);
  }

  lemma TakeCell(cfg: Config, summaries: seq<string>, events: seq<Event>) returns (l: CellLog, rest: seq<Event>)
    requires |summaries| < |cfg.cells| && 0 < cfg.options.pairs && 0 <= cfg.options.warmupPairs
    requires Finishes(cfg, BeginCell(cfg, summaries), events)
    ensures Shaped(cfg, |summaries|, l) && events == CellRecords(cfg, |summaries|, l) + rest
    ensures Finishes(cfg, BeginCell(cfg, summaries + [SummaryOf(cfg, |summaries|, l)]), rest)
  {
    hide Flat, Finishes, Follows, Calibrates, Measurements;
    var c := |summaries|;
    var calibration, warmup, measured := [], [], [];
    calibration, rest := TakeCalibration(cfg, summaries, 0, 1, events);
    CalibrationIsThere(cfg, c, calibration);
    var last := |calibration| - 1;
    var iterations := calibration[last].slot.iterations;
    var afterCalibration := rest;
    rest := TakeOwed(cfg, Progress(summaries, RecordCalibrated(iterations, last)), rest);
    var afterRecord := rest;
    if 0 < cfg.options.warmupPairs {
      warmup, rest := TakeWarmup(cfg, summaries, 0, iterations, rest);
    } else {
      NothingFollows(cfg, c, Warmup, 0, iterations);
      FlatNothing(rest);
    }
    var afterWarmup := rest;
    measured, rest := TakeMeasured(cfg, summaries, iterations, [], rest);
    assert [] + Measurements(measured) == Measurements(measured);
    var afterMeasured := rest;
    rest := TakeOwed(cfg, Progress(summaries, Summarizing(iterations, Measurements(measured))), rest);
    l := CellLog(calibration, warmup, measured);
    assert events == CellRecords(cfg, c, l) + rest by {
      Regroup(Flat(calibration), [Calibrated(cfg.cells[c], iterations)], Flat(warmup), Flat(measured),
              [PairedSummary(SummaryOf(cfg, c, l))], rest);
    }
  }

  lemma CalibrationIsThere(cfg: Config, c: nat, entries: seq<Entry>)
    requires Calibrates(cfg, c, 0, 1, entries)
    ensures 1 <= |entries| <= MAX_CALIBRATION_PAIRS
  {
  }

  lemma Regroup(a: seq<Event>, b: seq<Event>, c: seq<Event>, d: seq<Event>, e: seq<Event>, rest: seq<Event>)
    ensures a + (b + (c + (d + (e + rest)))) == (a + (b + (c + (d + e)))) + rest
  {
  }

  lemma {:induction false} TakeAll(cfg: Config, summaries: seq<string>, events: seq<Event>) returns (cells: seq<CellLog>)
    requires |summaries| <= |cfg.cells| && 0 < cfg.options.pairs && 0 <= cfg.options.warmupPairs
    requires Finishes(cfg, BeginCell(cfg, summaries), events)
    ensures |summaries| + |cells| == |cfg.cells| && events == AllRecords(cfg, |summaries|, cells, summaries)
    ensures forall i :: 0 <= i < |cells| ==> Shaped(cfg, |summaries| + i, cells[i])
    decreases |cfg.cells| - |summaries|
  {
    hide Shaped, CellRecords, Replay;
    if |summaries| == |cfg.cells| {
      var rest := TakeOwed(cfg, Progress(summaries, Aggregating), events);
      cells := [];
      NothingAfterComplete(cfg, Progress(summaries, Complete(cfg.env.aggregate(summaries, cfg.options.pairs))), rest);
    } else {
      var l, rest := TakeCell(cfg, summaries, events);
      var more := TakeAll(cfg, summaries + [SummaryOf(cfg, |summaries|, l)], rest);
      cells := [l] + more;
      assert cells[1..] == more;
      forall i | 0 <= i < |cells|
        ensures Shaped(cfg, |summaries| + i, cells[i])
      {
        if i > 0 {
          assert cells[i] == more[i - 1];
          assert |summaries| + i == |summaries| + 1 + (i - 1);
        }
      }
    }
  }

  lemma NothingAfterComplete(cfg: Config, p: Progress, events: seq<Event>)
    requires Finishes(cfg, p, events) && p.stage.Complete?
    ensures events == []
  {
    if events != [] {
      CompleteIsFinal(cfg, p, events[0]);
    }
  }

  /**
    Completed-log shape: a finished log is its metadata, the records of every
    cell in order, and the aggregate; in each cell, 1 to 16 calibration pairs,
    one calibrated record, exactly the configured warm-up and measured pairs,
    and their summary.
   */
  lemma FinishedLogIsShaped(cfg: Config, log: seq<Event>) returns (cells: seq<CellLog>)
    requires 0 < cfg.options.pairs && 0 <= cfg.options.warmupPairs
    requires ReplayLog(cfg, log).Some? && ReplayLog(cfg, log).value.stage.Complete?
    ensures |cells| == |cfg.cells| && log == [log[0]] + AllRecords(cfg, 0, cells, [])
    ensures ValidMetadata(cfg, log[0]) && forall c :: 0 <= c < |cells| ==> Shaped(cfg, c, cells[c])
  {
    hide Shaped, Replay, AllRecords;
    cells := TakeAll(cfg, [], log[1..]);
    assert log == [log[0]] + log[1..];
  }

  // ----- Consequences -----

  lemma ScaledDoubles(cfg: Config, iterations: int, fastest: int)
    requires 1 <= iterations
    ensures Scaled(cfg, iterations, fastest) >= 2 * iterations
  {
    var ratio := cfg.env.ceilRatio(cfg.options.targetNs, fastest);
    var multiplier := if ratio > 2 then ratio else 2;
    var m := if multiplier < MAX_MULTIPLIER then multiplier else MAX_MULTIPLIER;
    assert iterations * m >= iterations * 2;
  }

  /** Iteration counts start at one, at least double from pair to pair, and stay in the signed 64-bit range. */
  lemma {:induction false} CountsDouble(cfg: Config, c: nat, k: nat, iterations: int, entries: seq<Entry>, i: nat)
    requires Calibrates(cfg, c, k, iterations, entries) && 1 <= iterations <= MAX_ITERATIONS && i < |entries|
    ensures 1 <= entries[i].slot.iterations <= MAX_ITERATIONS
    ensures i > 0 ==> entries[i].slot.iterations >= 2 * entries[i - 1].slot.iterations
  {
    hide Holds, Scaled;
    if i > 0 {
      CountsDouble(cfg, c, k, iterations, entries, i - 1);
      var e := entries[i - 1];
      assert entries[i - 1 + 1].slot.iterations == Scaled(cfg, e.slot.iterations, Fastest(e.arms));
      ScaledDoubles(cfg, e.slot.iterations, Fastest(e.arms));
    }
  }

  /** The lesser of the two times of a pair. */
  predicate IsFastest(e: Entry, fastest: int) {
    var b, c := e.arms.baseline.elapsedNs, e.arms.candidate.elapsedNs;
    fastest <= b && fastest <= c && (fastest == b || fastest == c)
  }

  /** After a pair that fell short the count grows by the ratio of target and time, at least twofold, at most a millionfold. */
  lemma CountsFollowTheTarget(cfg: Config, c: nat, l: CellLog, i: nat, fastest: int)
    requires Shaped(cfg, c, l) && i + 1 < |l.calibration| && IsFastest(l.calibration[i], fastest)
    ensures var ratio := cfg.env.ceilRatio(cfg.options.targetNs, fastest);
      var now, next := l.calibration[i].slot.iterations, l.calibration[i + 1].slot.iterations;
      && (ratio < 2 ==> next == now * 2)
      && (2 <= ratio <= 1_000_000 ==> next == now * ratio)
      && (1_000_000 < ratio ==> next == now * 1_000_000)
  {
    hide Holds, Follows;
    var e := l.calibration[i];
    assert Fastest(e.arms) == fastest;
    assert l.calibration[i + 1].slot.iterations == Scaled(cfg, e.slot.iterations, Fastest(e.arms));
  }

  /** The quotient is rounded up. */
  ghost predicate RoundsUp(env: Env) {
    forall target, time :: time > 0 ==> env.ceilRatio(target, time) * time >= target
  }

  /** If the quotient is rounded up, the next count would take the fastest arm to the target, unless capped. */
  lemma CountsAimAtTheTarget(cfg: Config, c: nat, l: CellLog, i: nat, fastest: int)
    requires Shaped(cfg, c, l) && i + 1 < |l.calibration| && IsFastest(l.calibration[i], fastest) && RoundsUp(cfg.env)
    requires cfg.env.ceilRatio(cfg.options.targetNs, fastest) <= 1_000_000
    ensures l.calibration[i + 1].slot.iterations * fastest >= l.calibration[i].slot.iterations * cfg.options.targetNs
  {
    var ratio := cfg.env.ceilRatio(cfg.options.targetNs, fastest);
    var now, factor := l.calibration[i].slot.iterations, if ratio < 2 then 2 else ratio;
    TimesArePositive(cfg, c, l, l.calibration[i]);
    CountsFollowTheTarget(cfg, c, l, i, fastest);
    CountsDouble(cfg, c, 0, 1, l.calibration, i);
    hide Shaped, RoundsUp;
    assert ratio * fastest >= cfg.options.targetNs;
    Aim(now, factor, ratio, fastest, cfg.options.targetNs);
  }

  lemma Aim(now: int, factor: int, ratio: int, fastest: int, target: int)
    requires now > 0 && fastest > 0 && factor >= ratio && ratio * fastest >= target
    ensures now * factor * fastest >= now * target
  {
    assert factor * fastest >= ratio * fastest;
    assert now * (factor * fastest) >= now * target;
    assert now * (factor * fastest) == now * factor * fastest;
  }

  predicate IsIn(e: Entry, l: CellLog) {
    e in l.calibration || e in l.warmup || e in l.measured
  }

  lemma EntriesHold(cfg: Config, c: nat, l: CellLog, e: Entry)
    requires Shaped(cfg, c, l) && IsIn(e, l)
    ensures Holds(cfg, e) && e.slot.cell == cfg.cells[c]
  {
    hide Holds, Scaled;
  }

  lemma TimesArePositive(cfg: Config, c: nat, l: CellLog, e: Entry)
    requires Shaped(cfg, c, l) && IsIn(e, l)
    ensures e.arms.baseline.elapsedNs > 0 && e.arms.candidate.elapsedNs > 0
  {
    hide ValidPair, ValidRoute, Shaped;
    EntriesHold(cfg, c, l, e);
  }

  /** A route field in which the arms have to agree: neither `api` nor `bulk`, and expected the same of both. */
  predicate Binding(routes: Routes, f: string) {
    && f != "api" && f != "bulk"
    && (f in routes.baseline <==> f in routes.candidate)
    && (f in routes.baseline ==> routes.baseline[f] == routes.candidate[f])
  }

  /** The arms saw the same input, gave the same answer and took the same route where they had to. */
  ghost predicate Agreeing(cfg: Config, b: ArmResult, d: ArmResult) {
    && b.inputDigest == d.inputDigest && b.resultDigest == d.resultDigest && b.matchesPerBatch == d.matchesPerBatch
    && cfg.env.routeFields(b.route).Some? && cfg.env.routeFields(d.route).Some?
    && var x, y := cfg.env.routeFields(b.route).value, cfg.env.routeFields(d.route).value;
       forall f :: (f in x || f in y) && Binding(cfg.options.routes, f) ==> f in x && f in y && x[f] == y[f]
  }

  lemma RoutesAgree(x: Route, y: Route, routes: Routes)
    ensures x - AllowedDifferences(routes) == y - AllowedDifferences(routes) <==>
      forall f :: (f in x || f in y) && Binding(routes, f) ==> f in x && f in y && x[f] == y[f]
  {
    var allowed := AllowedDifferences(routes);
    assert forall f :: f in x || f in y ==> (f in allowed <==> !Binding(routes, f));
    var a, b := x - allowed, y - allowed;
    if a == b {
      forall f | (f in x || f in y) && Binding(routes, f)
        ensures f in x && f in y && x[f] == y[f]
      {
        assert f in a || f in b;
        assert a[f] == b[f];
      }
    }
  }

  /** A pair is taken exactly when its arms agree. */
  lemma PairIsTakenExactly(cfg: Config, p: Pair)
    ensures ValidPair(cfg, p) <==> Agreeing(cfg, p.baseline, p.candidate)
  {
    hide AllowedDifferences, Binding;
    var x, y := cfg.env.routeFields(p.baseline.route), cfg.env.routeFields(p.candidate.route);
    if x.Some? && y.Some? {
      RoutesAgree(x.value, y.value, cfg.options.routes);
    }
  }

  lemma PairsAgree(cfg: Config, c: nat, l: CellLog, e: Entry)
    requires Shaped(cfg, c, l) && IsIn(e, l)
    ensures Agreeing(cfg, e.arms.baseline, e.arms.candidate)
  {
    hide Shaped, ValidInvocation, ValidPair, Agreeing;
    EntriesHold(cfg, c, l, e);
    PairIsTakenExactly(cfg, e.arms);
  }

  /** The result of an arm, field by field. */
  predicate Proper(cfg: Config, slot: Slot, expected: Route, r: ArmResult) {
    && r.schema == "fre-public-direct-exists-batch-v1" && r.status == "ok"
    && r.scenario == slot.cell.scenario && r.batch == slot.cell.batch && r.bytesPerHaystack == slot.cell.byteSize
    && r.totalBytes == r.batch * r.bytesPerHaystack && r.iterations == slot.iterations && r.elapsedNs > 0
    && r.matchesPerBatch == (if r.scenario == "early" || r.scenario == "late" then r.batch else 0)
    && |r.inputDigest| == 16 && cfg.env.isHex(r.inputDigest) && |r.resultDigest| == 16 && cfg.env.isHex(r.resultDigest)
    && cfg.env.routeFields(r.route).Some?
    && forall f :: f in expected ==> f in cfg.env.routeFields(r.route).value && cfg.env.routeFields(r.route).value[f] == expected[f]
  }

  /** A digest in lower-case hexadecimal. */
  predicate IsDigest(cfg: Config, sha: string) {
    |sha| == 64 && cfg.env.isHex(sha) && forall x :: x in sha ==> x < 'A' || 'Z' < x
  }

  /** A record is taken for an arm exactly when it is of its slot and side, and everything in it is in order. */
  lemma ArmIsTakenExactly(cfg: Config, slot: Slot, side: Side, e: Event)
    ensures ValidInvocation(cfg, slot, side, e) <==>
      && e.Invocation? && e.slot == slot && e.side == side && e.returncode == 0 && e.validated && e.wallNs > 0
      && IsDigest(cfg, e.stdoutSha) && IsDigest(cfg, e.stderrSha) && e.stderrSha == cfg.env.sha(e.stderr)
      && e.payload.Parsed? && Proper(cfg, slot, RouteOf(cfg.options.routes, side), e.payload.result)
  {
    if e.Invocation? {
      DigestIs(cfg, e.stdoutSha);
      DigestIs(cfg, e.stderrSha);
    }
  }

  lemma DigestIs(cfg: Config, sha: string)
    ensures ValidSha(cfg.env, sha) <==> IsDigest(cfg, sha)
  {
    if ValidSha(cfg.env, sha) {
      forall x | x in sha ensures x < 'A' || 'Z' < x {
        var i :| 0 <= i < |sha| && sha[i] == x;
      }
    }
    if IsDigest(cfg, sha) {
      assert forall i :: 0 <= i < |sha| ==> sha[i] in sha;
    }
  }

  /** Both arms of every pair in a finished log ran the cell of their slot, and ran it properly, on the routes expected of them. */
  lemma ArmsAreProper(cfg: Config, c: nat, l: CellLog, e: Entry)
    requires Shaped(cfg, c, l) && IsIn(e, l)
    ensures e.slot.cell == cfg.cells[c]
    ensures Proper(cfg, e.slot, cfg.options.routes.baseline, e.arms.baseline)
    ensures Proper(cfg, e.slot, cfg.options.routes.candidate, e.arms.candidate)
    ensures forall r :: r == e.first || r == e.second ==>
      && r.Invocation? && r.returncode == 0 && r.validated && r.wallNs > 0
      && IsDigest(cfg, r.stdoutSha) && IsDigest(cfg, r.stderrSha) && r.stderrSha == cfg.env.sha(r.stderr)
  {
    hide Shaped, ValidPair, Proper, IsDigest, ValidInvocation;
    EntriesHold(cfg, c, l, e);
    ArmIsTakenExactly(cfg, e.slot, FirstSide(e.slot.order), e.first);
    ArmIsTakenExactly(cfg, e.slot, SecondSide(e.slot.order), e.second);
  }

  predicate Reaches(cfg: Config, e: Entry) {
    e.arms.baseline.elapsedNs >= cfg.options.minimumNs && e.arms.candidate.elapsedNs >= cfg.options.minimumNs
  }

  /** The settled count is the first at which both arms take the minimum time. */
  lemma SettledCountIsFirst(cfg: Config, c: nat, l: CellLog, i: nat)
    requires Shaped(cfg, c, l) && i < |l.calibration|
    ensures Reaches(cfg, l.calibration[i]) <==> i == |l.calibration| - 1
    ensures l.calibration[i].slot.iterations == Settled(l) <==> i == |l.calibration| - 1
    ensures forall e :: e in l.warmup || e in l.measured ==> e.slot.iterations == Settled(l)
  {
    hide Holds, Scaled;
    if i < |l.calibration| - 1 {
      CountsGrow(cfg, c, l.calibration, i, |l.calibration| - 1);
    }
  }

  lemma {:induction false} CountsGrow(cfg: Config, c: nat, entries: seq<Entry>, i: nat, j: nat)
    requires Calibrates(cfg, c, 0, 1, entries) && i < j < |entries|
    ensures entries[i].slot.iterations < entries[j].slot.iterations
  {
    hide Calibrates;
    CalibrationIsThere(cfg, c, entries);
    CountsDouble(cfg, c, 0, 1, entries, j - 1);
    CountsDouble(cfg, c, 0, 1, entries, j);
    if i < j - 1 {
      CountsGrow(cfg, c, entries, i, j - 1);
    }
  }

  lemma {:induction false} FlatAt(entries: seq<Entry>, i: nat)
    requires i < |entries|
    ensures |Flat(entries)| == 2 * |entries|
    ensures Flat(entries)[2 * i] == entries[i].first && Flat(entries)[2 * i + 1] == entries[i].second
  {
    if i > 0 {
      FlatAt(entries[1..], i - 1);
    } else {
      FlatSize(entries[1..]);
    }
  }

  lemma {:induction false} FlatSize(entries: seq<Entry>)
    ensures |Flat(entries)| == 2 * |entries|
  {
    if entries != [] {
      FlatSize(entries[1..]);
    }
  }

  /** Where the records of measured pair `i` begin in its cell. */
  function MeasuredAt(l: CellLog, i: nat): nat {
    2 * |l.calibration| + 1 + 2 * |l.warmup| + 2 * i
  }

  lemma MeasuredRecords(cfg: Config, c: nat, l: CellLog, i: nat)
    requires c < |cfg.cells| && i < |l.measured|
    ensures var records, at := CellRecords(cfg, c, l), MeasuredAt(l, i);
      at + 1 < |records| && records[at] == l.measured[i].first && records[at + 1] == l.measured[i].second
  {
    hide Flat, SummaryOf, Settled;
    FlatSize(l.calibration);
    FlatSize(l.warmup);
    FlatAt(l.measured, i);
  }

  /** The record of one side of a slot, with its result. */
  predicate IsArm(e: Event, slot: Slot, side: Side, result: ArmResult) {
    e.Invocation? && e.slot == slot && e.side == side && e.payload == Parsed(result)
  }

  /**
    The measurements behind a summary are in the log, pair by pair: both records
    stand where the plan puts them, in the order the cell and pair number
    demand, and each result counts for the side that produced it.
   */
  lemma MeasurementsAreOnRecord(cfg: Config, c: nat, l: CellLog, i: nat)
    requires Shaped(cfg, c, l) && i < |l.measured|
    ensures var records, at, m := CellRecords(cfg, c, l), MeasuredAt(l, i), Measurements(l.measured)[i];
      var slot := SlotFor(cfg, c, Measure, i, Settled(l));
      && at + 1 < |records| && m.order == OrderOf(c, i)
      && (m.order.AB? ==> IsArm(records[at], slot, Baseline, m.arms.baseline) && IsArm(records[at + 1], slot, Candidate, m.arms.candidate))
      && (m.order.BA? ==> IsArm(records[at], slot, Candidate, m.arms.candidate) && IsArm(records[at + 1], slot, Baseline, m.arms.baseline))
  {
    hide CellRecords, ValidPair, ValidResult, Calibrates;
    MeasuredRecords(cfg, c, l, i);
    assert Holds(cfg, l.measured[i]) && l.measured[i].slot == SlotFor(cfg, c, Measure, 0 + i, Settled(l));
  }

  function CountOrder(entries: seq<Entry>, order: Order): nat {
    if entries == [] then 0
    else (if entries[|entries| - 1].slot.order == order then 1 else 0) + CountOrder(entries[..|entries| - 1], order)
  }

  function Lead(c: nat, entries: seq<Entry>): int {
    if c % 2 == 0 then CountOrder(entries, AB) - CountOrder(entries, BA)
    else CountOrder(entries, BA) - CountOrder(entries, AB)
  }

  lemma OrderByParity(c: nat, n: nat)
    ensures OrderOf(c, n).AB? <==> c % 2 == n % 2
  {
  }

  lemma LeadStep(c: nat, entries: seq<Entry>, e: Entry, n: nat)
    requires e.slot.order == OrderOf(c, n)
    ensures Lead(c, entries + [e]) == Lead(c, entries) + (if n % 2 == 0 then 1 else -1)
    ensures CountOrder(entries + [e], AB) + CountOrder(entries + [e], BA) == CountOrder(entries, AB) + CountOrder(entries, BA) + 1
  {
    OrderByParity(c, n);
    assert (entries + [e])[..|entries|] == entries;
  }

  /** Pairs of a phase alternate, so the two orders are balanced: the first one leads by at most one. */
  lemma {:induction false} OrdersBalance(cfg: Config, c: nat, phase: Phase, iterations: int, entries: seq<Entry>)
    requires Follows(cfg, c, phase, 0, iterations, entries)
    ensures CountOrder(entries, AB) + CountOrder(entries, BA) == |entries| && Lead(c, entries) == |entries| % 2
  {
    hide Holds, OrderOf, Lead, CountOrder;
    if entries == [] {
      NoLead(c);
    } else {
      var n := |entries| - 1;
      OrdersBalance(cfg, c, phase, iterations, entries[..n]);
      assert entries[n].slot == SlotFor(cfg, c, phase, 0 + n, iterations);
      LeadStep(c, entries[..n], entries[n], n);
      assert entries[..n] + [entries[n]] == entries;
    }
  }

  lemma NoLead(c: nat)
    ensures Lead(c, []) == 0 && CountOrder([], AB) == 0 && CountOrder([], BA) == 0
  {
  }
}
