/**
  The benchmark runner: it appends records to the log, starting anew or from
  the progress that the resume validator rebuilt. Process outcomes come from an
  oracle indexed by the position of the record that reports them.
 */
module Runner {
  import opened Wrappers
  import opened BenchLog
  import opened Resume

  // ----- What a run writes -----

  predicate Passed(e: Event) {
    e.Invocation? && e.validated
  }

  /** The record of one process run, whether it went well or not. */
  function Invoked(cfg: Config, slot: Slot, side: Side, o: Outcome): (e: Event)
    ensures Passed(e) ==> e.payload.Parsed?
  {
    var printed := cfg.env.decode(o.stdout);
    if o.returncode != 0 || printed.Garbled? then RawInvocation(slot, side, o.returncode, o.wallNs, o.stdout, o.stderr)
    else
      Invocation(slot, side, 0, o.wallNs, cfg.env.sha(o.stdout), cfg.env.sha(o.stderr), o.stderr, printed.payload,
                 printed.payload.Parsed? && ValidResult(cfg, slot, side, printed.payload.result))
  }

  datatype Step = Emit(event: Event, next: Progress) | Abort(events: seq<Event>) | Halt

  /** Why an arm that ran well still ends the run: its pair disagrees, or the next iteration count is too large. */
  function Objection(cfg: Config, p: Progress, r: ArmResult): Reason
    requires InRange(cfg, p) && SlotOf(cfg, p).Some? && PartialOf(p.stage).Some?
  {
    if ValidPair(cfg, Joined(SlotOf(cfg, p).value.order, PartialOf(p.stage).value.result, r)) then IterationOverflow
    else PairMismatch
  }

  /** The runner's next record, given the outcome of the process it may have to start. */
  function Next(cfg: Config, p: Progress, o: Outcome): (s: Step)
    requires InRange(cfg, p)
    ensures s.Emit? ==> InRange(cfg, s.next) && Closer(cfg, s.next, p)
  {
    GetsCloser(cfg, p);
    if SlotOf(cfg, p).Some? then
      var e := Invoked(cfg, SlotOf(cfg, p).value, NextSide(cfg, p), o);
      if !Passed(e) then Abort([e, Error(ArmFailed)])
      else
        var q := AddArm(cfg, p, e.payload.result);
        if q.Some? then Emit(e, q.value) else Abort([e, Error(Objection(cfg, p, e.payload.result))])
    else if Owed(cfg, p).Some? then Emit(Owed(cfg, p).value.0, Owed(cfg, p).value.1)
    else if p.stage.Complete? then Halt
    else Abort([Error(CalibrationExhausted)])
  }

  /** Everything a run still writes from some progress on, its log holding `n` records. */
  function Rest(cfg: Config, arm: Oracle, p: Progress, n: nat): seq<Event>
    requires InRange(cfg, p)
    decreases CellsLeft(cfg, p), StagesLeft(p), PairsLeft(cfg, p), ArmsLeft(p)
  {
    match Next(cfg, p, arm(n))
    case Emit(e, q) => [e] + Rest(cfg, arm, q, n + 1)
    case Abort(events) => events
    case Halt => []
  }

  function MetadataOf(cfg: Config): Event {
    Metadata(cfg.options, true)
  }

  /** The log after one undisturbed launch, fresh or resuming; a refused launch leaves the log alone. */
  function Launch(cfg: Config, arm: Oracle, resume: bool, log: seq<Event>): seq<Event> {
    if !Distinct(cfg.cells) || resume == (log == []) then log
    else if !resume then [MetadataOf(cfg)] + Rest(cfg, arm, Start(cfg), 1)
    else
      var progress := ReplayLog(cfg, log);
      if progress.Some? then log + Rest(cfg, arm, progress.value, |log|) else log
  }

  /** Stage at a given point of the warm-up, or of the measurement. */
  function WarmingFrom(cfg: Config, iterations: int, done: nat, partial: Option<Arm>): Stage {
    if done < cfg.options.warmupPairs then Warming(iterations, done, partial) else BeginMeasuring(cfg, iterations)
  }

  function MeasuringFrom(cfg: Config, iterations: int, measured: seq<Measured>, partial: Option<Arm>): Stage {
    if |measured| < cfg.options.pairs then Measuring(iterations, measured, partial) else Summarizing(iterations, measured)
  }

  // ----- The program -----

  datatype Result<+T> = Done(value: T) | Failed(reason: Reason)

  class Runner {
    const cfg: Config
    const arm: Oracle
    var log: seq<Event>

    constructor (cfg: Config, arm: Oracle, log: seq<Event>)
      ensures this.cfg == cfg && this.arm == arm && this.log == log
    {
      this.cfg, this.arm, this.log := cfg, arm, log;
    }

    /** From progress `p` on, the run will leave the log `total`. */
    ghost predicate Heading(p: Progress, total: seq<Event>)
      reads this
    {
      InRange(cfg, p) && log + Rest(cfg, arm, p, |log|) == total
    }

    /** The run ends with an error record that completes `total`. */
    ghost predicate Ending(reason: Reason, total: seq<Event>)
      reads this
    {
      log + [Error(reason)] == total
    }

    method Write(e: Event)
      modifies this
      ensures log == old(log) + [e]
    {
      log := log + [e];
    }

    /** Writes the record that the progress owes. */
    method WriteOwed(e: Event, ghost p: Progress, ghost total: seq<Event>)
      requires Heading(p, total) && Owed(cfg, p).Some? && Owed(cfg, p).value.0 == e
      modifies this
      ensures Heading(Owed(cfg, p).value.1, total) && log == old(log) + [e]
    {
      ghost var q := Owed(cfg, p).value.1;
      OwedIsNext(cfg, arm, p, |log|);
      assert log + ([e] + Rest(cfg, arm, q, |log| + 1)) == (log + [e]) + Rest(cfg, arm, q, |log| + 1);
      Write(e);
    }

    method Invoke(slot: Slot, side: Side, ghost p: Progress, ghost total: seq<Event>) returns (r: Result<ArmResult>)
      requires Heading(p, total) && SlotOf(cfg, p) == Some(slot) && NextSide(cfg, p) == side
      modifies this
      ensures r.Failed? ==> Ending(r.reason, total)
      ensures r.Done? ==>
        match AddArm(cfg, p, r.value)
        case Some(q) => Heading(q, total)
        case None => PartialOf(p.stage).Some? && Ending(Objection(cfg, p, r.value), total)
    {
      hide Rest, AddArm, ValidResult, Objection, SlotOf, NextSide, Owed;
      var o := arm(|log|);
      var printed := cfg.env.decode(o.stdout);
      ArmIsNext(cfg, arm, p, |log|);
      ghost var before, e := log, Invoked(cfg, slot, side, o);
      assert before + [e, Error(ArmFailed)] == before + [e] + [Error(ArmFailed)];
      if o.returncode != 0 || printed.Garbled? {
        Write(RawInvocation(slot, side, o.returncode, o.wallNs, o.stdout, o.stderr));
        return Failed(ArmFailed);
      }
      var payload := printed.payload;
      var valid := payload.Parsed? && ValidResult(cfg, slot, side, payload.result);
      Write(Invocation(slot, side, o.returncode, o.wallNs, cfg.env.sha(o.stdout), cfg.env.sha(o.stderr), o.stderr, payload, valid));
      if !valid {
        return Failed(ArmFailed);
      }
      ghost var q := AddArm(cfg, p, e.payload.result);
      if q.Some? {
        assert before + ([e] + Rest(cfg, arm, q.value, |before| + 1)) == log + Rest(cfg, arm, q.value, |log|);
      } else {
        ghost var objection := Error(Objection(cfg, p, e.payload.result));
        assert before + [e, objection] == log + [objection];
      }
      return Done(payload.result);
    }

    /** Runs the missing arms of a pair. */
    method RunPair(slot: Slot, existing: Option<Arm>, ghost p: Progress, ghost total: seq<Event>) returns (r: Result<Pair>)
      requires Heading(p, total) && SlotOf(cfg, p) == Some(slot) && PartialOf(p.stage) == existing
      modifies this
      ensures r.Failed? ==> Ending(r.reason, total)
      ensures r.Done? ==>
        match AfterPair(cfg, p, r.value)
        case Some(stage) => Heading(p.(stage := stage), total)
        case None => Ending(IterationOverflow, total)
    {
      hide Rest, ValidPair, AfterPair;
      var first, second := FirstSide(slot.order), SecondSide(slot.order);
      var one: ArmResult;
      ghost var q := p;
      if existing.Some? {
        if existing.value.side != first {
          return Failed(PairMismatch);
        }
        one := existing.value.result;
      } else {
        var invoked := Invoke(slot, first, p, total);
        if invoked.Failed? {
          return Failed(invoked.reason);
        }
        one := invoked.value;
        q := p.(stage := WithPartial(p.stage, Arm(first, one)));
      }
      var invoked := Invoke(slot, second, q, total);
      if invoked.Failed? {
        return Failed(invoked.reason);
      }
      var pair := if slot.order.AB? then Pair(one, invoked.value) else Pair(invoked.value, one);
      AfterPairIgnoresPartial(cfg, p, Arm(first, one), pair);
      if !ValidPair(cfg, pair) {
        return Failed(PairMismatch);
      }
      return Done(pair);
    }

    /** Pairs of growing iteration counts until both arms take the minimum time. */
    method Calibrate(summaries: seq<string>, startIterations: int, startOrdinal: nat, startPartial: Option<Arm>,
                     ghost total: seq<Event>)
      returns (r: Result<int>, ghost ordinal: nat)
      requires Heading(Progress(summaries, Calibrating(startIterations, startOrdinal, startPartial)), total)
      modifies this
      ensures r.Failed? ==> Ending(r.reason, total)
      ensures r.Done? ==> Heading(Progress(summaries, RecordCalibrated(r.value, ordinal)), total)
    {
      hide Rest, Scaled;
      var c := |summaries|;
      var iterations, existing := startIterations, startPartial;
      ordinal := startOrdinal;
      for k := startOrdinal to MAX_CALIBRATION_PAIRS
        invariant Heading(Progress(summaries, Calibrating(iterations, k, existing)), total)
      {
        ordinal := k;
        var slot := Slot(Calibration, k, None, OrderOf(c, k), cfg.cells[c], iterations);
        var ran := RunPair(slot, existing, Progress(summaries, Calibrating(iterations, k, existing)), total);
        if ran.Failed? {
          return Failed(ran.reason), ordinal;
        }
        if Fastest(ran.value) >= cfg.options.minimumNs {
          return Done(iterations), ordinal;
        }
        iterations := Scaled(cfg, iterations, Fastest(ran.value));
        if iterations > MAX_ITERATIONS {
          return Failed(IterationOverflow), ordinal;
        }
        existing := None;
      }
      ExhaustedAborts(cfg, arm, Progress(summaries, Calibrating(iterations, MAX_CALIBRATION_PAIRS, existing)), |log|);
      return Failed(CalibrationExhausted), ordinal;
    }

    method Warm(summaries: seq<string>, iterations: int, start: nat, startPartial: Option<Arm>, ghost total: seq<Event>)
      returns (r: Result<()>)
      requires |summaries| < |cfg.cells| && Heading(Progress(summaries, WarmingFrom(cfg, iterations, start, startPartial)), total)
      modifies this
      ensures r.Failed? ==> Ending(r.reason, total)
      ensures r.Done? ==> Heading(Progress(summaries, BeginMeasuring(cfg, iterations)), total)
    {
      hide Rest, BeginMeasuring;
      var c := |summaries|;
      var done, existing := start, startPartial;
      while done < cfg.options.warmupPairs
        invariant Heading(Progress(summaries, WarmingFrom(cfg, iterations, done, existing)), total)
      {
        var slot := Slot(Warmup, done, None, OrderOf(c, done), cfg.cells[c], iterations);
        var ran := RunPair(slot, existing, Progress(summaries, Warming(iterations, done, existing)), total);
        if ran.Failed? {
          return Failed(ran.reason);
        }
        done, existing := done + 1, None;
      }
      return Done(());
    }

    method Sample(summaries: seq<string>, iterations: int, start: seq<Measured>, startPartial: Option<Arm>, ghost total: seq<Event>)
      returns (r: Result<seq<Measured>>)
      requires |summaries| < |cfg.cells| && Heading(Progress(summaries, MeasuringFrom(cfg, iterations, start, startPartial)), total)
      modifies this
      ensures r.Failed? ==> Ending(r.reason, total)
      ensures r.Done? ==> Heading(Progress(summaries, Summarizing(iterations, r.value)), total)
    {
      hide Rest;
      var c := |summaries|;
      var measured, existing := start, startPartial;
      while |measured| < cfg.options.pairs
        invariant Heading(Progress(summaries, MeasuringFrom(cfg, iterations, measured, existing)), total)
        decreases cfg.options.pairs - |measured|
      {
        var pair := |measured|;
        var slot := Slot(Measure, pair, Some(pair), OrderOf(c, pair), cfg.cells[c], iterations);
        var ran := RunPair(slot, existing, Progress(summaries, Measuring(iterations, measured, existing)), total);
        if ran.Failed? {
          return Failed(ran.reason);
        }
        measured, existing := measured + [Measured(slot.order, ran.value)], None;
      }
      return Done(measured);
    }

    /** Brings a cell to the point where its iteration count is on record. */
    method Prepare(summaries: seq<string>, stage: Stage, ghost total: seq<Event>) returns (r: Result<int>)
      requires Heading(Progress(summaries, stage), total) && (stage.Calibrating? || stage.RecordCalibrated?)
      modifies this
      ensures r.Failed? ==> Ending(r.reason, total)
      ensures r.Done? ==> Heading(Progress(summaries, BeginWarming(cfg, r.value)), total)
    {
      hide Rest, BeginWarming;
      var iterations := stage.iterations;
      ghost var ordinal := stage.ordinal;
      if stage.Calibrating? {
        var calibrated, k := Calibrate(summaries, iterations, stage.ordinal, stage.partial, total);
        if calibrated.Failed? {
          return Failed(calibrated.reason);
        }
        iterations, ordinal := calibrated.value, k;
      }
      WriteOwed(Calibrated(cfg.cells[|summaries|], iterations), Progress(summaries, RecordCalibrated(iterations, ordinal)), total);
      return Done(iterations);
    }

    /** Runs a cell from its stage to its summary. */
    method RunCell(summaries: seq<string>, stage: Stage, ghost total: seq<Event>) returns (r: Result<string>)
      requires |summaries| < |cfg.cells| && Heading(Progress(summaries, stage), total)
      modifies this
      ensures r.Failed? ==> Ending(r.reason, total)
      ensures r.Done? ==> Heading(BeginCell(cfg, summaries + [r.value]), total)
    {
      hide Rest, BeginCell;
      var iterations := stage.iterations;
      var measured, partial := [], None;
      if stage.Calibrating? || stage.RecordCalibrated? || stage.Warming? {
        var done := 0;
        if stage.Warming? {
          done, partial := stage.done, stage.partial;
        } else {
          var prepared := Prepare(summaries, stage, total);
          if prepared.Failed? {
            return Failed(prepared.reason);
          }
          iterations := prepared.value;
        }
        var warmed := Warm(summaries, iterations, done, partial, total);
        if warmed.Failed? {
          return Failed(warmed.reason);
        }
        partial := None;
      } else {
        measured, partial := stage.measured, PartialOf(stage);
      }
      var sampled := Sample(summaries, iterations, measured, partial, total);
      if sampled.Failed? {
        return Failed(sampled.reason);
      }
      var summary := cfg.env.summarize(cfg.cells[|summaries|], sampled.value);
      WriteOwed(PairedSummary(summary), Progress(summaries, Summarizing(iterations, sampled.value)), total);
      return Done(summary);
    }

    /** Carries a run on to its aggregate, or to an error record. */
    method Run(p: Progress, ghost total: seq<Event>) returns (ok: bool)
      requires Heading(p, total) && !p.stage.Complete?
      modifies this
      ensures log == total && log != []
      ensures if ok then log[|log| - 1].AggregateSummary? else log[|log| - 1].Error?
    {
      hide Rest;
      var summaries, stage := p.summaries, p.stage;
      while |summaries| < |cfg.cells|
        invariant |summaries| <= |cfg.cells| && !stage.Complete? && Heading(Progress(summaries, stage), total)
        decreases |cfg.cells| - |summaries|
      {
        var ran := RunCell(summaries, stage, total);
        if ran.Failed? {
          Write(Error(ran.reason));
          return false;
        }
        summaries := summaries + [ran.value];
        stage := if |summaries| < |cfg.cells| then Calibrating(1, 0, None) else Aggregating;
      }
      var aggregate := cfg.env.aggregate(summaries, cfg.options.pairs);
      WriteOwed(AggregateSummary(aggregate), Progress(summaries, Aggregating), total);
      CompleteWritesNothing(cfg, arm, Progress(summaries, Complete(aggregate)), |log|);
      return true;
    }

    /** One launch of the program: status 0 leaves a finished log, any other an untouched one or a last error record. */
    method Launched(resume: bool) returns (status: int)
      modifies this
      ensures log == Launch(cfg, arm, resume, old(log))
      ensures status == 0 ==> log != [] && log[|log| - 1].AggregateSummary?
      ensures status != 0 ==> log == old(log) || log[|log| - 1].Error?
    {
      hide Rest, Replay;
      var distinct := CellsAreDistinct(cfg.cells);
      if !distinct || resume == (log == []) {
        return 1;
      }
      var progress := Progress([], if 0 < |cfg.cells| then Calibrating(1, 0, None) else Aggregating);
      if resume {
        var validated := ValidateResumeEvents(cfg, log);
        if validated.None? {
          return 1;
        }
        progress := validated.value;
        if progress.stage.Complete? {
          CompleteWritesNothing(cfg, arm, progress, |log|);
          CompleteLogEnds(cfg, log);
          return 0;
        }
      } else {
        Write(MetadataOf(cfg));
      }
      var ok := Run(progress, log + Rest(cfg, arm, progress, |log|));
      return if ok then 0 else 1;
    }
  }

  // ----- One step of the rest -----

  lemma OwedIsNext(cfg: Config, arm: Oracle, p: Progress, n: nat)
    requires InRange(cfg, p) && Owed(cfg, p).Some?
    ensures InRange(cfg, Owed(cfg, p).value.1)
    ensures Rest(cfg, arm, p, n) == [Owed(cfg, p).value.0] + Rest(cfg, arm, Owed(cfg, p).value.1, n + 1)
  {
    StaysInRange(cfg, p);
  }

  lemma ArmIsNext(cfg: Config, arm: Oracle, p: Progress, n: nat)
    requires InRange(cfg, p) && SlotOf(cfg, p).Some?
    ensures var e := Invoked(cfg, SlotOf(cfg, p).value, NextSide(cfg, p), arm(n));
      if !Passed(e) then Rest(cfg, arm, p, n) == [e, Error(ArmFailed)]
      else
        match AddArm(cfg, p, e.payload.result)
        case Some(q) => InRange(cfg, q) && Rest(cfg, arm, p, n) == [e] + Rest(cfg, arm, q, n + 1)
        case None => PartialOf(p.stage).Some? && Rest(cfg, arm, p, n) == [e, Error(Objection(cfg, p, e.payload.result))]
  {
    hide ValidResult, ValidPair, AfterPair, InRange;
    StaysInRange(cfg, p);
  }

  lemma ExhaustedAborts(cfg: Config, arm: Oracle, p: Progress, n: nat)
    requires InRange(cfg, p) && p.stage.Calibrating? && p.stage.ordinal == MAX_CALIBRATION_PAIRS
    ensures Rest(cfg, arm, p, n) == [Error(CalibrationExhausted)]
  {
  }

  lemma CompleteWritesNothing(cfg: Config, arm: Oracle, p: Progress, n: nat)
    requires InRange(cfg, p) && p.stage.Complete?
    ensures Rest(cfg, arm, p, n) == []
  {
  }

  /** A log that stands for a complete run ends with its aggregate. */
  lemma CompleteLogEnds(cfg: Config, log: seq<Event>)
    requires ReplayLog(cfg, log).Some? && ReplayLog(cfg, log).value.stage.Complete?
    ensures log[|log| - 1].AggregateSummary?
  {
    CompleteEnds(cfg, Start(cfg), log[1..]);
  }

  lemma OnlyAggregateCompletes(cfg: Config, p: Progress, e: Event)
    requires InRange(cfg, p)
    ensures Accept(cfg, p, e).Some? && Accept(cfg, p, e).value.stage.Complete? ==> e.AggregateSummary?
  {
    hide ValidPair, ValidInvocation;
  }

  lemma {:induction false} CompleteEnds(cfg: Config, p: Progress, events: seq<Event>)
    requires InRange(cfg, p) && !p.stage.Complete?
    requires Replay(cfg, p, events).Some? && Replay(cfg, p, events).value.stage.Complete?
    ensures events != [] && events[|events| - 1].AggregateSummary?
    decreases |events|
  {
    hide ValidPair, ValidInvocation, AfterPair, SlotOf, BeginWarming, BeginCell;
    OnlyAggregateCompletes(cfg, p, events[0]);
    var q := Accept(cfg, p, events[0]).value;
    if q.stage.Complete? {
      if events[1..] != [] {
        CompleteIsFinal(cfg, q, events[1]);
      }
    } else {
      CompleteEnds(cfg, q, events[1..]);
    }
  }
}
