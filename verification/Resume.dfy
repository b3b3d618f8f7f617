/**
  The resume validator: it reads a surviving log record by record and rebuilds
  the progress of the run that wrote it, or refuses the log.
 */
module Resume {
  import opened Wrappers
  import opened BenchLog

  /** One record on top of some progress; none if the record is not the one that has to come next. */
  function Accept(cfg: Config, p: Progress, e: Event): (q: Option<Progress>)
    requires InRange(cfg, p)
    ensures q.Some? ==> InRange(cfg, q.value)
  {
    StaysInRange(cfg, p);
    if SlotOf(cfg, p).Some? then
      if ValidInvocation(cfg, SlotOf(cfg, p).value, NextSide(cfg, p), e) then AddArm(cfg, p, e.payload.result) else None
    else if Owed(cfg, p).Some? && Owed(cfg, p).value.0 == e then Some(Owed(cfg, p).value.1)
    else None
  }

  function Replay(cfg: Config, p: Progress, events: seq<Event>): (q: Option<Progress>)
    requires InRange(cfg, p)
    ensures q.Some? ==> InRange(cfg, q.value)
    decreases |events|
  {
    if events == [] then Some(p)
    else
      var next := Accept(cfg, p, events[0]);
      if next.None? then None else Replay(cfg, next.value, events[1..])
  }

  function Start(cfg: Config): (p: Progress)
    ensures InRange(cfg, p)
  {
    BeginCell(cfg, [])
  }

  /** The progress a log stands for. */
  function ReplayLog(cfg: Config, events: seq<Event>): (q: Option<Progress>)
    ensures q.Some? ==> InRange(cfg, q.value)
  {
    if events == [] || !Distinct(cfg.cells) || !ValidMetadata(cfg, events[0]) then None
    else Replay(cfg, Start(cfg), events[1..])
  }

  // ----- The validator -----

  /** What is left to do with `events` from `cursor` on gives the answer for the whole log. */
  ghost predicate Pending(cfg: Config, events: seq<Event>, cursor: nat, p: Progress, answer: Option<Progress>) {
    cursor <= |events| && InRange(cfg, p) && Replay(cfg, p, events[cursor..]) == answer
  }

  lemma Read(cfg: Config, events: seq<Event>, cursor: nat, p: Progress, answer: Option<Progress>)
    requires Pending(cfg, events, cursor, p, answer)
    ensures cursor == |events| ==> answer == Some(p)
    ensures cursor < |events| ==>
      var next := Accept(cfg, p, events[cursor]);
      if next.None? then answer == None else Pending(cfg, events, cursor + 1, next.value, answer)
  {
    hide Accept;
    if cursor < |events| {
      assert events[cursor..][0] == events[cursor] && events[cursor..][1..] == events[cursor + 1..];
    }
  }

  lemma {:induction false} ErrorsAreRefused(cfg: Config, p: Progress, events: seq<Event>, i: nat)
    requires InRange(cfg, p) && i < |events| && events[i].Error?
    ensures Replay(cfg, p, events) == None
    decreases |events|
  {
    var next := Accept(cfg, p, events[0]);
    if i > 0 && next.Some? {
      ErrorsAreRefused(cfg, next.value, events[1..], i - 1);
    }
  }

  datatype Logged = Rejected | First(arm: Arm) | Whole(pair: Pair)

  /** Reads the arms of one pair: refused, only the first one there, or both. */
  method ConsumeLoggedPair(cfg: Config, events: seq<Event>, cursor: nat, slot: Slot,
                           ghost p: Progress, ghost answer: Option<Progress>)
    returns (r: Logged)
    requires Pending(cfg, events, cursor, p, answer) && cursor < |events|
    requires SlotOf(cfg, p) == Some(slot) && PartialOf(p.stage).None?
    ensures r.Rejected? ==> answer == None
    ensures r.First? ==> cursor + 1 == |events| && answer == Some(p.(stage := WithPartial(p.stage, r.arm)))
    ensures r.Whole? ==> cursor + 2 <= |events| && AfterWhole(cfg, events, cursor + 2, p, r.pair, answer)
  {
    hide ValidInvocation, ValidPair, AfterPair;
    var first, second := FirstSide(slot.order), SecondSide(slot.order);
    Read(cfg, events, cursor, p, answer);
    if !ValidInvocation(cfg, slot, first, events[cursor]) {
      return Rejected;
    }
    var arm := Arm(first, ResultOf(cfg, slot, first, events[cursor]));
    ghost var q := p.(stage := WithPartial(p.stage, arm));
    if cursor + 1 == |events| {
      Read(cfg, events, cursor + 1, q, answer);
      return First(arm);
    }
    Read(cfg, events, cursor + 1, q, answer);
    if !ValidInvocation(cfg, slot, second, events[cursor + 1]) {
      return Rejected;
    }
    var other := ResultOf(cfg, slot, second, events[cursor + 1]);
    var pair := if slot.order.AB? then Pair(arm.result, other) else Pair(other, arm.result);
    AfterPairIgnoresPartial(cfg, p, arm, pair);
    if !ValidPair(cfg, pair) {
      return Rejected;
    }
    return Whole(pair);
  }

  function ResultOf(cfg: Config, slot: Slot, side: Side, e: Event): (r: ArmResult)
    requires ValidInvocation(cfg, slot, side, e)
    ensures e.Invocation? && e.payload.Parsed? && r == e.payload.result
  {
    e.payload.result
  }

  lemma AfterPairIgnoresPartial(cfg: Config, p: Progress, arm: Arm, pair: Pair)
    ensures AfterPair(cfg, p.(stage := WithPartial(p.stage, arm)), pair) == AfterPair(cfg, p, pair)
  {
  }

  /** Where the reading stands after a whole pair. */
  ghost predicate AfterWhole(cfg: Config, events: seq<Event>, cursor: nat, p: Progress, pair: Pair, answer: Option<Progress>) {
    match AfterPair(cfg, p, pair)
    case None => answer == None
    case Some(stage) => Pending(cfg, events, cursor, p.(stage := stage), answer)
  }

  /** Result of reading one part of a cell: the whole log is decided, or the reading goes on. */
  datatype Reading<T> = Decided(answer: Option<Progress>) | Continue(cursor: nat, value: T)

  method ReadCalibration(cfg: Config, events: seq<Event>, from: nat, summaries: seq<string>, ghost answer: Option<Progress>)
    returns (r: Reading<int>)
    requires |summaries| < |cfg.cells| && Pending(cfg, events, from, BeginCell(cfg, summaries), answer)
    ensures r.Decided? ==> r.answer == answer
    ensures r.Continue? ==> Pending(cfg, events, r.cursor, Progress(summaries, BeginWarming(cfg, r.value)), answer)
  {
    hide Replay, Accept, Scaled, BeginWarming;
    var c := |summaries|;
    var cursor, iterations, ordinal := from, 1, 0;
    while true
      invariant ordinal <= MAX_CALIBRATION_PAIRS
      invariant Pending(cfg, events, cursor, Progress(summaries, Calibrating(iterations, ordinal, None)), answer)
      decreases MAX_CALIBRATION_PAIRS - ordinal
    {
      ghost var p := Progress(summaries, Calibrating(iterations, ordinal, None));
      Read(cfg, events, cursor, p, answer);
      if cursor == |events| {
        return Decided(Some(Progress(summaries, Calibrating(iterations, ordinal, None))));
      }
      if ordinal >= MAX_CALIBRATION_PAIRS {
        NothingFits(cfg, p, events[cursor]);
        return Decided(None);
      }
      var slot := Slot(Calibration, ordinal, None, OrderOf(c, ordinal), cfg.cells[c], iterations);
      var logged := ConsumeLoggedPair(cfg, events, cursor, slot, p, answer);
      match logged {
        case Rejected => return Decided(None);
        case First(arm) => return Decided(Some(Progress(summaries, Calibrating(iterations, ordinal, Some(arm)))));
        case Whole(pair) =>
          cursor := cursor + 2;
          if Fastest(pair) >= cfg.options.minimumNs {
            r := ReadRecord(cfg, events, cursor, Progress(summaries, RecordCalibrated(iterations, ordinal)), iterations, answer);
            return;
          }
          iterations := Scaled(cfg, iterations, Fastest(pair));
          if iterations > MAX_ITERATIONS {
            return Decided(None);
          }
          ordinal := ordinal + 1;
      }
    }
  }

  /** Nothing may follow sixteen calibration pairs that all fell short. */
  lemma NothingFits(cfg: Config, p: Progress, e: Event)
    requires InRange(cfg, p) && p.stage.Calibrating? && p.stage.ordinal == MAX_CALIBRATION_PAIRS
    ensures Accept(cfg, p, e) == None
  {
  }

  /** Reads the one record that has to come next, if the log goes on. */
  method ReadRecord<T>(cfg: Config, events: seq<Event>, cursor: nat, p: Progress, value: T, ghost answer: Option<Progress>)
    returns (r: Reading<T>)
    requires Pending(cfg, events, cursor, p, answer) && Owed(cfg, p).Some?
    ensures r.Decided? ==> r.answer == answer
    ensures r.Continue? ==> r == Continue(cursor + 1, value) && Pending(cfg, events, cursor + 1, Owed(cfg, p).value.1, answer)
  {
    hide Replay;
    Read(cfg, events, cursor, p, answer);
    if cursor == |events| {
      return Decided(Some(p));
    }
    if events[cursor] != Owed(cfg, p).value.0 {
      return Decided(None);
    }
    return Continue(cursor + 1, value);
  }

  method ReadWarmups(cfg: Config, events: seq<Event>, from: nat, summaries: seq<string>, iterations: int, ghost answer: Option<Progress>)
    returns (r: Reading<()>)
    requires |summaries| < |cfg.cells| && Pending(cfg, events, from, Progress(summaries, BeginWarming(cfg, iterations)), answer)
    ensures r.Decided? ==> r.answer == answer
    ensures r.Continue? ==> Pending(cfg, events, r.cursor, Progress(summaries, BeginMeasuring(cfg, iterations)), answer)
  {
    hide Replay, Accept, BeginMeasuring;
    var c := |summaries|;
    var cursor, done := from, 0;
    while done < cfg.options.warmupPairs
      invariant 0 <= done
      invariant var stage := if done < cfg.options.warmupPairs then Warming(iterations, done, None) else BeginMeasuring(cfg, iterations);
        Pending(cfg, events, cursor, Progress(summaries, stage), answer)
    {
      ghost var p := Progress(summaries, Warming(iterations, done, None));
      Read(cfg, events, cursor, p, answer);
      if cursor == |events| {
        return Decided(Some(Progress(summaries, Warming(iterations, done, None))));
      }
      var slot := Slot(Warmup, done, None, OrderOf(c, done), cfg.cells[c], iterations);
      var logged := ConsumeLoggedPair(cfg, events, cursor, slot, p, answer);
      match logged {
        case Rejected => return Decided(None);
        case First(arm) => return Decided(Some(Progress(summaries, Warming(iterations, done, Some(arm)))));
        case Whole(pair) => cursor, done := cursor + 2, done + 1;
      }
    }
    return Continue(cursor, ());
  }

  method ReadMeasures(cfg: Config, events: seq<Event>, from: nat, summaries: seq<string>, iterations: int, ghost answer: Option<Progress>)
    returns (r: Reading<seq<Measured>>)
    requires |summaries| < |cfg.cells| && Pending(cfg, events, from, Progress(summaries, BeginMeasuring(cfg, iterations)), answer)
    ensures r.Decided? ==> r.answer == answer
    ensures r.Continue? ==> Pending(cfg, events, r.cursor, Progress(summaries, Summarizing(iterations, r.value)), answer)
  {
    hide Replay, Accept;
    var c := |summaries|;
    var cursor, measured := from, [];
    while |measured| < cfg.options.pairs
      invariant var stage := if |measured| < cfg.options.pairs then Measuring(iterations, measured, None) else Summarizing(iterations, measured);
        Pending(cfg, events, cursor, Progress(summaries, stage), answer)
      decreases cfg.options.pairs - |measured|
    {
      ghost var p := Progress(summaries, Measuring(iterations, measured, None));
      Read(cfg, events, cursor, p, answer);
      if cursor == |events| {
        return Decided(Some(Progress(summaries, Measuring(iterations, measured, None))));
      }
      var pair := |measured|;
      var slot := Slot(Measure, pair, Some(pair), OrderOf(c, pair), cfg.cells[c], iterations);
      var logged := ConsumeLoggedPair(cfg, events, cursor, slot, p, answer);
      match logged {
        case Rejected => return Decided(None);
        case First(arm) => return Decided(Some(Progress(summaries, Measuring(iterations, measured, Some(arm)))));
        case Whole(arms) => cursor, measured := cursor + 2, measured + [Measured(OrderOf(c, pair), arms)];
      }
    }
    return Continue(cursor, measured);
  }

  method ReadCell(cfg: Config, events: seq<Event>, from: nat, summaries: seq<string>, ghost answer: Option<Progress>)
    returns (r: Reading<seq<string>>)
    requires |summaries| < |cfg.cells| && Pending(cfg, events, from, BeginCell(cfg, summaries), answer)
    ensures r.Decided? ==> r.answer == answer
    ensures r.Continue? ==> |r.value| == |summaries| + 1 && Pending(cfg, events, r.cursor, BeginCell(cfg, r.value), answer)
  {
    hide Replay, Accept, BeginWarming, BeginMeasuring, BeginCell;
    var calibration := ReadCalibration(cfg, events, from, summaries, answer);
    if calibration.Decided? {
      return Decided(calibration.answer);
    }
    var iterations := calibration.value;
    var warmups := ReadWarmups(cfg, events, calibration.cursor, summaries, iterations, answer);
    if warmups.Decided? {
      return Decided(warmups.answer);
    }
    var measures := ReadMeasures(cfg, events, warmups.cursor, summaries, iterations, answer);
    if measures.Decided? {
      return Decided(measures.answer);
    }
    var p := Progress(summaries, Summarizing(iterations, measures.value));
    var summary := cfg.env.summarize(cfg.cells[|summaries|], measures.value);
    r := ReadRecord(cfg, events, measures.cursor, p, summaries + [summary], answer);
  }

  method CellsAreDistinct(cells: seq<Cell>) returns (distinct: bool)
    ensures distinct == Distinct(cells)
  {
    var seen: set<Cell> := {};
    for i := 0 to |cells|
      invariant seen == set k | 0 <= k < i :: cells[k]
      invariant Distinct(cells[..i])
    {
      if cells[i] in seen {
        return false;
      }
      seen := seen + {cells[i]};
    }
    assert cells[..|cells|] == cells;
    return true;
  }

  method HasError(events: seq<Event>) returns (found: bool)
    requires events != []
    ensures found <==> exists i :: 1 <= i < |events| && events[i].Error?
  {
    for i := 1 to |events|
      invariant forall k :: 1 <= k < i ==> !events[k].Error?
    {
      if events[i].Error? {
        return true;
      }
    }
    return false;
  }

  /** Rebuilds the progress of the run that wrote a log, or refuses the log. */
  method ValidateResumeEvents(cfg: Config, events: seq<Event>) returns (r: Option<Progress>)
    ensures r == ReplayLog(cfg, events)
  {
    hide Replay, Accept;
    if events == [] {
      return None;
    }
    var distinct := CellsAreDistinct(cfg.cells);
    if !distinct || !ValidMetadata(cfg, events[0]) {
      return None;
    }
    var failed := HasError(events);
    if failed {
      ghost var i :| 1 <= i < |events| && events[i].Error?;
      ErrorsAreRefused(cfg, Start(cfg), events[1..], i - 1);
      return None;
    }
    ghost var answer := ReplayLog(cfg, events);
    var cursor, summaries := 1, [];
    while |summaries| < |cfg.cells|
      invariant |summaries| <= |cfg.cells|
      invariant Pending(cfg, events, cursor, BeginCell(cfg, summaries), answer)
      decreases |cfg.cells| - |summaries|
    {
      var cell := ReadCell(cfg, events, cursor, summaries, answer);
      if cell.Decided? {
        return cell.answer;
      }
      cursor, summaries := cell.cursor, cell.value;
    }
    var aggregate := cfg.env.aggregate(summaries, cfg.options.pairs);
    var last := ReadRecord(cfg, events, cursor, Progress(summaries, Aggregating), (), answer);
    if last.Decided? {
      return last.answer;
    }
    Read(cfg, events, last.cursor, Progress(summaries, Complete(aggregate)), answer);
    if last.cursor != |events| {
      CompleteIsFinal(cfg, Progress(summaries, Complete(aggregate)), events[last.cursor]);
      return None;
    }
    return Some(Progress(summaries, Complete(aggregate)));
  }

  lemma CompleteIsFinal(cfg: Config, p: Progress, e: Event)
    requires InRange(cfg, p) && p.stage.Complete?
    ensures Accept(cfg, p, e) == None
  {
  }

  /** The first record has to be the metadata of these very options, with route evidence, or without it unless one binary is compared with itself. */
  lemma MetadataIsExact(cfg: Config, e: Event)
    ensures ReplayLog(cfg, [e]).Some? <==>
      Distinct(cfg.cells) && (e == Metadata(cfg.options, true) || (e == Metadata(cfg.options, false) && !cfg.options.sameBinary))
  {
    assert [e][1..] == [];
  }
}
