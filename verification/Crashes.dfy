/**
  Crash and resume. Any number of launches, each cut off at any record
  boundary, leave what one undisturbed launch would have left.
 */
module Crashes {
  import opened Wrappers
  import opened BenchLog
  import opened Resume
  import opened Runner

  // ----- The validator follows the runner -----

  /** The runner's own progress after `k` more records; none once it has begun to abort. */
  function RunnerAfter(cfg: Config, arm: Oracle, p: Progress, n: nat, k: nat): Option<Progress>
    requires InRange(cfg, p)
    decreases k
  {
    if k == 0 then Some(p)
    else
      var step := Next(cfg, p, arm(n));
      if step.Emit? then RunnerAfter(cfg, arm, step.next, n + 1, k - 1) else None
  }

  /** Hashes look like hashes. */
  ghost predicate Hashing(cfg: Config) {
    forall s :: ValidSha(cfg.env, cfg.env.sha(s))
  }

  /** An invocation on record that took no time: the runner writes it down, the validator refuses it. */
  predicate Instant(e: Event) {
    e.Invocation? && e.wallNs <= 0
  }

  predicate AnyInstant(events: seq<Event>) {
    exists i :: 0 <= i < |events| && Instant(events[i])
  }

  lemma AnyInstantStep(events: seq<Event>)
    requires events != []
    ensures AnyInstant(events) <==> Instant(events[0]) || AnyInstant(events[1..])
  {
    if i :| 0 <= i < |events| && Instant(events[i]) {
      if i > 0 {
        assert events[1..][i - 1] == events[i];
      }
    }
    if i :| 0 <= i < |events[1..]| && Instant(events[1..][i]) {
      assert events[i + 1] == events[1..][i];
    }
  }

  /** Whatever the validator makes of a record the runner has just emitted, it is what the runner makes of it. */
  lemma StepAgrees(cfg: Config, p: Progress, o: Outcome)
    requires InRange(cfg, p)
    ensures match Next(cfg, p, o)
      case Emit(e, q) => Accept(cfg, p, e).Some? ==> Accept(cfg, p, e).value == q
      case Abort(events) => events != [] && Accept(cfg, p, events[0]) == None
      case Halt => p.stage.Complete?
  {
    hide ValidPair, AfterPair, ValidResult, InRange;
  }

  /** An emitted record is accepted, unless it took no time. */
  lemma EmittedIsAccepted(cfg: Config, p: Progress, o: Outcome)
    requires InRange(cfg, p) && Hashing(cfg) && Next(cfg, p, o).Emit?
    ensures var step := Next(cfg, p, o);
      Accept(cfg, p, step.event) == if Instant(step.event) then None else Some(step.next)
  {
    hide ValidPair, AfterPair, ValidResult, ValidSha, InRange;
  }

  /**
    On every record prefix of every run, also of one that aborts, the
    validator's answer is the runner's own progress at that point; but it
    refuses any invocation that took no time.
   */
  lemma {:induction false} PrefixIsProgress(cfg: Config, arm: Oracle, p: Progress, n: nat, k: nat)
    requires InRange(cfg, p) && Hashing(cfg) && k <= |Rest(cfg, arm, p, n)|
    ensures var records := Rest(cfg, arm, p, n)[..k];
      Replay(cfg, p, records) == if AnyInstant(records) then None else RunnerAfter(cfg, arm, p, n, k)
    decreases k
  {
    hide Next, Accept, AnyInstant, Hashing;
    StepAgrees(cfg, p, arm(n));
    var rest, step := Rest(cfg, arm, p, n), Next(cfg, p, arm(n));
    if k == 0 {
      NoInstant();
    } else {
      assert rest[..k][0] == rest[0];
      AnyInstantStep(rest[..k]);
      if step.Emit? {
        EmittedIsAccepted(cfg, p, arm(n));
        assert rest[..k][1..] == Rest(cfg, arm, step.next, n + 1)[..k - 1];
        PrefixIsProgress(cfg, arm, step.next, n + 1, k - 1);
      }
    }
  }

  lemma NoInstant()
    ensures !AnyInstant([])
  {
  }

  /** An undisturbed run writes an aggregate in the end. */
  predicate Completes(cfg: Config, arm: Oracle) {
    RunnerAfter(cfg, arm, Start(cfg), 1, |Rest(cfg, arm, Start(cfg), 1)|).Some?
  }

  lemma {:induction false} EarlierToo(cfg: Config, arm: Oracle, p: Progress, n: nat, k: nat, m: nat)
    requires InRange(cfg, p) && k <= m && RunnerAfter(cfg, arm, p, n, m).Some?
    ensures RunnerAfter(cfg, arm, p, n, k).Some?
    decreases k
  {
    hide Next;
    if k > 0 {
      EarlierToo(cfg, arm, Next(cfg, p, arm(n)).next, n + 1, k - 1, m - 1);
    }
  }

  /**
    Prefix completeness: every nonempty record prefix of a completing run's log
    is accepted, and stands for the runner's own progress there, whichever
    metadata record begins it; only an invocation that took no time is refused.
   */
  lemma PrefixesAreAccepted(cfg: Config, arm: Oracle, first: Event, log: seq<Event>)
    requires Distinct(cfg.cells) && ValidMetadata(cfg, first) && Hashing(cfg) && Completes(cfg, arm)
    requires log != [] && log <= [first] + Rest(cfg, arm, Start(cfg), 1)
    ensures ReplayLog(cfg, log).Some? <==> !AnyInstant(log)
    ensures ReplayLog(cfg, log).Some? ==> ReplayLog(cfg, log) == RunnerAfter(cfg, arm, Start(cfg), 1, |log| - 1)
  {
    hide Rest, Replay, RunnerAfter, Hashing, AnyInstant, Start;
    var rest := Rest(cfg, arm, Start(cfg), 1);
    assert log[1..] <= ([first] + rest)[1..] && ([first] + rest)[1..] == rest;
    assert log[0] == first && log[1..] == rest[..|log| - 1];
    AnyInstantStep(log);
    PrefixIsProgress(cfg, arm, Start(cfg), 1, |log| - 1);
    EarlierToo(cfg, arm, Start(cfg), 1, |log| - 1, |rest|);
  }

  /** A run ends with its progress complete, or with an error record. */
  lemma {:induction false} RunsToTheEnd(cfg: Config, arm: Oracle, p: Progress, n: nat)
    requires InRange(cfg, p)
    ensures var rest := Rest(cfg, arm, p, n);
      match RunnerAfter(cfg, arm, p, n, |rest|)
      case Some(q) => q.stage.Complete?
      case None => rest != [] && rest[|rest| - 1].Error?
    decreases CellsLeft(cfg, p), StagesLeft(p), PairsLeft(cfg, p), ArmsLeft(p)
  {
    hide InRange, CellsLeft, StagesLeft, PairsLeft, ArmsLeft;
    StepEnds(cfg, p, arm(n));
    var step := Next(cfg, p, arm(n));
    hide Next;
    if step.Emit? {
      RunsToTheEnd(cfg, arm, step.next, n + 1);
    }
  }

  /** No emitted record is an error; an abort is an error record, after the invocation that caused it if there is one. */
  lemma StepEnds(cfg: Config, p: Progress, o: Outcome)
    requires InRange(cfg, p)
    ensures match Next(cfg, p, o)
      case Emit(e, _) => !e.Error?
      case Abort(events) =>
        || events == [Error(CalibrationExhausted)]
        || (|events| == 2 && events[1].Error? && events[1].reason != CalibrationExhausted)
      case Halt => p.stage.Complete?
  {
    hide InRange, AddArm;
  }

  /** How many records of a run stand before it begins to abort. */
  function Kept(records: seq<Event>): int {
    if records == [] || !records[|records| - 1].Error? then |records|
    else if records[|records| - 1].reason == CalibrationExhausted then |records| - 1
    else |records| - 2
  }

  lemma {:induction false} AbortsAtTheEnd(cfg: Config, arm: Oracle, p: Progress, n: nat, k: nat)
    requires InRange(cfg, p)
    ensures 0 <= Kept(Rest(cfg, arm, p, n))
    ensures k <= |Rest(cfg, arm, p, n)| ==> (RunnerAfter(cfg, arm, p, n, k).Some? <==> k <= Kept(Rest(cfg, arm, p, n)))
    decreases CellsLeft(cfg, p), StagesLeft(p), PairsLeft(cfg, p), ArmsLeft(p)
  {
    hide InRange, CellsLeft, StagesLeft, PairsLeft, ArmsLeft;
    StepEnds(cfg, p, arm(n));
    var step := Next(cfg, p, arm(n));
    hide Next;
    if step.Emit? {
      AbortsAtTheEnd(cfg, arm, step.next, n + 1, if k > 0 then k - 1 else 0);
      var tail := Rest(cfg, arm, step.next, n + 1);
      KeptGrows(step.event, tail);
    }
  }

  lemma KeptGrows(e: Event, records: seq<Event>)
    requires !e.Error?
    ensures Kept([e] + records) == 1 + Kept(records)
  {
  }

  /**
    When a surviving prefix of a run's log is refused: exactly when one of its
    invocations took no time, or the run ended in an error and the prefix
    reaches the error record or the invocation right before it. Exhausted
    calibration is an error without such an invocation.
   */
  lemma RefusedExactly(cfg: Config, arm: Oracle, first: Event, k: nat)
    requires Distinct(cfg.cells) && Hashing(cfg) && ValidMetadata(cfg, first)
    requires 1 <= k <= |[first] + Rest(cfg, arm, Start(cfg), 1)|
    ensures var log := [first] + Rest(cfg, arm, Start(cfg), 1);
      ReplayLog(cfg, log[..k]) == None <==>
        || AnyInstant(log[..k])
        || (log[|log| - 1].Error? && k >= |log| - (if log[|log| - 1].reason == CalibrationExhausted then 0 else 1))
  {
    hide Rest, Replay, RunnerAfter, Hashing, Start, AnyInstant;
    var rest, log := Rest(cfg, arm, Start(cfg), 1), [first] + Rest(cfg, arm, Start(cfg), 1);
    assert log[..k][0] == first && log[..k][1..] == rest[..k - 1];
    AnyInstantStep(log[..k]);
    PrefixIsProgress(cfg, arm, Start(cfg), 1, k - 1);
    AbortsAtTheEnd(cfg, arm, Start(cfg), 1, k - 1);
  }

  /** An arm that is in order is refused by the validator when it completes a pair that ends the run. */
  lemma ValidButRefused(cfg: Config, p: Progress, o: Outcome, e: Event, reason: Reason)
    requires InRange(cfg, p) && Hashing(cfg)
    requires Next(cfg, p, o) == Abort([e, Error(reason)]) && (reason == PairMismatch || reason == IterationOverflow)
    ensures SlotOf(cfg, p).Some? && (ValidInvocation(cfg, SlotOf(cfg, p).value, NextSide(cfg, p), e) <==> o.wallNs > 0)
    ensures Replay(cfg, p, [e]) == None
  {
    hide ValidPair, AfterPair, ValidResult, ValidSha;
  }

  /** The log of a completing run is accepted as finished, unless an invocation took no time. */
  lemma CompletedRunIsFinished(cfg: Config, arm: Oracle)
    requires Distinct(cfg.cells) && Hashing(cfg) && Completes(cfg, arm)
    ensures Finished(cfg, Launch(cfg, arm, false, [])) <==> !AnyInstant(Launch(cfg, arm, false, []))
  {
    hide Rest, Replay, RunnerAfter, Hashing, AnyInstant;
    RunsToTheEnd(cfg, arm, Start(cfg), 1);
    PrefixesAreAccepted(cfg, arm, MetadataOf(cfg), Launch(cfg, arm, false, []));
  }

  // ----- Resuming -----

  /** The part of a run that follows accepted records is the run of the progress they stand for. */
  lemma {:induction false} ReplayContinues(cfg: Config, arm: Oracle, p: Progress, n: nat, events: seq<Event>)
    requires InRange(cfg, p) && events <= Rest(cfg, arm, p, n) && Replay(cfg, p, events).Some?
    ensures Rest(cfg, arm, p, n) == events + Rest(cfg, arm, Replay(cfg, p, events).value, n + |events|)
    decreases |events|
  {
    hide Next, Accept, Rest, Replay;
    var rest, step := Rest(cfg, arm, p, n), Next(cfg, p, arm(n));
    RestUnfolds(cfg, arm, p, n);
    ReplayUnfolds(cfg, p, events);
    if events != [] {
      StepAgrees(cfg, p, arm(n));
      assert events[0] == rest[0];
      if step.Emit? {
        var tail := Rest(cfg, arm, step.next, n + 1);
        assert rest[1..] == tail && events[1..] <= rest[1..];
        ReplayContinues(cfg, arm, step.next, n + 1, events[1..]);
        Regroup(events, Rest(cfg, arm, Replay(cfg, p, events).value, n + |events|));
      }
    } else {
      assert [] + rest == rest;
    }
  }

  lemma Regroup(events: seq<Event>, rest: seq<Event>)
    requires events != []
    ensures [events[0]] + (events[1..] + rest) == events + rest
  {
    assert events == [events[0]] + events[1..];
  }

  lemma RestUnfolds(cfg: Config, arm: Oracle, p: Progress, n: nat)
    requires InRange(cfg, p)
    ensures match Next(cfg, p, arm(n))
      case Emit(e, q) => Rest(cfg, arm, p, n) == [e] + Rest(cfg, arm, q, n + 1)
      case Abort(events) => Rest(cfg, arm, p, n) == events
      case Halt => Rest(cfg, arm, p, n) == []
  {
    hide Next;
  }

  lemma ReplayUnfolds(cfg: Config, p: Progress, events: seq<Event>)
    requires InRange(cfg, p)
    ensures events == [] ==> Replay(cfg, p, events) == Some(p)
    ensures events != [] ==>
      var next := Accept(cfg, p, events[0]);
      Replay(cfg, p, events) == if next.None? then None else Replay(cfg, next.value, events[1..])
  {
    hide Accept;
  }

  /** Records depend only on the outcomes they report. */
  lemma {:induction false} RestIsLocal(cfg: Config, a: Oracle, b: Oracle, p: Progress, n: nat, events: seq<Event>)
    requires InRange(cfg, p) && events <= Rest(cfg, a, p, n)
    requires forall i: nat :: n <= i < n + |events| ==> a(i) == b(i)
    ensures events <= Rest(cfg, b, p, n)
    decreases |events|
  {
    hide Next;
    var step := Next(cfg, p, a(n));
    if events != [] && step.Emit? {
      assert Rest(cfg, a, p, n)[1..] == Rest(cfg, a, step.next, n + 1);
      RestIsLocal(cfg, a, b, step.next, n + 1, events[1..]);
      assert Rest(cfg, b, p, n)[1..] == Rest(cfg, b, step.next, n + 1);
      assert events == [events[0]] + events[1..];
    }
  }

  /** The log is a record prefix of an undisturbed run whose first record is `first`. */
  predicate Written(cfg: Config, arm: Oracle, first: Event, log: seq<Event>) {
    log <= [first] + Rest(cfg, arm, Start(cfg), 1) && (log == [] ==> first == MetadataOf(cfg))
  }

  /** One launch, of which the disk keeps the first `kept` records. */
  datatype Session = Session(resume: bool, arm: Oracle, kept: nat)

  function Survivor(cfg: Config, s: Session, log: seq<Event>): (r: seq<Event>)
    ensures log <= r
  {
    var full := Launch(cfg, s.arm, s.resume, log);
    if |log| <= s.kept <= |full| then full[..s.kept] else full
  }

  function History(cfg: Config, sessions: seq<Session>, log: seq<Event>): (r: seq<Event>)
    ensures log <= r
    decreases |sessions|
  {
    if sessions == [] then log else History(cfg, sessions[1..], Survivor(cfg, sessions[0], log))
  }

  function Mixed(a: Oracle, b: Oracle, k: nat): Oracle {
    (n: nat) => if n < k then a(n) else b(n)
  }

  /** The outcomes on record: each position's outcome is that of the session that wrote it. */
  function Recorded(cfg: Config, sessions: seq<Session>, log: seq<Event>, arm: Oracle): Oracle
    decreases |sessions|
  {
    if sessions == [] then arm
    else Recorded(cfg, sessions[1..], Survivor(cfg, sessions[0], log), Mixed(arm, sessions[0].arm, |log|))
  }

  lemma WrittenIsLocal(cfg: Config, a: Oracle, b: Oracle, first: Event, log: seq<Event>)
    requires Written(cfg, a, first, log)
    requires forall i: nat :: 1 <= i < |log| ==> a(i) == b(i)
    ensures Written(cfg, b, first, log)
  {
    hide Rest;
    if log != [] {
      assert log[1..] <= ([first] + Rest(cfg, a, Start(cfg), 1))[1..];
      assert ([first] + Rest(cfg, a, Start(cfg), 1))[1..] == Rest(cfg, a, Start(cfg), 1);
      RestIsLocal(cfg, a, b, Start(cfg), 1, log[1..]);
      assert log == [first] + log[1..];
    }
  }

  /** A log that stands for some progress continues as that progress does. */
  lemma WrittenContinues(cfg: Config, arm: Oracle, first: Event, log: seq<Event>)
    requires Written(cfg, arm, first, log) && ReplayLog(cfg, log).Some?
    ensures [first] + Rest(cfg, arm, Start(cfg), 1) == log + Rest(cfg, arm, ReplayLog(cfg, log).value, |log|)
  {
    hide Rest, Replay;
    var full := [first] + Rest(cfg, arm, Start(cfg), 1);
    assert log[1..] <= full[1..] && full[1..] == Rest(cfg, arm, Start(cfg), 1);
    ReplayContinues(cfg, arm, Start(cfg), 1, log[1..]);
    assert log == [first] + log[1..];
  }

  /** One more session keeps the log a prefix of one undisturbed run with the outcomes on record. */
  lemma SessionKeepsWritten(cfg: Config, arm: Oracle, first: Event, log: seq<Event>, s: Session)
    requires Written(cfg, arm, first, log)
    ensures Written(cfg, Mixed(arm, s.arm, |log|), first, Survivor(cfg, s, log))
  {
    hide Rest, Replay, Start;
    var mixed, after := Mixed(arm, s.arm, |log|), Survivor(cfg, s, log);
    WrittenIsLocal(cfg, arm, mixed, first, log);
    var more := after[|log|..];
    assert after == log + more;
    if Launch(cfg, s.arm, s.resume, log) == log {
      assert more == [];
    } else if s.resume {
      var progress := ReplayLog(cfg, log).value;
      WrittenContinues(cfg, mixed, first, log);
      assert more <= Rest(cfg, s.arm, progress, |log|);
      RestIsLocal(cfg, s.arm, mixed, progress, |log|, more);
    } else {
      assert Written(cfg, s.arm, first, after);
      WrittenIsLocal(cfg, s.arm, mixed, first, after);
    }
  }

  lemma {:induction false} SessionsKeepWritten(cfg: Config, arm: Oracle, first: Event, log: seq<Event>, sessions: seq<Session>)
    requires Written(cfg, arm, first, log)
    ensures Written(cfg, Recorded(cfg, sessions, log, arm), first, History(cfg, sessions, log))
    decreases |sessions|
  {
    hide Written, Survivor;
    if sessions != [] {
      SessionKeepsWritten(cfg, arm, first, log, sessions[0]);
      SessionsKeepWritten(cfg, Mixed(arm, sessions[0].arm, |log|), first, Survivor(cfg, sessions[0], log), sessions[1..]);
    }
  }

  predicate Finished(cfg: Config, log: seq<Event>) {
    ReplayLog(cfg, log).Some? && ReplayLog(cfg, log).value.stage.Complete?
  }

  /**
    Crash and resume change nothing. Take any log that is a record prefix of an
    undisturbed run (the empty one, or one begun with either accepted metadata
    record), and any launches after it, each with its own process outcomes and
    cut off anywhere. What is left is a record prefix of the one undisturbed run
    with the outcomes on record, and all of it once the log is finished.
   */
  lemma CrashesChangeNothing(cfg: Config, arm: Oracle, first: Event, log: seq<Event>, sessions: seq<Session>)
    requires Written(cfg, arm, first, log)
    ensures var last, recorded := History(cfg, sessions, log), Recorded(cfg, sessions, log, arm);
      && Written(cfg, recorded, first, last)
      && (Finished(cfg, last) ==> last == [first] + Rest(cfg, recorded, Start(cfg), 1))
  {
    hide Rest, History, Recorded, Written;
    SessionsKeepWritten(cfg, arm, first, log, sessions);
    var last, recorded := History(cfg, sessions, log), Recorded(cfg, sessions, log, arm);
    if Finished(cfg, last) {
      WrittenContinues(cfg, recorded, first, last);
      CompleteWritesNothing(cfg, recorded, ReplayLog(cfg, last).value, |last|);
    }
  }

  /** When every launch meets the same outcomes, those are the outcomes on record. */
  lemma {:induction false} SameOutcomes(cfg: Config, arm: Oracle, a: Oracle, log: seq<Event>, sessions: seq<Session>, i: nat)
    requires a(i) == arm(i) && forall s :: s in sessions ==> s.arm == arm
    ensures Recorded(cfg, sessions, log, a)(i) == arm(i)
    decreases |sessions|
  {
    hide Survivor;
    if sessions != [] {
      var s := sessions[0];
      assert s in sessions;
      SameOutcomes(cfg, arm, Mixed(a, s.arm, |log|), Survivor(cfg, s, log), sessions[1..], i);
    }
  }

  lemma {:induction false} DuplicatesWriteNothing(cfg: Config, sessions: seq<Session>)
    requires !Distinct(cfg.cells)
    ensures History(cfg, sessions, []) == []
    decreases |sessions|
  {
    if sessions != [] {
      DuplicatesWriteNothing(cfg, sessions[1..]);
    }
  }

  /** With one set of outcomes, any launches from nothing leave a record prefix of the undisturbed log, or all of it. */
  lemma HistoryIsThePrefixOfARun(cfg: Config, arm: Oracle, sessions: seq<Session>)
    requires forall s :: s in sessions ==> s.arm == arm
    ensures var last, whole := History(cfg, sessions, []), Launch(cfg, arm, false, []);
      last <= whole && (Finished(cfg, last) ==> last == whole)
  {
    hide Rest, History, Recorded, Replay;
    if Distinct(cfg.cells) {
      var last, recorded := History(cfg, sessions, []), Recorded(cfg, sessions, [], arm);
      CrashesChangeNothing(cfg, arm, MetadataOf(cfg), [], sessions);
      forall i: nat | 1 <= i < |last|
        ensures recorded(i) == arm(i)
      {
        SameOutcomes(cfg, arm, arm, [], sessions, i);
      }
      WrittenIsLocal(cfg, recorded, arm, MetadataOf(cfg), last);
      if Finished(cfg, last) {
        WrittenContinues(cfg, arm, MetadataOf(cfg), last);
        CompleteWritesNothing(cfg, arm, ReplayLog(cfg, last).value, |last|);
      }
    } else {
      DuplicatesWriteNothing(cfg, sessions);
    }
  }

  /** Every log along the way is a prefix of the later ones. */
  lemma {:induction false} LogsOnlyGrow(cfg: Config, sessions: seq<Session>, log: seq<Event>, i: nat)
    requires i <= |sessions|
    ensures History(cfg, sessions[..i], log) <= History(cfg, sessions, log)
    decreases |sessions|
  {
    hide Survivor;
    if i > 0 {
      assert sessions[..i][0] == sessions[0] && sessions[..i][1..] == sessions[1..][..i - 1];
      LogsOnlyGrow(cfg, sessions[1..], Survivor(cfg, sessions[0], log), i - 1);
    }
  }

  lemma SameRest(cfg: Config, a: Oracle, b: Oracle, p: Progress, n: nat)
    requires InRange(cfg, p) && forall i: nat :: n <= i ==> a(i) == b(i)
    ensures Rest(cfg, a, p, n) == Rest(cfg, b, p, n)
  {
    hide Rest;
    RestIsLocal(cfg, a, b, p, n, Rest(cfg, a, p, n));
    RestIsLocal(cfg, b, a, p, n, Rest(cfg, b, p, n));
  }

  /**
    However a run was cut up before, each launch with its own outcomes and the
    log begun by either metadata record: if the run with the outcomes on record
    and those of one more launch completes, resuming with that launch leaves
    all of it, or nothing more if an invocation on record took no time.
   */
  lemma ResumingFinishes(cfg: Config, before: Oracle, first: Event, log: seq<Event>, sessions: seq<Session>, arm: Oracle)
    requires Written(cfg, before, first, log) && ValidMetadata(cfg, first) && Distinct(cfg.cells) && Hashing(cfg)
    requires History(cfg, sessions, log) != []
    requires Completes(cfg, Mixed(Recorded(cfg, sessions, log, before), arm, |History(cfg, sessions, log)|))
    ensures var last := History(cfg, sessions, log);
      var all := Mixed(Recorded(cfg, sessions, log, before), arm, |last|);
      Launch(cfg, arm, true, last) == if AnyInstant(last) then last else [first] + Rest(cfg, all, Start(cfg), 1)
  {
    hide Rest, History, Recorded, Replay, RunnerAfter, Hashing, ValidMetadata, AnyInstant;
    var last, recorded := History(cfg, sessions, log), Recorded(cfg, sessions, log, before);
    var all := Mixed(recorded, arm, |last|);
    SessionsKeepWritten(cfg, before, first, log, sessions);
    WrittenIsLocal(cfg, recorded, all, first, last);
    PrefixesAreAccepted(cfg, all, first, last);
    if !AnyInstant(last) {
      WrittenContinues(cfg, all, first, last);
      SameRest(cfg, arm, all, ReplayLog(cfg, last).value, |last|);
    }
  }

  // ----- Only a run's records are accepted -----

  /** The outcome could have led to the record. */
  ghost predicate Explains(cfg: Config, o: Outcome, e: Event) {
    e.Invocation? ==>
      && o.returncode == 0 && o.wallNs == e.wallNs && o.stderr == e.stderr
      && cfg.env.sha(o.stdout) == e.stdoutSha && cfg.env.decode(o.stdout) == Value(e.payload)
  }

  lemma AcceptedIsEmitted(cfg: Config, p: Progress, e: Event, o: Outcome)
    requires InRange(cfg, p) && Accept(cfg, p, e).Some? && Explains(cfg, o, e)
    ensures Next(cfg, p, o) == Emit(e, Accept(cfg, p, e).value)
  {
    hide ValidPair, AfterPair, ValidResult, ValidSha, InRange;
  }

  lemma {:induction false} AcceptedIsWritten(cfg: Config, arm: Oracle, p: Progress, n: nat, events: seq<Event>)
    requires InRange(cfg, p) && Replay(cfg, p, events).Some?
    requires forall i: nat :: i < |events| ==> Explains(cfg, arm(n + i), events[i])
    ensures events <= Rest(cfg, arm, p, n) && RunnerAfter(cfg, arm, p, n, |events|) == Replay(cfg, p, events)
    decreases |events|
  {
    hide Next, Accept, Explains;
    if events != [] {
      assert Explains(cfg, arm(n + 0), events[0]);
      AcceptedIsEmitted(cfg, p, events[0], arm(n));
      var q := Accept(cfg, p, events[0]).value;
      forall i: nat | i < |events[1..]|
        ensures Explains(cfg, arm(n + 1 + i), events[1..][i])
      {
        assert Explains(cfg, arm(n + (i + 1)), events[i + 1]);
      }
      AcceptedIsWritten(cfg, arm, q, n + 1, events[1..]);
      assert events == [events[0]] + events[1..];
    }
  }

  /** Some process output has the hash and the decoding that the record claims. */
  ghost predicate Authentic(cfg: Config, e: Event) {
    e.Invocation? ==> exists stdout :: cfg.env.sha(stdout) == e.stdoutSha && cfg.env.decode(stdout) == Value(e.payload)
  }

  ghost function Explanation(cfg: Config, e: Event): (o: Outcome)
    ensures Authentic(cfg, e) ==> Explains(cfg, o, e)
  {
    if e.Invocation? && Authentic(cfg, e) then
      var stdout :| cfg.env.sha(stdout) == e.stdoutSha && cfg.env.decode(stdout) == Value(e.payload);
      Outcome(0, e.wallNs, stdout, e.stderr)
    else Outcome(0, 1, [], [])
  }

  /** A run that has not begun to abort wrote this log. */
  ghost predicate WrittenByRun(cfg: Config, arm: Oracle, log: seq<Event>) {
    && log != [] && Written(cfg, arm, log[0], log)
    && RunnerAfter(cfg, arm, Start(cfg), 1, |log| - 1).Some?
  }

  ghost function ReadOff(cfg: Config, log: seq<Event>): Oracle {
    (n: nat) => Explanation(cfg, if n < |log| then log[n] else Error(ArmFailed))
  }

  lemma {:induction false} AcceptedTakesTime(cfg: Config, p: Progress, events: seq<Event>, i: nat)
    requires InRange(cfg, p) && Replay(cfg, p, events).Some? && i < |events|
    ensures events[i].Invocation? ==> events[i].wallNs > 0
    decreases |events|
  {
    hide AddArm, ValidResult;
    if i > 0 {
      AcceptedTakesTime(cfg, Accept(cfg, p, events[0]).value, events[1..], i - 1);
    }
  }

  lemma EmittedIsExplained(cfg: Config, p: Progress, o: Outcome)
    requires InRange(cfg, p) && Next(cfg, p, o).Emit?
    ensures Explains(cfg, o, Next(cfg, p, o).event)
  {
    hide AddArm, ValidResult;
  }

  lemma {:induction false} RunIsExplained(cfg: Config, arm: Oracle, p: Progress, n: nat, events: seq<Event>, i: nat)
    requires InRange(cfg, p) && events <= Rest(cfg, arm, p, n) && RunnerAfter(cfg, arm, p, n, |events|).Some?
    requires i < |events|
    ensures Explains(cfg, arm(n + i), events[i])
    decreases |events|
  {
    hide Next, Explains;
    var step := Next(cfg, p, arm(n));
    EmittedIsExplained(cfg, p, arm(n));
    assert Rest(cfg, arm, p, n)[1..] == Rest(cfg, arm, step.next, n + 1);
    if i > 0 {
      RunIsExplained(cfg, arm, step.next, n + 1, events[1..], i - 1);
    }
  }

  /**
    The validator accepts exactly what a run may have written before it aborts
    or ends with every invocation taking some time, as far as a log can tell:
    the hash of a process's standard output is on record but not the output.
   */
  lemma AcceptanceIsExact(cfg: Config, log: seq<Event>)
    requires Hashing(cfg)
    ensures ReplayLog(cfg, log).Some? && (forall i :: 1 <= i < |log| ==> Authentic(cfg, log[i]))
      <==> Distinct(cfg.cells) && log != [] && ValidMetadata(cfg, log[0]) && !AnyInstant(log)
           && exists arm: Oracle :: WrittenByRun(cfg, arm, log)
  {
    hide Rest, Replay, RunnerAfter, Hashing, Authentic, Explains, AnyInstant;
    if log != [] && ValidMetadata(cfg, log[0]) && Distinct(cfg.cells) {
      if ReplayLog(cfg, log).Some? && forall i :: 1 <= i < |log| ==> Authentic(cfg, log[i]) {
        RunExists(cfg, log);
      }
      if !AnyInstant(log) && exists arm: Oracle :: WrittenByRun(cfg, arm, log) {
        var arm: Oracle :| WrittenByRun(cfg, arm, log);
        RunIsAccepted(cfg, arm, log);
      }
    }
  }

  lemma AcceptedHasNoInstant(cfg: Config, log: seq<Event>)
    requires ReplayLog(cfg, log).Some?
    ensures !AnyInstant(log)
  {
    hide Replay;
    forall i | 0 <= i < |log|
      ensures !Instant(log[i])
    {
      if i > 0 {
        AcceptedTakesTime(cfg, Start(cfg), log[1..], i - 1);
        assert log[i] == log[1..][i - 1];
      }
    }
  }

  lemma ReadOffExplains(cfg: Config, log: seq<Event>, n: nat)
    requires n < |log| && Authentic(cfg, log[n])
    ensures Explains(cfg, ReadOff(cfg, log)(n), log[n])
  {
    hide Authentic, Explains, Explanation;
  }

  lemma RunExists(cfg: Config, log: seq<Event>)
    requires ReplayLog(cfg, log).Some? && forall i :: 1 <= i < |log| ==> Authentic(cfg, log[i])
    ensures !AnyInstant(log) && WrittenByRun(cfg, ReadOff(cfg, log), log)
  {
    hide Rest, Replay, RunnerAfter, ValidMetadata, Authentic, Explains, Explanation, ReadOff, AnyInstant;
    var arm, events := ReadOff(cfg, log), log[1..];
    AcceptedHasNoInstant(cfg, log);
    forall i: nat | i < |events|
      ensures Explains(cfg, arm(1 + i), events[i])
    {
      ReadOffExplains(cfg, log, 1 + i);
      assert log[1 + i] == events[i];
    }
    AcceptedIsWritten(cfg, arm, Start(cfg), 1, events);
    assert log == [log[0]] + events;
  }

  lemma RunIsAccepted(cfg: Config, arm: Oracle, log: seq<Event>)
    requires Distinct(cfg.cells) && Hashing(cfg) && WrittenByRun(cfg, arm, log) && ValidMetadata(cfg, log[0]) && !AnyInstant(log)
    ensures ReplayLog(cfg, log).Some? && forall i :: 1 <= i < |log| ==> Authentic(cfg, log[i])
  {
    hide Rest, Replay, RunnerAfter, Hashing, Next, AnyInstant;
    var rest, events := Rest(cfg, arm, Start(cfg), 1), log[1..];
    assert events <= ([log[0]] + rest)[1..] && ([log[0]] + rest)[1..] == rest;
    AnyInstantStep(log);
    PrefixIsProgress(cfg, arm, Start(cfg), 1, |events|);
    assert rest[..|events|] == events;
    forall i | 1 <= i < |log|
      ensures Authentic(cfg, log[i])
    {
      RunIsExplained(cfg, arm, Start(cfg), 1, events, i - 1);
      assert log[i] == events[i - 1];
    }
  }
}
