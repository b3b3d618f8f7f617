/**
  The campaign: pairs of tasks are dispatched together and recorded in whatever
  order they finish. The order changes neither the counts nor the analysis.
 */
module Campaign {
  import opened Wrappers
  import opened Schedules
  import opened Agreement
  import opened Analyzer
  import opened Controller

  /** What running a task reports; chosen by the machine. */
  type Execution = Task -> Record

  predicate InRange(tasks: seq<Task>, order: seq<nat>) {
    forall i :: 0 <= i < |order| ==> 2 * order[i] + 1 < |tasks|
  }

  function PairRecords(tasks: seq<Task>, run: Execution, k: nat): seq<Record>
    requires 2 * k + 1 < |tasks|
  {
    [run(tasks[2 * k]), run(tasks[2 * k + 1])]
  }

  /** The records in the order in which the pairs finish. */
  function Collected(tasks: seq<Task>, run: Execution, order: seq<nat>): seq<Record>
    requires InRange(tasks, order)
  {
    if order == [] then []
    else Collected(tasks, run, order[..|order| - 1]) + PairRecords(tasks, run, order[|order| - 1])
  }

  function Counting(n: nat): seq<nat> {
    seq(n, i requires 0 <= i < n => i)
  }

  /** Every pair finishes, once. */
  predicate Finishing(tasks: seq<Task>, order: seq<nat>) {
    |tasks| % 2 == 0 && multiset(order) == multiset(Counting(|tasks| / 2))
  }

  lemma FinishingInRange(tasks: seq<Task>, order: seq<nat>)
    requires Finishing(tasks, order)
    ensures InRange(tasks, order) && 2 * |order| == |tasks|
  {
    var n := |tasks| / 2;
    assert |order| == |multiset(order)| == |multiset(Counting(n))| == n;
    forall i | 0 <= i < |order|
      ensures 2 * order[i] + 1 < |tasks|
    {
      assert order[i] in multiset(order);
      assert order[i] in Counting(n);
    }
  }

  function Without(order: seq<nat>, i: nat): seq<nat>
    requires i < |order|
  {
    order[..i] + order[i + 1..]
  }

  lemma WithoutBag(order: seq<nat>, i: nat)
    requires i < |order|
    ensures multiset(Without(order, i)) == multiset(order) - multiset{order[i]} && |Without(order, i)| == |order| - 1
  {
    assert order == order[..i] + [order[i]] + order[i + 1..];
  }

  lemma {:induction false} TakeOut(tasks: seq<Task>, run: Execution, order: seq<nat>, i: nat)
    requires InRange(tasks, order) && i < |order|
    ensures InRange(tasks, Without(order, i))
    ensures multiset(Collected(tasks, run, order)) ==
      multiset(Collected(tasks, run, Without(order, i))) + multiset(PairRecords(tasks, run, order[i]))
    decreases |order|
  {
    hide PairRecords, Collected;
    var n, rest := |order| - 1, Without(order, i);
    CollectedUnfolds(tasks, run, order);
    if i == n {
      assert rest == order[..n];
    } else {
      TakeOut(tasks, run, order[..n], i);
      assert Without(order[..n], i) == rest[..|rest| - 1] && rest[|rest| - 1] == order[n];
      CollectedUnfolds(tasks, run, rest);
    }
  }

  lemma CollectedUnfolds(tasks: seq<Task>, run: Execution, order: seq<nat>)
    requires InRange(tasks, order) && order != []
    ensures multiset(Collected(tasks, run, order)) ==
      multiset(Collected(tasks, run, order[..|order| - 1])) + multiset(PairRecords(tasks, run, order[|order| - 1]))
  {
    hide PairRecords;
  }

  /** The records as a collection depend only on which pairs finished. */
  lemma {:induction false} SameRecords(tasks: seq<Task>, run: Execution, a: seq<nat>, b: seq<nat>)
    requires InRange(tasks, a) && InRange(tasks, b) && multiset(a) == multiset(b)
    ensures multiset(Collected(tasks, run, a)) == multiset(Collected(tasks, run, b))
    decreases |a|
  {
    hide PairRecords, Collected, Without;
    if a == [] {
      assert |multiset(b)| == |multiset(a)| == 0;
      assert b == [];
    } else {
      var n := |a| - 1;
      assert a[n] in multiset(a);
      var i := PlaceOf(b, a[n]);
      TakeOut(tasks, run, a, n);
      TakeOut(tasks, run, b, i);
      WithoutBag(a, n);
      WithoutBag(b, i);
      SameRecords(tasks, run, Without(a, n), Without(b, i));
    }
  }

  lemma PlaceOf(order: seq<nat>, k: nat) returns (i: nat)
    requires k in multiset(order)
    ensures i < |order| && order[i] == k
  {
    i :| 0 <= i < |order| && order[i] == k;
  }

  /** Completion order does not matter to the analysis. */
  lemma AnyOrderSameAnalysis<A>(catalog: Catalog, s: Schedule, run: Execution, a: seq<nat>, b: seq<nat>,
                                c: Completion, report: (Schedule, seq<PointResult>) -> A)
    requires Finishing(s.tasks, a) && Finishing(s.tasks, b)
    ensures InRange(s.tasks, a) && InRange(s.tasks, b)
    ensures Analyze(catalog, s, c, Collected(s.tasks, run, a), report) == Analyze(catalog, s, c, Collected(s.tasks, run, b), report)
  {
    FinishingInRange(s.tasks, a);
    FinishingInRange(s.tasks, b);
    SameRecords(s.tasks, run, a, b);
    OrderDoesNotMatter(catalog, s, c, Collected(s.tasks, run, a), Collected(s.tasks, run, b), report);
  }

  // ----- Counting results as they arrive -----

  function Successes(records: seq<Record>): nat {
    if records == [] then 0
    else Successes(records[..|records| - 1]) + if records[|records| - 1].ok then 1 else 0
  }

  lemma SuccessStep(records: seq<Record>, r: Record)
    ensures Successes(records + [r]) == Successes(records) + if r.ok then 1 else 0
  {
    assert (records + [r])[..|records|] == records;
  }

  lemma {:induction false} AllSucceed(records: seq<Record>)
    ensures Successes(records) <= |records|
    ensures Successes(records) == |records| <==> forall r :: r in records ==> r.ok
  {
    if records != [] {
      var init, last := records[..|records| - 1], records[|records| - 1];
      AllSucceed(init);
      assert records == init + [last];
    }
  }

  lemma {:induction false} CollectedHas(tasks: seq<Task>, run: Execution, order: seq<nat>, i: nat)
    requires InRange(tasks, order) && i < |order|
    ensures run(tasks[2 * order[i]]) in Collected(tasks, run, order)
    ensures run(tasks[2 * order[i] + 1]) in Collected(tasks, run, order)
    decreases |order|
  {
    var n := |order| - 1;
    var last := PairRecords(tasks, run, order[n]);
    if i < n {
      CollectedHas(tasks, run, order[..n], i);
    } else {
      assert last[0] in last && last[1] in last;
    }
  }

  lemma {:induction false} CollectedComeFromTasks(tasks: seq<Task>, run: Execution, order: seq<nat>, r: Record) returns (t: Task)
    requires InRange(tasks, order) && r in Collected(tasks, run, order)
    ensures t in tasks && run(t) == r
    decreases |order|
  {
    var n := |order| - 1;
    var last := PairRecords(tasks, run, order[n]);
    if r in last {
      t := if r == last[0] then tasks[2 * order[n]] else tasks[2 * order[n] + 1];
    } else {
      t := CollectedComeFromTasks(tasks, run, order[..n], r);
    }
  }

  lemma {:induction false} CollectedSize(tasks: seq<Task>, run: Execution, order: seq<nat>)
    requires InRange(tasks, order)
    ensures |Collected(tasks, run, order)| == 2 * |order|
    decreases |order|
  {
    if order != [] {
      CollectedSize(tasks, run, order[..|order| - 1]);
    }
  }

  lemma EveryTaskIsCollected(tasks: seq<Task>, run: Execution, order: seq<nat>, t: Task)
    requires Finishing(tasks, order) && t in tasks
    ensures InRange(tasks, order) && run(t) in Collected(tasks, run, order)
  {
    FinishingInRange(tasks, order);
    var j :| 0 <= j < |tasks| && tasks[j] == t;
    var k := j / 2;
    assert Counting(|tasks| / 2)[k] == k;
    assert k in multiset(order);
    var i :| 0 <= i < |order| && order[i] == k;
    assert j == 2 * order[i] || j == 2 * order[i] + 1;
    CollectedHas(tasks, run, order, i);
  }

  /** Some dispatched pair lacks an engine. */
  predicate Mispaired(tasks: seq<Task>, k: nat) {
    2 * k + 1 < |tasks| && {tasks[2 * k].engine, tasks[2 * k + 1].engine} != {Fre, Rust}
  }

  /**
    Collects the results pair by pair as they finish. Counts add up to the
    number of tasks, and the campaign is complete exactly when every task
    succeeded.
   */
  method RunCampaign(tasks: seq<Task>, run: Execution, order: seq<nat>) returns (r: Option<Completion>, results: seq<Record>)
    requires Finishing(tasks, order)
    ensures InRange(tasks, order)
    ensures r.None? <==> exists k :: Mispaired(tasks, k)
    ensures r.Some? ==>
      && results == Collected(tasks, run, order)
      && r.value.expected == r.value.recorded == r.value.ok + r.value.failed == |tasks|
      && r.value.ok == Successes(results)
      && (r.value.complete <==> forall t :: t in tasks ==> run(t).ok)
      && (r.value.complete ==> Completed(r.value, tasks, results))
  {
    hide Finishing, Successes, Collected;
    FinishingInRange(tasks, order);
    Nothing(tasks, run);
    results := [];
    var ok, failures := 0, 0;
    for j := 0 to |order|
      invariant results == Collected(tasks, run, order[..j])
      invariant ok == Successes(results) && ok + failures == 2 * j == |results|
      invariant forall i :: 0 <= i < j ==> !Mispaired(tasks, order[i])
    {
      var k := order[j];
      if {tasks[2 * k].engine, tasks[2 * k + 1].engine} != {Fre, Rust} {
        assert Mispaired(tasks, k);
        return None, results;
      }
      var first, second := run(tasks[2 * k]), run(tasks[2 * k + 1]);
      SuccessStep(results, first);
      results := results + [first];
      if first.ok {
        ok := ok + 1;
      } else {
        failures := failures + 1;
      }
      SuccessStep(results, second);
      results := results + [second];
      if second.ok {
        ok := ok + 1;
      } else {
        failures := failures + 1;
      }
      OneMorePair(tasks, run, order, j);
    }
    assert order[..|order|] == order;
    EveryPairFinishes(tasks, order);
    CompleteMeansAll(tasks, run, order);
    var complete := ok + failures == |tasks| && failures == 0;
    return Some(Completion(|tasks|, ok + failures, ok, failures, complete)), results;
  }

  /** A pair that does not finish does not exist. */
  lemma EveryPairFinishes(tasks: seq<Task>, order: seq<nat>)
    requires Finishing(tasks, order) && forall i :: 0 <= i < |order| ==> !Mispaired(tasks, order[i])
    ensures forall k :: !Mispaired(tasks, k)
  {
    forall k: nat | 2 * k + 1 < |tasks|
      ensures !Mispaired(tasks, k)
    {
      assert Counting(|tasks| / 2)[k] == k;
      assert k in multiset(order);
      var i :| 0 <= i < |order| && order[i] == k;
    }
  }

  lemma Nothing(tasks: seq<Task>, run: Execution)
    ensures Collected(tasks, run, []) == [] && Successes([]) == 0
  {
  }

  lemma OneMorePair(tasks: seq<Task>, run: Execution, order: seq<nat>, j: nat)
    requires InRange(tasks, order) && j < |order|
    ensures Collected(tasks, run, order[..j + 1]) ==
      Collected(tasks, run, order[..j]) + [run(tasks[2 * order[j]])] + [run(tasks[2 * order[j] + 1])]
  {
    var more := order[..j + 1];
    assert more[..|more| - 1] == order[..j] && more[|more| - 1] == order[j];
  }

  lemma CompleteMeansAll(tasks: seq<Task>, run: Execution, order: seq<nat>)
    requires Finishing(tasks, order)
    ensures InRange(tasks, order)
    ensures Successes(Collected(tasks, run, order)) == |tasks| <==> forall t :: t in tasks ==> run(t).ok
  {
    hide Finishing, Successes, Collected;
    FinishingInRange(tasks, order);
    var records := Collected(tasks, run, order);
    AllSucceed(records);
    CollectedSize(tasks, run, order);
    if forall t :: t in tasks ==> run(t).ok {
      forall r | r in records
        ensures r.ok
      {
        var t := CollectedComeFromTasks(tasks, run, order, r);
      }
    }
    forall t | t in tasks
      ensures run(t) in records
    {
      EveryTaskIsCollected(tasks, run, order, t);
    }
  }

  // ----- An honest campaign is analyzed -----

  lemma CollectedIds(tasks: seq<Task>, run: Execution, order: seq<nat>)
    requires Finishing(tasks, order) && forall t :: t in tasks ==> Authentic(run(t), t)
    ensures InRange(tasks, order) && Ids(Collected(tasks, run, order)) == TaskIds(tasks)
  {
    hide Collected, Finishing;
    FinishingInRange(tasks, order);
    var records := Collected(tasks, run, order);
    forall id | id in Ids(records)
      ensures id in TaskIds(tasks)
    {
      var r :| r in records && r.taskId == id;
      var t := CollectedComeFromTasks(tasks, run, order, r);
    }
    forall id | id in TaskIds(tasks)
      ensures id in Ids(records)
    {
      var t :| t in tasks && t.taskId == id;
      EveryTaskIsCollected(tasks, run, order, t);
    }
  }

  /** When every task reports itself truthfully, the analyzer reads back each task's own report, whatever finished first. */
  lemma HonestCampaignIsAnswered(tasks: seq<Task>, run: Execution, order: seq<nat>)
    requires DistinctIds(tasks) && Finishing(tasks, order) && forall t :: t in tasks ==> Authentic(run(t), t)
    ensures InRange(tasks, order) && Answered(tasks, Collected(tasks, run, order))
    ensures forall i :: 0 <= i < |tasks| ==> Some(InOrder(tasks, Collected(tasks, run, order))[i]) == run(tasks[i]).result
  {
    hide Collected, Finishing, Ids, TaskIds, Lookup;
    FinishingInRange(tasks, order);
    var records := Collected(tasks, run, order);
    CollectedSize(tasks, run, order);
    CollectedIds(tasks, run, order);
    DistinctFill(tasks);
    forall t | t in tasks
      ensures Lookup(records, t.taskId) == Some(run(t))
    {
      OwnReport(tasks, run, order, t);
    }
    assert forall i :: 0 <= i < |tasks| ==> tasks[i] in tasks;
  }

  lemma OwnReport(tasks: seq<Task>, run: Execution, order: seq<nat>, t: Task)
    requires DistinctIds(tasks) && Finishing(tasks, order) && t in tasks && forall u :: u in tasks ==> Authentic(run(u), u)
    ensures InRange(tasks, order) && Lookup(Collected(tasks, run, order), t.taskId) == Some(run(t))
  {
    hide Collected, Finishing, Lookup;
    FinishingInRange(tasks, order);
    var records := Collected(tasks, run, order);
    EveryTaskIsCollected(tasks, run, order, t);
    LookupFinds(records, t.taskId);
    assert t.taskId in Ids(records);
    var u := CollectedComeFromTasks(tasks, run, order, Lookup(records, t.taskId).value);
  }

  // ----- From catalog to report -----

  /** Every task reports itself. */
  predicate Truthful(tasks: seq<Task>, run: Execution) {
    forall i :: 0 <= i < |tasks| ==> Authentic(run(tasks[i]), tasks[i])
  }

  function Reports(tasks: seq<Task>, run: Execution): (r: seq<PointResult>)
    requires Truthful(tasks, run)
    ensures |r| == |tasks| && forall i :: 0 <= i < |tasks| ==> run(tasks[i]).result == Some(r[i])
  {
    seq(|tasks|, i requires 0 <= i < |tasks| => ResultOf(run(tasks[i]), tasks[i]))
  }

  /** The reports are truthful and agree with each other. */
  predicate Honest(tasks: seq<Task>, run: Execution) {
    Truthful(tasks, run) && Consistent(tasks, Reports(tasks, run))
  }

  /** The catalog is validated with positive iterations; the analyzer also wants both lanes. */
  predicate Usable(catalog: Catalog) {
    HasBothLanes(catalog) && forall p :: p in catalog ==> p.iterations > 0
  }

  lemma UsableIsNormalizable(catalog: Catalog, s: Schedule)
    requires Accepted(catalog, s) && Usable(catalog)
    ensures Normalizable(s.tasks)
  {
    hide Shape, Alternates, BothEngines, HasBothLanes;
    forall i | 0 <= i < |s.tasks|
      ensures s.tasks[i].point.iterations > 0
    {
      assert s.tasks[i] in s.tasks;
    }
  }

  /** An honest campaign over an accepted schedule is reported on, whatever finished first. */
  lemma HonestCampaignIsAnalyzed<A>(catalog: Catalog, s: Schedule, run: Execution, order: seq<nat>, c: Completion,
                                    report: (Schedule, seq<PointResult>) -> A)
    requires Accepted(catalog, s) && Usable(catalog) && Finishing(s.tasks, order) && Honest(s.tasks, run)
    requires InRange(s.tasks, order) && Completed(c, s.tasks, Collected(s.tasks, run, order))
    ensures Analyze(catalog, s, c, Collected(s.tasks, run, order), report) == Some(report(s, Reports(s.tasks, run)))
  {
    assert DistinctIds(s.tasks);
    UsableIsNormalizable(catalog, s);
    hide Accepted, HasBothLanes, Collected, Finishing, Completed, Answered, InOrder, Consistent, Reports, InRange, Normalizable;
    HonestTasksSucceed(s.tasks, run);
    SameReports(s.tasks, run, order);
  }

  lemma SameReports(tasks: seq<Task>, run: Execution, order: seq<nat>)
    requires DistinctIds(tasks) && Finishing(tasks, order) && Truthful(tasks, run)
    ensures InRange(tasks, order) && Answered(tasks, Collected(tasks, run, order))
    ensures InOrder(tasks, Collected(tasks, run, order)) == Reports(tasks, run)
  {
    hide Collected, Finishing, Answered, InOrder, Authentic, DistinctIds, Reports;
    HonestCampaignIsAnswered(tasks, run, order);
    var results, reports := InOrder(tasks, Collected(tasks, run, order)), Reports(tasks, run);
    InOrderIsAsLong(tasks, Collected(tasks, run, order));
    forall i | 0 <= i < |tasks|
      ensures results[i] == reports[i]
    {
      assert Some(results[i]) == run(tasks[i]).result == Some(reports[i]);
    }
  }

  /**
    The whole way: for any usable catalog, positive repetitions, seed
    and completion order, an honest execution of the schedule that is built
    ends in a report on every task's own result.
   */
  method BuildRunAnalyze<A>(catalog: Catalog, repetitions: int, seed: bv64, run: Execution, order: seq<nat>,
                            report: (Schedule, seq<PointResult>) -> A)
    returns (r: Option<A>)
    requires repetitions > 0 && Usable(catalog)
    requires var tasks := TasksOf(ShuffledDeck(catalog, repetitions, seed)); Finishing(tasks, order) && Honest(tasks, run)
    ensures var s := ScheduleOf(catalog, repetitions, ShuffledDeck(catalog, repetitions, seed));
      r == Some(report(s, Reports(s.tasks, run)))
  {
    hide Usable, HasBothLanes, Finishing, Truthful, Consistent, TasksOf, Accepted, Collected, Completed, Analyze, Mispaired;
    var built := BuildSchedule(catalog, repetitions, seed);
    var s := built.value;
    AcceptedPairsAreRight(catalog, s);
    var completion, results := RunCampaign(s.tasks, run, order);
    HonestTasksSucceed(s.tasks, run);
    HonestCampaignIsAnalyzed(catalog, s, run, order, completion.value, report);
    r := AnalyzeRun(catalog, s, completion.value, results, report);
  }

  lemma HonestTasksSucceed(tasks: seq<Task>, run: Execution)
    requires Truthful(tasks, run)
    ensures forall t :: t in tasks ==> run(t).ok && Authentic(run(t), t)
  {
  }

  lemma AcceptedPairsAreRight(catalog: Catalog, s: Schedule)
    requires Accepted(catalog, s)
    ensures forall k :: !Mispaired(s.tasks, k)
  {
    hide CrossProduct, Alternates, BothEngines;
    forall k: nat | 2 * k + 1 < |s.tasks|
      ensures !Mispaired(s.tasks, k)
    {
      assert PairAt(s.tasks, k);
    }
  }

  // ----- Crossed pairs go through -----

  /** The same report for every task. */
  function SameReport(t: Task): Record {
    Record(t.taskId, t.pairId, t.scheduleIndex, true,
           Some(PointResult(t.engine, t.point, 1, "0000000000000000", "plan", "same")))
  }

  lemma SameReportIsHonest(tasks: seq<Task>)
    ensures Honest(tasks, SameReport)
  {
    hide Consistent;
    assert Truthful(tasks, SameReport);
    var r := Reports(tasks, SameReport);
    forall i | 0 <= i < |tasks|
      ensures r[i].checksum == "0000000000000000" && r[i].semantic == "same" && r[i].runtimePlan == "plan"
    {
      assert SameReport(tasks[i]).result == Some(r[i]);
    }
    AllTheSame(tasks, r);
  }

  lemma AllTheSame(tasks: seq<Task>, r: seq<PointResult>)
    requires |r| == |tasks|
    requires forall i :: 0 <= i < |r| ==> r[i].checksum == "0000000000000000" && r[i].semantic == "same" && r[i].runtimePlan == "plan"
    ensures Consistent(tasks, r)
  {
  }

  lemma TwoPairsFinish()
    ensures Finishing(CROSSED.tasks, [0, 1]) && Usable(TWO_POINTS)
  {
    var order: seq<nat> := [0, 1];
    assert Counting(2) == order;
    assert TWO_POINTS[0] in TWO_POINTS && TWO_POINTS[1] in TWO_POINTS;
  }

  /** A run over crossed pairs passes every check of the analyzer and is reported on. */
  lemma CrossedPairsAreReported<A>(report: (Schedule, seq<PointResult>) -> A) returns (c: Completion, records: seq<Record>)
    ensures !PairsTogether(CROSSED.tasks) && CROSSED.tasks[0].point != CROSSED.tasks[1].point
    ensures Analyze(TWO_POINTS, CROSSED, c, records, report).Some?
  {
    hide Accepted, PairsTogether, Usable, Analyze, Finishing, Honest, Collected;
    var tasks, order := CROSSED.tasks, [0, 1];
    AcceptedMayCrossPairs();
    TwoPairsFinish();
    FinishingInRange(tasks, order);
    CollectedSize(tasks, SameReport, order);
    SameReportIsHonest(tasks);
    records := Collected(tasks, SameReport, order);
    c := Completion(4, 4, 4, 0, true);
    HonestCampaignIsAnalyzed(TWO_POINTS, CROSSED, SameReport, order, c, report);
  }
}
