/** The analyzer: its loops over a schedule and over the results of a run. */
module Analyzer {
  import opened Wrappers
  import opened Schedules
  import opened Agreement

  // ----- The schedule -----

  method VerifyScheduleShape(s: Schedule) returns (ok: bool)
    ensures ok <==> Shape(s)
  {
    var tasks := s.tasks;
    if s.taskCount != |tasks| || |tasks| % 2 != 0 {
      return false;
    }
    var taskIds: set<string> := {};
    for i := 0 to |tasks|
      invariant taskIds == set k | 0 <= k < i :: tasks[k].taskId
      invariant forall k :: 0 <= k < i ==> tasks[k].scheduleIndex == k
      invariant DistinctIds(tasks[..i])
    {
      if tasks[i].scheduleIndex != i {
        return false;
      }
      if tasks[i].taskId in taskIds {
        assert exists k :: 0 <= k < i && tasks[k].taskId == tasks[i].taskId;
        return false;
      }
      taskIds := taskIds + {tasks[i].taskId};
    }
    assert tasks[..|tasks|] == tasks;
    for k := 0 to |tasks| / 2
      invariant forall m :: 0 <= m < k ==> PairAt(tasks, m)
    {
      if !Paired(tasks[2 * k], tasks[2 * k + 1]) {
        assert !PairAt(tasks, k);
        return false;
      }
    }
    return true;
  }

  type Orientations = map<int, map<int, Engine>>

  /** The table says who goes first among the tasks read so far. */
  ghost predicate Tabulates(table: Orientations, tasks: seq<Task>) {
    && (forall p, r :: FirstEngine(tasks, p, r) == if p in table && r in table[p] then Some(table[p][r]) else None)
    && (forall p :: p in table ==> table[p] != map[])
  }

  function Entered(table: Orientations, t: Task): Orientations {
    if t.withinPair != 0 then table
    else
      var row := if t.pointIndex in table then table[t.pointIndex] else map[];
      table[t.pointIndex := row[t.repetition := t.engine]]
  }

  lemma EnteredTabulates(table: Orientations, tasks: seq<Task>, t: Task)
    requires Tabulates(table, tasks)
    ensures Tabulates(Entered(table, t), tasks + [t])
  {
    var more, after := tasks + [t], Entered(table, t);
    assert more[..|more| - 1] == tasks && more[|more| - 1] == t;
    forall p, r
      ensures FirstEngine(more, p, r) == if p in after && r in after[p] then Some(after[p][r]) else None
    {
      assert FirstEngine(tasks, p, r) == if p in table && r in table[p] then Some(table[p][r]) else None;
    }
    forall p | p in after
      ensures after[p] != map[]
    {
      if t.withinPair == 0 && p == t.pointIndex {
        assert t.repetition in after[p];
      }
    }
  }

  method TabulateFirst(catalog: Catalog, s: Schedule) returns (table: Option<Orientations>)
    ensures table.None? <==> exists t :: t in s.tasks && !FromCatalog(catalog, s.repetitions, t)
    ensures table.Some? ==> Tabulates(table.value, s.tasks)
  {
    hide FirstEngine, Tabulates, FromCatalog;
    var orientations: Orientations := map[];
    EmptyTabulates();
    for i := 0 to |s.tasks|
      invariant Tabulates(orientations, s.tasks[..i])
      invariant forall k :: 0 <= k < i ==> FromCatalog(catalog, s.repetitions, s.tasks[k])
    {
      if !FromCatalog(catalog, s.repetitions, s.tasks[i]) {
        return None;
      }
      EnteredTabulates(orientations, s.tasks[..i], s.tasks[i]);
      orientations := Entered(orientations, s.tasks[i]);
      assert s.tasks[..i] + [s.tasks[i]] == s.tasks[..i + 1];
    }
    assert s.tasks[..|s.tasks|] == s.tasks;
    return Some(orientations);
  }

  lemma EmptyTabulates()
    ensures Tabulates(map[], [])
  {
  }

  method RowAlternates(row: map<int, Engine>, repetitions: int, ghost tasks: seq<Task>, ghost p: int) returns (ok: bool)
    requires forall r :: FirstEngine(tasks, p, r) == if r in row then Some(row[r]) else None
    requires row != map[] && forall r :: r in row ==> 0 <= r < repetitions
    ensures ok <==> PointAlternates(tasks, repetitions, p)
  {
    hide FirstEngine;
    var r0 :| r0 in row;
    assert FirstEngine(tasks, p, r0).Some?;
    RowIsFull(row.Keys, repetitions);
    if |row| != repetitions {
      assert exists r :: 0 <= r < repetitions && r !in row;
      return false;
    }
    for r := 1 to repetitions
      invariant forall k :: 1 <= k < r ==> FirstEngine(tasks, p, k) != FirstEngine(tasks, p, k - 1)
    {
      if row[r] == row[r - 1] {
        assert FirstEngine(tasks, p, r) == FirstEngine(tasks, p, r - 1);
        return false;
      }
    }
    return true;
  }

  /** As many repetitions as there are, all in range, are all of them. */
  lemma RowIsFull(keys: set<int>, n: int)
    requires 0 <= n && forall r :: r in keys ==> 0 <= r < n
    ensures |keys| == n <==> forall r :: 0 <= r < n ==> r in keys
  {
    hide Range;
    RangeIs(n);
    var all := Range(n);
    assert forall r :: r in keys ==> r in all;
    if |keys| == n {
      SameSize(keys, all);
    }
    if forall r :: 0 <= r < n ==> r in keys {
      assert forall r :: r in all ==> r in keys;
      assert keys == all;
    }
  }

  function Range(n: nat): set<int> {
    if n == 0 then {} else Range(n - 1) + {n - 1}
  }

  lemma {:induction false} RangeIs(n: nat)
    ensures |Range(n)| == n && forall r :: r in Range(n) <==> 0 <= r < n
  {
    if n > 0 {
      RangeIs(n - 1);
    }
  }

  /** The checks of the schedule against the catalog. */
  method VerifyAgainstCatalog(catalog: Catalog, s: Schedule) returns (ok: bool)
    ensures ok <==> CrossProduct(catalog, s) && Alternates(catalog, s)
  {
    hide FirstEngine, PointAlternates;
    if s.pointCount != |catalog| || |s.tasks| != |catalog| * s.repetitions * 2 {
      return false;
    }
    var tabulated := TabulateFirst(catalog, s);
    if tabulated.None? {
      return false;
    }
    var table := tabulated.value;
    TableInRange(catalog, s, table);
    for p := 0 to |catalog|
      invariant forall q :: 0 <= q < p ==> PointAlternates(s.tasks, s.repetitions, q)
    {
      if p !in table {
        NoneFirst(s.tasks, s.repetitions, p);
        return false;
      }
      var alternates := RowAlternates(table[p], s.repetitions, s.tasks, p);
      if !alternates {
        return false;
      }
    }
    return true;
  }

  lemma NoneFirst(tasks: seq<Task>, repetitions: int, p: int)
    requires forall r :: FirstEngine(tasks, p, r) == None
    ensures !PointAlternates(tasks, repetitions, p)
  {
  }

  lemma TableInRange(catalog: Catalog, s: Schedule, table: Orientations)
    requires Tabulates(table, s.tasks) && forall t :: t in s.tasks ==> FromCatalog(catalog, s.repetitions, t)
    ensures forall p, r :: p in table && r in table[p] ==> 0 <= r < s.repetitions
  {
    forall p, r | p in table && r in table[p]
      ensures 0 <= r < s.repetitions
    {
      var i := FirstEngineIsATask(s.tasks, p, r);
      assert s.tasks[i] in s.tasks;
    }
  }

  datatype Record = Record(taskId: string, pairId: string, scheduleIndex: int, ok: bool, result: Option<PointResult>)

  predicate Authentic(record: Record, t: Task) {
    && record.taskId == t.taskId && record.pairId == t.pairId && record.scheduleIndex == t.scheduleIndex
    && record.ok && record.result.Some?
    && var p := record.result.value;
       p.point == t.point && p.engine == t.engine && p.elapsedNs > 0 && |p.checksum| == 16 && p.runtimePlan != ""
  }

  function Ids(records: seq<Record>): set<string> {
    set r | r in records :: r.taskId
  }

  function TaskIds(tasks: seq<Task>): set<string> {
    set t | t in tasks :: t.taskId
  }

  /** The record kept for a task: the last one with its identifier. */
  function Lookup(records: seq<Record>, id: string): Option<Record> {
    if records == [] then None
    else
      var last := records[|records| - 1];
      if last.taskId == id then Some(last) else Lookup(records[..|records| - 1], id)
  }

  /** Results are there for every task, once, and authentic. */
  predicate Answered(tasks: seq<Task>, records: seq<Record>) {
    && |records| == |tasks| && |Ids(records)| == |records| && Ids(records) == TaskIds(tasks)
    && forall t :: t in tasks ==>
         Lookup(records, t.taskId).Some? && Authentic(Lookup(records, t.taskId).value, t)
  }

  /** The results in the order of the schedule. */
  function InOrder(tasks: seq<Task>, records: seq<Record>): seq<PointResult>
    requires Answered(tasks, records)
  {
    seq(|tasks|, i requires 0 <= i < |tasks| => assert tasks[i] in tasks; Lookup(records, tasks[i].taskId).value.result.value)
  }

  /** What the controller writes when a campaign is over. */
  datatype Completion = Completion(expected: int, recorded: int, ok: int, failed: int, complete: bool)

  predicate Completed(c: Completion, tasks: seq<Task>, records: seq<Record>) {
    c.complete && c.failed == 0 && c.expected == |tasks| && c.recorded == |records| && c.ok == |tasks|
  }

  /** Every time can be divided by a positive number of iterations. */
  predicate Normalizable(tasks: seq<Task>) {
    forall i :: 0 <= i < |tasks| ==> tasks[i].point.iterations > 0
  }

  /** There is something to report on both lanes. */
  predicate HasBothLanes(catalog: Catalog) {
    (exists p :: p in catalog && p.lane == "steady") && (exists p :: p in catalog && p.operation == "session_setup")
  }

  /** The report of a run, any function of the schedule and of the results in its order; none if a check fails. */
  ghost function Analyze<A>(catalog: Catalog, s: Schedule, c: Completion, records: seq<Record>,
                            report: (Schedule, seq<PointResult>) -> A): Option<A>
  {
    if Accepted(catalog, s) && Completed(c, s.tasks, records) && Answered(s.tasks, records)
      && Consistent(s.tasks, InOrder(s.tasks, records)) && Normalizable(s.tasks) && HasBothLanes(catalog)
    then Some(report(s, InOrder(s.tasks, records)))
    else None
  }

  lemma {:induction false} LookupFinds(records: seq<Record>, id: string)
    ensures Lookup(records, id).Some? <==> id in Ids(records)
    ensures Lookup(records, id).Some? ==> Lookup(records, id).value in records && Lookup(records, id).value.taskId == id
  {
    if records != [] {
      var init := records[..|records| - 1];
      LookupFinds(init, id);
      assert records == init + [records[|records| - 1]];
    }
  }

  function IdSequence(records: seq<Record>): seq<string> {
    seq(|records|, i requires 0 <= i < |records| => records[i].taskId)
  }

  /** When no identifier repeats, a record is determined by its identifier. */
  lemma RecordsAreDistinct(records: seq<Record>, a: Record, b: Record)
    requires |Ids(records)| == |records| && a in records && b in records && a.taskId == b.taskId
    ensures a == b
  {
    var i :| 0 <= i < |records| && records[i] == a;
    var j :| 0 <= j < |records| && records[j] == b;
    RecordIdsDiffer(records);
  }

  lemma SameIds(records: seq<Record>)
    ensures Elements(IdSequence(records)) == Ids(records)
  {
    var ids := IdSequence(records);
    forall x | x in Ids(records)
      ensures x in ids
    {
      var r :| r in records && r.taskId == x;
      var k :| 0 <= k < |records| && records[k] == r;
      assert ids[k] == x;
    }
  }

  predicate HasRecord(records: seq<Record>, t: Task) {
    exists r :: r in records && Authentic(r, t)
  }

  predicate HasTask(tasks: seq<Task>, r: Record) {
    exists t :: t in tasks && Authentic(r, t)
  }

  /** Accepted results correspond one-to-one with the tasks. */
  lemma ResultsAreABijection(tasks: seq<Task>, records: seq<Record>)
    requires DistinctIds(tasks) && Answered(tasks, records)
    ensures forall t :: t in tasks ==> HasRecord(records, t)
    ensures forall r :: r in records ==> HasTask(tasks, r)
    ensures forall i, j :: 0 <= i < j < |records| ==> records[i].taskId != records[j].taskId
  {
    forall t | t in tasks
      ensures HasRecord(records, t)
    {
      LookupFinds(records, t.taskId);
    }
    forall r | r in records
      ensures HasTask(tasks, r)
    {
      assert r.taskId in TaskIds(tasks);
      var t :| t in tasks && t.taskId == r.taskId;
      LookupFinds(records, t.taskId);
      RecordsAreDistinct(records, r, Lookup(records, t.taskId).value);
    }
    RecordIdsDiffer(records);
  }

  lemma RecordIdsDiffer(records: seq<Record>)
    requires |Ids(records)| == |records|
    ensures forall i, j :: 0 <= i < j < |records| ==> records[i].taskId != records[j].taskId
  {
    var ids := IdSequence(records);
    forall i, j | 0 <= i < j < |records|
      ensures records[i].taskId != records[j].taskId
    {
      SameIds(records);
      Pigeonhole(ids, i, j);
      assert ids[i] == records[i].taskId && ids[j] == records[j].taskId;
    }
  }

  /** Any order of the same records gives the same analysis. */
  lemma OrderDoesNotMatter<A>(catalog: Catalog, s: Schedule, c: Completion, records: seq<Record>, others: seq<Record>,
                              report: (Schedule, seq<PointResult>) -> A)
    requires multiset(records) == multiset(others)
    ensures Analyze(catalog, s, c, records, report) == Analyze(catalog, s, c, others, report)
  {
    hide Accepted, Answered, InOrder, Consistent, Normalizable, HasBothLanes;
    assert |records| == |multiset(records)| == |multiset(others)| == |others|;
    SameAnswers(s.tasks, records, others);
    SameAnswers(s.tasks, others, records);
  }

  lemma SameAnswers(tasks: seq<Task>, records: seq<Record>, others: seq<Record>)
    requires multiset(records) == multiset(others)
    ensures Answered(tasks, records) ==> Answered(tasks, others) && InOrder(tasks, records) == InOrder(tasks, others)
  {
    assert |records| == |multiset(records)| && |others| == |multiset(others)|;
    forall r
      ensures r in records <==> r in others
    {
      assert r in records <==> r in multiset(records);
      assert r in others <==> r in multiset(others);
    }
    assert Ids(records) == Ids(others);
    if Answered(tasks, records) {
      forall t | t in tasks
        ensures Lookup(others, t.taskId) == Lookup(records, t.taskId)
      {
        LookupFinds(records, t.taskId);
        LookupFinds(others, t.taskId);
        RecordsAreDistinct(records, Lookup(records, t.taskId).value, Lookup(others, t.taskId).value);
      }
    }
  }

  // ----- The loops over tasks and records -----

  type Groups = map<(int, int), set<Engine>>

  predicate Grouped(pairs: Groups, tasks: seq<Task>) {
    pairs.Keys == Keys(tasks) && forall key :: key in pairs ==> pairs[key] == EnginesAt(tasks, key)
  }

  lemma GroupsGrow(pairs: Groups, tasks: seq<Task>, t: Task)
    requires Grouped(pairs, tasks)
    ensures var key := KeyOf(t);
      Grouped(pairs[key := (if key in pairs then pairs[key] else {}) + {t.engine}], tasks + [t])
  {
    var more := tasks + [t];
    assert forall u :: u in more <==> u in tasks || u == t;
    assert t in more;
    assert Keys(more) == Keys(tasks) + {KeyOf(t)};
    forall key
      ensures EnginesAt(more, key) == EnginesAt(tasks, key) + if key == KeyOf(t) then {t.engine} else {}
    {
    }
    if KeyOf(t) !in pairs {
      assert EnginesAt(tasks, KeyOf(t)) == {};
    }
  }

  /** Groups the tasks by point and repetition and looks for both engines in each group. */
  method VerifyPairs(s: Schedule) returns (ok: bool)
    ensures ok <==> BothEngines(s)
  {
    var pairs: Groups := map[];
    for i := 0 to |s.tasks|
      invariant Grouped(pairs, s.tasks[..i])
    {
      hide Grouped, Keys, EnginesAt;
      var t := s.tasks[i];
      var key := KeyOf(t);
      GroupsGrow(pairs, s.tasks[..i], t);
      assert s.tasks[..i + 1] == s.tasks[..i] + [t];
      pairs := pairs[key := (if key in pairs then pairs[key] else {}) + {t.engine}];
    }
    assert s.tasks[..|s.tasks|] == s.tasks;
    assert |pairs.Keys| == |pairs|;
    return |pairs| == s.pointCount * s.repetitions && forall key :: key in pairs ==> pairs[key] == {Fre, Rust};
  }

  predicate Filed(byTask: map<string, Record>, records: seq<Record>) {
    && byTask.Keys == Ids(records) && |byTask| == |records|
    && forall id :: id in byTask ==> Lookup(records, id) == Some(byTask[id])
  }

  /** Files the records by task, unless two have the same task. */
  method FileRecords(records: seq<Record>) returns (r: Option<map<string, Record>>)
    ensures r.Some? <==> |Ids(records)| == |records|
    ensures r.Some? ==> Filed(r.value, records)
  {
    hide Filed, Ids;
    var byTask: map<string, Record> := map[];
    NothingFiled();
    for i := 0 to |records|
      invariant Filed(byTask, records[..i])
    {
      var record := records[i];
      FiledIds(byTask, records[..i]);
      assert records[..i + 1] == records[..i] + [record];
      if record.taskId in byTask {
        RepeatedId(records, i);
        return None;
      }
      FiledGrows(byTask, records[..i], record);
      byTask := byTask[record.taskId := record];
    }
    assert records[..|records|] == records;
    FiledIds(byTask, records);
    return Some(byTask);
  }

  lemma FiledIds(byTask: map<string, Record>, records: seq<Record>)
    requires Filed(byTask, records)
    ensures byTask.Keys == Ids(records) && |Ids(records)| == |records|
  {
    assert |byTask.Keys| == |byTask|;
  }

  lemma FiledGrows(byTask: map<string, Record>, records: seq<Record>, r: Record)
    requires Filed(byTask, records) && r.taskId !in byTask
    ensures Filed(byTask[r.taskId := r], records + [r])
  {
    hide Ids, Lookup;
    RecordsGrow(records, r);
  }

  lemma NothingFiled()
    ensures Filed(map[], [])
  {
  }

  /** Authenticates the record of every task. */
  method AuthenticateResults(tasks: seq<Task>, records: seq<Record>) returns (r: Option<seq<PointResult>>)
    ensures r.Some? <==> Answered(tasks, records)
    ensures r.Some? ==> r.value == InOrder(tasks, records)
  {
    hide Authentic, Ids, Lookup, TaskIds;
    if |records| != |tasks| {
      return None;
    }
    var filed := FileRecords(records);
    if filed.None? {
      return None;
    }
    var byTask := filed.value;
    var expected := TaskIds(tasks);
    if byTask.Keys != expected {
      return None;
    }
    var results := [];
    for i := 0 to |tasks|
      invariant |results| == i
      invariant forall k :: 0 <= k < i ==>
        Lookup(records, tasks[k].taskId).Some? && Authentic(Lookup(records, tasks[k].taskId).value, tasks[k])
        && Lookup(records, tasks[k].taskId).value.result == Some(results[k])
    {
      IdOfTask(tasks, i);
      var record := byTask[tasks[i].taskId];
      if !Authentic(record, tasks[i]) {
        return None;
      }
      results := results + [ResultOf(record, tasks[i])];
    }
    return Some(results);
  }

  lemma IdOfTask(tasks: seq<Task>, i: nat)
    requires i < |tasks|
    ensures tasks[i] in tasks && tasks[i].taskId in TaskIds(tasks)
  {
  }

  function ResultOf(record: Record, t: Task): (p: PointResult)
    requires Authentic(record, t)
    ensures record.result == Some(p)
  {
    record.result.value
  }

  lemma RecordsGrow(records: seq<Record>, r: Record)
    ensures Ids(records + [r]) == Ids(records) + {r.taskId}
    ensures forall id :: Lookup(records + [r], id) == if id == r.taskId then Some(r) else Lookup(records, id)
  {
    var more := records + [r];
    assert more[..|more| - 1] == records;
    assert forall x :: x in more <==> x in records || x == r;
    assert r in more;
  }

  lemma RepeatedId(records: seq<Record>, i: nat)
    requires i < |records| && records[i].taskId in Ids(records[..i])
    ensures |Ids(records)| != |records|
  {
    var r :| r in records[..i] && r.taskId == records[i].taskId;
    var k :| 0 <= k < i && records[..i][k] == r;
    assert records[k].taskId == records[i].taskId;
    if |Ids(records)| == |records| {
      RecordIdsDiffer(records);
    }
  }

  /** The sample loop: no task may have iterations by which its time cannot be divided. */
  method AllNormalizable(tasks: seq<Task>) returns (ok: bool)
    ensures ok <==> Normalizable(tasks)
  {
    for i := 0 to |tasks|
      invariant forall k :: 0 <= k < i ==> tasks[k].point.iterations > 0
    {
      if tasks[i].point.iterations <= 0 {
        return false;
      }
    }
    return true;
  }

  lemma InOrderIsAsLong(tasks: seq<Task>, records: seq<Record>)
    requires Answered(tasks, records)
    ensures |InOrder(tasks, records)| == |tasks|
  {
  }

  lemma AcceptedFitsTheTable(catalog: Catalog, s: Schedule)
    requires Accepted(catalog, s)
    ensures OneToOne(s.tasks, |catalog|, s.repetitions) && SamePoints(s.tasks) && (|catalog| > 0 ==> s.repetitions > 0)
  {
    AcceptedIsABijection(catalog, s);
    hide Shape, BothEngines, OneToOne;
    forall i, j | 0 <= i < |s.tasks| && 0 <= j < |s.tasks| && s.tasks[i].pointIndex == s.tasks[j].pointIndex
      ensures s.tasks[i].point == s.tasks[j].point
    {
      assert s.tasks[i] in s.tasks && s.tasks[j] in s.tasks;
    }
    if |catalog| > 0 {
      assert PointAlternates(s.tasks, s.repetitions, 0);
      var r :| FirstEngine(s.tasks, 0, r).Some?;
      var i := FirstEngineIsATask(s.tasks, 0, r);
      assert s.tasks[i] in s.tasks;
    }
  }

  /** All the structural checks of a run, and its report. */
  method AnalyzeRun<A>(catalog: Catalog, s: Schedule, c: Completion, records: seq<Record>,
                       report: (Schedule, seq<PointResult>) -> A)
    returns (r: Option<A>)
    ensures r == Analyze(catalog, s, c, records, report)
  {
    hide Shape, CrossProduct, Alternates, BothEngines, Answered, InOrder, Normalizable, HasBothLanes, OneToOne, SamePoints;
    var shaped := VerifyScheduleShape(s);
    if !shaped {
      return None;
    }
    var matches := VerifyAgainstCatalog(catalog, s);
    if !matches || !Completed(c, s.tasks, records) {
      return None;
    }
    var results := AuthenticateResults(s.tasks, records);
    var paired := VerifyPairs(s);
    if results.None? || !paired {
      return None;
    }
    AcceptedFitsTheTable(catalog, s);
    InOrderIsAsLong(s.tasks, records);
    var agreed := VerifyAgreement(s.tasks, results.value, |catalog|, s.repetitions);
    if !agreed {
      return None;
    }
    var normalizable := AllNormalizable(s.tasks);
    if !normalizable || !HasBothLanes(catalog) {
      return None;
    }
    return Some(report(s, results.value));
  }

  // ----- What a report means -----

  /** The record of a task: of that task, successful, for its point and engine, with a time, a checksum and a plan. */
  predicate IsReport(record: Record, t: Task, p: PointResult) {
    && record.taskId == t.taskId && record.pairId == t.pairId && record.scheduleIndex == t.scheduleIndex
    && record.ok && record.result == Some(p)
    && p.point == t.point && p.engine == t.engine && p.elapsedNs > 0 && |p.checksum| == 16 && p.runtimePlan != ""
  }

  predicate HasReport(records: seq<Record>, t: Task, p: PointResult) {
    exists r :: r in records && IsReport(r, t, p)
  }

  /**
    When there is a report: every task has its record; the two engines agree on
    every point and repetition, on the steady lane down to the checksum; and no
    engine changes its answer, checksum or plan over the repetitions of a point.
   */
  lemma ReportMeansAgreement<A>(catalog: Catalog, s: Schedule, c: Completion, records: seq<Record>,
                                report: (Schedule, seq<PointResult>) -> A)
    requires Analyze(catalog, s, c, records, report).Some?
    ensures Answered(s.tasks, records) && |InOrder(s.tasks, records)| == |s.tasks|
    ensures var t, results := s.tasks, InOrder(s.tasks, records);
      && (forall i :: 0 <= i < |t| ==> HasReport(records, t[i], results[i]) && t[i].point.iterations > 0)
      && (forall i, j :: 0 <= i < |t| && 0 <= j < |t| && t[i].pointIndex == t[j].pointIndex && t[i].repetition == t[j].repetition ==>
            && results[i].semantic == results[j].semantic
            && (t[i].point.lane == "steady" ==> results[i].checksum == results[j].checksum))
      && (forall i, j :: 0 <= i < |t| && 0 <= j < |t| && t[i].pointIndex == t[j].pointIndex && t[i].engine == t[j].engine ==>
            && results[i].semantic == results[j].semantic && results[i].checksum == results[j].checksum
            && results[i].runtimePlan == results[j].runtimePlan)
  {
    hide Accepted, Completed, HasBothLanes, Lookup;
    var results := InOrder(s.tasks, records);
    forall i | 0 <= i < |s.tasks|
      ensures HasReport(records, s.tasks[i], results[i])
    {
      assert s.tasks[i] in s.tasks;
      LookupFinds(records, s.tasks[i].taskId);
      assert IsReport(Lookup(records, s.tasks[i].taskId).value, s.tasks[i], results[i]);
    }
  }

  /** Engines that disagree on a point and repetition keep a run from being reported on. */
  lemma DisagreementIsRefused<A>(catalog: Catalog, s: Schedule, c: Completion, records: seq<Record>,
                                 report: (Schedule, seq<PointResult>) -> A, i: nat, j: nat)
    requires Answered(s.tasks, records) && i < |s.tasks| && j < |s.tasks|
    requires s.tasks[i].pointIndex == s.tasks[j].pointIndex && s.tasks[i].repetition == s.tasks[j].repetition
    requires var a, b := InOrder(s.tasks, records)[i], InOrder(s.tasks, records)[j];
      a.semantic != b.semantic || (s.tasks[i].point.lane == "steady" && a.checksum != b.checksum)
    ensures Analyze(catalog, s, c, records, report) == None
  {
    hide Accepted, Completed, HasBothLanes, Answered, InOrder;
    if Analyze(catalog, s, c, records, report).Some? {
      ReportMeansAgreement(catalog, s, c, records, report);
    }
  }

  lemma {:induction false} DistinctFill(tasks: seq<Task>)
    requires DistinctIds(tasks)
    ensures |TaskIds(tasks)| == |tasks|
  {
    if tasks != [] {
      var init, last := tasks[..|tasks| - 1], tasks[|tasks| - 1];
      DistinctFill(init);
      assert tasks == init + [last];
      assert TaskIds(tasks) == TaskIds(init) + {last.taskId};
      assert last.taskId !in TaskIds(init);
    }
  }

  /** As many records as tasks, with one for each task, are one for each task. */
  lemma ReportsAnswer(tasks: seq<Task>, records: seq<Record>, results: seq<PointResult>)
    requires DistinctIds(tasks) && |records| == |tasks| == |results|
    requires forall i :: 0 <= i < |tasks| ==> HasReport(records, tasks[i], results[i])
    ensures Answered(tasks, records) && InOrder(tasks, records) == results
  {
    hide Lookup, DistinctIds;
    assert TaskIds(tasks) <= Ids(records);
    DistinctFill(tasks);
    SameIds(records);
    FewElements(IdSequence(records));
    SizeOfSubset(TaskIds(tasks), Ids(records));
    SameSize(TaskIds(tasks), Ids(records));
    forall i | 0 <= i < |tasks|
      ensures Lookup(records, tasks[i].taskId).Some? && IsReport(Lookup(records, tasks[i].taskId).value, tasks[i], results[i])
    {
      var r :| r in records && IsReport(r, tasks[i], results[i]);
      LookupFinds(records, r.taskId);
      RecordsAreDistinct(records, r, Lookup(records, r.taskId).value);
    }
  }

  /** Consistent results, each of its task, and as many records as tasks. */
  ghost predicate Reported(tasks: seq<Task>, records: seq<Record>, results: seq<PointResult>) {
    && |records| == |tasks| == |results| && Consistent(tasks, results)
    && forall i :: 0 <= i < |tasks| ==> HasReport(records, tasks[i], results[i])
  }

  /**
    Over an accepted schedule, a run is reported on exactly when its counts are
    those of a campaign without failures, its tasks have consistent results and
    positive iterations, and the catalog has both lanes. The report is on those
    results.
   */
  lemma ReportedExactly<A>(catalog: Catalog, s: Schedule, c: Completion, records: seq<Record>,
                           report: (Schedule, seq<PointResult>) -> A, answer: A)
    requires Accepted(catalog, s)
    ensures Analyze(catalog, s, c, records, report) == Some(answer) <==>
      && c == Completion(|s.tasks|, |s.tasks|, |s.tasks|, 0, true)
      && (forall i :: 0 <= i < |s.tasks| ==> s.tasks[i].point.iterations > 0)
      && (exists p, q :: p in catalog && q in catalog && p.lane == "steady" && q.operation == "session_setup")
      && exists results :: Reported(s.tasks, records, results) && answer == report(s, results)
  {
    hide Consistent, HasReport, Answered, InOrder;
    if Analyze(catalog, s, c, records, report) == Some(answer) {
      ReportMeansAgreement(catalog, s, c, records, report);
      SameNumber(s.tasks, records);
      assert Reported(s.tasks, records, InOrder(s.tasks, records));
    }
    forall results | Reported(s.tasks, records, results)
      ensures Answered(s.tasks, records) && InOrder(s.tasks, records) == results
    {
      ReportsAnswer(s.tasks, records, results);
    }
  }

  lemma SameNumber(tasks: seq<Task>, records: seq<Record>)
    requires Answered(tasks, records)
    ensures |records| == |tasks|
  {
  }
}
