/**
  Agreement of the results of a run: between the two engines of one point and
  repetition, and over the repetitions of one point and engine.
 */
module Agreement {
  import opened Schedules

  /** What a successful run of one task reports. */
  datatype PointResult = PointResult(
    engine: Engine, point: Point, elapsedNs: int, checksum: string, runtimePlan: string, semantic: string)

  /** Results of one point and repetition mean the same, on the steady lane down to the checksum. */
  predicate EnginesConform(tasks: seq<Task>, results: seq<PointResult>)
    requires |results| == |tasks|
  {
    forall i, j :: 0 <= i < |tasks| && 0 <= j < |tasks| && KeyOf(tasks[i]) == KeyOf(tasks[j]) ==>
      && results[i].semantic == results[j].semantic
      && (tasks[i].point.lane == "steady" ==> results[i].checksum == results[j].checksum)
  }

  predicate SameWork(t: Task, u: Task) {
    t.pointIndex == u.pointIndex && t.engine == u.engine
  }

  /** No engine changes over the repetitions of a point. */
  predicate RepetitionsConform(tasks: seq<Task>, results: seq<PointResult>)
    requires |results| == |tasks|
  {
    forall i, j :: 0 <= i < |tasks| && 0 <= j < |tasks| && SameWork(tasks[i], tasks[j]) ==>
      && results[i].semantic == results[j].semantic && results[i].checksum == results[j].checksum
      && results[i].runtimePlan == results[j].runtimePlan
  }

  predicate Consistent(tasks: seq<Task>, results: seq<PointResult>) {
    |results| == |tasks| && EnginesConform(tasks, results) && RepetitionsConform(tasks, results)
  }

  // ----- The table of tasks -----

  type Table = map<(int, int, Engine), nat>

  /** The table finds every task by point, repetition and engine. */
  ghost predicate Finds(table: Table, tasks: seq<Task>, points: int, repetitions: int) {
    && OneToOne(tasks, points, repetitions)
    && (forall p, r, e :: 0 <= p < points && 0 <= r < repetitions && (e == Fre || e == Rust) ==>
          (p, r, e) in table && table[(p, r, e)] < |tasks| && Triple(tasks[table[(p, r, e)]]) == (p, r, e))
    && (forall i :: 0 <= i < |tasks| ==> Triple(tasks[i]) in table && table[Triple(tasks[i])] == i)
  }

  method BuildTable(tasks: seq<Task>, ghost points: int, ghost repetitions: int) returns (table: Table)
    requires OneToOne(tasks, points, repetitions)
    ensures Finds(table, tasks, points, repetitions)
  {
    table := map[];
    for i := 0 to |tasks|
      invariant forall k :: 0 <= k < i ==> Triple(tasks[k]) in table && table[Triple(tasks[k])] == k
    {
      table := table[Triple(tasks[i]) := i];
    }
    forall p, r, e | 0 <= p < points && 0 <= r < repetitions && (e == Fre || e == Rust)
      ensures (p, r, e) in table && table[(p, r, e)] < |tasks| && Triple(tasks[table[(p, r, e)]]) == (p, r, e)
    {
      assert (p, r, e) in Triples(tasks);
      var i :| 0 <= i < |tasks| && Triples(tasks)[i] == (p, r, e);
    }
  }

  // ----- Both engines -----

  /** The two results of a point and repetition, found in the table, agree. */
  predicate PairAgrees(table: Table, tasks: seq<Task>, results: seq<PointResult>, p: int, r: int) {
    && (p, r, Fre) in table && (p, r, Rust) in table && |results| == |tasks|
    && var i, j := table[(p, r, Fre)], table[(p, r, Rust)];
       && i < |tasks| && j < |tasks| && results[i].semantic == results[j].semantic
       && (tasks[j].point.lane == "steady" ==> results[i].checksum == results[j].checksum)
  }

  method EnginesAgree(table: Table, tasks: seq<Task>, results: seq<PointResult>, points: int, repetitions: int) returns (ok: bool)
    requires Finds(table, tasks, points, repetitions) && |results| == |tasks|
    ensures ok <==> forall p, r :: 0 <= p < points && 0 <= r < repetitions ==> PairAgrees(table, tasks, results, p, r)
  {
    var p := 0;
    while p < points
      invariant 0 <= p && forall q, r :: 0 <= q < p && q < points && 0 <= r < repetitions ==> PairAgrees(table, tasks, results, q, r)
    {
      var r := 0;
      while r < repetitions
        invariant 0 <= r && forall k :: 0 <= k < r && k < repetitions ==> PairAgrees(table, tasks, results, p, k)
      {
        var i, j := table[(p, r, Fre)], table[(p, r, Rust)];
        if results[i].semantic != results[j].semantic {
          assert !PairAgrees(table, tasks, results, p, r);
          return false;
        }
        if tasks[j].point.lane == "steady" && results[i].checksum != results[j].checksum {
          assert !PairAgrees(table, tasks, results, p, r);
          return false;
        }
        r := r + 1;
      }
      p := p + 1;
    }
    return true;
  }

  // ----- All repetitions -----

  /** The result of a repetition, found in the table, is like that of the first repetition. */
  predicate RepetitionAgrees(table: Table, results: seq<PointResult>, p: int, r: int, e: Engine) {
    && (p, 0, e) in table && (p, r, e) in table
    && var i, j := table[(p, 0, e)], table[(p, r, e)];
       && i < |results| && j < |results| && results[i].semantic == results[j].semantic
       && results[i].checksum == results[j].checksum && results[i].runtimePlan == results[j].runtimePlan
  }

  lemma SetOfOne<T>(s: set<T>, x: T)
    requires x in s
    ensures |s| == 1 <==> s == {x}
  {
    if |s| == 1 && s != {x} {
      var y :| y in s && y != x;
      assert {x, y} <= s;
      SizeOfSubset({x, y}, s);
    }
  }

  lemma SizeOfSubset<T>(a: set<T>, b: set<T>)
    requires a <= b
    ensures |a| <= |b|
  {
    assert b == a + (b - a);
  }

  /** A field has one value: the set of its values has one element. */
  method Unanimous(row: seq<PointResult>, field: PointResult -> string) returns (ok: bool)
    requires row != []
    ensures ok <==> forall k :: 0 <= k < |row| ==> field(row[k]) == field(row[0])
  {
    var seen: set<string> := {};
    for k := 0 to |row|
      invariant seen == set i | 0 <= i < k :: field(row[i])
    {
      seen := seen + {field(row[k])};
    }
    assert field(row[0]) in seen;
    SetOfOne(seen, field(row[0]));
    if forall k :: 0 <= k < |row| ==> field(row[k]) == field(row[0]) {
      assert seen == {field(row[0])};
    }
    ok := |seen| == 1;
    assert ok ==> forall k :: 0 <= k < |row| ==> field(row[k]) in seen;
  }

  lemma TableRow(table: Table, tasks: seq<Task>, points: int, repetitions: int, p: int, e: Engine)
    requires Finds(table, tasks, points, repetitions) && 0 <= p < points && (e == Fre || e == Rust)
    ensures forall r :: 0 <= r < repetitions ==> (p, r, e) in table && table[(p, r, e)] < |tasks|
  {
  }

  /** The results of one engine over the repetitions of a point. */
  method CollectRow(table: Table, results: seq<PointResult>, p: int, repetitions: nat, e: Engine) returns (row: seq<PointResult>)
    requires forall r :: 0 <= r < repetitions ==> (p, r, e) in table && table[(p, r, e)] < |results|
    ensures |row| == repetitions && forall r :: 0 <= r < repetitions ==> row[r] == results[table[(p, r, e)]]
  {
    row := [];
    for r := 0 to repetitions
      invariant |row| == r
      invariant forall k :: 0 <= k < r ==> row[k] == results[table[(p, k, e)]]
    {
      row := row + [results[table[(p, r, e)]]];
    }
  }

  method RepetitionsAgree(table: Table, tasks: seq<Task>, results: seq<PointResult>, points: int, repetitions: int, p: int, e: Engine)
    returns (ok: bool)
    requires Finds(table, tasks, points, repetitions) && |results| == |tasks|
    requires 0 <= p < points && 0 < repetitions && (e == Fre || e == Rust)
    ensures ok <==> forall r :: 0 <= r < repetitions ==> RepetitionAgrees(table, results, p, r, e)
  {
    hide Finds, RepetitionAgrees;
    TableRow(table, tasks, points, repetitions, p, e);
    var row := CollectRow(table, results, p, repetitions, e);
    var one := Unanimous(row, (r: PointResult) => r.semantic);
    var two := Unanimous(row, (r: PointResult) => r.checksum);
    var three := Unanimous(row, (r: PointResult) => r.runtimePlan);
    ok := one && two && three;
    RepetitionByRepetition(table, results, p, e, row);
  }

  lemma RepetitionByRepetition(table: Table, results: seq<PointResult>, p: int, e: Engine, row: seq<PointResult>)
    requires row != []
    requires forall k :: 0 <= k < |row| ==> (p, k, e) in table && table[(p, k, e)] < |results| && row[k] == results[table[(p, k, e)]]
    ensures forall k :: 0 <= k < |row| ==>
      (RepetitionAgrees(table, results, p, k, e) <==>
        row[k].semantic == row[0].semantic && row[k].checksum == row[0].checksum && row[k].runtimePlan == row[0].runtimePlan)
  {
  }

  // ----- Task by task -----

  predicate SamePoints(tasks: seq<Task>) {
    forall i, j :: 0 <= i < |tasks| && 0 <= j < |tasks| && tasks[i].pointIndex == tasks[j].pointIndex ==> tasks[i].point == tasks[j].point
  }

  lemma PairOfTasks(table: Table, tasks: seq<Task>, results: seq<PointResult>, points: int, repetitions: int, i: nat, j: nat)
    requires Finds(table, tasks, points, repetitions) && |results| == |tasks| && SamePoints(tasks)
    requires forall p, r :: 0 <= p < points && 0 <= r < repetitions ==> PairAgrees(table, tasks, results, p, r)
    requires i < |tasks| && j < |tasks| && tasks[i].pointIndex == tasks[j].pointIndex && tasks[i].repetition == tasks[j].repetition
    ensures results[i].semantic == results[j].semantic
    ensures tasks[i].point.lane == "steady" ==> results[i].checksum == results[j].checksum
  {
    var p, r := tasks[i].pointIndex, tasks[i].repetition;
    assert PairAgrees(table, tasks, results, p, r);
    assert table[Triple(tasks[i])] == i && table[Triple(tasks[j])] == j;
  }

  lemma TasksOfPair(table: Table, tasks: seq<Task>, results: seq<PointResult>, points: int, repetitions: int, p: int, r: int)
    requires Finds(table, tasks, points, repetitions) && |results| == |tasks| && 0 <= p < points && 0 <= r < repetitions
    requires EnginesConform(tasks, results)
    ensures PairAgrees(table, tasks, results, p, r)
  {
    var i, j := table[(p, r, Fre)], table[(p, r, Rust)];
    assert Triple(tasks[i]) == (p, r, Fre) && Triple(tasks[j]) == (p, r, Rust);
  }

  lemma RepetitionOfTasks(table: Table, tasks: seq<Task>, results: seq<PointResult>, points: int, repetitions: int, i: nat, j: nat)
    requires Finds(table, tasks, points, repetitions) && |results| == |tasks|
    requires forall p, r, e :: 0 <= p < points && 0 <= r < repetitions && (e == Fre || e == Rust) ==> RepetitionAgrees(table, results, p, r, e)
    requires i < |tasks| && j < |tasks| && tasks[i].pointIndex == tasks[j].pointIndex && tasks[i].engine == tasks[j].engine
    ensures results[i].semantic == results[j].semantic && results[i].checksum == results[j].checksum
    ensures results[i].runtimePlan == results[j].runtimePlan
  {
    var p, e := tasks[i].pointIndex, tasks[i].engine;
    assert RepetitionAgrees(table, results, p, tasks[i].repetition, e);
    assert RepetitionAgrees(table, results, p, tasks[j].repetition, e);
    assert table[Triple(tasks[i])] == i && table[Triple(tasks[j])] == j;
  }

  lemma TasksOfRepetition(table: Table, tasks: seq<Task>, results: seq<PointResult>, points: int, repetitions: int, p: int, r: int, e: Engine)
    requires Finds(table, tasks, points, repetitions) && |results| == |tasks|
    requires 0 <= p < points && 0 <= r < repetitions && (e == Fre || e == Rust)
    requires RepetitionsConform(tasks, results)
    ensures RepetitionAgrees(table, results, p, r, e)
  {
    var i, j := table[(p, 0, e)], table[(p, r, e)];
    assert Triple(tasks[i]) == (p, 0, e) && Triple(tasks[j]) == (p, r, e);
  }

  /** Every engine of every point, over its repetitions. */
  method EveryEngineAgrees(table: Table, tasks: seq<Task>, results: seq<PointResult>, points: int, repetitions: int) returns (ok: bool)
    requires Finds(table, tasks, points, repetitions) && |results| == |tasks| && (points > 0 ==> repetitions > 0)
    ensures ok <==> forall p, r, e :: 0 <= p < points && 0 <= r < repetitions && (e == Fre || e == Rust) ==>
      RepetitionAgrees(table, results, p, r, e)
  {
    hide Finds, RepetitionAgrees;
    var p := 0;
    while p < points
      invariant 0 <= p
      invariant forall q, r, e :: 0 <= q < p && q < points && 0 <= r < repetitions && (e == Fre || e == Rust) ==>
        RepetitionAgrees(table, results, q, r, e)
    {
      var fre := RepetitionsAgree(table, tasks, results, points, repetitions, p, Fre);
      if !fre {
        return false;
      }
      var rust := RepetitionsAgree(table, tasks, results, points, repetitions, p, Rust);
      if !rust {
        return false;
      }
      p := p + 1;
    }
    return true;
  }

  /** The agreement of the engines of every pair, and of every engine over its repetitions. */
  method VerifyAgreement(tasks: seq<Task>, results: seq<PointResult>, points: int, repetitions: int) returns (ok: bool)
    requires OneToOne(tasks, points, repetitions) && |results| == |tasks| && (points > 0 ==> repetitions > 0) && SamePoints(tasks)
    ensures ok <==>
      && (forall i, j :: 0 <= i < |tasks| && 0 <= j < |tasks|
                         && tasks[i].pointIndex == tasks[j].pointIndex && tasks[i].repetition == tasks[j].repetition ==>
            && results[i].semantic == results[j].semantic
            && (tasks[i].point.lane == "steady" ==> results[i].checksum == results[j].checksum))
      && (forall i, j :: 0 <= i < |tasks| && 0 <= j < |tasks|
                         && tasks[i].pointIndex == tasks[j].pointIndex && tasks[i].engine == tasks[j].engine ==>
            && results[i].semantic == results[j].semantic && results[i].checksum == results[j].checksum
            && results[i].runtimePlan == results[j].runtimePlan)
  {
    hide Finds, PairAgrees, RepetitionAgrees, OneToOne, SamePoints;
    var table := BuildTable(tasks, points, repetitions);
    var engines := EnginesAgree(table, tasks, results, points, repetitions);
    if !engines {
      ghost var p, r :| 0 <= p < points && 0 <= r < repetitions && !PairAgrees(table, tasks, results, p, r);
      if EnginesConform(tasks, results) {
        TasksOfPair(table, tasks, results, points, repetitions, p, r);
      }
      return false;
    }
    forall i, j | 0 <= i < |tasks| && 0 <= j < |tasks|
      && tasks[i].pointIndex == tasks[j].pointIndex && tasks[i].repetition == tasks[j].repetition
      ensures results[i].semantic == results[j].semantic
      ensures tasks[i].point.lane == "steady" ==> results[i].checksum == results[j].checksum
    {
      PairOfTasks(table, tasks, results, points, repetitions, i, j);
    }
    var repeated := EveryEngineAgrees(table, tasks, results, points, repetitions);
    if !repeated {
      ghost var p, r, e :| 0 <= p < points && 0 <= r < repetitions && (e == Fre || e == Rust) && !RepetitionAgrees(table, results, p, r, e);
      if RepetitionsConform(tasks, results) {
        TasksOfRepetition(table, tasks, results, points, repetitions, p, r, e);
      }
      return false;
    }
    forall i, j | 0 <= i < |tasks| && 0 <= j < |tasks|
      && tasks[i].pointIndex == tasks[j].pointIndex && tasks[i].engine == tasks[j].engine
      ensures results[i].semantic == results[j].semantic && results[i].checksum == results[j].checksum
      ensures results[i].runtimePlan == results[j].runtimePlan
    {
      RepetitionOfTasks(table, tasks, results, points, repetitions, i, j);
    }
    return true;
  }
}
