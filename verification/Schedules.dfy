/**
  Schedules of paired engine runs, and what the analyzer demands of one before
  it trusts any measurement. Its counting checks force a one-to-one
  correspondence between tasks and point, repetition and engine.
 */
module Schedules {
  import opened Wrappers

  datatype Engine = Fre | Rust | Other(name: string)

  datatype Point = Point(
    caseId: string, family: string, pattern: string, size: int, density: string, operation: string, lane: string,
    iterations: int)

  datatype Task = Task(
    taskId: string, pairId: string, pointIndex: int, repetition: int, engine: Engine, point: Point,
    withinPair: int, scheduleIndex: int)

  datatype Schedule = Schedule(taskCount: int, pointCount: int, repetitions: int, tasks: seq<Task>)

  type Catalog = seq<Point>

  // ----- The analyzer's checks -----

  predicate DistinctIds(tasks: seq<Task>) {
    forall i, j :: 0 <= i < j < |tasks| ==> tasks[i].taskId != tasks[j].taskId
  }

  /** Two adjacent tasks look like one AB or BA pair. */
  predicate Paired(first: Task, second: Task) {
    && first.pairId == second.pairId
    && ((first.engine.Fre? && second.engine.Rust?) || (first.engine.Rust? && second.engine.Fre?))
    && first.withinPair == 0 && second.withinPair == 1
  }

  predicate PairAt(tasks: seq<Task>, k: int) {
    0 <= 2 * k < |tasks| - 1 && Paired(tasks[2 * k], tasks[2 * k + 1])
  }

  predicate Shape(s: Schedule) {
    && s.taskCount == |s.tasks| && |s.tasks| % 2 == 0
    && (forall i :: 0 <= i < |s.tasks| ==> s.tasks[i].scheduleIndex == i)
    && DistinctIds(s.tasks)
    && (forall k :: 0 <= k < |s.tasks| / 2 ==> PairAt(s.tasks, k))
  }

  predicate FromCatalog(catalog: Catalog, repetitions: int, t: Task) {
    0 <= t.pointIndex < |catalog| && 0 <= t.repetition < repetitions && t.point == catalog[t.pointIndex]
  }

  predicate CrossProduct(catalog: Catalog, s: Schedule) {
    && s.pointCount == |catalog|
    && |s.tasks| == |catalog| * s.repetitions * 2
    && (forall t :: t in s.tasks ==> FromCatalog(catalog, s.repetitions, t))
  }

  /** The engine that goes first for a point and repetition, by the last task that claims it. */
  function FirstEngine(tasks: seq<Task>, p: int, r: int): Option<Engine> {
    if tasks == [] then None
    else
      var t := tasks[|tasks| - 1];
      if t.withinPair == 0 && t.pointIndex == p && t.repetition == r then Some(t.engine)
      else FirstEngine(tasks[..|tasks| - 1], p, r)
  }

  ghost predicate PointAlternates(tasks: seq<Task>, repetitions: int, p: int) {
    && (exists r :: FirstEngine(tasks, p, r).Some?)
    && (forall r :: 0 <= r < repetitions ==> FirstEngine(tasks, p, r).Some?)
    && (forall r :: 1 <= r < repetitions ==> FirstEngine(tasks, p, r) != FirstEngine(tasks, p, r - 1))
  }

  ghost predicate Alternates(catalog: Catalog, s: Schedule) {
    forall p :: 0 <= p < |catalog| ==> PointAlternates(s.tasks, s.repetitions, p)
  }

  function KeyOf(t: Task): (int, int) {
    (t.pointIndex, t.repetition)
  }

  function Keys(tasks: seq<Task>): set<(int, int)> {
    set t | t in tasks :: KeyOf(t)
  }

  function EnginesAt(tasks: seq<Task>, key: (int, int)): set<Engine> {
    set t | t in tasks && KeyOf(t) == key :: t.engine
  }

  predicate BothEngines(s: Schedule) {
    && |Keys(s.tasks)| == s.pointCount * s.repetitions
    && (forall key :: key in Keys(s.tasks) ==> EnginesAt(s.tasks, key) == {Fre, Rust})
  }

  ghost predicate Accepted(catalog: Catalog, s: Schedule) {
    Shape(s) && CrossProduct(catalog, s) && Alternates(catalog, s) && BothEngines(s)
  }

  // ----- Counting -----

  lemma SameSize<T>(a: set<T>, b: set<T>)
    requires a <= b && |a| == |b|
    ensures a == b
  {
    assert b == a + (b - a) && a !! (b - a);
    assert |a + (b - a)| == |a| + |b - a|;
  }

  function Elements<T>(s: seq<T>): set<T> {
    set x | x in s
  }

  lemma {:induction false} FewElements<T>(s: seq<T>)
    ensures |Elements(s)| <= |s|
  {
    if s != [] {
      var init, last := s[..|s| - 1], s[|s| - 1];
      FewElements(init);
      assert s == init + [last];
      assert Elements(s) == Elements(init) + {last};
    }
  }

  /** A sequence with as many elements as places repeats none. */
  lemma {:induction false} Pigeonhole<T>(s: seq<T>, i: nat, j: nat)
    requires |Elements(s)| == |s| && i < j < |s|
    ensures s[i] != s[j]
  {
    if s[i] == s[j] {
      var others := s[..j] + s[j + 1..];
      assert forall x :: x in s ==> x in others by {
        forall x | x in s
          ensures x in others
        {
          var k :| 0 <= k < |s| && s[k] == x;
          var m := if k < j then k else if k == j then i else k - 1;
          assert others[m] == x;
        }
      }
      assert Elements(s) == Elements(others);
      FewElements(others);
    }
  }

  function Row(p: int, repetitions: nat): set<(int, int)> {
    set r | 0 <= r < repetitions :: (p, r)
  }

  function Grid(points: nat, repetitions: nat): set<(int, int)> {
    set p, r | 0 <= p < points && 0 <= r < repetitions :: (p, r)
  }

  lemma {:induction false} RowSize(p: int, repetitions: nat)
    ensures |Row(p, repetitions)| == repetitions
  {
    if repetitions > 0 {
      RowSize(p, repetitions - 1);
      assert Row(p, repetitions) == Row(p, repetitions - 1) + {(p, repetitions - 1)};
    }
  }

  lemma {:induction false} GridSize(points: nat, repetitions: nat)
    ensures |Grid(points, repetitions)| == points * repetitions
  {
    if points > 0 {
      GridSize(points - 1, repetitions);
      RowSize(points - 1, repetitions);
      assert Grid(points, repetitions) == Grid(points - 1, repetitions) + Row(points - 1, repetitions);
      assert points * repetitions == (points - 1) * repetitions + repetitions;
    }
  }

  /** A key together with an engine. */
  function Plane(keys: set<(int, int)>, e: Engine): set<(int, int, Engine)> {
    set key | key in keys :: (key.0, key.1, e)
  }

  lemma {:induction false} PlaneSize(keys: set<(int, int)>, e: Engine)
    ensures |Plane(keys, e)| == |keys|
  {
    if keys != {} {
      var key :| key in keys;
      PlaneSize(keys - {key}, e);
      assert Plane(keys, e) == Plane(keys - {key}, e) + {(key.0, key.1, e)};
    }
  }

  function Triple(t: Task): (int, int, Engine) {
    (t.pointIndex, t.repetition, t.engine)
  }

  function Triples(tasks: seq<Task>): seq<(int, int, Engine)> {
    seq(|tasks|, i requires 0 <= i < |tasks| => Triple(tasks[i]))
  }

  // ----- What acceptance implies -----

  lemma KeysAreTheGrid(catalog: Catalog, s: Schedule)
    requires CrossProduct(catalog, s) && BothEngines(s) && s.repetitions >= 0
    ensures Keys(s.tasks) == Grid(|catalog|, s.repetitions)
  {
    GridSize(|catalog|, s.repetitions);
    SameSize(Keys(s.tasks), Grid(|catalog|, s.repetitions));
  }

  lemma EveryTripleIsATask(catalog: Catalog, s: Schedule, p: int, r: int, e: Engine)
    requires CrossProduct(catalog, s) && BothEngines(s)
    requires 0 <= p < |catalog| && 0 <= r < s.repetitions && (e.Fre? || e.Rust?)
    ensures exists i :: 0 <= i < |s.tasks| && Triple(s.tasks[i]) == (p, r, e)
  {
    KeysAreTheGrid(catalog, s);
    assert (p, r) in Keys(s.tasks);
    assert e in EnginesAt(s.tasks, (p, r));
    var t :| t in s.tasks && KeyOf(t) == (p, r) && t.engine == e;
    var i :| 0 <= i < |s.tasks| && s.tasks[i] == t;
  }

  lemma TriplesFill(catalog: Catalog, s: Schedule)
    requires CrossProduct(catalog, s) && BothEngines(s) && s.repetitions >= 0
    ensures |Elements(Triples(s.tasks))| == |Triples(s.tasks)|
  {
    var grid, all := Grid(|catalog|, s.repetitions), Elements(Triples(s.tasks));
    TriplesCover(catalog, s, Fre);
    TriplesCover(catalog, s, Rust);
    PlanesDiffer(grid);
    assert |Triples(s.tasks)| == |catalog| * s.repetitions * 2;
    hide BothEngines, CrossProduct, Grid, Plane, Elements, Triples;
    GridSize(|catalog|, s.repetitions);
    PlaneSize(grid, Fre);
    PlaneSize(grid, Rust);
    FewElements(Triples(s.tasks));
    Bigger(Plane(grid, Fre) + Plane(grid, Rust), all);
  }

  lemma TriplesCover(catalog: Catalog, s: Schedule, e: Engine)
    requires CrossProduct(catalog, s) && BothEngines(s) && s.repetitions >= 0 && (e.Fre? || e.Rust?)
    ensures Plane(Grid(|catalog|, s.repetitions), e) <= Elements(Triples(s.tasks))
  {
    hide BothEngines, CrossProduct;
    forall x | x in Plane(Grid(|catalog|, s.repetitions), e)
      ensures x in Elements(Triples(s.tasks))
    {
      EveryTripleIsATask(catalog, s, x.0, x.1, x.2);
      var i :| 0 <= i < |s.tasks| && Triple(s.tasks[i]) == x;
      assert Triples(s.tasks)[i] == x;
    }
  }

  lemma PlanesDiffer(keys: set<(int, int)>)
    ensures Plane(keys, Fre) !! Plane(keys, Rust)
  {
  }

  lemma Bigger<T>(a: set<T>, b: set<T>)
    requires a <= b
    ensures |a| <= |b|
  {
    assert b == a + (b - a);
  }

  /** Tasks correspond one-to-one with point, repetition and engine. */
  ghost predicate OneToOne(tasks: seq<Task>, points: int, repetitions: int) {
    && (forall i, j :: 0 <= i < j < |tasks| ==> Triple(tasks[i]) != Triple(tasks[j]))
    && (forall p, r, e :: 0 <= p < points && 0 <= r < repetitions && (e == Fre || e == Rust) ==> (p, r, e) in Triples(tasks))
    && (forall i :: 0 <= i < |tasks| ==>
          && 0 <= tasks[i].pointIndex < points && 0 <= tasks[i].repetition < repetitions
          && (tasks[i].engine == Fre || tasks[i].engine == Rust))
  }

  /** Acceptance implies a bijection. */
  lemma AcceptedIsABijection(catalog: Catalog, s: Schedule)
    requires Accepted(catalog, s)
    ensures OneToOne(s.tasks, |catalog|, s.repetitions)
  {
    hide Shape, Alternates, BothEngines, Triples, Elements, CrossProduct;
    forall i, j | 0 <= i < j < |s.tasks|
      ensures Triple(s.tasks[i]) != Triple(s.tasks[j])
    {
      NoTaskTwice(catalog, s, i, j);
    }
    forall p, r, e | 0 <= p < |catalog| && 0 <= r < s.repetitions && (e == Fre || e == Rust)
      ensures (p, r, e) in Triples(s.tasks)
    {
      EveryTripleIsATask(catalog, s, p, r, e);
      var i :| 0 <= i < |s.tasks| && Triple(s.tasks[i]) == (p, r, e);
      TripleAt(s.tasks, i);
    }
    forall i | 0 <= i < |s.tasks|
      ensures 0 <= s.tasks[i].pointIndex < |catalog| && 0 <= s.tasks[i].repetition < s.repetitions
      ensures s.tasks[i].engine == Fre || s.tasks[i].engine == Rust
    {
      TaskInRange(catalog, s, i);
    }
  }

  lemma TripleAt(tasks: seq<Task>, i: nat)
    requires i < |tasks|
    ensures Triple(tasks[i]) in Triples(tasks)
  {
    assert Triples(tasks)[i] == Triple(tasks[i]);
  }

  lemma NoTaskTwice(catalog: Catalog, s: Schedule, i: nat, j: nat)
    requires CrossProduct(catalog, s) && BothEngines(s) && i < j < |s.tasks|
    ensures Triple(s.tasks[i]) != Triple(s.tasks[j])
  {
    assert s.tasks[0] in s.tasks;
    hide BothEngines;
    TriplesFill(catalog, s);
    Pigeonhole(Triples(s.tasks), i, j);
    assert Triples(s.tasks)[i] == Triple(s.tasks[i]) && Triples(s.tasks)[j] == Triple(s.tasks[j]);
  }

  lemma TaskInRange(catalog: Catalog, s: Schedule, i: nat)
    requires Shape(s) && CrossProduct(catalog, s) && i < |s.tasks|
    ensures FromCatalog(catalog, s.repetitions, s.tasks[i])
    ensures s.tasks[i].withinPair == i % 2 && i / 2 < |s.tasks| / 2
    ensures s.tasks[i].engine == Fre || s.tasks[i].engine == Rust
  {
    assert s.tasks[i] in s.tasks;
    assert PairAt(s.tasks, i / 2);
    assert i == 2 * (i / 2) || i == 2 * (i / 2) + 1;
  }

  // ----- Who goes first -----

  lemma {:induction false} FirstEngineIsATask(tasks: seq<Task>, p: int, r: int) returns (i: nat)
    requires FirstEngine(tasks, p, r).Some?
    ensures i < |tasks| && tasks[i].withinPair == 0 && KeyOf(tasks[i]) == (p, r) && FirstEngine(tasks, p, r) == Some(tasks[i].engine)
  {
    var n := |tasks| - 1;
    var t := tasks[n];
    if t.withinPair == 0 && t.pointIndex == p && t.repetition == r {
      i := n;
    } else {
      i := FirstEngineIsATask(tasks[..n], p, r);
    }
  }

  lemma {:induction false} FirstTaskGivesEngine(tasks: seq<Task>, i: nat)
    requires i < |tasks| && tasks[i].withinPair == 0
    ensures FirstEngine(tasks, tasks[i].pointIndex, tasks[i].repetition).Some?
  {
    var n := |tasks| - 1;
    if i < n {
      FirstTaskGivesEngine(tasks[..n], i);
    }
  }

  function FirstKeys(tasks: seq<Task>): seq<(int, int)> {
    seq(|tasks| / 2, k requires 0 <= k < |tasks| / 2 => KeyOf(tasks[2 * k]))
  }

  lemma FirstKeysFill(catalog: Catalog, s: Schedule)
    requires Accepted(catalog, s) && s.repetitions >= 0
    ensures |Elements(FirstKeys(s.tasks))| == |FirstKeys(s.tasks)|
  {
    hide BothEngines, Shape, CrossProduct;
    var grid, keys := Grid(|catalog|, s.repetitions), Elements(FirstKeys(s.tasks));
    GridSize(|catalog|, s.repetitions);
    forall key | key in grid
      ensures key in keys
    {
      assert PointAlternates(s.tasks, s.repetitions, key.0);
      var i := FirstEngineIsATask(s.tasks, key.0, key.1);
      TaskInRange(catalog, s, i);
      assert i == 2 * (i / 2);
      assert FirstKeys(s.tasks)[i / 2] == key;
    }
    FewElements(FirstKeys(s.tasks));
    Bigger(grid, keys);
    HalfOfTheTasks(catalog, s);
  }

  lemma HalfOfTheTasks(catalog: Catalog, s: Schedule)
    requires CrossProduct(catalog, s)
    ensures |s.tasks| / 2 == |catalog| * s.repetitions
  {
  }

  /** Every point and repetition has exactly one first task, whose engine alternates from repetition to repetition. */
  lemma FirstTasksAlternate(catalog: Catalog, s: Schedule, i: nat, j: nat)
    requires Accepted(catalog, s) && i < |s.tasks| && j < |s.tasks|
    requires s.tasks[i].withinPair == 0 && s.tasks[j].withinPair == 0
    ensures KeyOf(s.tasks[i]) == KeyOf(s.tasks[j]) ==> i == j
    ensures s.tasks[i].pointIndex == s.tasks[j].pointIndex && s.tasks[i].repetition == s.tasks[j].repetition + 1 ==>
      s.tasks[i].engine != s.tasks[j].engine
  {
    hide BothEngines, Shape, CrossProduct, FirstEngine;
    TaskInRange(catalog, s, i);
    TaskInRange(catalog, s, j);
    OnlyOneFirst(catalog, s, i, j);
    var a, b := s.tasks[i], s.tasks[j];
    if a.pointIndex == b.pointIndex && a.repetition == b.repetition + 1 {
      assert PointAlternates(s.tasks, s.repetitions, a.pointIndex);
      var x := FirstEngineIsATask(s.tasks, a.pointIndex, a.repetition);
      var y := FirstEngineIsATask(s.tasks, b.pointIndex, b.repetition);
      TaskInRange(catalog, s, x);
      TaskInRange(catalog, s, y);
      OnlyOneFirst(catalog, s, i, x);
      OnlyOneFirst(catalog, s, j, y);
      assert FirstEngine(s.tasks, a.pointIndex, a.repetition) != FirstEngine(s.tasks, a.pointIndex, a.repetition - 1);
    }
  }

  lemma OnlyOneFirst(catalog: Catalog, s: Schedule, i: nat, j: nat)
    requires Accepted(catalog, s) && i < |s.tasks| && j < |s.tasks|
    requires s.tasks[i].withinPair == 0 && s.tasks[j].withinPair == 0
    ensures KeyOf(s.tasks[i]) == KeyOf(s.tasks[j]) ==> i == j
  {
    hide BothEngines, Shape, CrossProduct, Alternates;
    TaskInRange(catalog, s, i);
    TaskInRange(catalog, s, j);
    FirstKeysFill(catalog, s);
    var keys, a, b := FirstKeys(s.tasks), i / 2, j / 2;
    assert keys[a] == KeyOf(s.tasks[2 * a]) && keys[b] == KeyOf(s.tasks[2 * b]);
    if a < b {
      Pigeonhole(keys, a, b);
    } else if b < a {
      Pigeonhole(keys, b, a);
    }
  }

  // ----- What acceptance does not imply -----

  const STEADY_POINT: Point := Point("words", "literal", "ab", 64, "sparse", "count", "steady", 8)

  const SETUP_POINT: Point := Point("words", "literal", "ab", 64, "sparse", "session_setup", "cold-session", 1)

  const TWO_POINTS: Catalog := [STEADY_POINT, SETUP_POINT]

  /** Two pairs that have swapped their second tasks. */
  const CROSSED: Schedule := Schedule(4, 2, 1, [
    Task("a", "x", 0, 0, Fre, STEADY_POINT, 0, 0), Task("b", "x", 1, 0, Rust, SETUP_POINT, 1, 1),
    Task("c", "y", 1, 0, Fre, SETUP_POINT, 0, 2), Task("d", "y", 0, 0, Rust, STEADY_POINT, 1, 3)])

  lemma CrossedIsShaped()
    ensures Shape(CROSSED)
  {
    var t := CROSSED.tasks;
    forall k | 0 <= k < |t| / 2
      ensures PairAt(t, k)
    {
      assert k == 0 || k == 1;
    }
  }

  lemma CrossedHasBothEngines()
    ensures BothEngines(CROSSED)
  {
    var t := CROSSED.tasks;
    assert t[0] in t && t[1] in t && t[2] in t && t[3] in t;
    assert KeyOf(t[0]) == (0, 0) && KeyOf(t[1]) == (1, 0);
    assert Keys(t) == {(0, 0), (1, 0)};
    assert EnginesAt(t, (0, 0)) == {Fre, Rust};
    assert EnginesAt(t, (1, 0)) == {Fre, Rust};
  }

  lemma CrossedIsCrossProduct()
    ensures CrossProduct(TWO_POINTS, CROSSED)
  {
  }

  /** An accepted schedule may run two different points in one adjacent pair: nothing ties a pair to one point. */
  lemma AcceptedMayCrossPairs()
    ensures Accepted(TWO_POINTS, CROSSED) && !PairsTogether(CROSSED.tasks)
    ensures CROSSED.tasks[0].point != CROSSED.tasks[1].point
  {
    hide Shape, BothEngines, CrossProduct;
    CrossedIsShaped();
    CrossedHasBothEngines();
    CrossedIsCrossProduct();
    FirstTaskGivesEngine(CROSSED.tasks, 0);
    FirstTaskGivesEngine(CROSSED.tasks, 2);
    assert !Together(CROSSED.tasks, 0);
  }

  /** Every adjacent pair belongs to one point and repetition. */
  predicate PairsTogether(tasks: seq<Task>) {
    forall k :: 0 <= k < |tasks| / 2 ==> Together(tasks, k)
  }

  predicate Together(tasks: seq<Task>, k: int) {
    0 <= 2 * k < |tasks| - 1 && KeyOf(tasks[2 * k]) == KeyOf(tasks[2 * k + 1])
  }

  /** A pair identifier names one point and repetition. */
  predicate IdentifierNamesKey(tasks: seq<Task>) {
    forall t, u :: t in tasks && u in tasks && t.pairId == u.pairId ==> KeyOf(t) == KeyOf(u)
  }

  /** No two pairs share an identifier. */
  predicate PairIdsDistinct(tasks: seq<Task>) {
    forall i, j :: 0 <= i < |tasks| && 0 <= j < |tasks| && tasks[i].pairId == tasks[j].pairId ==> SamePair(i, j)
  }

  predicate SamePair(i: int, j: int) {
    i / 2 == j / 2
  }

  lemma TogetherInPair(tasks: seq<Task>, i: nat, j: nat)
    requires PairsTogether(tasks) && |tasks| % 2 == 0 && i < |tasks| && j < |tasks| && SamePair(i, j)
    ensures KeyOf(tasks[i]) == KeyOf(tasks[j])
  {
    assert Together(tasks, i / 2);
  }

  /** Adjacent pairs stay together if each identifier names one key. */
  lemma NamesKeepPairsTogether(s: Schedule)
    requires Shape(s) && IdentifierNamesKey(s.tasks)
    ensures PairsTogether(s.tasks)
  {
    forall k | 0 <= k < |s.tasks| / 2
      ensures Together(s.tasks, k)
    {
      assert PairAt(s.tasks, k);
    }
  }

  /** In an accepted schedule, identifiers that name one key each are not shared between pairs. */
  lemma NamesKeepPairsApart(catalog: Catalog, s: Schedule, i: nat, j: nat)
    requires Accepted(catalog, s) && IdentifierNamesKey(s.tasks)
    requires i < |s.tasks| && j < |s.tasks| && s.tasks[i].pairId == s.tasks[j].pairId
    ensures SamePair(i, j)
  {
    FirstOfPair(catalog, s, i);
    FirstOfPair(catalog, s, j);
    hide Accepted;
    var a, b := 2 * (i / 2), 2 * (j / 2);
    assert s.tasks[a] in s.tasks && s.tasks[b] in s.tasks;
    OnlyOneFirst(catalog, s, a, b);
  }

  lemma FirstOfPair(catalog: Catalog, s: Schedule, i: nat)
    requires Accepted(catalog, s) && i < |s.tasks|
    ensures var a := 2 * (i / 2);
      a < |s.tasks| && s.tasks[a].withinPair == 0 && s.tasks[a].pairId == s.tasks[i].pairId
  {
    hide CrossProduct, Alternates, BothEngines;
    assert PairAt(s.tasks, i / 2);
  }

  /**
    For every accepted schedule: each pair identifier names one point and
    repetition if and only if adjacent pairs stay together and no two pairs
    share an identifier.
   */
  lemma WhenPairsStayTogether(catalog: Catalog, s: Schedule)
    requires Accepted(catalog, s)
    ensures IdentifierNamesKey(s.tasks) <==> PairsTogether(s.tasks) && PairIdsDistinct(s.tasks)
  {
    assert Shape(s) && |s.tasks| % 2 == 0;
    hide Accepted, Shape, PairsTogether, SamePair, KeyOf;
    if IdentifierNamesKey(s.tasks) {
      NamesKeepPairsTogether(s);
      forall i, j | 0 <= i < |s.tasks| && 0 <= j < |s.tasks| && s.tasks[i].pairId == s.tasks[j].pairId
        ensures SamePair(i, j)
      {
        NamesKeepPairsApart(catalog, s, i, j);
      }
    }
    if PairsTogether(s.tasks) && PairIdsDistinct(s.tasks) {
      forall t, u | t in s.tasks && u in s.tasks && t.pairId == u.pairId
        ensures KeyOf(t) == KeyOf(u)
      {
        var i :| 0 <= i < |s.tasks| && s.tasks[i] == t;
        var j :| 0 <= j < |s.tasks| && s.tasks[j] == u;
        TogetherInPair(s.tasks, i, j);
      }
    }
  }
}
