/**
  The controller: a seeded generator, an in-place shuffle, and the schedule
  built from them. Every schedule it builds passes the analyzer's checks.
 */
module Controller {
  import opened Wrappers
  import opened Schedules
  import opened SplitMix
  import opened Shuffling

  // ----- Identifiers -----

  function Digit(d: nat): char
    requires d < 10
  {
    '0' + d as char
  }

  function Decimal(n: nat): string {
    if n < 10 then [Digit(n)] else Decimal(n / 10) + [Digit(n % 10)]
  }

  function Zeros(n: nat): string {
    if n == 0 then [] else Zeros(n - 1) + ['0']
  }

  /** Decimal digits, padded with zeros to a minimum width. */
  function Padded(n: nat, width: nat): string {
    var digits := Decimal(n);
    if |digits| < width then Zeros(width - |digits|) + digits else digits
  }

  function PairId(p: nat, r: nat): string {
    "p" + Padded(p, 4) + "-r" + Padded(r, 3)
  }

  function EngineName(e: Engine): string {
    match e
    case Fre => "fre"
    case Rust => "rust"
    case Other(name) => name
  }

  function TaskId(p: nat, r: nat, e: Engine): string {
    PairId(p, r) + "-" + EngineName(e)
  }

  predicate AllDigits(s: string) {
    forall i :: 0 <= i < |s| ==> '0' <= s[i] <= '9'
  }

  /** What a string of digits is worth. */
  function Worth(s: string): nat
    requires AllDigits(s)
  {
    if s == [] then 0 else Worth(s[..|s| - 1]) * 10 + (s[|s| - 1] as int - '0' as int)
  }

  lemma WorthStep(s: string, d: nat)
    requires AllDigits(s) && d < 10
    ensures AllDigits(s + [Digit(d)]) && Worth(s + [Digit(d)]) == Worth(s) * 10 + d
  {
    var more := s + [Digit(d)];
    assert more[..|more| - 1] == s;
  }

  lemma {:induction false} ZerosAreWorthless(n: nat)
    ensures AllDigits(Zeros(n)) && Worth(Zeros(n)) == 0
  {
    if n > 0 {
      ZerosAreWorthless(n - 1);
      assert Digit(0) == '0';
      WorthStep(Zeros(n - 1), 0);
    }
  }

  /** Leading zeros change nothing: the padded digits are worth the number. */
  lemma {:induction false} DecimalIsWorth(zeros: nat, n: nat)
    ensures AllDigits(Zeros(zeros) + Decimal(n)) && Worth(Zeros(zeros) + Decimal(n)) == n
    decreases n
  {
    if n < 10 {
      ZerosAreWorthless(zeros);
      WorthStep(Zeros(zeros), n);
    } else {
      DecimalIsWorth(zeros, n / 10);
      WorthStep(Zeros(zeros) + Decimal(n / 10), n % 10);
      assert Zeros(zeros) + Decimal(n / 10) + [Digit(n % 10)] == Zeros(zeros) + Decimal(n);
    }
  }

  lemma ZerosOfNone()
    ensures Zeros(0) == []
  {
  }

  lemma PaddedIsWorth(n: nat, width: nat)
    ensures AllDigits(Padded(n, width)) && Worth(Padded(n, width)) == n
  {
    hide Decimal, Zeros, Worth;
    var digits := Decimal(n);
    ZerosOfNone();
    DecimalIsWorth(if |digits| < width then width - |digits| else 0, n);
    assert [] + digits == digits;
  }

  /** A dash ends a run of digits, so the digits and the rest can be told apart. */
  lemma SplitAtDash(a: string, x: string, b: string, y: string)
    requires AllDigits(a) && AllDigits(b) && a + "-" + x == b + "-" + y
    ensures a == b && x == y
  {
    var s := a + "-" + x;
    assert s[|a|] == '-' && s[|b|] == '-';
    assert forall i :: 0 <= i < |a| ==> s[i] == a[i];
    assert forall i :: 0 <= i < |b| ==> s[i] == b[i];
    assert a == s[..|a|] == s[..|b|] == b;
    assert x == s[|a| + 1..] == y;
  }

  /** Identifiers are injective: any point number, any repetition, either engine. */
  lemma TaskIdIsInjective(p: nat, r: nat, e: Engine, q: nat, t: nat, f: Engine)
    requires TaskId(p, r, e) == TaskId(q, t, f) && !e.Other? && !f.Other?
    ensures p == q && r == t && e == f
  {
    hide Padded, EngineName;
    var a, b, c, d := Padded(p, 4), Padded(q, 4), Padded(r, 3), Padded(t, 3);
    var n, m := EngineName(e), EngineName(f);
    PaddedIsWorth(p, 4);
    PaddedIsWorth(q, 4);
    PaddedIsWorth(r, 3);
    PaddedIsWorth(t, 3);
    IdShape(p, r, e);
    IdShape(q, t, f);
    assert (a + "-" + ("r" + (c + "-" + n))) == TaskId(p, r, e)[1..];
    SplitAtDash(a, "r" + (c + "-" + n), b, "r" + (d + "-" + m));
    assert (c + "-" + n) == ("r" + (c + "-" + n))[1..];
    assert (d + "-" + m) == ("r" + (d + "-" + m))[1..];
    SplitAtDash(c, n, d, m);
    NamesDiffer(e, f);
  }

  lemma IdShape(p: nat, r: nat, e: Engine)
    ensures TaskId(p, r, e) == "p" + (Padded(p, 4) + "-" + ("r" + (Padded(r, 3) + "-" + EngineName(e))))
    ensures TaskId(p, r, e)[1..] == Padded(p, 4) + "-" + ("r" + (Padded(r, 3) + "-" + EngineName(e)))
  {
    hide Padded, EngineName;
  }

  lemma NamesDiffer(e: Engine, f: Engine)
    requires !e.Other? && !f.Other?
    ensures EngineName(e) == EngineName(f) ==> e == f
  {
    assert |EngineName(Fre)| == 3 && |EngineName(Rust)| == 4;
  }

  // ----- The generator and its shuffle -----

  class SplitMix64 {
    var state: bv64

    constructor (seed: bv64)
      ensures state == seed
    {
      state := seed;
    }

    /** One draw: the output and the new state determine each other. */
    method Next() returns (value: bv64)
      modifies this
      ensures state == old(state) + GAMMA && value == Mixed(state) && Unmixed(value) == state
    {
      hide Fold30, Fold27, Fold31, FirstFactor, SecondFactor, Unmixed;
      MixingIsUndone(state + GAMMA);
      state := state + GAMMA;
      value := state;
      value := FirstFactor(Fold30(value));
      value := SecondFactor(Fold27(value));
      value := Fold31(value);
    }

    /** Shuffles in place. */
    method Shuffle<T>(values: array<T>)
      modifies this, values
      ensures (values[..], state) == Shuffled(old(values[..]), values.Length - 1, old(state))
    {
      hide Mixed, Unmixed;
      var index := values.Length - 1;
      while index > 0
        invariant index < values.Length
        invariant Shuffled(values[..], index, state) == Shuffled(old(values[..]), values.Length - 1, old(state))
      {
        var value := Next();
        var selected := value as nat % (index + 1);
        ghost var before := values[..];
        values[index], values[selected] := values[selected], values[index];
        assert values[..] == Swapped(before, index, selected);
        index := index - 1;
      }
    }
  }

  // ----- Building a schedule -----

  /** The tasks of one point and repetition, in the order in which they will run. */
  datatype Block = Block(p: nat, r: nat, fre: bool, point: Point)

  function FirstOf(b: Block): Engine {
    if b.fre then Fre else Rust
  }

  function SecondOf(b: Block): Engine {
    if b.fre then Rust else Fre
  }

  /** Orientation of a repetition: it flips at every odd one. */
  function Orientation(firstIsFre: bool, r: nat): bool {
    firstIsFre != (r % 2 == 1)
  }

  function FirstIsFre(state: bv64): bool {
    Mixed(state) & 1 == 0
  }

  /** The block of a point and repetition, the point's orientation having been drawn before. */
  function BlockOf(catalog: Catalog, firsts: seq<bool>, p: nat, r: nat): Block
    requires p < |catalog| && p < |firsts|
  {
    Block(p, r, Orientation(firsts[p], r), catalog[p])
  }

  function TaskOf(b: Block, e: Engine, within: nat, index: nat): Task {
    Task(TaskId(b.p, b.r, e), PairId(b.p, b.r), b.p, b.r, e, b.point, within, index)
  }

  function TaskAt(blocks: seq<Block>, i: nat): Task
    requires i < 2 * |blocks|
  {
    if i % 2 == 0 then TaskOf(blocks[i / 2], FirstOf(blocks[i / 2]), 0, i)
    else TaskOf(blocks[i / 2], SecondOf(blocks[i / 2]), 1, i)
  }

  function TasksOf(blocks: seq<Block>): seq<Task> {
    seq(2 * |blocks|, i requires 0 <= i < 2 * |blocks| => TaskAt(blocks, i))
  }

  function ScheduleOf(catalog: Catalog, repetitions: int, blocks: seq<Block>): Schedule {
    Schedule(2 * |blocks|, |catalog|, repetitions, TasksOf(blocks))
  }

  function KeyOfBlock(b: Block): (int, int) {
    (b.p, b.r)
  }

  function BlockKeys(blocks: seq<Block>): seq<(int, int)> {
    seq(|blocks|, k requires 0 <= k < |blocks| => KeyOfBlock(blocks[k]))
  }

  /** Exactly one block for every point and repetition. */
  ghost predicate FullDeck(catalog: Catalog, repetitions: nat, firsts: seq<bool>, blocks: seq<Block>) {
    && |firsts| == |catalog| && |blocks| == |catalog| * repetitions
    && (forall b :: b in blocks ==> b.p < |catalog| && b.r < repetitions && b == BlockOf(catalog, firsts, b.p, b.r))
    && (forall p: nat, r: nat :: p < |catalog| && r < repetitions ==> BlockOf(catalog, firsts, p, r) in blocks)
  }

  lemma ShuffledDeckIsFull(catalog: Catalog, repetitions: nat, firsts: seq<bool>, blocks: seq<Block>, shuffled: seq<Block>)
    requires FullDeck(catalog, repetitions, firsts, blocks) && multiset(shuffled) == multiset(blocks)
    ensures FullDeck(catalog, repetitions, firsts, shuffled)
  {
    assert |shuffled| == |multiset(shuffled)| && |blocks| == |multiset(blocks)|;
    forall b
      ensures b in shuffled <==> b in blocks
    {
      assert b in shuffled <==> b in multiset(shuffled);
      assert b in blocks <==> b in multiset(blocks);
    }
  }

  /** No point and repetition has two blocks. */
  lemma BlocksDiffer(catalog: Catalog, repetitions: nat, firsts: seq<bool>, blocks: seq<Block>, i: nat, j: nat)
    requires FullDeck(catalog, repetitions, firsts, blocks) && i < j < |blocks|
    ensures KeyOfBlock(blocks[i]) != KeyOfBlock(blocks[j])
  {
    var keys, grid := BlockKeys(blocks), Grid(|catalog|, repetitions);
    GridSize(|catalog|, repetitions);
    forall key | key in grid
      ensures key in Elements(keys)
    {
      var b := BlockOf(catalog, firsts, key.0, key.1);
      var k :| 0 <= k < |blocks| && blocks[k] == b;
      assert keys[k] == key;
    }
    FewElements(keys);
    Bigger(grid, Elements(keys));
    Pigeonhole(keys, i, j);
  }

  // ----- A built schedule passes -----

  lemma BuiltIsShaped(catalog: Catalog, repetitions: nat, firsts: seq<bool>, blocks: seq<Block>)
    requires FullDeck(catalog, repetitions, firsts, blocks)
    ensures Shape(ScheduleOf(catalog, repetitions, blocks))
  {
    hide TaskId, PairId, FullDeck;
    var tasks := TasksOf(blocks);
    forall i, j | 0 <= i < j < |tasks|
      ensures tasks[i].taskId != tasks[j].taskId
    {
      IdsDiffer(catalog, repetitions, firsts, blocks, i, j);
    }
    forall k | 0 <= k < |tasks| / 2
      ensures PairAt(tasks, k)
    {
      assert (2 * k) / 2 == k && (2 * k + 1) / 2 == k;
    }
  }

  lemma IdsDiffer(catalog: Catalog, repetitions: nat, firsts: seq<bool>, blocks: seq<Block>, i: nat, j: nat)
    requires FullDeck(catalog, repetitions, firsts, blocks) && i < j < 2 * |blocks|
    ensures TaskAt(blocks, i).taskId != TaskAt(blocks, j).taskId
  {
    hide TaskId, PairId, FullDeck;
    var a, b := blocks[i / 2], blocks[j / 2];
    var e, f := TaskAt(blocks, i).engine, TaskAt(blocks, j).engine;
    if TaskId(a.p, a.r, e) == TaskId(b.p, b.r, f) {
      TaskIdIsInjective(a.p, a.r, e, b.p, b.r, f);
      if i / 2 < j / 2 {
        BlocksDiffer(catalog, repetitions, firsts, blocks, i / 2, j / 2);
      }
    }
  }

  lemma BuiltIsCrossProduct(catalog: Catalog, repetitions: nat, firsts: seq<bool>, blocks: seq<Block>)
    requires FullDeck(catalog, repetitions, firsts, blocks)
    ensures CrossProduct(catalog, ScheduleOf(catalog, repetitions, blocks))
  {
    hide TaskId, PairId;
    var tasks := TasksOf(blocks);
    forall t | t in tasks
      ensures FromCatalog(catalog, repetitions, t)
    {
      var i :| 0 <= i < |tasks| && tasks[i] == t;
      assert blocks[i / 2] in blocks;
    }
    assert |catalog| * repetitions * 2 == 2 * (|catalog| * repetitions);
  }

  /** First of a point and repetition is the engine of its block. */
  lemma FirstIsOfItsBlock(catalog: Catalog, repetitions: nat, firsts: seq<bool>, blocks: seq<Block>, p: nat, r: nat)
    requires FullDeck(catalog, repetitions, firsts, blocks) && p < |catalog| && r < repetitions
    ensures FirstEngine(TasksOf(blocks), p, r) == Some(FirstOf(BlockOf(catalog, firsts, p, r)))
  {
    hide TaskId, PairId, FirstEngine;
    var tasks, b := TasksOf(blocks), BlockOf(catalog, firsts, p, r);
    var k :| 0 <= k < |blocks| && blocks[k] == b;
    assert tasks[2 * k] == TaskOf(b, FirstOf(b), 0, 2 * k);
    FirstTaskGivesEngine(tasks, 2 * k);
    var i := FirstEngineIsATask(tasks, p, r);
    assert tasks[i] == TaskAt(blocks, i);
    assert blocks[i / 2] in blocks;
  }

  lemma BuiltAlternates(catalog: Catalog, repetitions: nat, firsts: seq<bool>, blocks: seq<Block>)
    requires FullDeck(catalog, repetitions, firsts, blocks) && repetitions > 0
    ensures Alternates(catalog, ScheduleOf(catalog, repetitions, blocks))
  {
    hide FirstEngine, FullDeck, TasksOf;
    var tasks := TasksOf(blocks);
    forall p | 0 <= p < |catalog|
      ensures PointAlternates(tasks, repetitions, p)
    {
      forall r | 0 <= r < repetitions
        ensures FirstEngine(tasks, p, r).Some?
        ensures r > 0 ==> FirstEngine(tasks, p, r) != FirstEngine(tasks, p, r - 1)
      {
        DeckHasFirsts(catalog, repetitions, firsts, blocks);
        FirstIsOfItsBlock(catalog, repetitions, firsts, blocks, p, r);
        if r > 0 {
          FirstIsOfItsBlock(catalog, repetitions, firsts, blocks, p, r - 1);
        }
      }
      assert FirstEngine(tasks, p, 0).Some?;
    }
  }

  lemma DeckHasFirsts(catalog: Catalog, repetitions: nat, firsts: seq<bool>, blocks: seq<Block>)
    requires FullDeck(catalog, repetitions, firsts, blocks)
    ensures |firsts| == |catalog|
  {
  }

  lemma BuiltHasBothEngines(catalog: Catalog, repetitions: nat, firsts: seq<bool>, blocks: seq<Block>)
    requires FullDeck(catalog, repetitions, firsts, blocks)
    ensures BothEngines(ScheduleOf(catalog, repetitions, blocks))
  {
    hide TaskId, PairId;
    var tasks, grid := TasksOf(blocks), Grid(|catalog|, repetitions);
    forall p: nat, r: nat | p < |catalog| && r < repetitions
      ensures (p, r) in Keys(tasks) && EnginesAt(tasks, (p, r)) == {Fre, Rust}
    {
      KeyHasBothEngines(catalog, repetitions, firsts, blocks, p, r);
    }
    forall t | t in tasks
      ensures KeyOf(t) in grid
    {
      var i :| 0 <= i < |tasks| && tasks[i] == t;
      assert blocks[i / 2] in blocks;
    }
    assert Keys(tasks) == grid;
    GridSize(|catalog|, repetitions);
  }

  lemma KeyHasBothEngines(catalog: Catalog, repetitions: nat, firsts: seq<bool>, blocks: seq<Block>, p: nat, r: nat)
    requires FullDeck(catalog, repetitions, firsts, blocks) && p < |catalog| && r < repetitions
    ensures (p, r) in Keys(TasksOf(blocks)) && EnginesAt(TasksOf(blocks), (p, r)) == {Fre, Rust}
  {
    hide TaskId, PairId;
    var tasks, b := TasksOf(blocks), BlockOf(catalog, firsts, p, r);
    var k :| 0 <= k < |blocks| && blocks[k] == b;
    var first, second := TaskOf(b, FirstOf(b), 0, 2 * k), TaskOf(b, SecondOf(b), 1, 2 * k + 1);
    assert tasks[2 * k] == first && tasks[2 * k + 1] == second;
    assert first in tasks && second in tasks;
    assert KeyOf(first) == (p, r) && KeyOf(second) == (p, r);
    assert {first.engine, second.engine} == {Fre, Rust};
    forall t | t in tasks
      ensures t.engine in {Fre, Rust}
    {
      var i :| 0 <= i < |tasks| && tasks[i] == t;
    }
  }

  /** Every schedule built from a shuffled full deck passes the analyzer. */
  lemma BuiltIsAccepted(catalog: Catalog, repetitions: nat, firsts: seq<bool>, blocks: seq<Block>)
    requires FullDeck(catalog, repetitions, firsts, blocks) && repetitions > 0
    ensures Accepted(catalog, ScheduleOf(catalog, repetitions, blocks))
    ensures PairsTogether(TasksOf(blocks))
  {
    hide Shape, CrossProduct, Alternates, BothEngines, FullDeck, TaskId, PairId;
    BuiltIsShaped(catalog, repetitions, firsts, blocks);
    BuiltIsCrossProduct(catalog, repetitions, firsts, blocks);
    BuiltAlternates(catalog, repetitions, firsts, blocks);
    BuiltHasBothEngines(catalog, repetitions, firsts, blocks);
    var tasks := TasksOf(blocks);
    forall k | 0 <= k < |tasks| / 2
      ensures Together(tasks, k)
    {
      assert (2 * k) / 2 == k && (2 * k + 1) / 2 == k;
    }
  }

  // ----- The builder -----

  /** Each point draws its first orientation. */
  function Firsts(seed: bv64, points: nat): seq<bool> {
    seq(points, p requires 0 <= p < points => FirstIsFre(StateAfter(seed, p + 1)))
  }

  function PointBlocks(catalog: Catalog, firsts: seq<bool>, p: nat, repetitions: nat): seq<Block>
    requires p < |catalog| && p < |firsts|
  {
    seq(repetitions, r requires 0 <= r < repetitions => BlockOf(catalog, firsts, p, r))
  }

  /** The blocks of the first `points` points in the order in which they are made. */
  function Deck(catalog: Catalog, firsts: seq<bool>, points: nat, repetitions: nat): seq<Block>
    requires points <= |catalog| && points <= |firsts|
  {
    if points == 0 then []
    else Deck(catalog, firsts, points - 1, repetitions) + PointBlocks(catalog, firsts, points - 1, repetitions)
  }

  lemma {:induction false} DeckHolds(catalog: Catalog, firsts: seq<bool>, points: nat, repetitions: nat)
    requires points <= |catalog| == |firsts|
    ensures |Deck(catalog, firsts, points, repetitions)| == points * repetitions
    ensures forall b :: b in Deck(catalog, firsts, points, repetitions) ==>
      b.p < points && b.r < repetitions && b == BlockOf(catalog, firsts, b.p, b.r)
    ensures forall p: nat, r: nat :: p < points && r < repetitions ==>
      BlockOf(catalog, firsts, p, r) in Deck(catalog, firsts, points, repetitions)
  {
    if points > 0 {
      var q := points - 1;
      var last := PointBlocks(catalog, firsts, q, repetitions);
      DeckHolds(catalog, firsts, q, repetitions);
      assert points * repetitions == q * repetitions + repetitions;
      forall p: nat, r: nat | p < points && r < repetitions
        ensures BlockOf(catalog, firsts, p, r) in Deck(catalog, firsts, points, repetitions)
      {
        if p == q {
          assert last[r] == BlockOf(catalog, firsts, q, r);
        }
      }
    }
  }

  function DeckFrom(catalog: Catalog, repetitions: nat, seed: bv64): seq<Block> {
    Deck(catalog, Firsts(seed, |catalog|), |catalog|, repetitions)
  }

  function ShuffledDeck(catalog: Catalog, repetitions: nat, seed: bv64): seq<Block> {
    var deck := DeckFrom(catalog, repetitions, seed);
    Shuffled(deck, |deck| - 1, StateAfter(seed, |catalog|)).0
  }

  lemma DeckFromIsFull(catalog: Catalog, repetitions: nat, seed: bv64)
    ensures FullDeck(catalog, repetitions, Firsts(seed, |catalog|), DeckFrom(catalog, repetitions, seed))
    ensures FullDeck(catalog, repetitions, Firsts(seed, |catalog|), ShuffledDeck(catalog, repetitions, seed))
  {
    hide Shuffled, Deck, StateAfter;
    var firsts, deck := Firsts(seed, |catalog|), DeckFrom(catalog, repetitions, seed);
    DeckHolds(catalog, firsts, |catalog|, repetitions);
    ShuffleIsPermutation(deck, |deck| - 1, StateAfter(seed, |catalog|));
    ShuffledDeckIsFull(catalog, repetitions, firsts, deck, ShuffledDeck(catalog, repetitions, seed));
  }

  /** The blocks of one point, its orientation flipping from repetition to repetition. */
  method MakePointBlocks(catalog: Catalog, p: nat, repetitions: nat, firstIsFre: bool, ghost firsts: seq<bool>)
    returns (blocks: seq<Block>)
    requires p < |catalog| && p < |firsts| && firsts[p] == firstIsFre
    ensures blocks == PointBlocks(catalog, firsts, p, repetitions)
  {
    blocks := [];
    for r := 0 to repetitions
      invariant blocks == PointBlocks(catalog, firsts, p, r)
    {
      var fre := firstIsFre != (r % 2 == 1);
      blocks := blocks + [Block(p, r, fre, catalog[p])];
    }
  }

  method MakeBlocks(catalog: Catalog, repetitions: nat, rng: SplitMix64) returns (blocks: seq<Block>)
    modifies rng
    ensures blocks == DeckFrom(catalog, repetitions, old(rng.state))
    ensures rng.state == StateAfter(old(rng.state), |catalog|)
  {
    hide Mixed, Unmixed, PointBlocks;
    ghost var seed := rng.state;
    ghost var firsts := Firsts(seed, |catalog|);
    blocks := [];
    for p := 0 to |catalog|
      invariant rng.state == StateAfter(seed, p)
      invariant blocks == Deck(catalog, firsts, p, repetitions)
    {
      var output := rng.Next();
      var firstIsFre := output & 1 == 0;
      var more := MakePointBlocks(catalog, p, repetitions, firstIsFre, firsts);
      blocks := blocks + more;
    }
  }

  method MakeTasks(blocks: array<Block>) returns (tasks: seq<Task>)
    ensures tasks == TasksOf(blocks[..])
  {
    hide TaskId, PairId;
    tasks := [];
    for k := 0 to blocks.Length
      invariant tasks == TasksOf(blocks[..k])
    {
      var b := blocks[k];
      var first := TaskOf(b, FirstOf(b), 0, |tasks|);
      tasks := tasks + [first];
      var second := TaskOf(b, SecondOf(b), 1, |tasks|);
      tasks := tasks + [second];
      assert blocks[..k + 1] == blocks[..k] + [b];
      OneMorePair(blocks[..k], b);
    }
    assert blocks[..blocks.Length] == blocks[..];
  }

  lemma OneMorePair(blocks: seq<Block>, b: Block)
    ensures var n := 2 * |blocks|;
      TasksOf(blocks + [b]) == TasksOf(blocks) + [TaskOf(b, FirstOf(b), 0, n)] + [TaskOf(b, SecondOf(b), 1, n + 1)]
  {
    hide TaskId, PairId;
    var more := blocks + [b];
    forall i | 0 <= i < 2 * |blocks|
      ensures TaskAt(more, i) == TaskAt(blocks, i)
    {
      assert more[i / 2] == blocks[i / 2];
    }
  }

  /**
    Each task of the built schedule is at its place, of a point of the catalog,
    and the engine that starts its pair was drawn for the point: output
    `pointIndex + 1` of the generator is even when Fre starts repetition 0, and
    the start changes with every repetition.
   */
  lemma TasksAreDrawn(catalog: Catalog, repetitions: nat, seed: bv64, i: nat)
    requires i < |ScheduleOf(catalog, repetitions, ShuffledDeck(catalog, repetitions, seed)).tasks|
    ensures var t := ScheduleOf(catalog, repetitions, ShuffledDeck(catalog, repetitions, seed)).tasks[i];
      && t.scheduleIndex == i && t.withinPair == i % 2
      && 0 <= t.pointIndex < |catalog| && t.point == catalog[t.pointIndex] && 0 <= t.repetition < repetitions
      && (t.engine == Fre || t.engine == Rust)
      && var even := Mixed(StateAfter(seed, t.pointIndex + 1)) % 2 == 0;
         (t.engine == Fre <==> ((t.withinPair == 0 <==> t.repetition % 2 == 0) <==> even))
  {
    hide Shuffled, DeckFrom, StateAfter, Mixed, TaskId, PairId;
    var blocks, firsts := ShuffledDeck(catalog, repetitions, seed), Firsts(seed, |catalog|);
    DeckFromIsFull(catalog, repetitions, seed);
    var b := blocks[i / 2];
    assert b in blocks && b == BlockOf(catalog, firsts, b.p, b.r);
    LastBit(Mixed(StateAfter(seed, b.p + 1)));
  }

  lemma LastBit(x: bv64)
    ensures x & 1 == x % 2
  {
  }

  /** For any catalog, positive number of repetitions and seed, the schedule built passes the analyzer's checks. */
  method BuildSchedule(catalog: Catalog, repetitions: int, seed: bv64) returns (r: Option<Schedule>)
    ensures r.None? <==> repetitions <= 0
    ensures r.Some? ==> r.value == ScheduleOf(catalog, repetitions, ShuffledDeck(catalog, repetitions, seed))
    ensures r.Some? ==> Accepted(catalog, r.value) && PairsTogether(r.value.tasks)
  {
    hide Accepted, PairsTogether, TaskAt, Shuffled, DeckFrom, FullDeck, StateAfter;
    if repetitions <= 0 {
      return None;
    }
    var rng := new SplitMix64(seed);
    var made := MakeBlocks(catalog, repetitions, rng);
    var blocks := new Block[|made|](i requires 0 <= i < |made| => made[i]);
    assert blocks[..] == made;
    rng.Shuffle(blocks);
    var tasks := MakeTasks(blocks);
    DeckFromIsFull(catalog, repetitions, seed);
    BuiltIsAccepted(catalog, repetitions, Firsts(seed, |catalog|), blocks[..]);
    return Some(Schedule(|tasks|, |catalog|, repetitions, tasks));
  }
}
