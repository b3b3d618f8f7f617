/**
  Metered materialization of anchor words. Every method here computes the words
  of `WordsOf` and pays exactly the cost function beside it; together with the
  census being exact, no exact-capacity push overflows and no internal
  invariant is ever violated.
 */
module Materializing {
  import opened Wrappers
  import opened Hir
  import opened Metering
  import opened Census
  import opened Words

  /** A vector of words together with the bytes it was charged for. */
  datatype WordVec = WordVec(values: ExactVec<Word>, bytes: int)

  /** A vector filled to its capacity. Each word takes 65 bytes: 64 inline and a length. */
  function Full(ws: seq<Word>): WordVec {
    WordVec(ExactVec(ws, |ws|), 65 * |ws|)
  }

  predicate Short(ws: seq<Word>) {
    forall i :: 0 <= i < |ws| ==> |ws[i]| <= MAX_ANCHOR_WORD_BYTES
  }

  /** Concatenation of two inline words, which fails past 64 bytes. */
  function JoinWords(a: Word, b: Word): Outcome<Word> {
    if |a| + |b| > MAX_ANCHOR_WORD_BYTES then Failure(InternalInvariant) else Success(a + b)
  }

  // ----- Costs -----

  function WordVecCost(count: nat): Cost {
    ExactVecCost(count, 65 * count)
  }

  function SingletonCost(): Cost {
    Then(WordVecCost(1), Work(1))
  }

  function ReleaseCost(count: nat): Cost {
    Then(Work(1), Releasing(65 * count))
  }

  /** One charge per word and per byte. */
  function ListWork(ws: seq<Word>): nat {
    if ws == [] then 0 else 1 + |ws[0]| + ListWork(ws[1..])
  }

  function EmitWork(ws: seq<Word>, n: nat): nat
    decreases n, |ws| + 1
  {
    if n == 0 then 1 else 1 + EmitEachWork(ws, ws, n)
  }

  function EmitEachWork(rest: seq<Word>, ws: seq<Word>, n: nat): nat
    requires n > 0 && |rest| <= |ws|
    decreases n, |rest|
  {
    if rest == [] then 0 else 1 + |rest[0]| + EmitWork(ws, n - 1) + EmitEachWork(rest[1..], ws, n)
  }

  function EmitUpWork(ws: seq<Word>, min: nat, max: int): nat
    decreases max + 1 - min
  {
    if min > max then 0 else EmitWork(ws, min) + EmitUpWork(ws, min + 1, max)
  }

  function EmitDownWork(ws: seq<Word>, min: nat, max: int): nat
    decreases max + 1 - min
  {
    if min > max then 0 else EmitWork(ws, max) + EmitDownWork(ws, min, max - 1)
  }

  function PowersWork(ws: seq<Word>, min: nat, max: int, greedy: bool): nat {
    if greedy then EmitDownWork(ws, min, max) else EmitUpWork(ws, min, max)
  }

  function MaterializeCost(h: Hir): Cost
    decreases h, 1
  {
    Then(Work(1), BodyCost(h))
  }

  /** Everything after the charge for the visit. */
  function BodyCost(h: Hir): Cost
    decreases h, 0
  {
    match h
    case Empty => SingletonCost()
    case Literal(bytes) => Then(Work(|bytes|), SingletonCost())
    case ByteClass(ranges) =>
      var count := |WordsOf(h)|;
      Then(Work(NormalizedWork(ClassBytes(ranges))), Then(WordVecCost(count), Work(256 + count)))
    case UnicodeClass(_) => Work(0)
    case Look(_) => Work(0)
    case Capture(sub) => MaterializeCost(sub)
    case Concat(parts) => PartsCost(parts)
    case Alternation(branches) => AlternationCost(branches)
    case Repetition(min, max, greedy, sub) =>
      if max.None? then Work(0) else Then(ChildCost(sub), RepeatCost(WordsOf(sub), min, max.value, greedy))
  }

  /** The census of a child, then its materialization. */
  function ChildCost(h: Hir): Cost
    decreases h, 2
  {
    Then(Work(FactsWork(h)), MaterializeCost(h))
  }

  /** From the words of the child to the words of the repetition. */
  function RepeatCost(ws: seq<Word>, min: nat, max: int, greedy: bool): Cost {
    Then(WordVecCost(|Powers(ws, min, max, greedy)|),
         Then(Work(PowersWork(ws, min, max, greedy)), ReleaseCost(|ws|)))
  }

  function PartsCost(parts: seq<Hir>): Cost
    decreases parts, 1
  {
    Then(SingletonCost(), FoldCost(parts, [[]]))
  }

  function FoldCost(parts: seq<Hir>, acc: seq<Word>): Cost
    decreases parts, 0
  {
    if parts == [] then Work(0)
    else Then(FoldStepCost(parts[0], acc), FoldCost(parts[1..], Cross(acc, WordsOf(parts[0]))))
  }

  function FoldStepCost(part: Hir, acc: seq<Word>): Cost
    decreases part, 3
  {
    Then(ChildCost(part), CrossCost(acc, WordsOf(part)))
  }

  /** The census of both factors, the product, and the release of both factors. */
  function CrossCost(a: seq<Word>, b: seq<Word>): Cost {
    Then(Work(ListWork(a) + ListWork(b) + 1),
         Then(Then(WordVecCost(|Cross(a, b)|), Work(ListWork(Cross(a, b)))),
              Then(ReleaseCost(|a|), ReleaseCost(|b|))))
  }

  function AlternationCost(branches: seq<Hir>): Cost
    decreases branches, 1
  {
    Then(WordVecCost(|AltWords(branches)|), BranchesCost(branches))
  }

  function BranchesCost(branches: seq<Hir>): Cost
    decreases branches, 0
  {
    if branches == [] then Work(0)
    else Then(BranchCost(branches[0]), BranchesCost(branches[1..]))
  }

  function BranchCost(branch: Hir): Cost
    decreases branch, 3
  {
    Then(ChildCost(branch), Then(Work(ListWork(WordsOf(branch))), ReleaseCost(|WordsOf(branch)|)))
  }

  // ----- Net bytes -----

  /** What materialization leaves live is exactly its word vector. */
  lemma {:induction false} MaterializeNet(h: Hir)
    requires FactsOf(h).Some?
    ensures MaterializeCost(h).net == 65 * |WordsOf(h)|
    decreases h, 1
  {
    BodyNet(h);
    NetOfThen(MaterializeCost(h), Work(1), BodyCost(h));
  }

  lemma {:induction false} BodyNet(h: Hir)
    requires FactsOf(h).Some?
    ensures BodyCost(h).net == 65 * |WordsOf(h)|
    decreases h, 0
  {
    match h
    case Empty =>
    case Literal(_) =>
    case ByteClass(_) =>
    case Capture(sub) => MaterializeNet(sub);
    case Concat(parts) =>
      FoldIsCounted(parts, EMPTY_FACTS);
      PartsNet(parts);
    case Alternation(branches) =>
      BranchesAreCounted(branches, NO_FACTS);
      AlternationNet(branches);
    case Repetition(min, max, greedy, sub) =>
      MaterializeNet(sub);
      RepetitionNet(h);
  }

  lemma {:induction false} PartsNet(parts: seq<Hir>)
    requires AllCounted(parts)
    ensures PartsCost(parts).net == 65 * |CrossFold(parts, [[]])|
    decreases parts, 1
  {
    hide FoldCost, CrossFold, FactsOf;
    FoldNet(parts, [[]]);
    NetOfThen(PartsCost(parts), SingletonCost(), FoldCost(parts, [[]]));
  }

  lemma {:induction false} AlternationNet(branches: seq<Hir>)
    requires AllCounted(branches)
    ensures AlternationCost(branches).net == 65 * |AltWords(branches)|
    decreases branches, 1
  {
    hide BranchesCost, AltWords, FactsOf;
    BranchesNet(branches);
    NetOfThen(AlternationCost(branches), WordVecCost(|AltWords(branches)|), BranchesCost(branches));
  }

  lemma RepetitionNet(h: Hir)
    requires h.Repetition? && h.max.Some? && MaterializeCost(h.rsub).net == 65 * |WordsOf(h.rsub)|
    ensures BodyCost(h).net == 65 * |WordsOf(h)|
  {
    var sub, ws := h.rsub, WordsOf(h.rsub);
    var again := RepeatCost(ws, h.min, h.max.value, h.greedy);
    RepeatNet(ws, h.min, h.max.value, h.greedy);
    ChildNet(sub);
    NetOfThen(BodyCost(h), ChildCost(sub), again);
  }

  lemma ChildNet(h: Hir)
    requires MaterializeCost(h).net == 65 * |WordsOf(h)|
    ensures ChildCost(h).net == 65 * |WordsOf(h)|
  {
    NetOfThen(ChildCost(h), Work(FactsWork(h)), MaterializeCost(h));
  }

  lemma CrossNet(a: seq<Word>, b: seq<Word>)
    ensures CrossCost(a, b).net == 65 * |Cross(a, b)| - 65 * |a| - 65 * |b|
  {
  }

  lemma FoldStepNet(part: Hir, ws: seq<Word>)
    requires ChildCost(part).net == 65 * |WordsOf(part)|
    ensures FoldStepCost(part, ws).net == 65 * |Cross(ws, WordsOf(part))| - 65 * |ws|
  {
    CrossNet(ws, WordsOf(part));
    NetOfThen(FoldStepCost(part, ws), ChildCost(part), CrossCost(ws, WordsOf(part)));
  }

  lemma BranchNet(branch: Hir)
    requires ChildCost(branch).net == 65 * |WordsOf(branch)|
    ensures BranchCost(branch).net == 0
  {
    NetOfThen(BranchCost(branch), ChildCost(branch),
              Then(Work(ListWork(WordsOf(branch))), ReleaseCost(|WordsOf(branch)|)));
  }

  lemma NetOfThen(all: Cost, first: Cost, rest: Cost)
    requires all == Then(first, rest)
    ensures all.net == first.net + rest.net
  {
  }

  lemma RepeatNet(ws: seq<Word>, min: nat, max: int, greedy: bool)
    ensures RepeatCost(ws, min, max, greedy).net == 65 * |Powers(ws, min, max, greedy)| - 65 * |ws|
  {
  }

  predicate AllCounted(parts: seq<Hir>) {
    forall k :: 0 <= k < |parts| ==> FactsOf(parts[k]).Some?
  }

  lemma {:induction false} FoldIsCounted(parts: seq<Hir>, acc: Facts)
    requires ConcatFold(parts, acc).Some?
    ensures AllCounted(parts)
    decreases parts
  {
    if parts != [] {
      FoldIsCounted(parts[1..], Product(acc, FactsOf(parts[0]).value));
      assert forall k :: 1 <= k < |parts| ==> parts[k] == parts[1..][k - 1];
    }
  }

  lemma {:induction false} BranchesAreCounted(branches: seq<Hir>, acc: Facts)
    requires AltFold(branches, acc).Some?
    ensures AllCounted(branches)
    decreases branches
  {
    if branches != [] {
      BranchesAreCounted(branches[1..], Join(acc, FactsOf(branches[0]).value));
      assert forall k :: 1 <= k < |branches| ==> branches[k] == branches[1..][k - 1];
    }
  }

  lemma {:induction false} FoldNet(parts: seq<Hir>, ws: seq<Word>)
    requires AllCounted(parts)
    ensures FoldCost(parts, ws).net == 65 * |CrossFold(parts, ws)| - 65 * |ws|
    decreases parts, 0
  {
    hide FoldStepCost, ChildCost, MaterializeCost, WordsOf, FactsOf, Cross;
    if parts != [] {
      var next := Cross(ws, WordsOf(parts[0]));
      MaterializeNet(parts[0]);
      ChildNet(parts[0]);
      FoldStepNet(parts[0], ws);
      FoldNet(parts[1..], next);
      NetOfThen(FoldCost(parts, ws), FoldStepCost(parts[0], ws), FoldCost(parts[1..], next));
    }
  }

  lemma {:induction false} BranchesNet(branches: seq<Hir>)
    requires AllCounted(branches)
    ensures BranchesCost(branches).net == 0
    decreases branches, 0
  {
    hide BranchCost, ChildCost, MaterializeCost, WordsOf, FactsOf;
    if branches != [] {
      MaterializeNet(branches[0]);
      ChildNet(branches[0]);
      BranchNet(branches[0]);
      BranchesNet(branches[1..]);
      NetOfThen(BranchesCost(branches), BranchCost(branches[0]), BranchesCost(branches[1..]));
    }
  }

  // ----- Metered building blocks -----

  /** A computation of cost `total` started in `s`; from the present state, `rest` remains to be paid. */
  ghost predicate Paying(s: State, rest: Cost, total: Cost, meter: Meter)
    reads meter, meter.budget
  {
    && meter.Valid() && SameBasis(s, meter.Now())
    && (Fits(s, total) <==> Fits(meter.Now(), rest))
    && After(s, total) == After(meter.Now(), rest)
  }

  method AllocateWords(count: nat, meter: Meter) returns (r: Outcome<WordVec>)
    requires meter.Valid()
    modifies meter, meter.budget
    ensures meter.Valid() && Ran(old(meter.Now()), meter.Now(), WordVecCost(count), r)
    ensures r.Success? ==> r.value == WordVec(ExactVec([], count), 65 * count)
    ensures r.Success? ==> meter.scratch == old(meter.scratch) + 65 * count
  {
    var pair :- NewExactVec<Word>(count, 65, meter);
    return Success(WordVec(pair.0, pair.1));
  }

  method SingletonWords(word: Word, meter: Meter) returns (r: Outcome<WordVec>)
    requires meter.Valid()
    modifies meter, meter.budget
    ensures meter.Valid() && Ran(old(meter.Now()), meter.Now(), SingletonCost(), r)
    ensures r.Success? ==> r.value == Full([word]) && meter.scratch == old(meter.scratch) + 65
  {
    var words :- AllocateWords(1, meter);
    var _ :- meter.Charge(1);
    var values :- Push(words.values, word);
    return Success(WordVec(values, words.bytes));
  }

  method ReleaseWords(words: WordVec, meter: Meter) returns (r: Outcome<()>)
    requires meter.Valid() && words.bytes == 65 * |words.values.items| <= meter.scratch
    modifies meter, meter.budget
    ensures meter.Valid() && Ran(old(meter.Now()), meter.Now(), ReleaseCost(|words.values.items|), r)
    ensures r.Success? ==> meter.scratch == old(meter.scratch) - words.bytes
  {
    var _ :- meter.Charge(1);
    r := meter.Release(words.bytes);
  }

  method WordsFacts(ws: seq<Word>, meter: Meter) returns (r: Outcome<Facts>)
    requires meter.Valid() && (ws != [] ==> Sane(ListFacts(ws)))
    modifies meter`work, meter.budget`work
    ensures meter.Valid() && Spent(old(meter.Now()), meter.Now(), ListWork(ws), r)
    ensures r.Success? ==> r.value == if ws == [] then Facts(0, 0, 0, 0) else ListFacts(ws)
  {
    if ws == [] {
      return Success(Facts(0, 0, 0, 0));
    }
    var facts := NO_FACTS;
    ghost var done: nat := 0;
    for i := 0 to |ws|
      invariant Charged(old(meter.Now()), done, meter) && done + ListWork(ws[i..]) == ListWork(ws)
      invariant RunningFacts(ws, i, facts)
    {
      assert ws[i..][0] == ws[i] && ws[i..][1..] == ws[i + 1..];
      RunningFactsStep(ws, i, facts);
      var amount :- CheckedAdd(1, |ws[i]|, CompileWork);
      var _ :- meter.Charge(amount);
      facts :- CheckedJoin(facts, WordFacts(ws[i]));
      done := done + 1 + |ws[i]|;
    }
    return Success(facts);
  }

  /** `facts` sums up the first `i` words. */
  predicate RunningFacts(ws: seq<Word>, i: nat, facts: Facts)
    requires ws != [] && i <= |ws|
  {
    && 0 <= facts.count && 0 <= facts.total && 0 <= facts.min && 0 <= facts.max
    && (if i == |ws| then facts else Join(facts, ListFacts(ws[i..]))) == ListFacts(ws)
  }

  lemma RunningFactsStep(ws: seq<Word>, i: nat, facts: Facts)
    requires ws != [] && i < |ws| && Sane(ListFacts(ws)) && RunningFacts(ws, i, facts)
    ensures Partial(facts) && Sane(WordFacts(ws[i])) && RunningFacts(ws, i + 1, Join(facts, WordFacts(ws[i])))
  {
    var rest := ws[i..];
    assert rest[0] == ws[i] && rest[1..] == ws[i + 1..];
    ListFactsMeaning(rest);
    WordsAreSane(ws, i);
  }

  lemma WordsAreSane(ws: seq<Word>, i: nat)
    requires ws != [] && i < |ws| && Sane(ListFacts(ws))
    ensures Sane(WordFacts(ws[i]))
  {
    ListFactsMeaning(ws);
  }

  // ----- Products -----

  lemma {:induction false} ListWorkAppends(a: seq<Word>, b: seq<Word>)
    ensures ListWork(a + b) == ListWork(a) + ListWork(b)
  {
    if a == [] {
      assert a + b == b;
    } else {
      ListWorkAppends(a[1..], b);
      assert (a + b)[1..] == a[1..] + b;
    }
  }

  /** Appends `prefix` followed by each word of `ws`. */
  method PrefixInto(prefix: Word, ws: seq<Word>, output: ExactVec<Word>, meter: Meter) returns (r: Outcome<ExactVec<Word>>)
    requires meter.Valid() && |output.items| + |ws| <= output.capacity && Short(Prefixed(prefix, ws))
    modifies meter`work, meter.budget`work
    ensures meter.Valid() && Spent(old(meter.Now()), meter.Now(), ListWork(Prefixed(prefix, ws)), r)
    ensures r.Success? ==> r.value == ExactVec(output.items + Prefixed(prefix, ws), output.capacity)
  {
    var filled := output;
    ghost var all := Prefixed(prefix, ws);
    ghost var done: nat := 0;
    for j := 0 to |ws|
      invariant Charged(old(meter.Now()), done, meter) && done + ListWork(all[j..]) == ListWork(all)
      invariant filled == ExactVec(output.items + all[..j], output.capacity)
    {
      assert all[j..][0] == all[j] && all[j..][1..] == all[j + 1..];
      var length :- CheckedAdd(|prefix|, |ws[j]|, CompileWork);
      var amount :- CheckedAdd(1, length, CompileWork);
      var _ :- meter.Charge(amount);
      var word :- JoinWords(prefix, ws[j]);
      assert output.items + all[..j + 1] == (output.items + all[..j]) + [all[j]];
      filled :- Push(filled, word);
      done := done + 1 + |all[j]|;
    }
    assert all[..|ws|] == all;
    return Success(filled);
  }

  method CrossInto(a: seq<Word>, b: seq<Word>, output: ExactVec<Word>, meter: Meter) returns (r: Outcome<ExactVec<Word>>)
    requires meter.Valid() && output == ExactVec([], |Cross(a, b)|) && Short(Cross(a, b))
    modifies meter`work, meter.budget`work
    ensures meter.Valid() && Spent(old(meter.Now()), meter.Now(), ListWork(Cross(a, b)), r)
    ensures r.Success? ==> r.value == ExactVec(Cross(a, b), |Cross(a, b)|)
  {
    var filled := output;
    ghost var done: nat := 0;
    for i := 0 to |a|
      invariant Charged(old(meter.Now()), done, meter) && filled.capacity == output.capacity
      invariant done + ListWork(Cross(a[i..], b)) == ListWork(Cross(a, b))
      invariant filled.items + Cross(a[i..], b) == Cross(a, b)
    {
      CrossRound(a, b, i, filled.items);
      filled :- PrefixInto(a[i], b, filled, meter);
      done := done + ListWork(Prefixed(a[i], b));
    }
    assert filled.items + [] == filled.items;
    return Success(filled);
  }

  /** One round of the product loop: the next block fits, is short, and leaves the rest. */
  lemma CrossRound(a: seq<Word>, b: seq<Word>, i: nat, filled: seq<Word>)
    requires i < |a| && filled + Cross(a[i..], b) == Cross(a, b) && Short(Cross(a, b))
    ensures Short(Prefixed(a[i], b)) && |filled| + |b| <= |Cross(a, b)|
    ensures (filled + Prefixed(a[i], b)) + Cross(a[i + 1..], b) == Cross(a, b)
    ensures ListWork(Cross(a[i..], b)) == ListWork(Prefixed(a[i], b)) + ListWork(Cross(a[i + 1..], b))
  {
    hide ListWork, Cross, Short, Prefixed;
    var next, rest := Prefixed(a[i], b), Cross(a[i + 1..], b);
    CrossHead(a, b, i);
    ListWorkAppends(next, rest);
    ShortTail(filled, next, rest, Cross(a, b));
    assert (filled + next) + rest == filled + (next + rest);
  }

  lemma CrossHead(a: seq<Word>, b: seq<Word>, i: nat)
    requires i < |a|
    ensures Cross(a[i..], b) == Prefixed(a[i], b) + Cross(a[i + 1..], b)
  {
    assert a[i..][0] == a[i] && a[i..][1..] == a[i + 1..];
  }

  /** A middle stretch of a list of short words is short, and fits the room that is left. */
  lemma ShortTail(done: seq<Word>, next: seq<Word>, rest: seq<Word>, all: seq<Word>)
    requires done + (next + rest) == all && Short(all)
    ensures Short(next) && |done| + |next| <= |all|
  {
    forall i | 0 <= i < |next|
      ensures |next[i]| <= MAX_ANCHOR_WORD_BYTES
    {
      assert all[|done| + i] == next[i];
    }
  }

  // ----- Repetitions -----

  lemma PrefixedTwice(p: Word, q: Word, ws: seq<Word>)
    ensures Prefixed(p, Prefixed(q, ws)) == Prefixed(p + q, ws)
  {
    forall i | 0 <= i < |ws|
      ensures p + (q + ws[i]) == (p + q) + ws[i]
    {
    }
  }

  /** One round of the emission loop: the next word starts the next block, which fits and is short. */
  lemma EmitRound(start: seq<Word>, all: seq<Word>, filled: seq<Word>, ws: seq<Word>, i: nat, power: seq<Word>, prefix: Word)
    requires i < |ws| && power != [] && Short(all) && |filled| >= |start|
    requires filled + Prefixed(prefix, Cross(ws[i..], power)) == start + all
    ensures Short(Prefixed(prefix + ws[i], power)) && |filled| + |power| <= |start| + |all|
    ensures |prefix| + |ws[i]| <= MAX_ANCHOR_WORD_BYTES
    ensures (filled + Prefixed(prefix + ws[i], power)) + Prefixed(prefix, Cross(ws[i + 1..], power)) == start + all
  {
    EmitSplit(ws, i, power, prefix);
    Regroup(filled, Prefixed(prefix + ws[i], power), Prefixed(prefix, Cross(ws[i + 1..], power)), start + all);
    EmitRoom(start, all, filled, prefix, ws[i], power, Prefixed(prefix, Cross(ws[i + 1..], power)));
  }

  lemma Regroup(a: seq<Word>, b: seq<Word>, c: seq<Word>, all: seq<Word>)
    requires a + (b + c) == all
    ensures (a + b) + c == all
  {
  }

  lemma EmitSplit(ws: seq<Word>, i: nat, power: seq<Word>, prefix: Word)
    requires i < |ws|
    ensures Prefixed(prefix, Cross(ws[i..], power)) ==
      Prefixed(prefix + ws[i], power) + Prefixed(prefix, Cross(ws[i + 1..], power))
  {
    CrossHead(ws, power, i);
    PrefixedAppends(prefix, Prefixed(ws[i], power), Cross(ws[i + 1..], power));
    PrefixedTwice(prefix, ws[i], power);
  }

  /** Appends `prefix` followed by each `n`-fold product of words, by recursion on `n`. */
  method EmitPower(ws: seq<Word>, n: nat, prefix: Word, output: ExactVec<Word>, meter: Meter)
    returns (r: Outcome<ExactVec<Word>>)
    requires meter.Valid() && ws != []
    requires |output.items| + |Power(ws, n)| <= output.capacity && Short(Prefixed(prefix, Power(ws, n)))
    modifies meter`work, meter.budget`work
    ensures meter.Valid() && Spent(old(meter.Now()), meter.Now(), EmitWork(ws, n), r)
    ensures r.Success? ==> r.value == ExactVec(output.items + Prefixed(prefix, Power(ws, n)), output.capacity)
    decreases n, 2
  {
    var _ :- meter.Charge(1);
    if n == 0 {
      assert prefix + [] == prefix;
      assert Prefixed(prefix, Power(ws, 0)) == [prefix];
      r := Push(output, prefix);
    } else {
      r := EmitEach(ws, n, prefix, output, meter);
    }
  }

  method EmitEach(ws: seq<Word>, n: nat, prefix: Word, output: ExactVec<Word>, meter: Meter)
    returns (r: Outcome<ExactVec<Word>>)
    requires meter.Valid() && ws != [] && n > 0
    requires |output.items| + |Power(ws, n)| <= output.capacity && Short(Prefixed(prefix, Power(ws, n)))
    modifies meter`work, meter.budget`work
    ensures meter.Valid() && Spent(old(meter.Now()), meter.Now(), EmitEachWork(ws, ws, n), r)
    ensures r.Success? ==> r.value == ExactVec(output.items + Prefixed(prefix, Power(ws, n)), output.capacity)
    decreases n, 1
  {
    var filled := output;
    ghost var power := Power(ws, n - 1);
    ghost var all := output.items + Prefixed(prefix, Power(ws, n));
    ghost var done: nat := 0;
    PowerNonempty(ws, n - 1);
    for i := 0 to |ws|
      invariant Charged(old(meter.Now()), done, meter) && filled.capacity == output.capacity
      invariant done + EmitEachWork(ws[i..], ws, n) == EmitEachWork(ws, ws, n)
      invariant |filled.items| >= |output.items|
      invariant filled.items + Prefixed(prefix, Cross(ws[i..], power)) == all
    {
      assert ws[i..][0] == ws[i] && ws[i..][1..] == ws[i + 1..];
      EmitRound(output.items, Prefixed(prefix, Power(ws, n)), filled.items, ws, i, power, prefix);
      filled :- EmitWord(ws, n, prefix, ws[i], filled, meter);
      done := done + 1 + |ws[i]| + EmitWork(ws, n - 1);
    }
    assert filled.items + Prefixed(prefix, Cross(ws[|ws|..], power)) == filled.items;
    return Success(filled);
  }

  method EmitWord(ws: seq<Word>, n: nat, prefix: Word, word: Word, output: ExactVec<Word>, meter: Meter)
    returns (r: Outcome<ExactVec<Word>>)
    requires meter.Valid() && ws != [] && n > 0 && |prefix| + |word| <= MAX_ANCHOR_WORD_BYTES
    requires |output.items| + |Power(ws, n - 1)| <= output.capacity && Short(Prefixed(prefix + word, Power(ws, n - 1)))
    modifies meter`work, meter.budget`work
    ensures meter.Valid() && Spent(old(meter.Now()), meter.Now(), 1 + |word| + EmitWork(ws, n - 1), r)
    ensures r.Success? ==> r.value == ExactVec(output.items + Prefixed(prefix + word, Power(ws, n - 1)), output.capacity)
    decreases n, 0
  {
    var amount :- CheckedAdd(1, |word|, CompileWork);
    var _ :- meter.Charge(amount);
    var combined :- JoinWords(prefix, word);
    r := EmitPower(ws, n - 1, combined, output, meter);
  }

  lemma {:induction false} PowerNonempty(ws: seq<Word>, n: nat)
    requires ws != []
    ensures Power(ws, n) != []
  {
    if n > 0 {
      PowerNonempty(ws, n - 1);
      assert Prefixed(ws[0], Power(ws, n - 1)) != [];
    }
  }

  /** The next block fits, and its words and their common prefix are short. */
  lemma EmitRoom(start: seq<Word>, all: seq<Word>, done: seq<Word>, prefix: Word, word: Word, power: seq<Word>, rest: seq<Word>)
    requires done + (Prefixed(prefix + word, power) + rest) == start + all
    requires Short(all) && |done| >= |start| && power != []
    ensures Short(Prefixed(prefix + word, power)) && |done| + |power| <= |start| + |all|
    ensures |prefix| + |word| <= MAX_ANCHOR_WORD_BYTES
  {
    var next := Prefixed(prefix + word, power);
    forall i | 0 <= i < |next|
      ensures |next[i]| <= MAX_ANCHOR_WORD_BYTES
    {
      assert (start + all)[|done| + i] == next[i];
      assert all[|done| + i - |start|] == next[i];
    }
    assert |next[0]| <= MAX_ANCHOR_WORD_BYTES;
  }

  // ----- Metered materialization -----

  /** The words of a list described by a census result fit the inline bound. */
  lemma DescribedIsShort(f: Facts, ws: seq<Word>)
    requires Describes(f, ws) && WithinLimits(f)
    ensures Short(ws)
  {
    ListFactsMeaning(ws);
  }

  method EmitPowersUp(ws: seq<Word>, min: nat, max: nat, output: ExactVec<Word>, meter: Meter)
    returns (r: Outcome<ExactVec<Word>>)
    requires meter.Valid() && ws != [] && min <= max && output == ExactVec([], |PowersUp(ws, min, max)|)
    requires Short(PowersUp(ws, min, max))
    modifies meter`work, meter.budget`work
    ensures meter.Valid() && Spent(old(meter.Now()), meter.Now(), EmitUpWork(ws, min, max), r)
    ensures r.Success? ==> r.value == ExactVec(PowersUp(ws, min, max), output.capacity)
  {
    var filled := output;
    ghost var all := PowersUp(ws, min, max);
    ghost var done: nat := 0;
    for count := min to max + 1
      invariant Charged(old(meter.Now()), done, meter) && filled.capacity == output.capacity
      invariant done + EmitUpWork(ws, count, max) == EmitUpWork(ws, min, max)
      invariant filled.items + PowersUp(ws, count, max) == all
    {
      PowerRound(filled.items, Power(ws, count), PowersUp(ws, count + 1, max), all);
      done := done + EmitWork(ws, count);
      filled :- EmitPower(ws, count, [], filled, meter);
    }
    assert filled.items + [] == filled.items;
    return Success(filled);
  }

  method EmitPowersDown(ws: seq<Word>, min: nat, max: nat, output: ExactVec<Word>, meter: Meter)
    returns (r: Outcome<ExactVec<Word>>)
    requires meter.Valid() && ws != [] && min <= max && output == ExactVec([], |PowersDown(ws, min, max)|)
    requires Short(PowersDown(ws, min, max))
    modifies meter`work, meter.budget`work
    ensures meter.Valid() && Spent(old(meter.Now()), meter.Now(), EmitDownWork(ws, min, max), r)
    ensures r.Success? ==> r.value == ExactVec(PowersDown(ws, min, max), output.capacity)
  {
    var filled := output;
    ghost var all := PowersDown(ws, min, max);
    ghost var done: nat := 0;
    for count := max + 1 downto min
      invariant Charged(old(meter.Now()), done, meter) && filled.capacity == output.capacity
      invariant done + EmitDownWork(ws, min, count - 1) == EmitDownWork(ws, min, max)
      invariant filled.items + PowersDown(ws, min, count - 1) == all
    {
      PowerRound(filled.items, Power(ws, count), PowersDown(ws, min, count - 1), all);
      done := done + EmitWork(ws, count);
      filled :- EmitPower(ws, count, [], filled, meter);
    }
    assert filled.items + [] == filled.items;
    return Success(filled);
  }

  lemma PowerRound(filled: seq<Word>, power: seq<Word>, rest: seq<Word>, all: seq<Word>)
    requires filled + (power + rest) == all && Short(all)
    ensures Short(Prefixed([], power)) && |filled| + |power| <= |all|
    ensures (filled + Prefixed([], power)) + rest == all
  {
    PrefixedEmpty(power);
    ShortTail(filled, power, rest, all);
  }

  predicate IsFull(v: WordVec) {
    v.values.capacity == |v.values.items| && v.bytes == 65 * |v.values.items|
  }

  /** Both factors have a census, and so has their product. */
  predicate Factors(a: seq<Word>, b: seq<Word>) {
    && a != [] && b != [] && Sane(ListFacts(a)) && Sane(ListFacts(b))
    && ConcatFacts(ListFacts(a), ListFacts(b)).Some?
  }

  lemma FactorsMultiply(a: seq<Word>, b: seq<Word>)
    requires Factors(a, b)
    ensures Cross(a, b) != [] && Product(ListFacts(a), ListFacts(b)) == ListFacts(Cross(a, b))
    ensures Short(Cross(a, b)) && ListFacts(Cross(a, b)).count == |Cross(a, b)|
  {
    FactsOfCross(a, b);
    DescribedIsShort(ListFacts(Cross(a, b)), Cross(a, b));
    ListFactsMeaning(Cross(a, b));
  }

  method ProductCount(a: seq<Word>, b: seq<Word>, meter: Meter) returns (r: Outcome<int>)
    requires meter.Valid() && Factors(a, b)
    modifies meter`work, meter.budget`work
    ensures meter.Valid() && Spent(old(meter.Now()), meter.Now(), ListWork(a) + ListWork(b) + 1, r)
    ensures r.Success? ==> r.value == |Cross(a, b)| && Short(Cross(a, b))
  {
    FactorsMultiply(a, b);
    var left :- WordsFacts(a, meter);
    var right :- WordsFacts(b, meter);
    var combined :- CombineFacts(left, right, meter);
    if combined.None? {
      return Failure(InternalInvariant);
    }
    return Success(combined.value.count);
  }

  method ProductWords(a: seq<Word>, b: seq<Word>, count: nat, meter: Meter) returns (r: Outcome<WordVec>)
    requires meter.Valid() && Short(Cross(a, b)) && count == |Cross(a, b)|
    modifies meter, meter.budget
    ensures meter.Valid()
    ensures Ran(old(meter.Now()), meter.Now(), Then(WordVecCost(|Cross(a, b)|), Work(ListWork(Cross(a, b)))), r)
    ensures r.Success? ==> r.value == Full(Cross(a, b)) && meter.scratch == old(meter.scratch) + r.value.bytes
  {
    hide Cross, ListWork, Short;
    FitsThen(meter.Now(), WordVecCost(count), Work(ListWork(Cross(a, b))));
    var output :- AllocateWords(count, meter);
    ghost var t := meter.Now();
    var crossed := CrossInto(a, b, output.values, meter);
    SpentIsRan(t, meter.Now(), ListWork(Cross(a, b)), crossed);
    var values :- crossed;
    return Success(WordVec(values, output.bytes));
  }

  method ReleaseBoth(acc: WordVec, child: WordVec, meter: Meter) returns (r: Outcome<()>)
    requires meter.Valid() && IsFull(acc) && IsFull(child) && acc.bytes + child.bytes <= meter.scratch
    modifies meter, meter.budget
    ensures meter.Valid()
    ensures Ran(old(meter.Now()), meter.Now(), Then(ReleaseCost(|acc.values.items|), ReleaseCost(|child.values.items|)), r)
    ensures r.Success? ==> meter.scratch == old(meter.scratch) - acc.bytes - child.bytes
  {
    hide Then, Fits, After;
    FitsThen(meter.Now(), ReleaseCost(|acc.values.items|), ReleaseCost(|child.values.items|));
    var _ :- ReleaseWords(acc, meter);
    r := ReleaseWords(child, meter);
  }

  /** Replaces two word vectors by their product. */
  method CrossStep(acc: WordVec, child: WordVec, meter: Meter) returns (r: Outcome<WordVec>)
    requires meter.Valid() && IsFull(acc) && IsFull(child) && acc.bytes + child.bytes <= meter.scratch
    requires Factors(acc.values.items, child.values.items)
    modifies meter, meter.budget
    ensures meter.Valid()
    ensures Ran(old(meter.Now()), meter.Now(), CrossCost(acc.values.items, child.values.items), r)
    ensures r.Success? ==> r.value == Full(Cross(acc.values.items, child.values.items))
    ensures r.Success? ==> meter.scratch == old(meter.scratch) - acc.bytes - child.bytes + r.value.bytes
  {
    hide Then, Fits, After, Cross, ListWork, ListFacts, Factors, Short, WordVecCost, ReleaseCost;
    var a, b := acc.values.items, child.values.items;
    ghost var s := meter.Now();
    ghost var census := Work(ListWork(a) + ListWork(b) + 1);
    ghost var build := Then(WordVecCost(|Cross(a, b)|), Work(ListWork(Cross(a, b))));
    ghost var free := Then(ReleaseCost(|a|), ReleaseCost(|b|));
    ThreeSteps(s, census, build, free);
    assert CrossCost(a, b) == Then(census, Then(build, free));
    var counted := ProductCount(a, b, meter);
    SpentIsRan(s, meter.Now(), census.work, counted);
    assert counted.Success? ==> meter.Now() == After(s, census);
    assert counted.Failure? ==> !Fits(s, census);
    var count :- counted;
    var output :- ProductWords(a, b, count, meter);
    var _ :- ReleaseBoth(acc, child, meter);
    return Success(output);
  }

  method MaterializeHir(h: Hir, facts: Facts, meter: Meter) returns (r: Outcome<WordVec>)
    requires meter.Valid() && FactsOf(h) == Some(facts)
    modifies meter, meter.budget
    ensures meter.Valid() && Ran(old(meter.Now()), meter.Now(), MaterializeCost(h), r)
    ensures r.Success? ==> r.value == Full(WordsOf(h))
    decreases h, 1
  {
    hide Then, Fits, After, BodyCost, FactsOf, WordsOf;
    ghost var s := meter.Now();
    FitsThen(s, Work(1), BodyCost(h));
    var charged := meter.Charge(1);
    SpentIsRan(s, meter.Now(), 1, charged);
    var _ :- charged;
    r := MaterializeBody(h, facts, meter);
  }

  method MaterializeBody(h: Hir, facts: Facts, meter: Meter) returns (r: Outcome<WordVec>)
    requires meter.Valid() && FactsOf(h) == Some(facts)
    modifies meter, meter.budget
    ensures meter.Valid() && Ran(old(meter.Now()), meter.Now(), BodyCost(h), r)
    ensures r.Success? ==> r.value == Full(WordsOf(h))
    decreases h, 0
  {
    hide Then, PartsCost, AlternationCost, ChildCost, RepeatCost, SingletonCost, WordVecCost, MaterializeCost;
    hide Normalized, ClassBytes, CountSet, SetWords, NormalizedWork, ConcatFold, AltFold, RepFold, CrossFold, AltWords, Powers;
    match h
    case Empty => r := SingletonWords([], meter);
    case Literal(bytes) => r := LiteralWord(bytes, meter);
    case ByteClass(ranges) => r := ClassToWords(ranges, facts, meter);
    case Capture(sub) => r := MaterializeHir(sub, facts, meter);
    case Concat(parts) => r := MaterializeParts(parts, facts, meter);
    case Alternation(branches) => r := MaterializeAlternation(branches, facts, meter);
    case Repetition(_, _, _, _) => r := MaterializeRepetition(h, facts, meter);
    case UnicodeClass(_) => r := Failure(InternalInvariant);
    case Look(_) => r := Failure(InternalInvariant);
  }

  method FoldLiteral(bytes: Bytes, meter: Meter) returns (r: Outcome<Word>)
    requires meter.Valid() && |bytes| <= MAX_ANCHOR_WORD_BYTES
    modifies meter`work, meter.budget`work
    ensures meter.Valid() && Spent(old(meter.Now()), meter.Now(), |bytes|, r)
    ensures r.Success? ==> r.value == Lower(bytes)
  {
    var word: Word := [];
    for i := 0 to |bytes|
      invariant word == Lower(bytes[..i]) && Charged(old(meter.Now()), i, meter)
    {
      var _ :- meter.Charge(1);
      word :- JoinWords(word, [LowerByte(bytes[i])]);
    }
    assert bytes[..|bytes|] == bytes;
    return Success(word);
  }

  method LiteralWord(bytes: Bytes, meter: Meter) returns (r: Outcome<WordVec>)
    requires meter.Valid() && FactsOf(Literal(bytes)).Some?
    modifies meter, meter.budget
    ensures meter.Valid() && Ran(old(meter.Now()), meter.Now(), Then(Work(|bytes|), SingletonCost()), r)
    ensures r.Success? ==> r.value == Full([Lower(bytes)])
  {
    hide Then, Fits, After, SingletonCost;
    ghost var s := meter.Now();
    FitsThen(s, Work(|bytes|), SingletonCost());
    var folded := FoldLiteral(bytes, meter);
    SpentIsRan(s, meter.Now(), |bytes|, folded);
    var word :- folded;
    r := SingletonWords(word, meter);
  }

  method ClassToWords(ranges: seq<(Byte, Byte)>, facts: Facts, meter: Meter) returns (r: Outcome<WordVec>)
    requires meter.Valid() && FactsOf(ByteClass(ranges)) == Some(facts)
    modifies meter, meter.budget
    ensures meter.Valid() && Ran(old(meter.Now()), meter.Now(), BodyCost(ByteClass(ranges)), r)
    ensures r.Success? ==> r.value == Full(WordsOf(ByteClass(ranges)))
  {
    hide Then, Fits, After, SetVectorCost, Normalized;
    ghost var s := meter.Now();
    ghost var first := Work(NormalizedWork(ClassBytes(ranges)));
    ClassIsCounted(ranges, facts);
    FitsThen(s, first, SetVectorCost(facts.count));
    var classified := NormalizedClass(ranges, meter);
    SpentIsRan(s, meter.Now(), first.work, classified);
    var normalized :- classified;
    r := SetVector(normalized, facts.count, meter);
  }

  function SetVectorCost(count: nat): Cost {
    Then(WordVecCost(count), Work(256 + count))
  }

  lemma ClassIsCounted(ranges: seq<(Byte, Byte)>, facts: Facts)
    requires FactsOf(ByteClass(ranges)) == Some(facts)
    ensures facts.count == |SetWords(Normalized(ClassBytes(ranges), NoBytes()), 0)| >= 0
    ensures BodyCost(ByteClass(ranges)) == Then(Work(NormalizedWork(ClassBytes(ranges))), SetVectorCost(facts.count))
  {
    hide Normalized, ClassBytes, CountSet, SetWords, NormalizedWork;
    SetWordsCensus(Normalized(ClassBytes(ranges), NoBytes()), 0);
  }

  method SetVector(norm: seq<bool>, count: nat, meter: Meter) returns (r: Outcome<WordVec>)
    requires meter.Valid() && |norm| == 256 && count == |SetWords(norm, 0)|
    modifies meter, meter.budget
    ensures meter.Valid() && Ran(old(meter.Now()), meter.Now(), SetVectorCost(count), r)
    ensures r.Success? ==> r.value == Full(SetWords(norm, 0))
  {
    hide Then, Fits, After, SetWords, WordVecCost;
    FitsThen(meter.Now(), WordVecCost(count), Work(256 + count));
    var output :- AllocateWords(count, meter);
    ghost var t := meter.Now();
    var listed := SetWordsInto(norm, output.values, meter);
    SpentIsRan(t, meter.Now(), 256 + count, listed);
    var values :- listed;
    return Success(WordVec(values, output.bytes));
  }

  method SetWordsInto(norm: seq<bool>, output: ExactVec<Word>, meter: Meter) returns (r: Outcome<ExactVec<Word>>)
    requires meter.Valid() && |norm| == 256 && output == ExactVec([], |SetWords(norm, 0)|)
    modifies meter`work, meter.budget`work
    ensures meter.Valid() && Spent(old(meter.Now()), meter.Now(), 256 + |SetWords(norm, 0)|, r)
    ensures r.Success? ==> r.value == ExactVec(SetWords(norm, 0), output.capacity)
  {
    var _ :- meter.Charge(256);
    var filled := output;
    ghost var all := SetWords(norm, 0);
    assert norm[0..] == norm;
    for byte := 0 to 256
      invariant Charged(old(meter.Now()), 256 + |filled.items|, meter) && filled.capacity == output.capacity
      invariant filled.items + SetWords(norm[byte..], byte) == all
    {
      SetWordsHead(norm, byte, filled.items);
      if norm[byte] {
        var _ :- meter.Charge(1);
        var word :- JoinWords([], [byte as Byte]);
        assert word == [byte as Byte];
        filled :- Push(filled, word);
      }
    }
    assert filled.items + [] == filled.items;
    return Success(filled);
  }

  lemma SetWordsHead(norm: seq<bool>, byte: nat, filled: seq<Word>)
    requires |norm| == 256 && byte < 256
    ensures var rest := SetWords(norm[byte + 1..], byte + 1);
      filled + SetWords(norm[byte..], byte) == (if norm[byte] then (filled + [[byte as Byte]]) + rest else filled + rest)
  {
    assert norm[byte..][0] == norm[byte] && norm[byte..][1..] == norm[byte + 1..];
  }

  method MaterializeChild(h: Hir, meter: Meter) returns (r: Outcome<WordVec>)
    requires meter.Valid() && FactsOf(h).Some?
    modifies meter, meter.budget
    ensures meter.Valid() && Ran(old(meter.Now()), meter.Now(), ChildCost(h), r)
    ensures r.Success? ==> r.value == Full(WordsOf(h)) && meter.scratch == old(meter.scratch) + r.value.bytes
    decreases h, 2
  {
    hide Then, Fits, After, MaterializeCost, WordsOf, FactsOf, FactsWork;
    ghost var s := meter.Now();
    MaterializeNet(h);
    FitsThen(s, Work(FactsWork(h)), MaterializeCost(h));
    FitsThen(After(s, Work(FactsWork(h))), MaterializeCost(h), Work(0));
    var census := LanguageFacts(h, meter);
    SpentIsRan(s, meter.Now(), FactsWork(h), census);
    var facts :- census;
    match facts
    case None => r := Failure(InternalInvariant);
    case Some(f) => r := MaterializeHir(h, f, meter);
  }

  method FoldStep(part: Hir, acc: WordVec, meter: Meter) returns (r: Outcome<WordVec>)
    requires meter.Valid() && IsFull(acc) && acc.bytes <= meter.scratch && FactsOf(part).Some?
    requires Factors(acc.values.items, WordsOf(part))
    modifies meter, meter.budget
    ensures meter.Valid() && Ran(old(meter.Now()), meter.Now(), FoldStepCost(part, acc.values.items), r)
    ensures r.Success? ==> r.value == Full(Cross(acc.values.items, WordsOf(part)))
    ensures r.Success? ==> meter.scratch == old(meter.scratch) - acc.bytes + r.value.bytes
    decreases part, 3
  {
    hide Then, Fits, After, ChildCost, CrossCost, WordsOf, FactsOf, Cross, Factors;
    FitsThen(meter.Now(), ChildCost(part), CrossCost(acc.values.items, WordsOf(part)));
    var child :- MaterializeChild(part, meter);
    r := CrossStep(acc, child, meter);
  }

  method MaterializeParts(parts: seq<Hir>, facts: Facts, meter: Meter) returns (r: Outcome<WordVec>)
    requires meter.Valid() && ConcatFold(parts, EMPTY_FACTS) == Some(facts)
    modifies meter, meter.budget
    ensures meter.Valid() && Ran(old(meter.Now()), meter.Now(), PartsCost(parts), r)
    ensures r.Success? ==> r.value == Full(CrossFold(parts, [[]]))
    decreases parts, 1
  {
    hide Then, Fits, After, FoldCost, ConcatFold, CrossFold;
    FitsThen(meter.Now(), SingletonCost(), FoldCost(parts, [[]]));
    var accumulated :- SingletonWords([], meter);
    r := FoldParts(parts, facts, accumulated, meter);
  }

  method FoldParts(parts: seq<Hir>, facts: Facts, first: WordVec, meter: Meter) returns (r: Outcome<WordVec>)
    requires meter.Valid() && ConcatFold(parts, EMPTY_FACTS) == Some(facts)
    requires first == Full([[]]) && first.bytes <= meter.scratch
    modifies meter, meter.budget
    ensures meter.Valid() && Ran(old(meter.Now()), meter.Now(), FoldCost(parts, [[]]), r)
    ensures r.Success? ==> r.value == Full(CrossFold(parts, [[]]))
    decreases parts, 0
  {
    hide Then, Fits, After, FoldStepCost, WordsOf, FactsOf, Cross, Factors, ListFacts;
    ghost var s, total := meter.Now(), FoldCost(parts, [[]]);
    var accumulated := first;
    ghost var running := EMPTY_FACTS;
    OneWord([]);
    for i := 0 to |parts|
      invariant IsFull(accumulated) && Describes(running, accumulated.values.items) && Sane(running)
      invariant Paying(s, FoldCost(parts[i..], accumulated.values.items), total, meter)
      invariant meter.scratch - accumulated.bytes == s.scratch - first.bytes
      invariant ConcatFold(parts[i..], running) == Some(facts)
      invariant CrossFold(parts[i..], accumulated.values.items) == CrossFold(parts, [[]])
    {
      ghost var ws, part, rest := accumulated.values.items, parts[i], parts[i + 1..];
      assert parts[i..] == [part] + rest && parts[i..][1..] == rest;
      ghost var next := FoldRound(running, ws, part, rest);
      FitsThen(meter.Now(), FoldStepCost(part, ws), FoldCost(rest, Cross(ws, WordsOf(part))));
      accumulated :- FoldStep(parts[i], accumulated, meter);
      running := next;
    }
    NothingLeft(meter.Now());
    ListFactsMeaning(accumulated.values.items);
    if |accumulated.values.items| != facts.count {
      return Failure(InternalInvariant);
    }
    return Success(accumulated);
  }

  /** One round of the product fold keeps the running census. */
  lemma FoldRound(running: Facts, ws: seq<Word>, part: Hir, rest: seq<Hir>) returns (next: Facts)
    requires Describes(running, ws) && Sane(running) && ConcatFold([part] + rest, running).Some?
    ensures FactsOf(part).Some? && Factors(ws, WordsOf(part)) && Describes(next, Cross(ws, WordsOf(part))) && Sane(next)
    ensures ConcatFold(rest, next) == ConcatFold([part] + rest, running)
  {
    assert ([part] + rest)[1..] == rest;
    CensusIsExact(part);
    FactsSane(part);
    var child := FactsOf(part).value;
    next := Product(running, child);
    ConcatSane(running, child);
    DescribesProduct(running, ws, child, WordsOf(part));
  }

  lemma BranchIsShort(branch: Hir)
    requires FactsOf(branch).Some?
    ensures Short(WordsOf(branch)) && Prefixed([], WordsOf(branch)) == WordsOf(branch)
  {
    CensusIsExact(branch);
    FactsSane(branch);
    DescribedIsShort(FactsOf(branch).value, WordsOf(branch));
    PrefixedEmpty(WordsOf(branch));
  }

  /** Materializes one alternative and copies its words. */
  method BranchInto(branch: Hir, output: ExactVec<Word>, meter: Meter) returns (r: Outcome<ExactVec<Word>>)
    requires meter.Valid() && FactsOf(branch).Some? && |output.items| + |WordsOf(branch)| <= output.capacity
    modifies meter, meter.budget
    ensures meter.Valid() && Ran(old(meter.Now()), meter.Now(), BranchCost(branch), r)
    ensures r.Success? ==> r.value == ExactVec(output.items + WordsOf(branch), output.capacity)
    decreases branch, 3
  {
    hide Then, Fits, After, ChildCost, WordsOf, FactsOf, ListWork, ReleaseCost;
    ghost var s, ws := meter.Now(), WordsOf(branch);
    ThreeSteps(s, ChildCost(branch), Work(ListWork(ws)), ReleaseCost(|ws|));
    BranchIsShort(branch);
    var words :- MaterializeChild(branch, meter);
    ghost var t := meter.Now();
    var copied := PrefixInto([], words.values.items, output, meter);
    SpentIsRan(t, meter.Now(), ListWork(ws), copied);
    var filled :- copied;
    var _ :- ReleaseWords(words, meter);
    return Success(filled);
  }

  method MaterializeAlternation(branches: seq<Hir>, facts: Facts, meter: Meter) returns (r: Outcome<WordVec>)
    requires meter.Valid() && FactsOf(Alternation(branches)) == Some(facts)
    modifies meter, meter.budget
    ensures meter.Valid() && Ran(old(meter.Now()), meter.Now(), AlternationCost(branches), r)
    ensures r.Success? ==> r.value == Full(AltWords(branches))
    decreases branches, 1
  {
    hide Then, Fits, After, BranchesCost, WordVecCost;
    ghost var ws := AltWords(branches);
    CensusIsExact(Alternation(branches));
    ListFactsMeaning(ws);
    BranchesAreCounted(branches, NO_FACTS);
    FitsThen(meter.Now(), WordVecCost(|ws|), BranchesCost(branches));
    var output :- AllocateWords(facts.count, meter);
    var values :- BranchesInto(branches, output.values, meter);
    return Success(WordVec(values, output.bytes));
  }

  method BranchesInto(branches: seq<Hir>, output: ExactVec<Word>, meter: Meter) returns (r: Outcome<ExactVec<Word>>)
    requires meter.Valid() && AllCounted(branches) && output == ExactVec([], |AltWords(branches)|)
    modifies meter, meter.budget
    ensures meter.Valid() && Ran(old(meter.Now()), meter.Now(), BranchesCost(branches), r)
    ensures r.Success? ==> r.value == ExactVec(AltWords(branches), output.capacity)
    decreases branches, 0
  {
    hide Then, Fits, After, BranchCost, WordsOf, FactsOf;
    var filled := output;
    ghost var s, total, all := meter.Now(), BranchesCost(branches), AltWords(branches);
    for i := 0 to |branches|
      invariant Paying(s, BranchesCost(branches[i..]), total, meter) && filled.capacity == output.capacity
      invariant filled.items + AltWords(branches[i..]) == all
    {
      BranchRound(branches, i, filled.items, all);
      FitsThen(meter.Now(), BranchCost(branches[i]), BranchesCost(branches[i + 1..]));
      filled :- BranchInto(branches[i], filled, meter);
    }
    NothingLeft(meter.Now());
    assert filled.items + [] == filled.items;
    return Success(filled);
  }

  lemma BranchRound(branches: seq<Hir>, i: nat, filled: seq<Word>, all: seq<Word>)
    requires i < |branches| && filled + AltWords(branches[i..]) == all
    ensures (filled + WordsOf(branches[i])) + AltWords(branches[i + 1..]) == all
    ensures BranchesCost(branches[i..]) == Then(BranchCost(branches[i]), BranchesCost(branches[i + 1..]))
  {
    assert branches[i..][0] == branches[i] && branches[i..][1..] == branches[i + 1..];
    Regroup(filled, WordsOf(branches[i]), AltWords(branches[i + 1..]), all);
  }

  method EmitPowers(ws: seq<Word>, min: nat, max: nat, greedy: bool, output: ExactVec<Word>, meter: Meter)
    returns (r: Outcome<ExactVec<Word>>)
    requires meter.Valid() && ws != [] && min <= max && output == ExactVec([], |Powers(ws, min, max, greedy)|)
    requires Short(Powers(ws, min, max, greedy))
    modifies meter`work, meter.budget`work
    ensures meter.Valid() && Spent(old(meter.Now()), meter.Now(), PowersWork(ws, min, max, greedy), r)
    ensures r.Success? ==> r.value == ExactVec(Powers(ws, min, max, greedy), output.capacity)
  {
    if greedy {
      r := EmitPowersDown(ws, min, max, output, meter);
    } else {
      r := EmitPowersUp(ws, min, max, output, meter);
    }
  }

  method RepeatWords(child: WordVec, min: nat, max: nat, greedy: bool, count: int, meter: Meter) returns (r: Outcome<WordVec>)
    requires meter.Valid() && IsFull(child) && child.bytes <= meter.scratch && child.values.items != [] && min <= max
    requires count == |Powers(child.values.items, min, max, greedy)|
    requires Short(Powers(child.values.items, min, max, greedy))
    modifies meter, meter.budget
    ensures meter.Valid() && Ran(old(meter.Now()), meter.Now(), RepeatCost(child.values.items, min, max, greedy), r)
    ensures r.Success? ==> r.value == Full(Powers(child.values.items, min, max, greedy))
  {
    hide Then, Fits, After, Powers, PowersWork, ReleaseCost, WordVecCost, Short;
    var ws := child.values.items;
    ghost var emit := PowersWork(ws, min, max, greedy);
    ThreeSteps(meter.Now(), WordVecCost(count), Work(emit), ReleaseCost(|ws|));
    var output :- AllocateWords(count, meter);
    ghost var t := meter.Now();
    var emitted := EmitPowers(ws, min, max, greedy, output.values, meter);
    SpentIsRan(t, meter.Now(), emit, emitted);
    var values :- emitted;
    var _ :- ReleaseWords(child, meter);
    return Success(WordVec(values, output.bytes));
  }

  method MaterializeRepetition(h: Hir, facts: Facts, meter: Meter) returns (r: Outcome<WordVec>)
    requires meter.Valid() && h.Repetition? && FactsOf(h) == Some(facts)
    modifies meter, meter.budget
    ensures meter.Valid() && Ran(old(meter.Now()), meter.Now(), BodyCost(h), r)
    ensures r.Success? ==> r.value == Full(WordsOf(h))
    decreases h.rsub, 3
  {
    hide Then, Fits, After, ChildCost, RepeatCost, Powers, BodyCost, WordsOf, FactsOf, Short;
    var sub, max := h.rsub, h.max;
    RepetitionIsDescribed(h, facts);
    if max.None? {
      return Failure(InternalInvariant);
    }
    ghost var ws := WordsOf(sub);
    FitsThen(meter.Now(), ChildCost(sub), RepeatCost(ws, h.min, max.value, h.greedy));
    var child :- MaterializeChild(sub, meter);
    r := RepeatWords(child, h.min, max.value, h.greedy, facts.count, meter);
  }

  lemma RepetitionIsDescribed(h: Hir, facts: Facts)
    requires h.Repetition? && FactsOf(h) == Some(facts)
    ensures Repeatable(h.min, h.max) && FactsOf(h.rsub).Some? && WordsOf(h.rsub) != []
    ensures facts.count == |WordsOf(h)| && Short(WordsOf(h))
    ensures WordsOf(h) == Powers(WordsOf(h.rsub), h.min, h.max.value, h.greedy)
    ensures BodyCost(h) == Then(ChildCost(h.rsub), RepeatCost(WordsOf(h.rsub), h.min, h.max.value, h.greedy))
  {
    CensusIsExact(h);
    CensusIsExact(h.rsub);
    FactsSane(h);
    DescribedIsShort(facts, WordsOf(h));
    ListFactsMeaning(WordsOf(h));
  }
}
