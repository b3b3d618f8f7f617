/**
  The metered certifier. `Certify` computes `CertifyOf` within a budget, pays
  exactly `CertifyCost`, and on every path keeps the books of live bytes.
 */
module CertifierRun {
  import opened Wrappers
  import opened Hir
  import opened Metering
  import opened Census
  import opened Words
  import opened Consuming
  import opened Flattening
  import opened Anchoring
  import opened Materializing
  import opened Certifying

  datatype Accounting = Accounting(
    work: int, scratchPeakBytes: int, retainedBytes: int, retainedAllocations: int,
    branches: int, anchorPatterns: int, anchorPatternBytes: int)

  datatype Certificate = Certificate(certified: Certified, accounting: Accounting)

  // ----- Costs -----

  /** The 8-byte references of a vector of parts. */
  function PartsVecCost(count: nat): Cost {
    ExactVecCost(count, 8 * count)
  }

  function JobWork(job: Option<Hir>): nat {
    if job.None? then 0 else FlattenWork(job.value)
  }

  function CollectCost(before: seq<Hir>, job: Option<Hir>, after: seq<Hir>): Cost {
    Then(Work(JobWork(job)),
         Then(PartsVecCost(|JobParts(before, job, after)|), Work(|before| + JobWork(job) + |after|)))
  }

  /** The words of the chosen anchor, and the final look at each of them. */
  function AnchorCost(segment: seq<Hir>): Cost {
    Then(PartsCost(segment), Work(|CrossFold(segment, [[]])|))
  }

  function ChooseCost(parts: seq<Hir>): Cost {
    match BestAnchor(parts)
    case None => Work(BestWork(parts, 0))
    case Some(a) => Then(Work(BestWork(parts, 0)), AnchorCost(parts[a.start..a.end]))
  }

  function BuildCost(before: seq<Hir>, job: Option<Hir>, after: seq<Hir>): Cost {
    Then(CollectCost(before, job, after), ChooseCost(JobParts(before, job, after)))
  }

  function BuildAllCost(before: seq<Hir>, jobs: seq<Option<Hir>>, after: seq<Hir>): Cost {
    if jobs == [] then Work(0)
    else if BranchOf(JobParts(before, jobs[0], after)).None? then BuildCost(before, jobs[0], after)
    else Then(Then(BuildCost(before, jobs[0], after), Work(1)), BuildAllCost(before, jobs[1..], after))
  }

  function CensusWork(branches: seq<Branch>): nat {
    if branches == [] then 0 else 3 + ListWork(branches[0].words) + CensusWork(branches[1..])
  }

  function SearchWork(outer: seq<Hir>): nat {
    if FirstAlternation(outer) == |outer| then |outer| else FirstAlternation(outer) + 1
  }

  function FinishCost(outer: seq<Hir>, branches: Option<seq<Branch>>): Cost {
    if branches.None? then Work(0) else Then(Releasing(8 * |outer|), Work(CensusWork(branches.value)))
  }

  /** Branch slots take 64 bytes each. */
  function BranchingCost(outer: seq<Hir>, plan: Plan): Cost {
    if plan.Refused? then Work(0)
    else
      Then(ExactVecCost(|plan.jobs|, 64 * |plan.jobs|),
           Then(BuildAllCost(plan.before, plan.jobs, plan.after), FinishCost(outer, PlannedBranches(plan))))
  }

  function OuterCost(h: Hir): Cost {
    Then(CollectCost([], Some(h), []),
         Then(Work(SearchWork(Flatten(h))), BranchingCost(Flatten(h), PlanOf(Flatten(h)))))
  }

  function CertifyCost(h: Hir): Cost {
    if ConsumableOf(h).None? || ConsumableOf(h).value.nullable then Work(ConsumableWork(h))
    else if Delimiters(ConsumableOf(h).value) == {} then Work(ConsumableWork(h) + 8)
    else Then(Work(ConsumableWork(h) + 8), OuterCost(h))
  }

  /** Bytes a finished branch keeps: its parts and its words. */
  function Retained(branches: seq<Branch>): nat {
    if branches == [] then 0 else 8 * |branches[0].parts| + 65 * |branches[0].words| + Retained(branches[1..])
  }

  // ----- Collecting parts -----

  method CopyParts(parts: seq<Hir>, output: ExactVec<Hir>, meter: Meter) returns (r: Outcome<ExactVec<Hir>>)
    requires meter.Valid() && |output.items| + |parts| <= output.capacity
    modifies meter`work, meter.budget`work
    ensures meter.Valid() && Spent(old(meter.Now()), meter.Now(), |parts|, r)
    ensures r.Success? ==> r.value == ExactVec(output.items + parts, output.capacity)
  {
    var filled := output;
    for i := 0 to |parts|
      invariant Charged(old(meter.Now()), i, meter) && filled == ExactVec(output.items + parts[..i], output.capacity)
    {
      var _ :- meter.Charge(1);
      filled :- Push(filled, parts[i]);
    }
    assert parts[..|parts|] == parts;
    return Success(filled);
  }

  method JobCount(job: Option<Hir>, meter: Meter) returns (r: Outcome<int>)
    requires meter.Valid()
    modifies meter`work, meter.budget`work
    ensures meter.Valid() && Spent(old(meter.Now()), meter.Now(), JobWork(job), r)
    ensures r.Success? ==> r.value == if job.None? then 0 else |Flatten(job.value)|
  {
    match job
    case None => r := Success(0);
    case Some(h) => r := FlattenedCount(h, meter);
  }

  method FillParts(before: seq<Hir>, job: Option<Hir>, after: seq<Hir>, output: ExactVec<Hir>, meter: Meter)
    returns (r: Outcome<ExactVec<Hir>>)
    requires meter.Valid() && output == ExactVec([], |JobParts(before, job, after)|)
    modifies meter`work, meter.budget`work
    ensures meter.Valid() && Spent(old(meter.Now()), meter.Now(), |before| + JobWork(job) + |after|, r)
    ensures r.Success? ==> r.value == ExactVec(JobParts(before, job, after), output.capacity)
  {
    hide Flatten, FlattenWork;
    var filled :- CopyParts(before, output, meter);
    if job.Some? {
      filled :- FlattenInto(job.value, filled, meter);
    }
    filled :- CopyParts(after, filled, meter);
    if |filled.items| != output.capacity {
      return Failure(InternalInvariant);
    }
    return Success(filled);
  }

  method CollectParts(before: seq<Hir>, job: Option<Hir>, after: seq<Hir>, meter: Meter) returns (r: Outcome<seq<Hir>>)
    requires meter.Valid()
    modifies meter, meter.budget
    ensures meter.Valid() && Ran(old(meter.Now()), meter.Now(), CollectCost(before, job, after), r)
    ensures r.Success? ==> r.value == JobParts(before, job, after)
    ensures r.Success? ==> meter.scratch == old(meter.scratch) + 8 * |JobParts(before, job, after)|
  {
    hide Then, Fits, After, Flatten, FlattenWork;
    ghost var s := meter.Now();
    ghost var n, copy := |JobParts(before, job, after)|, |before| + JobWork(job) + |after|;
    ThreeSteps(s, Work(JobWork(job)), PartsVecCost(n), Work(copy));
    var counted := JobCount(job, meter);
    SpentIsRan(s, meter.Now(), JobWork(job), counted);
    var middle :- counted;
    ghost var t := meter.Now();
    TooManyParts(t, n);
    var most :- CheckedAdd(|before|, middle, TemporaryStates);
    var count :- CheckedAdd(most, |after|, TemporaryStates);
    var pair :- NewPartsVec(count, meter);
    ghost var u := meter.Now();
    var collected := FillParts(before, job, after, pair, meter);
    SpentIsRan(u, meter.Now(), copy, collected);
    var filled :- collected;
    return Success(filled.items);
  }

  /** More parts than a machine word can count do not fit any budget. */
  lemma TooManyParts(s: State, n: nat)
    requires Coherent(s)
    ensures n > USIZE_MAX ==> !Fits(s, PartsVecCost(n))
  {
  }

  method NewPartsVec(count: nat, meter: Meter) returns (r: Outcome<ExactVec<Hir>>)
    requires meter.Valid()
    modifies meter, meter.budget
    ensures meter.Valid() && Ran(old(meter.Now()), meter.Now(), PartsVecCost(count), r)
    ensures r.Success? ==> r.value == ExactVec([], count) && meter.scratch == old(meter.scratch) + 8 * count
  {
    var pair :- NewExactVec<Hir>(count, 8, meter);
    return Success(pair.0);
  }

  // ----- Building one branch -----

  /** The final look at the words: whether any is too short or too long. */
  method AnyMalformed(ws: seq<Word>, meter: Meter) returns (r: Outcome<bool>)
    requires meter.Valid()
    modifies meter`work, meter.budget`work
    ensures meter.Valid() && Spent(old(meter.Now()), meter.Now(), |ws|, r)
    ensures r.Success? ==>
      (r.value <==> exists i :: 0 <= i < |ws| && !(MIN_ANCHOR_WORD_BYTES <= |ws[i]| <= MAX_ANCHOR_WORD_BYTES))
  {
    var malformed := false;
    for i := 0 to |ws|
      invariant Charged(old(meter.Now()), i, meter)
      invariant malformed <==> exists k :: 0 <= k < i && !(MIN_ANCHOR_WORD_BYTES <= |ws[k]| <= MAX_ANCHOR_WORD_BYTES)
    {
      var _ :- meter.Charge(1);
      malformed := malformed || |ws[i]| < MIN_ANCHOR_WORD_BYTES || |ws[i]| > MAX_ANCHOR_WORD_BYTES;
    }
    return Success(malformed);
  }

  /** The segment of a found anchor has the census the anchor carries, and well-formed words. */
  lemma AnchorIsReady(parts: seq<Hir>, a: Anchor)
    requires BestAnchor(parts) == Some(a)
    ensures a.start <= a.end <= |parts| && ConcatFold(parts[a.start..a.end], EMPTY_FACTS) == Some(a.facts)
    ensures var ws := CrossFold(parts[a.start..a.end], [[]]);
      && a.facts.count == |ws|
      && (forall i :: 0 <= i < |ws| ==> MIN_ANCHOR_WORD_BYTES <= |ws[i]| <= MAX_ANCHOR_WORD_BYTES)
      && PartsCost(parts[a.start..a.end]).net == 65 * |ws|
  {
    BranchIsSound(parts);
    BestAnchorIsOptimal(parts);
    var b := BranchOf(parts).value;
    SegmentCensus(b);
    ListFactsMeaning(b.words);
    FoldIsCounted(Segment(b), EMPTY_FACTS);
    PartsNet(Segment(b));
  }

  method AnchorWords(parts: seq<Hir>, a: Anchor, meter: Meter) returns (r: Outcome<seq<Word>>)
    requires meter.Valid() && BestAnchor(parts) == Some(a)
    modifies meter, meter.budget
    ensures meter.Valid() && Ran(old(meter.Now()), meter.Now(), AnchorCost(parts[a.start..a.end]), r)
    ensures r.Success? ==> r.value == CrossFold(parts[a.start..a.end], [[]])
    ensures r.Success? ==> meter.scratch == old(meter.scratch) + 65 * |r.value|
  {
    hide Then, Fits, After, PartsCost, CrossFold, ConcatFold, BestAnchor;
    ghost var s := meter.Now();
    AnchorIsReady(parts, a);
    var segment := parts[a.start..a.end];
    FitsThen(s, PartsCost(segment), Work(|CrossFold(segment, [[]])|));
    var words :- MaterializeParts(segment, a.facts, meter);
    var ws := words.values.items;
    ghost var t := meter.Now();
    var looked := AnyMalformed(ws, meter);
    SpentIsRan(t, meter.Now(), |ws|, looked);
    var malformed :- looked;
    if |ws| != a.facts.count || malformed {
      return Failure(InternalInvariant);
    }
    return Success(ws);
  }

  method ChooseAnchor(parts: seq<Hir>, meter: Meter) returns (r: Outcome<Option<Branch>>)
    requires meter.Valid()
    modifies meter, meter.budget
    ensures meter.Valid() && Ran(old(meter.Now()), meter.Now(), ChooseCost(parts), r)
    ensures r.Success? ==> r.value == BranchOf(parts)
    ensures r.Success? && r.value.Some? ==> meter.scratch == old(meter.scratch) + 65 * |r.value.value.words|
  {
    hide Then, Fits, After, BestAnchor, BestWork, AnchorCost, CrossFold;
    ghost var s := meter.Now();
    var searched := FindBestAnchor(parts, meter);
    SpentIsRan(s, meter.Now(), BestWork(parts, 0), searched);
    ghost var anchor := BestAnchor(parts);
    if anchor.Some? {
      FitsThen(s, Work(BestWork(parts, 0)), AnchorCost(parts[anchor.value.start..anchor.value.end]));
    }
    var best :- searched;
    match best
    case None => r := Success(None);
    case Some(a) =>
      var words :- AnchorWords(parts, a, meter);
      r := Success(Some(Branch(parts, a.start, a.end, words)));
  }

  method BuildBranch(before: seq<Hir>, job: Option<Hir>, after: seq<Hir>, meter: Meter) returns (r: Outcome<Option<Branch>>)
    requires meter.Valid()
    modifies meter, meter.budget
    ensures meter.Valid() && Ran(old(meter.Now()), meter.Now(), BuildCost(before, job, after), r)
    ensures r.Success? ==> r.value == BranchOf(JobParts(before, job, after))
    ensures r.Success? && r.value.Some? ==> meter.scratch == old(meter.scratch) + Retained([r.value.value])
  {
    hide Then, Fits, After, CollectCost, ChooseCost, JobParts;
    FitsThen(meter.Now(), CollectCost(before, job, after), ChooseCost(JobParts(before, job, after)));
    var parts :- CollectParts(before, job, after, meter);
    r := ChooseAnchor(parts, meter);
  }

  // ----- Building every branch -----

  method BuildStep(before: seq<Hir>, job: Option<Hir>, after: seq<Hir>, output: ExactVec<Branch>, meter: Meter)
    returns (r: Outcome<Option<ExactVec<Branch>>>)
    requires meter.Valid() && |output.items| < output.capacity
    modifies meter, meter.budget
    ensures meter.Valid()
    ensures var branch := BranchOf(JobParts(before, job, after));
      var cost := BuildCost(before, job, after);
      && Ran(old(meter.Now()), meter.Now(), if branch.None? then cost else Then(cost, Work(1)), r)
      && (r.Success? ==>
            if branch.None? then r.value == None
            else
              && r.value == Some(ExactVec(output.items + [branch.value], output.capacity))
              && meter.scratch == old(meter.scratch) + Retained([branch.value]))
  {
    hide Then, Fits, After, BuildCost, JobParts, BranchOf, Retained;
    ghost var cost := BuildCost(before, job, after);
    FitsThen(meter.Now(), cost, Work(1));
    var built :- BuildBranch(before, job, after, meter);
    match built
    case None => r := Success(None);
    case Some(branch) =>
      ghost var t := meter.Now();
      var charged := meter.Charge(1);
      SpentIsRan(t, meter.Now(), 1, charged);
      var _ :- charged;
      var pushed :- Push(output, branch);
      r := Success(Some(pushed));
  }

  method BuildAll(before: seq<Hir>, jobs: seq<Option<Hir>>, after: seq<Hir>, output: ExactVec<Branch>, meter: Meter)
    returns (r: Outcome<Option<seq<Branch>>>)
    requires meter.Valid() && output == ExactVec([], |jobs|)
    modifies meter, meter.budget
    ensures meter.Valid() && Ran(old(meter.Now()), meter.Now(), BuildAllCost(before, jobs, after), r)
    ensures r.Success? ==> r.value == BranchesOf(before, jobs, after)
    ensures r.Success? && r.value.Some? ==> meter.scratch == old(meter.scratch) + Retained(r.value.value)
  {
    hide Then, Fits, After, BuildCost, JobParts, BranchOf, BranchesOf, BuildAllCost;
    var filled := output;
    ghost var s, total, all := meter.Now(), BuildAllCost(before, jobs, after), BranchesOf(before, jobs, after);
    assert jobs[0..] == jobs;
    if all.Some? {
      assert [] + all.value == all.value;
    }
    for i := 0 to |jobs|
      invariant Paying(s, BuildAllCost(before, jobs[i..], after), total, meter)
      invariant filled.capacity == |jobs| && |filled.items| == i
      invariant Prepended(filled.items, BranchesOf(before, jobs[i..], after)) == all
      invariant meter.scratch == s.scratch + Retained(filled.items)
    {
      BuildRound(before, jobs, i, after, filled.items);
      ghost var branch, cost := BranchOf(JobParts(before, jobs[i], after)), BuildCost(before, jobs[i], after);
      FitsThen(meter.Now(), Then(cost, Work(1)), BuildAllCost(before, jobs[i + 1..], after));
      var next :- BuildStep(before, jobs[i], after, filled, meter);
      if next.None? {
        return Success(None);
      }
      RetainedSnoc(filled.items, branch.value);
      filled := next.value;
    }
    BuildEnd(before, jobs, after, filled.items);
    NothingLeft(meter.Now());
    return Success(Some(filled.items));
  }

  function Prepended(done: seq<Branch>, rest: Option<seq<Branch>>): Option<seq<Branch>> {
    if rest.None? then None else Some(done + rest.value)
  }

  lemma BuildRound(before: seq<Hir>, jobs: seq<Option<Hir>>, i: nat, after: seq<Hir>, done: seq<Branch>)
    requires i < |jobs|
    ensures var branch := BranchOf(JobParts(before, jobs[i], after));
      var cost := BuildCost(before, jobs[i], after);
      if branch.None? then
        && BuildAllCost(before, jobs[i..], after) == cost
        && Prepended(done, BranchesOf(before, jobs[i..], after)) == None
      else
        && BuildAllCost(before, jobs[i..], after) == Then(Then(cost, Work(1)), BuildAllCost(before, jobs[i + 1..], after))
        && Prepended(done, BranchesOf(before, jobs[i..], after)) ==
           Prepended(done + [branch.value], BranchesOf(before, jobs[i + 1..], after))
  {
    hide Then, BuildCost, JobParts, BranchOf;
    assert jobs[i..][0] == jobs[i] && jobs[i..][1..] == jobs[i + 1..];
    var branch, rest := BranchOf(JobParts(before, jobs[i], after)), BranchesOf(before, jobs[i + 1..], after);
    if branch.Some? && rest.Some? {
      assert done + ([branch.value] + rest.value) == (done + [branch.value]) + rest.value;
    }
  }

  lemma BuildEnd(before: seq<Hir>, jobs: seq<Option<Hir>>, after: seq<Hir>, done: seq<Branch>)
    ensures BuildAllCost(before, jobs[|jobs|..], after) == Work(0)
    ensures Prepended(done, BranchesOf(before, jobs[|jobs|..], after)) == Some(done)
  {
    assert done + [] == done;
  }

  lemma {:induction false} RetainedSnoc(bs: seq<Branch>, b: Branch)
    ensures Retained(bs + [b]) == Retained(bs) + Retained([b])
  {
    if bs == [] {
      assert bs + [b] == [b];
    } else {
      RetainedSnoc(bs[1..], b);
      assert (bs + [b])[1..] == bs[1..] + [b];
    }
  }

  // ----- The retained census -----

  function PatternCount(branches: seq<Branch>): nat {
    if branches == [] then 0 else |branches[0].words| + PatternCount(branches[1..])
  }

  function PatternBytes(branches: seq<Branch>): nat {
    if branches == [] then 0 else Total(branches[0].words) + PatternBytes(branches[1..])
  }

  predicate AllSound(branches: seq<Branch>) {
    |branches| <= MAX_ROOT_BRANCHES && forall i :: 0 <= i < |branches| ==> Sound(branches[i])
  }

  lemma SoundIsBounded(b: Branch)
    requires Sound(b)
    ensures |b.words| <= MAX_ANCHOR_PATTERNS && Total(b.words) <= MAX_ANCHOR_PATTERN_BYTES
  {
    SegmentCensus(b);
    ListFactsMeaning(b.words);
  }

  method WordBytes(ws: seq<Word>, start: int, meter: Meter) returns (r: Outcome<int>)
    requires meter.Valid() && 0 <= start && start + Total(ws) <= USIZE_MAX && Short(ws)
    modifies meter`work, meter.budget`work
    ensures meter.Valid() && Spent(old(meter.Now()), meter.Now(), ListWork(ws), r)
    ensures r.Success? ==> r.value == start + Total(ws)
  {
    var bytes := start;
    ghost var done: nat := 0;
    for i := 0 to |ws|
      invariant Charged(old(meter.Now()), done, meter) && done + ListWork(ws[i..]) == ListWork(ws)
      invariant bytes + Total(ws[i..]) == start + Total(ws)
    {
      assert ws[i..][0] == ws[i] && ws[i..][1..] == ws[i + 1..];
      var amount :- CheckedAdd(1, |ws[i]|, CompileWork);
      var _ :- meter.Charge(amount);
      bytes :- CheckedAdd(bytes, |ws[i]|, LiteralBytes);
      done := done + amount;
    }
    return Success(bytes);
  }

  datatype Tally = Tally(retained: int, allocations: int, patterns: int, bytes: int)

  method TallyBranch(b: Branch, t: Tally, meter: Meter) returns (r: Outcome<Tally>)
    requires meter.Valid() && Sound(b) && 0 <= t.retained && t.retained + Retained([b]) <= USIZE_MAX
    requires 0 <= t.allocations <= 17 && 0 <= t.patterns <= 8 * MAX_ANCHOR_PATTERNS && 0 <= t.bytes <= 8 * MAX_ANCHOR_PATTERN_BYTES
    modifies meter`work, meter.budget`work
    ensures meter.Valid() && Spent(old(meter.Now()), meter.Now(), 3 + ListWork(b.words), r)
    ensures r.Success? ==>
      r.value == Tally(t.retained + Retained([b]), t.allocations + 2, t.patterns + |b.words|, t.bytes + Total(b.words))
  {
    hide Sound, ListWork, Total;
    SoundIsBounded(b);
    SoundIsShort(b);
    var _ :- meter.Charge(3);
    var partBytes :- CheckedMul(|b.parts|, 8, ProgramBytes);
    var retained :- CheckedAdd(t.retained, partBytes, ProgramBytes);
    var wordBytes :- CheckedMul(|b.words|, 65, ProgramBytes);
    retained :- CheckedAdd(retained, wordBytes, ProgramBytes);
    var allocations :- CheckedAdd(t.allocations, 2, TemporaryStates);
    var patterns :- CheckedAdd(t.patterns, |b.words|, TemporaryStates);
    var bytes :- WordBytes(b.words, t.bytes, meter);
    return Success(Tally(retained, allocations, patterns, bytes));
  }

  lemma SoundIsShort(b: Branch)
    requires Sound(b)
    ensures Short(b.words)
  {
    SegmentCensus(b);
  }

  method TallyBranches(branches: seq<Branch>, meter: Meter) returns (r: Outcome<Tally>)
    requires meter.Valid() && AllSound(branches) && 64 * |branches| + Retained(branches) <= USIZE_MAX
    modifies meter`work, meter.budget`work
    ensures meter.Valid() && Spent(old(meter.Now()), meter.Now(), CensusWork(branches), r)
    ensures r.Success? ==>
      r.value == Tally(64 * |branches| + Retained(branches), 1 + 2 * |branches|, PatternCount(branches), PatternBytes(branches))
  {
    hide Sound, ListWork, Total;
    var slots :- CheckedMul(|branches|, 64, ProgramBytes);
    var t := Tally(slots, 1, 0, 0);
    ghost var done: nat := 0;
    for i := 0 to |branches|
      invariant Charged(old(meter.Now()), done, meter) && done + CensusWork(branches[i..]) == CensusWork(branches)
      invariant t.retained + Retained(branches[i..]) == 64 * |branches| + Retained(branches) && 0 <= t.retained
      invariant t.allocations == 1 + 2 * i
      invariant t.patterns + PatternCount(branches[i..]) == PatternCount(branches) && 0 <= t.patterns <= i * MAX_ANCHOR_PATTERNS
      invariant t.bytes + PatternBytes(branches[i..]) == PatternBytes(branches) && 0 <= t.bytes <= i * MAX_ANCHOR_PATTERN_BYTES
    {
      assert branches[i..][0] == branches[i] && branches[i..][1..] == branches[i + 1..];
      SoundIsBounded(branches[i]);
      t :- TallyBranch(branches[i], t, meter);
      done := done + 3 + ListWork(branches[i].words);
    }
    return Success(t);
  }

  // ----- The whole certifier -----

  method FindPlan(outer: seq<Hir>, meter: Meter) returns (r: Outcome<Plan>)
    requires meter.Valid()
    modifies meter`work, meter.budget`work
    ensures meter.Valid() && Spent(old(meter.Now()), meter.Now(), SearchWork(outer), r)
    ensures r.Success? ==> r.value == PlanOf(outer)
  {
    for i := 0 to |outer|
      invariant Charged(old(meter.Now()), i, meter) && i <= FirstAlternation(outer)
    {
      var _ :- meter.Charge(1);
      if outer[i].Alternation? {
        var alternatives := outer[i].branches;
        if !(2 <= |alternatives| <= MAX_ROOT_BRANCHES) {
          return Success(Refused);
        }
        return Success(Plan(outer[..i], SomeOf(alternatives), outer[i + 1..]));
      }
    }
    return Success(Plan(outer, [None], []));
  }

  lemma {:induction false} PlannedAreSound(plan: Plan)
    requires PlannedBranches(plan).Some? && |plan.jobs| <= MAX_ROOT_BRANCHES
    ensures AllSound(PlannedBranches(plan).value) && |PlannedBranches(plan).value| == |plan.jobs|
  {
    hide Sound;
    var bs := PlannedBranches(plan).value;
    if plan.jobs != [] {
      BranchesAreSound(plan.before, plan.jobs, plan.after, 0);
      forall k | 0 <= k < |bs|
        ensures Sound(bs[k])
      {
        BranchesAreSound(plan.before, plan.jobs, plan.after, k);
      }
    }
  }

  method NewBranchVec(count: nat, meter: Meter) returns (r: Outcome<ExactVec<Branch>>)
    requires meter.Valid()
    modifies meter, meter.budget
    ensures meter.Valid() && Ran(old(meter.Now()), meter.Now(), ExactVecCost(count, 64 * count), r)
    ensures r.Success? ==> r.value == ExactVec([], count) && meter.scratch == old(meter.scratch) + 64 * count
  {
    var pair :- NewExactVec<Branch>(count, 64, meter);
    return Success(pair.0);
  }

  method Finish(outer: seq<Hir>, branches: seq<Branch>, meter: Meter) returns (r: Outcome<Tally>)
    requires meter.Valid() && AllSound(branches)
    requires meter.scratch == 8 * |outer| + 64 * |branches| + Retained(branches)
    modifies meter, meter.budget
    ensures meter.Valid() && Ran(old(meter.Now()), meter.Now(), FinishCost(outer, Some(branches)), r)
    ensures r.Success? ==>
      && r.value == Tally(meter.scratch, 1 + 2 * |branches|, PatternCount(branches), PatternBytes(branches))
      && meter.scratch == 64 * |branches| + Retained(branches)
  {
    hide Then, Fits, After, AllSound, Retained, CensusWork;
    ghost var s := meter.Now();
    FitsThen(s, Releasing(8 * |outer|), Work(CensusWork(branches)));
    ReleasingFits(s, 8 * |outer|);
    var _ :- meter.Release(8 * |outer|);
    ghost var t := meter.Now();
    var tallied := TallyBranches(branches, meter);
    SpentIsRan(t, meter.Now(), CensusWork(branches), tallied);
    var tally :- tallied;
    if tally.retained != meter.scratch {
      return Failure(InternalInvariant);
    }
    return Success(tally);
  }

  lemma ReleasingFits(s: State, bytes: nat)
    requires Coherent(s)
    ensures Fits(s, Releasing(bytes))
  {
  }

  datatype Built = Built(branches: seq<Branch>, tally: Tally)

  /** What was built is what was planned, and its books are the bytes still held. */
  predicate Settled(planned: Option<seq<Branch>>, scratch: int, built: Option<Built>) {
    && (built.None? <==> planned.None?)
    && (built.Some? ==>
          var bs := planned.value;
          && built.value == Built(bs, Tally(scratch, 1 + 2 * |bs|, PatternCount(bs), PatternBytes(bs)))
          && scratch == 64 * |bs| + Retained(bs))
  }

  method BuildPlan(outer: seq<Hir>, plan: Plan, meter: Meter) returns (r: Outcome<Option<Built>>)
    requires meter.Valid() && plan == PlanOf(outer) && meter.scratch == 8 * |outer|
    modifies meter, meter.budget
    ensures meter.Valid() && Ran(old(meter.Now()), meter.Now(), BranchingCost(outer, plan), r)
    ensures r.Success? ==> Settled(PlannedBranches(plan), meter.scratch, r.value)
  {
    hide Then, Fits, After, BuildAllCost, FinishCost, BranchesOf, ExactVecCost, AllSound, Retained;
    if plan.Refused? {
      NothingLeft(meter.Now());
      return Success(None);
    }
    ghost var s, slots := meter.Now(), ExactVecCost(|plan.jobs|, 64 * |plan.jobs|);
    ghost var build, finish := BuildAllCost(plan.before, plan.jobs, plan.after), FinishCost(outer, PlannedBranches(plan));
    ThreeSteps(s, slots, build, finish);
    var output :- NewBranchVec(|plan.jobs|, meter);
    var built :- BuildAll(plan.before, plan.jobs, plan.after, output, meter);
    match built
    case None =>
      NoFinish(outer);
      NothingLeft(meter.Now());
      r := Success(None);
    case Some(branches) =>
      PlannedAreSound(plan);
      var tally :- Finish(outer, branches, meter);
      r := Success(Some(Built(branches, tally)));
  }

  lemma NoFinish(outer: seq<Hir>)
    ensures FinishCost(outer, None) == Work(0)
  {
  }

  /** The outer transaction: flatten, find the root alternation, build, and settle the books. */
  method CertifyOuter(h: Hir, meter: Meter) returns (r: Outcome<Option<Built>>)
    requires meter.Valid() && meter.scratch == 0
    modifies meter, meter.budget
    ensures meter.Valid() && Ran(old(meter.Now()), meter.Now(), OuterCost(h), r)
    ensures r.Success? ==> Settled(PlannedBranches(PlanOf(Flatten(h))), meter.scratch, r.value)
  {
    hide Then, Fits, After, CollectCost, BranchingCost, PlannedBranches, SearchWork, Flatten, PlanOf, Retained;
    ghost var s, outer := meter.Now(), Flatten(h);
    ThreeSteps(s, CollectCost([], Some(h), []), Work(SearchWork(outer)), BranchingCost(outer, PlanOf(outer)));
    assert JobParts([], Some(h), []) == outer;
    var parts :- CollectParts([], Some(h), [], meter);
    ghost var t := meter.Now();
    var searched := FindPlan(parts, meter);
    SpentIsRan(t, meter.Now(), SearchWork(outer), searched);
    var plan :- searched;
    r := BuildPlan(parts, plan, meter);
  }

  method Delimit(h: Hir, meter: Meter) returns (r: Outcome<Option<set<Byte>>>)
    requires meter.Valid()
    modifies meter`work, meter.budget`work
    ensures meter.Valid() && Spent(old(meter.Now()), meter.Now(), DelimitWork(h), r)
    ensures r.Success? ==> r.value == if Anchorable(h) then Some(Delimiters(ConsumableOf(h).value)) else None
  {
    hide ConsumableOf, ConsumableWork;
    var consumable :- ConsumableFacts(h, meter);
    if consumable.None? || consumable.value.nullable {
      return Success(None);
    }
    var _ :- meter.Charge(BYTE_SET_WORDS);
    var delimiters := Delimiters(consumable.value);
    var _ :- meter.Charge(BYTE_SET_WORDS);
    return Success(if delimiters == {} then None else Some(delimiters));
  }

  function DelimitWork(h: Hir): nat {
    if ConsumableOf(h).None? || ConsumableOf(h).value.nullable then ConsumableWork(h) else ConsumableWork(h) + 8
  }

  /** The certificate an unlimited run gives, with its books. */
  function CertificateOf(h: Hir): Option<Certificate> {
    if CertifyOf(h).None? then None
    else
      Some(Certificate(CertifyOf(h).value, Accounted(CertifyCost(h), CertifyOf(h).value.branches)))
  }

  /** The books of a run of some cost that started with a fresh meter. */
  function Accounted(cost: Cost, bs: seq<Branch>): Accounting {
    Accounting(cost.work, Max(0, cost.peak), 64 * |bs| + Retained(bs), 1 + 2 * |bs|,
               |bs|, PatternCount(bs), PatternBytes(bs))
  }

  method CertifyInner(h: Hir, meter: Meter) returns (r: Outcome<Option<Certificate>>)
    requires meter.Valid() && meter.scratch == 0 && meter.work == 0 && meter.scratchPeak == 0
    modifies meter, meter.budget
    ensures meter.Valid() && Ran(old(meter.Now()), meter.Now(), CertifyCost(h), r)
    ensures r.Success? ==> r.value == CertificateOf(h)
    ensures r.Success? && r.value.Some? ==> meter.scratch == r.value.value.accounting.retainedBytes
  {
    hide Then, Fits, After, OuterCost, PlannedBranches, PlanOf, Flatten, Retained, Delimiters;
    hide CertifyCost, CertificateOf, DelimitWork, Anchorable;
    ghost var s := meter.Now();
    FitsThen(s, Work(DelimitWork(h)), OuterCost(h));
    CostByCase(h);
    var delimited := Delimit(h, meter);
    SpentIsRan(s, meter.Now(), DelimitWork(h), delimited);
    var delimiters :- delimited;
    if delimiters.None? {
      return Success(None);
    }
    var built :- CertifyOuter(h, meter);
    if built.None? {
      return Success(None);
    }
    var bs, tally := built.value.branches, built.value.tally;
    Books(s, h, bs);
    return Success(Some(Certificate(Certified(bs, delimiters.value),
      Accounting(meter.work, meter.scratchPeak, tally.retained, tally.allocations, |bs|, tally.patterns, tally.bytes))));
  }

  lemma CostByCase(h: Hir)
    ensures !Anchorable(h) ==> CertifyCost(h) == Work(DelimitWork(h)) && CertificateOf(h) == None
    ensures Anchorable(h) ==> CertifyCost(h) == Then(Work(DelimitWork(h)), OuterCost(h))
    ensures Anchorable(h) && PlannedBranches(PlanOf(Flatten(h))).None? ==> CertificateOf(h) == None
  {
    hide ConsumableOf, ConsumableWork, OuterCost, PlannedBranches, PlanOf, Flatten, Delimiters;
  }

  /** The books as read off a meter. */
  function Read(t: State, bs: seq<Branch>): Accounting {
    Accounting(t.work, t.scratchPeak, 64 * |bs| + Retained(bs), 1 + 2 * |bs|, |bs|, PatternCount(bs), PatternBytes(bs))
  }

  /** What a fresh meter reads after the whole run is what the certificate accounts for. */
  lemma Books(s: State, h: Hir, bs: seq<Branch>)
    requires Anchorable(h) && PlannedBranches(PlanOf(Flatten(h))) == Some(bs)
    requires s.work == 0 && s.scratch == 0 && s.scratchPeak == 0
    ensures CertificateOf(h) == Some(Certificate(Certified(bs, Delimiters(ConsumableOf(h).value)),
        Read(After(s, CertifyCost(h)), bs)))
  {
    hide ConsumableOf, PlannedBranches, PlanOf, Flatten, Retained, Delimiters, CertifyCost, PatternCount, PatternBytes;
    OuterAcquires(h);
  }

  lemma OuterAcquires(h: Hir)
    requires Anchorable(h)
    ensures CertifyCost(h).acquires
  {
    hide ConsumableOf, ConsumableWork, BranchingCost, Flatten, Delimiters, PlanOf;
  }

  ghost function Entry(budget: CompileBudget, maxScratchBytes: int): State
    reads budget
  {
    State(budget.maxWork, budget.maxProgramBytes, maxScratchBytes, budget.work, budget.live, budget.logical, 0, 0, 0)
  }

  /**
    The certifier as a transaction on a budget. It never reports an internal
    invariant. It gives the unlimited answer exactly when the cost fits the
    budget and the scratch limit, unless the allocator fails; otherwise it
    refuses. Live bytes grow by exactly the retained bytes of a certificate and
    by nothing on every other path.
   */
  method Certify(h: Hir, maxScratchBytes: int, budget: CompileBudget) returns (r: Outcome<Option<Certificate>>)
    requires budget.Valid() && 0 <= maxScratchBytes <= USIZE_MAX
    modifies budget
    ensures budget.Valid()
    ensures r.Success? ==> r.value == CertificateOf(h) && Fits(old(Entry(budget, maxScratchBytes)), CertifyCost(h))
    ensures r.Success? ==> budget.work == old(budget.work) + CertifyCost(h).work
    ensures r.Failure? ==> r.error.AllocationFailed? || (Refusal(r.error) && !Fits(old(Entry(budget, maxScratchBytes)), CertifyCost(h)))
    ensures var kept := if r.Success? && r.value.Some? then r.value.value.accounting.retainedBytes else 0;
      budget.live == old(budget.live) + kept && budget.logical == old(budget.logical) + kept
  {
    hide Fits, CertifyCost, CertificateOf;
    var meter := new Meter(maxScratchBytes, budget);
    var result := CertifyInner(h, meter);
    match result
    case Success(Some(certificate)) => r := Success(Some(certificate));
    case Success(None) =>
      var _ :- meter.ReleaseAll();
      r := Success(None);
    case Failure(error) =>
      var _ :- meter.ReleaseAll();
      r := Failure(error);
  }

  /** Dropping a certificate gives back exactly what it kept. */
  method ReleaseCertificate(certificate: Certificate, budget: CompileBudget) returns (r: Outcome<()>)
    requires budget.Valid() && 0 <= certificate.accounting.retainedBytes
    modifies budget`live, budget`logical
    ensures budget.Valid()
    ensures r.Success? <==> certificate.accounting.retainedBytes <= old(budget.live) && certificate.accounting.retainedBytes <= old(budget.logical)
    ensures r.Success? ==>
      && budget.live == old(budget.live) - certificate.accounting.retainedBytes
      && budget.logical == old(budget.logical) - certificate.accounting.retainedBytes
    ensures r.Failure? ==> r.error == InternalInvariant && budget.live == old(budget.live) && budget.logical == old(budget.logical)
  {
    r := budget.ReleaseBytes(certificate.accounting.retainedBytes);
  }

  /** Certifying and then releasing leaves the live bytes as they were. */
  method CertifyThenRelease(h: Hir, maxScratchBytes: int, budget: CompileBudget) returns (r: Outcome<()>)
    requires budget.Valid() && 0 <= maxScratchBytes <= USIZE_MAX
    modifies budget
    ensures budget.Valid() && budget.live == old(budget.live) && budget.logical == old(budget.logical)
    ensures r.Failure? ==> r.error != InternalInvariant
  {
    hide Fits, CertifyCost, CertificateOf;
    var certified :- Certify(h, maxScratchBytes, budget);
    if certified.Some? {
      RetainedIsNatural(h);
      r := ReleaseCertificate(certified.value, budget);
    } else {
      r := Success(());
    }
  }

  lemma RetainedIsNatural(h: Hir)
    ensures CertificateOf(h).Some? ==> 0 <= CertificateOf(h).value.accounting.retainedBytes
  {
  }
}
