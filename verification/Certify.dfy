/**
  The certifier: which certificate an expression gets, and what that certificate
  promises about every match.
 */
module Certifying {
  import opened Wrappers
  import opened Hir
  import opened Census
  import opened Words
  import opened AnchorLanguage
  import opened Consuming
  import opened Flattening
  import opened Anchoring

  const MAX_ROOT_BRANCHES: int := 8

  datatype Branch = Branch(parts: seq<Hir>, start: nat, end: nat, words: seq<Word>)

  // ----- The value of the certificate -----

  function BranchOf(parts: seq<Hir>): Option<Branch> {
    match BestAnchor(parts)
    case None => None
    case Some(a) => Some(Branch(parts, a.start, a.end, CrossFold(parts[a.start..a.end], [[]])))
  }

  /** One branch to build: the parts around one alternative, or the outer parts alone. */
  function JobParts(before: seq<Hir>, job: Option<Hir>, after: seq<Hir>): seq<Hir> {
    before + (if job.None? then [] else Flatten(job.value)) + after
  }

  datatype Plan = Refused | Plan(before: seq<Hir>, jobs: seq<Option<Hir>>, after: seq<Hir>)

  /** The index of the first alternation, or the length. */
  function FirstAlternation(parts: seq<Hir>): (k: nat)
    ensures k <= |parts| && (k < |parts| ==> parts[k].Alternation?)
    ensures forall i :: 0 <= i < k ==> !parts[i].Alternation?
  {
    if parts == [] || parts[0].Alternation? then 0 else 1 + FirstAlternation(parts[1..])
  }

  function SomeOf(branches: seq<Hir>): (r: seq<Option<Hir>>)
    ensures |r| == |branches| && forall i :: 0 <= i < |r| ==> r[i] == Some(branches[i])
  {
    seq(|branches|, i requires 0 <= i < |branches| => Some(branches[i]))
  }

  /** Branches follow the first alternation among the outer parts. */
  function PlanOf(outer: seq<Hir>): Plan {
    var k := FirstAlternation(outer);
    if k == |outer| then Plan(outer, [None], [])
    else if 2 <= |outer[k].branches| <= MAX_ROOT_BRANCHES then
      Plan(outer[..k], SomeOf(outer[k].branches), outer[k + 1..])
    else Refused
  }

  function BranchesOf(before: seq<Hir>, jobs: seq<Option<Hir>>, after: seq<Hir>): Option<seq<Branch>> {
    if jobs == [] then Some([])
    else
      var first := BranchOf(JobParts(before, jobs[0], after));
      if first.None? then None
      else
        var rest := BranchesOf(before, jobs[1..], after);
        if rest.None? then None else Some([first.value] + rest.value)
  }

  function PlannedBranches(plan: Plan): Option<seq<Branch>> {
    if plan.Refused? then None else BranchesOf(plan.before, plan.jobs, plan.after)
  }

  /** Bytes that no match can consume. */
  function Delimiters(c: Consumable): set<Byte> {
    set b: Byte | b !in c.bytes
  }

  /** The expression may be anchored at all: no assertion, never empty, some byte never consumed. */
  predicate Anchorable(h: Hir) {
    ConsumableOf(h).Some? && !ConsumableOf(h).value.nullable && Delimiters(ConsumableOf(h).value) != {}
  }

  datatype Certified = Certified(branches: seq<Branch>, delimiters: set<Byte>)

  function CertifyOf(h: Hir): Option<Certified> {
    if !Anchorable(h) then None
    else
      var branches := PlannedBranches(PlanOf(Flatten(h)));
      if branches.None? then None else Some(Certified(branches.value, Delimiters(ConsumableOf(h).value)))
  }

  // ----- What a certificate promises -----

  function Segment(b: Branch): seq<Hir>
    requires b.start <= b.end <= |b.parts|
  {
    b.parts[b.start..b.end]
  }

  /** The anchor of a branch is an eligible segment with its words. */
  predicate Sound(b: Branch) {
    Eligible(b.parts, b.start, b.end) && b.words == CrossFold(Segment(b), [[]])
  }

  lemma BranchIsSound(parts: seq<Hir>)
    requires BranchOf(parts).Some?
    ensures Sound(BranchOf(parts).value) && BranchOf(parts).value.parts == parts
  {
    BestAnchorIsOptimal(parts);
  }

  lemma {:induction false} BranchesAreSound(before: seq<Hir>, jobs: seq<Option<Hir>>, after: seq<Hir>, k: nat)
    requires BranchesOf(before, jobs, after).Some? && k < |jobs|
    ensures var bs := BranchesOf(before, jobs, after).value;
      |bs| == |jobs| && Sound(bs[k]) && bs[k].parts == JobParts(before, jobs[k], after)
  {
    BranchIsSound(JobParts(before, jobs[0], after));
    if k > 0 {
      BranchesAreSound(before, jobs[1..], after, k - 1);
    } else if |jobs| > 1 {
      BranchesAreSound(before, jobs[1..], after, 0);
    }
  }

  /** The language of the whole expression goes through one of the planned branches. */
  lemma MatchTakesABranch(h: Hir, w: Bytes, plan: Plan) returns (k: nat)
    requires InLang(h, w) && plan == PlanOf(Flatten(h)) && plan.Plan?
    ensures k < |plan.jobs| && InSeq(JobParts(plan.before, plan.jobs[k], plan.after), w)
  {
    var outer := Flatten(h);
    FlattenKeepsLanguage(h, w);
    var i := FirstAlternation(outer);
    if i == |outer| {
      k := 0;
      assert JobParts(outer, None, []) == outer;
    } else {
      assert outer == outer[..i] + [Alternation(outer[i].branches)] + outer[i + 1..];
      k := DistributeAlternation(outer[..i], outer[i].branches, outer[i + 1..], w);
    }
  }

  /** A word of a branch passes through one of its anchor words. */
  lemma BranchHasAnchor(b: Branch, w: Bytes) returns (x: Bytes, y: Bytes, z: Bytes)
    requires Sound(b) && InSeq(b.parts, w)
    ensures w == x + y + z && Anchored(b, x, y, z)
  {
    assert b.parts == (b.parts[..b.start] + Segment(b)) + b.parts[b.end..];
    var u: Bytes;
    u, z := InSeqSplit(b.parts[..b.start] + Segment(b), b.parts[b.end..], w);
    x, y := InSeqSplit(b.parts[..b.start], Segment(b), u);
    AnchorWordsAreExact(b, Lower(y));
  }

  /** The census of a sound branch's segment describes its words, and their lengths are 2 to 64. */
  lemma SegmentCensus(b: Branch)
    requires Sound(b)
    ensures ConcatFold(Segment(b), EMPTY_FACTS) == Some(SegmentFacts(b.parts, b.start, b.end))
    ensures Describes(SegmentFacts(b.parts, b.start, b.end), b.words)
    ensures forall i :: 0 <= i < |b.words| ==> MIN_ANCHOR_WORD_BYTES <= |b.words[i]| <= MAX_ANCHOR_WORD_BYTES
  {
    SegmentFold(b.parts, b.start, b.start, b.end);
    OneWord([]);
    ConcatCensusIsExact(Segment(b), EMPTY_FACTS, [[]]);
    ListFactsMeaning(b.words);
  }

  /** The words of a branch are exactly the lowered words of its anchor segment, each 2 to 64 bytes long. */
  lemma AnchorWordsAreExact(b: Branch, u: Word)
    requires Sound(b)
    ensures u in b.words <==> exists y :: InSeq(Segment(b), y) && Lower(y) == u
    ensures u in b.words ==> MIN_ANCHOR_WORD_BYTES <= |u| <= MAX_ANCHOR_WORD_BYTES
  {
    SegmentCensus(b);
    if u in b.words {
      var p, y := SoundConcat(Segment(b), EMPTY_FACTS, [[]], u);
      assert p == [] && [] + Lower(y) == Lower(y);
    }
    if y :| InSeq(Segment(b), y) && Lower(y) == u {
      CompleteConcat(Segment(b), EMPTY_FACTS, [[]], [], y);
      assert [] + Lower(y) == u;
    }
  }

  // ----- When a certificate is given -----

  ghost predicate HasAnchor(parts: seq<Hir>) {
    exists s: nat, e: nat :: Eligible(parts, s, e)
  }

  lemma BranchExists(parts: seq<Hir>)
    ensures BranchOf(parts).Some? <==> HasAnchor(parts)
  {
    hide BestAnchor, Eligible;
    BestAnchorIsOptimal(parts);
  }

  lemma {:induction false} BranchesExist(before: seq<Hir>, jobs: seq<Option<Hir>>, after: seq<Hir>)
    ensures BranchesOf(before, jobs, after).Some? <==> forall k :: 0 <= k < |jobs| ==> HasAnchor(JobParts(before, jobs[k], after))
  {
    hide BranchOf, JobParts, HasAnchor;
    if jobs != [] {
      BranchExists(JobParts(before, jobs[0], after));
      BranchesExist(before, jobs[1..], after);
      assert forall k :: 1 <= k < |jobs| ==> jobs[k] == jobs[1..][k - 1];
      assert forall k :: 0 <= k < |jobs[1..]| ==> jobs[1..][k] == jobs[k + 1];
    }
  }

  /** A certificate is given exactly when the expression is anchorable and every branch of its plan has an anchor. */
  lemma CertifiedByPlan(h: Hir)
    ensures CertifyOf(h).Some? <==>
      var plan := PlanOf(Flatten(h));
      Anchorable(h) && plan.Plan? && forall k :: 0 <= k < |plan.jobs| ==> HasAnchor(JobParts(plan.before, plan.jobs[k], plan.after))
  {
    hide Anchorable, PlanOf, Flatten, BranchesOf, JobParts, HasAnchor;
    var plan := PlanOf(Flatten(h));
    if plan.Plan? {
      BranchesExist(plan.before, plan.jobs, plan.after);
    }
  }

  /** An expression that flattening leaves whole and that offers no choice of branch. */
  predicate Single(h: Hir) {
    !h.Capture? && !h.Concat? && !h.Alternation?
  }

  lemma SingleIsEligible(h: Hir)
    requires FactsOf(h).Some? && FactsOf(h).value.min >= MIN_ANCHOR_WORD_BYTES
    ensures Eligible([h], 0, 1)
  {
    hide FactsOf;
    var parts, f := [h], FactsOf(h).value;
    FactsSane(h);
    assert SegmentFacts(parts, 0, 0) == EMPTY_FACTS;
    TimesIsMultiplication(1, f.count);
    TimesIsMultiplication(0, f.count);
    TimesIsMultiplication(f.total, 1);
    assert SegmentFacts(parts, 0, 1) == Product(EMPTY_FACTS, f) == f;
  }

  /** A single part that is wide enough is its own anchor. */
  lemma SingleIsCertified(h: Hir)
    requires Single(h) && Anchorable(h) && FactsOf(h).Some? && FactsOf(h).value.min >= MIN_ANCHOR_WORD_BYTES
    ensures CertifyOf(h).Some? && CertifyOf(h).value.branches == [Branch([h], 0, 1, WordsOf(h))]
  {
    hide FactsOf, WordsOf, Eligible, Anchorable, BestAnchor, ConsumableOf;
    var parts := [h];
    SingleIsEligible(h);
    BestAnchorIsOptimal(parts);
    OnlyOneSegment(parts, BestAnchor(parts).value);
    assert parts[0..1] == parts && parts[1..] == [];
    CrossUnit(WordsOf(h));
    assert CrossFold(parts, [[]]) == WordsOf(h);
    assert Flatten(h) == parts;
    assert PlanOf(parts) == Plan(parts, [None], []);
    assert JobParts(parts, None, []) == parts;
    var jobs: seq<Option<Hir>> := [None];
    assert jobs[1..] == [] && BranchesOf(parts, [], []) == Some([]);
    var b := Branch(parts, 0, 1, WordsOf(h));
    assert BranchOf(JobParts(parts, jobs[0], [])) == Some(b);
    assert BranchesOf(parts, jobs, []) == Some([b] + []);
    assert [b] + [] == [b];
  }

  lemma OnlyOneSegment(parts: seq<Hir>, a: Anchor)
    requires |parts| == 1 && Eligible(parts, a.start, a.end)
    ensures a.start == 0 && a.end == 1
  {
  }

  /** In particular every ASCII literal of 2 to 64 bytes gets a certificate. */
  lemma LiteralsAreCertified(bytes: Bytes)
    requires MIN_ANCHOR_WORD_BYTES <= |bytes| <= MAX_ANCHOR_WORD_BYTES && forall k :: 0 <= k < |bytes| ==> IsAscii(bytes[k])
    ensures CertifyOf(Literal(bytes)).Some? && CertifyOf(Literal(bytes)).value.branches == [Branch([Literal(bytes)], 0, 1, [Lower(bytes)])]
  {
    hide CertifyOf;
    var high: Byte := 200;
    assert high in Delimiters(ConsumableOf(Literal(bytes)).value);
    SingleIsCertified(Literal(bytes));
  }

  /** Every word of a certified expression is nonempty, holds no delimiter, and has an anchor in some branch. */
  lemma WordsAreAnchored(h: Hir, w: Bytes) returns (k: nat, x: Bytes, y: Bytes, z: Bytes)
    requires CertifyOf(h).Some? && InLang(h, w)
    ensures var cert := CertifyOf(h).value;
      && w == x + y + z && k < |cert.branches|
      && w != [] && (forall m :: 0 <= m < |w| ==> w[m] !in cert.delimiters)
      && Anchored(cert.branches[k], x, y, z)
  {
    hide InLang, InSeq, ConsumableOf, Flatten, PlanOf, BranchesOf, Sound;
    var plan := PlanOf(Flatten(h));
    ConsumableIsSound(h, w);
    k := MatchTakesABranch(h, w, plan);
    BranchesAreSound(plan.before, plan.jobs, plan.after, k);
    x, y, z := BranchHasAnchor(CertifyOf(h).value.branches[k], w);
  }

  /** `x`, `y` and `z` pass through the prefix, the anchor and the suffix of the branch. */
  ghost predicate Anchored(b: Branch, x: Bytes, y: Bytes, z: Bytes) {
    && Sound(b) && Lower(y) in b.words && MIN_ANCHOR_WORD_BYTES <= |y| <= MAX_ANCHOR_WORD_BYTES
    && InSeq(b.parts[..b.start], x) && InSeq(Segment(b), y) && InSeq(b.parts[b.end..], z)
  }

  /**
    Anchor candidates miss nothing. Every match span of a certified expression,
    in every haystack, is nonempty, holds no delimiter, and splits for some
    branch into prefix, anchor and suffix, where the anchor with its ASCII
    letters lowered is one of the branch's words and has 2 to 64 bytes.
   */
  lemma AnchorsMissNothing(h: Hir, env: Env, hay: Bytes, i: nat, j: nat) returns (k: nat, p: nat, q: nat)
    requires CertifyOf(h).Some? && i <= j <= |hay| && MatchSpan(env, h, hay, i, j)
    ensures var cert := CertifyOf(h).value;
      && i < j && (forall m :: i <= m < j ==> hay[m] !in cert.delimiters)
      && k < |cert.branches| && i <= p <= q <= j
      && Anchored(cert.branches[k], hay[i..p], hay[p..q], hay[q..j])
  {
    hide MatchSpan, InLang, ConsumableOf, Anchored, Plain, CertifyOf;
    var w := hay[i..j];
    CertifiedIsPlain(h);
    SpanIsLanguage(env, h, hay, i, j);
    var x, y, z;
    k, x, y, z := WordsAreAnchored(h, w);
    p, q := i + |x|, i + |x| + |y|;
    SliceOfThree(hay, i, j, x, y, z);
    forall m | i <= m < j
      ensures hay[m] !in CertifyOf(h).value.delimiters
    {
      assert hay[m] == w[m - i];
    }
  }

  lemma CertifiedIsPlain(h: Hir)
    requires CertifyOf(h).Some?
    ensures Plain(h)
  {
    hide Plain, ConsumableOf, PlannedBranches, PlanOf, Delimiters;
    PlainIsConsumable(h);
  }

  lemma SliceOfThree(hay: Bytes, i: nat, j: nat, x: Bytes, y: Bytes, z: Bytes)
    requires i <= j <= |hay| && hay[i..j] == x + y + z
    ensures i + |x| + |y| <= j
    ensures hay[i..i + |x|] == x && hay[i + |x|..i + |x| + |y|] == y && hay[i + |x| + |y|..j] == z
  {
    var w, m, n := hay[i..j], |x|, |x| + |y|;
    assert |w| == |x| + |y| + |z|;
    SliceOfSlice(hay, i, j, 0, m);
    SliceOfSlice(hay, i, j, m, n);
    SliceOfSlice(hay, i, j, n, |w|);
    assert (x + y + z)[0..m] == x && (x + y + z)[m..n] == y && (x + y + z)[n..|w|] == z;
  }

  lemma SliceOfSlice(hay: Bytes, i: nat, j: nat, m: nat, n: nat)
    requires i <= j <= |hay| && m <= n <= j - i
    ensures hay[i..j][m..n] == hay[i + m..i + n]
  {
    var inner, outer := hay[i..j][m..n], hay[i + m..i + n];
    assert |inner| == |outer|;
    forall k | 0 <= k < |inner|
      ensures inner[k] == outer[k]
    {
      assert hay[i..j][m + k] == hay[i + (m + k)];
    }
  }
}
