/**
  Exactly which expressions are certified, and exactly what their certificates
  hold, in terms of the language and of the flattened parts.
 */
module ExactCertifying {
  import opened Wrappers
  import opened Hir
  import opened Consuming
  import opened ExactConsuming
  import opened Flattening
  import opened Anchoring
  import opened Certifying

  // ----- The flattened parts -----

  /** Flattening opens every capture and every concatenation on the way. */
  lemma {:induction false} FlattenIsFlat(h: Hir)
    ensures forall k :: 0 <= k < |Flatten(h)| ==> !Flatten(h)[k].Capture? && !Flatten(h)[k].Concat?
    decreases h, 0
  {
    match h
    case Capture(sub) => FlattenIsFlat(sub);
    case Concat(parts) => FlattenAllIsFlat(parts);
    case _ =>
  }

  lemma {:induction false} FlattenAllIsFlat(parts: seq<Hir>)
    ensures forall k :: 0 <= k < |FlattenAll(parts)| ==> !FlattenAll(parts)[k].Capture? && !FlattenAll(parts)[k].Concat?
    decreases parts, 0
  {
    if parts != [] {
      FlattenIsFlat(parts[0]);
      FlattenAllIsFlat(parts[1..]);
    }
  }

  predicate NoAlternation(outer: seq<Hir>) {
    forall i :: 0 <= i < |outer| ==> !outer[i].Alternation?
  }

  predicate FirstAlternationAt(outer: seq<Hir>, k: int) {
    0 <= k < |outer| && outer[k].Alternation? && forall i :: 0 <= i < k ==> !outer[i].Alternation?
  }

  /** The parts with part `k` replaced by the parts of one alternative. */
  function Replaced(outer: seq<Hir>, k: nat, alternative: Hir): seq<Hir>
    requires k < |outer|
  {
    outer[..k] + Flatten(alternative) + outer[k + 1..]
  }

  lemma PlanWithout(outer: seq<Hir>)
    requires NoAlternation(outer)
    ensures PlanOf(outer) == Plan(outer, [None], []) && JobParts(outer, None, []) == outer
  {
  }

  lemma PlanWith(outer: seq<Hir>, k: nat)
    requires FirstAlternationAt(outer, k)
    ensures PlanOf(outer).Plan? <==> 2 <= |outer[k].branches| <= 8
    ensures PlanOf(outer).Plan? ==>
      var plan := PlanOf(outer);
      && |plan.jobs| == |outer[k].branches|
      && forall i :: 0 <= i < |plan.jobs| ==>
           JobParts(plan.before, plan.jobs[i], plan.after) == Replaced(outer, k, outer[k].branches[i])
  {
    hide Flatten;
    assert FirstAlternation(outer) == k;
  }

  // ----- When a certificate is given -----

  /** No word of the expression holds the byte. */
  ghost predicate Avoids(h: Hir, b: Byte) {
    forall w :: InLang(h, w) ==> b !in w
  }

  /** Every branch of the flattened parts has an anchor, and there are not too few or too many alternatives. */
  ghost predicate Branches(outer: seq<Hir>) {
    && (NoAlternation(outer) ==> HasAnchor(outer))
    && forall k :: FirstAlternationAt(outer, k) ==>
         && 2 <= |outer[k].branches| <= 8
         && forall i :: 0 <= i < |outer[k].branches| ==> HasAnchor(Replaced(outer, k, outer[k].branches[i]))
  }

  lemma AlternationOrNot(outer: seq<Hir>) returns (k: nat)
    ensures k == |outer| ==> NoAlternation(outer)
    ensures k != |outer| ==> FirstAlternationAt(outer, k)
  {
    k := FirstAlternation(outer);
  }

  lemma BranchesByPlan(outer: seq<Hir>)
    ensures Branches(outer) <==>
      var plan := PlanOf(outer);
      plan.Plan? && forall k :: 0 <= k < |plan.jobs| ==> HasAnchor(JobParts(plan.before, plan.jobs[k], plan.after))
  {
    hide PlanOf, JobParts, HasAnchor, Replaced;
    var k := AlternationOrNot(outer);
    var plan := PlanOf(outer);
    if k == |outer| {
      PlanWithout(outer);
      assert plan.jobs[0] == None && JobParts(plan.before, plan.jobs[0], plan.after) == outer;
      assert forall j :: !FirstAlternationAt(outer, j);
    } else {
      PlanWith(outer, k);
      assert forall j :: FirstAlternationAt(outer, j) ==> j == k;
    }
  }

  lemma AnchorableIsExact(h: Hir)
    requires Possible(h)
    ensures Anchorable(h) <==> Analyzable(h) && !InLang(h, []) && exists b: Byte :: !Writes(h, b)
  {
    hide ConsumableOf, InLang, Analyzable, Possible, Writes;
    AnswersAreExact(h);
    if ConsumableOf(h).Some? {
      NullableIsExact(h);
      forall b: Byte
        ensures b in Delimiters(ConsumableOf(h).value) <==> !Writes(h, b)
      {
        BytesAreWritten(h, b);
      }
      var delimiters := Delimiters(ConsumableOf(h).value);
      if delimiters != {} {
        var b :| b in delimiters;
        assert !Writes(h, b);
      }
      if b: Byte :| !Writes(h, b) {
        assert b in delimiters;
      }
    }
  }

  /** In a proper expression each byte that is written is in some word. */
  lemma AvoidsOrWrites(h: Hir, b: Byte)
    requires Analyzable(h) && Proper(h)
    ensures Avoids(h, b) <==> !Writes(h, b)
  {
    hide ConsumableOf, InLang, Analyzable, Proper, Writes;
    AnswersAreExact(h);
    BytesAreExact(h, b);
    BytesAreWritten(h, b);
  }

  /**
    An expression gets a certificate exactly when it has no assertion, Unicode
    class or empty alternation; it does not match the empty string; some byte is
    in none of its literals and classes; and, among its flattened parts, there
    is no alternation and some segment is eligible, or the first alternation has
    2 to 8 alternatives and each of them, in its place, leaves some segment
    eligible.
   */
  lemma CertifiedExactly(h: Hir)
    requires Possible(h)
    ensures CertifyOf(h).Some? <==>
      Analyzable(h) && !InLang(h, []) && (exists b: Byte :: !Writes(h, b)) && Branches(Flatten(h))
  {
    hide Anchorable, PlanOf, JobParts, HasAnchor, Branches, Flatten, CertifyOf, Possible, Analyzable, InLang, Writes;
    CertifiedByPlan(h);
    AnchorableIsExact(h);
    BranchesByPlan(Flatten(h));
  }

  /** The same for a proper expression, with the words in place of literals and classes. */
  lemma ProperCertifiedExactly(h: Hir)
    requires Proper(h)
    ensures CertifyOf(h).Some? <==>
      Analyzable(h) && !InLang(h, []) && (exists b: Byte :: Avoids(h, b)) && Branches(Flatten(h))
  {
    hide Branches, Flatten, CertifyOf, Proper, Possible, Analyzable, InLang, Avoids, Writes;
    ProperIsPossible(h);
    CertifiedExactly(h);
    if Analyzable(h) {
      if b: Byte :| !Writes(h, b) {
        AvoidsOrWrites(h, b);
      }
      if b: Byte :| Avoids(h, b) {
        AvoidsOrWrites(h, b);
      }
    }
  }

  // ----- What it holds -----

  /** The anchor is eligible, and no eligible segment is wider, or as wide with fewer words. */
  ghost predicate IsBest(b: Branch) {
    && Eligible(b.parts, b.start, b.end)
    && forall s: nat, e: nat :: Eligible(b.parts, s, e) ==>
         var mine, other := SegmentFacts(b.parts, b.start, b.end), SegmentFacts(b.parts, s, e);
         other.min < mine.min || (other.min == mine.min && other.count >= mine.count)
  }

  lemma BranchIsBest(parts: seq<Hir>)
    requires BranchOf(parts).Some?
    ensures IsBest(BranchOf(parts).value) && BranchOf(parts).value.parts == parts
  {
    hide Eligible, SegmentFacts;
    BestAnchorIsOptimal(parts);
  }

  lemma {:induction false} BranchesAreBest(before: seq<Hir>, jobs: seq<Option<Hir>>, after: seq<Hir>, k: nat)
    requires BranchesOf(before, jobs, after).Some? && k < |jobs|
    ensures var bs := BranchesOf(before, jobs, after).value;
      |bs| == |jobs| && IsBest(bs[k]) && bs[k].parts == JobParts(before, jobs[k], after)
  {
    hide BranchOf, IsBest, JobParts;
    BranchIsBest(JobParts(before, jobs[0], after));
    if k > 0 {
      BranchesAreBest(before, jobs[1..], after, k - 1);
    } else if |jobs| > 1 {
      BranchesAreBest(before, jobs[1..], after, 0);
    }
  }

  /** One branch over the flattened parts, or one for each alternative; each with the best anchor. */
  lemma CertificateBranches(h: Hir)
    requires CertifyOf(h).Some?
    ensures var outer, bs := Flatten(h), CertifyOf(h).value.branches;
      && (NoAlternation(outer) ==> |bs| == 1 && bs[0].parts == outer)
      && (forall k :: FirstAlternationAt(outer, k) ==>
            && |bs| == |outer[k].branches|
            && forall i :: 0 <= i < |bs| ==> bs[i].parts == Replaced(outer, k, outer[k].branches[i]))
      && (forall i :: 0 <= i < |bs| ==> IsBest(bs[i]))
  {
    hide Flatten, JobParts, Replaced, IsBest, BranchesOf, PlanOf, Anchorable;
    var outer, plan := Flatten(h), PlanOf(Flatten(h));
    var bs := CertifyOf(h).value.branches;
    assert plan.Plan? && BranchesOf(plan.before, plan.jobs, plan.after) == Some(bs);
    hide CertifyOf;
    var k := AlternationOrNot(outer);
    if k == |outer| {
      PlanWithout(outer);
    } else {
      PlanWith(outer, k);
      assert forall j :: FirstAlternationAt(outer, j) ==> j == k;
    }
    forall i | 0 <= i < |plan.jobs|
      ensures |bs| == |plan.jobs| && IsBest(bs[i]) && bs[i].parts == JobParts(plan.before, plan.jobs[i], plan.after)
    {
      BranchesAreBest(plan.before, plan.jobs, plan.after, i);
    }
    assert |plan.jobs| > 0;
    BranchesAreBest(plan.before, plan.jobs, plan.after, 0);
  }

  /** Delimiters are the bytes in no literal and no class; for a proper expression, the bytes in none of its words. */
  lemma CertificateDelimiters(h: Hir, b: Byte)
    requires CertifyOf(h).Some?
    ensures b in CertifyOf(h).value.delimiters <==> !Writes(h, b)
    ensures Proper(h) ==> (b in CertifyOf(h).value.delimiters <==> Avoids(h, b))
  {
    hide ConsumableOf, PlanOf, PlannedBranches, Flatten, InLang, Proper, Writes, Avoids;
    BytesAreWritten(h, b);
    if Proper(h) {
      AnswersAreExact(h);
      AvoidsOrWrites(h, b);
    }
  }
}
