/**
  Exactly which expressions have a census: those made of ASCII literals of at
  most 64 bytes, nonempty ASCII classes, and repetitions with a maximum of at
  most 64, whose words, and those of every part, stay within the limits on their
  number, their bytes and their length.
 */
module ExactCensus {
  import opened Wrappers
  import opened Hir
  import opened Census
  import opened Words
  import opened AnchorLanguage
  import opened WordOrder
  import opened ExactOrder
  import opened Anchoring

  /** A list of words within the limits. */
  predicate Small(ws: seq<Word>) {
    |ws| <= 4096 && Total(ws) <= 0x10_0000 && forall i :: 0 <= i < |ws| ==> |ws[i]| <= 64
  }

  /** What a census asks of an expression, in terms of its words. */
  predicate Tractable(h: Hir)
    decreases h
  {
    match h
    case Empty => true
    case Literal(bytes) => |bytes| <= 64 && forall k :: 0 <= k < |bytes| ==> bytes[k] < 128
    case ByteClass(ranges) => (exists b: Byte :: InRanges(ranges, b)) && forall b: Byte :: InRanges(ranges, b) ==> b < 128
    case UnicodeClass(_) => false
    case Look(_) => false
    case Capture(sub) => Tractable(sub)
    case Concat(parts) => (forall k :: 0 <= k < |parts| ==> Tractable(parts[k])) && Small(WordsOf(h))
    case Alternation(branches) => branches != [] && (forall k :: 0 <= k < |branches| ==> Tractable(branches[k])) && Small(WordsOf(h))
    case Repetition(min, max, _, sub) => max.Some? && min <= max.value <= 64 && Tractable(sub) && Small(WordsOf(h))
  }

  lemma SmallIsWithin(f: Facts, ws: seq<Word>)
    requires Describes(f, ws)
    ensures Small(ws) <==> WithinLimits(f)
  {
    ListFactsMeaning(ws);
  }

  // ----- Smaller lists -----

  /** No more words, no more bytes, and no word longer than all of the other list. */
  ghost predicate Dominated(a: seq<Word>, b: seq<Word>) {
    && |a| <= |b| && Total(a) <= Total(b)
    && forall i :: 0 <= i < |a| ==> exists j :: 0 <= j < |b| && |a[i]| <= |b[j]|
  }

  lemma DominatedIsSmall(a: seq<Word>, b: seq<Word>)
    requires Dominated(a, b) && Small(b)
    ensures Small(a)
  {
  }

  lemma DominatedBy(a: seq<Word>, b: seq<Word>, c: seq<Word>)
    requires Dominated(a, b) && Dominated(b, c)
    ensures Dominated(a, c)
  {
    forall i | 0 <= i < |a|
      ensures exists j :: 0 <= j < |c| && |a[i]| <= |c[j]|
    {
      var j :| 0 <= j < |b| && |a[i]| <= |b[j]|;
      var k :| 0 <= k < |c| && |b[j]| <= |c[k]|;
    }
  }

  lemma DominatedByCross(a: seq<Word>, b: seq<Word>)
    requires b != []
    ensures Dominated(a, Cross(a, b))
  {
    hide Cross, Total;
    CrossSize(a, b);
    TotalOfCross(a, b);
    AtLeastOnce(|a|, |b|);
    AtLeastOnce(Total(a), |b|);
    forall i | 0 <= i < |a|
      ensures exists j :: 0 <= j < |Cross(a, b)| && |a[i]| <= |Cross(a, b)[j]|
    {
      CrossAt(a, b, i, 0);
      assert |Cross(a, b)[i * |b| + 0]| == |a[i]| + |b[0]|;
    }
  }

  lemma AtLeastOnce(x: nat, n: nat)
    requires n > 0
    ensures x * n >= x
  {
  }

  lemma DominatedByConcatenation(a: seq<Word>, b: seq<Word>)
    ensures Dominated(a, a + b) && Dominated(b, a + b)
  {
    TotalOfConcatenation(a, b);
    forall i | 0 <= i < |a|
      ensures exists j :: 0 <= j < |a + b| && |a[i]| <= |(a + b)[j]|
    {
      assert (a + b)[i] == a[i];
    }
    forall i | 0 <= i < |b|
      ensures exists j :: 0 <= j < |a + b| && |b[i]| <= |(a + b)[j]|
    {
      assert (a + b)[|a| + i] == b[i];
    }
  }

  // ----- The folds succeed on small lists -----

  lemma PartHasWords(h: Hir)
    requires FactsOf(h).Some?
    ensures WordsOf(h) != [] && Describes(FactsOf(h).value, WordsOf(h)) && Sane(FactsOf(h).value)
  {
    hide FactsOf, WordsOf;
    CensusIsExact(h);
    FactsSane(h);
  }

  lemma Rest(parts: seq<Hir>)
    requires parts != [] && Counted(parts)
    ensures FactsOf(parts[0]).Some? && Counted(parts[1..])
  {
    hide FactsOf;
    assert forall k :: 0 <= k < |parts[1..]| ==> parts[1..][k] == parts[k + 1];
  }

  lemma {:induction false} DominatedByFold(parts: seq<Hir>, ws: seq<Word>)
    requires Counted(parts)
    ensures Dominated(ws, CrossFold(parts, ws))
  {
    hide FactsOf, WordsOf, Dominated, Cross;
    if parts == [] {
      DominatedBySelf(ws);
    } else {
      Rest(parts);
      PartHasWords(parts[0]);
      var next := Cross(ws, WordsOf(parts[0]));
      DominatedByCross(ws, WordsOf(parts[0]));
      DominatedByFold(parts[1..], next);
      DominatedBy(ws, next, CrossFold(parts[1..], next));
    }
  }

  lemma DominatedBySelf(ws: seq<Word>)
    ensures Dominated(ws, ws)
  {
    DominatedByConcatenation(ws, []);
    assert ws + [] == ws;
  }

  /** A product of two described lists that is small has a census. */
  lemma ProductFits(f: Facts, a: seq<Word>, g: Facts, b: seq<Word>, whole: seq<Word>)
    requires Describes(f, a) && Describes(g, b) && Dominated(Cross(a, b), whole) && Small(whole)
    ensures ConcatFacts(f, g) == Some(Product(f, g)) && Describes(Product(f, g), Cross(a, b))
  {
    hide Describes, Small, Dominated, Cross;
    DescribesProduct(f, a, g, b);
    DominatedIsSmall(Cross(a, b), whole);
    SmallIsWithin(Product(f, g), Cross(a, b));
  }

  lemma {:induction false} ConcatFits(parts: seq<Hir>, acc: Facts, ws: seq<Word>)
    requires Counted(parts) && Describes(acc, ws) && Small(CrossFold(parts, ws))
    ensures ConcatFold(parts, acc).Some?
  {
    hide FactsOf, WordsOf, Dominated, Cross, Describes, Small;
    if parts != [] {
      Rest(parts);
      PartHasWords(parts[0]);
      var child, next := FactsOf(parts[0]).value, Cross(ws, WordsOf(parts[0]));
      DominatedByFold(parts[1..], next);
      ProductFits(acc, ws, child, WordsOf(parts[0]), CrossFold(parts[1..], next));
      ConcatFits(parts[1..], Product(acc, child), next);
    }
  }

  lemma {:induction false} AlternationFits(branches: seq<Hir>, acc: Facts, ws: seq<Word>)
    requires Counted(branches) && Sums(acc, ws) && Small(ws + AltWords(branches))
    ensures AltFold(branches, acc).Some?
  {
    hide FactsOf, WordsOf, Dominated, Describes, Small, Sane;
    if branches != [] {
      Rest(branches);
      PartHasWords(branches[0]);
      var first, f := WordsOf(branches[0]), FactsOf(branches[0]).value;
      var rest := AltWords(branches[1..]);
      SumsJoin(acc, ws, f, first);
      assert ws + AltWords(branches) == (ws + first) + rest;
      DominatedByConcatenation(ws + first, rest);
      DominatedIsSmall(ws + first, (ws + first) + rest);
      SmallIsWithin(Join(acc, f), ws + first);
      assert ws + first != [];
      AlternationFits(branches[1..], Join(acc, f), ws + first);
    }
  }

  lemma {:induction false} PowerFits(child: Facts, cs: seq<Word>, n: nat, acc: Facts, ws: seq<Word>)
    requires Describes(child, cs) && Describes(acc, ws) && Small(Cross(ws, Power(cs, n)))
    ensures PowerFold(child, n, acc).Some?
  {
    hide Dominated, Cross, Describes, Small, Power;
    if n > 0 {
      DescribedHasWords(child, cs);
      PowerUnfolds(cs, n);
      PowerHasWords(cs, n - 1);
      CrossAssociates(ws, cs, Power(cs, n - 1));
      DominatedByCross(Cross(ws, cs), Power(cs, n - 1));
      ProductFits(acc, ws, child, cs, Cross(ws, Power(cs, n)));
      PowerFits(child, cs, n - 1, Product(acc, child), Cross(ws, cs));
    }
  }

  lemma DescribedHasWords(f: Facts, ws: seq<Word>)
    requires Describes(f, ws)
    ensures ws != []
  {
  }

  lemma PowerUnfolds(cs: seq<Word>, n: nat)
    requires n > 0
    ensures Power(cs, n) == Cross(cs, Power(cs, n - 1))
  {
  }

  lemma {:induction false} PowerHasWords(cs: seq<Word>, n: nat)
    requires cs != []
    ensures Power(cs, n) != []
  {
    if n > 0 {
      PowerHasWords(cs, n - 1);
      CrossSize(cs, Power(cs, n - 1));
      AtLeastOnce(|cs|, |Power(cs, n - 1)|);
    }
  }

  lemma {:induction false} RepetitionFits(child: Facts, cs: seq<Word>, count: nat, max: nat, acc: Facts, ws: seq<Word>)
    requires Describes(child, cs) && Sane(child) && Sums(acc, ws) && Small(ws + PowersUp(cs, count, max))
    ensures RepFold(child, count, max, acc).Some?
    decreases max + 1 - count
  {
    hide Dominated, Describes, Small, Sane, Power, Sums, PowerFold, Cross;
    if count <= max {
      var power, rest := Power(cs, count), PowersUp(cs, count + 1, max);
      assert ws + PowersUp(cs, count, max) == (ws + power) + rest;
      DominatedByConcatenation(ws + power, rest);
      DominatedIsSmall(ws + power, (ws + power) + rest);
      DominatedByConcatenation(ws, power);
      DominatedIsSmall(power, ws + power);
      OnePowerFits(child, cs, count);
      var next := PowerJoins(child, cs, count, acc, ws);
      SumsAreDescribed(next, ws + power);
      SmallIsWithin(next, ws + power);
      RepetitionFits(child, cs, count + 1, max, next, ws + power);
    }
  }

  lemma SumsAreDescribed(f: Facts, ws: seq<Word>)
    requires Sums(f, ws) && ws != []
    ensures Describes(f, ws)
  {
  }

  lemma OnePowerFits(child: Facts, cs: seq<Word>, n: nat)
    requires Describes(child, cs) && Small(Power(cs, n))
    ensures PowerFold(child, n, EMPTY_FACTS).Some?
  {
    hide Describes, Small, Power, PowerFold, Cross;
    OneWord([]);
    CrossUnit(Power(cs, n));
    PowerFits(child, cs, n, EMPTY_FACTS, [[]]);
  }

  /** The same words, counted up or down. */
  lemma {:induction false} SameMembers(ws: seq<Word>, min: nat, max: int, w: Word)
    ensures w in PowersDown(ws, min, max) <==> w in PowersUp(ws, min, max)
    decreases max + 1 - min
  {
    hide Power;
    if min <= max {
      PowersDownSnoc(ws, min, max);
      SameMembers(ws, min + 1, max, w);
    }
  }

  lemma SmallUpAndDown(ws: seq<Word>, min: nat, max: int)
    ensures Small(PowersDown(ws, min, max)) <==> Small(PowersUp(ws, min, max))
  {
    hide PowersDown, PowersUp, Total;
    var down, up := PowersDown(ws, min, max), PowersUp(ws, min, max);
    UpIsAlikeDown(ws, min, max);
    if Small(up) {
      forall i | 0 <= i < |down| ensures |down[i]| <= 64 {
        SameMembers(ws, min, max, down[i]);
      }
    }
    if Small(down) {
      forall i | 0 <= i < |up| ensures |up[i]| <= 64 {
        SameMembers(ws, min, max, up[i]);
      }
    }
  }

  // ----- Which expressions have a census -----

  lemma {:induction false} SomeAreCounted(norm: seq<bool>, k: nat)
    requires k < |norm| && norm[k]
    ensures CountSet(norm) > 0
  {
    if k > 0 {
      SomeAreCounted(norm[1..], k - 1);
    }
  }

  lemma ClassSucceedsExactly(ranges: seq<(Byte, Byte)>)
    ensures FactsOf(ByteClass(ranges)).Some? <==> Tractable(ByteClass(ranges))
  {
    hide Normalized, CountSet;
    var bytes := ClassBytes(ranges);
    var norm := Normalized(bytes, NoBytes());
    forall b: Byte ensures InRanges(ranges, b) <==> b in bytes {
      ClassBytesAreMembers(ranges, b);
    }
    if !AllAscii(bytes) {
      NormalizedRejects(bytes, NoBytes());
      var k :| 0 <= k < |bytes| && bytes[k] >= 128;
      assert InRanges(ranges, bytes[k]);
    } else if bytes == [] {
      assert norm == NoBytes() by { NothingNormalized(); }
      CountSetNone(norm);
    } else {
      NormalizedMembers(bytes, NoBytes(), LowerByte(bytes[0]));
      SomeAreCounted(norm, LowerByte(bytes[0]) as nat);
      assert InRanges(ranges, bytes[0]);
    }
  }

  lemma NothingNormalized()
    ensures Normalized([], NoBytes()) == NoBytes()
  {
  }

  /** A census succeeds exactly on the tractable expressions. */
  lemma {:induction false} CensusSucceedsExactly(h: Hir)
    ensures FactsOf(h).Some? <==> Tractable(h)
    decreases h
  {
    hide Small, Describes, Sane, ConcatFold, AltFold, RepFold, CountSet, Normalized, CrossFold, PowersUp, PowersDown;
    match h
    case Empty =>
    case Literal(_) =>
    case ByteClass(ranges) => ClassSucceedsExactly(ranges);
    case UnicodeClass(_) =>
    case Look(_) =>
    case Capture(sub) => CensusSucceedsExactly(sub);
    case Concat(parts) =>
      forall k | 0 <= k < |parts| ensures FactsOf(parts[k]).Some? <==> Tractable(parts[k]) {
        CensusSucceedsExactly(parts[k]);
      }
      ConcatSucceedsExactly(parts);
    case Alternation(branches) =>
      forall k | 0 <= k < |branches| ensures FactsOf(branches[k]).Some? <==> Tractable(branches[k]) {
        CensusSucceedsExactly(branches[k]);
      }
      AlternationSucceedsExactly(branches);
    case Repetition(min, max, greedy, sub) =>
      CensusSucceedsExactly(sub);
      RepetitionSucceedsExactly(min, max, greedy, sub);
  }

  lemma SuccessIsSmall(h: Hir)
    requires FactsOf(h).Some?
    ensures Small(WordsOf(h))
  {
    hide FactsOf, WordsOf, Small, Describes;
    PartHasWords(h);
    SmallIsWithin(FactsOf(h).value, WordsOf(h));
  }

  lemma ConcatSucceedsExactly(parts: seq<Hir>)
    ensures FactsOf(Concat(parts)).Some? <==> Counted(parts) && Small(WordsOf(Concat(parts)))
  {
    hide ConcatFold, Small, Describes, CrossFold;
    var h := Concat(parts);
    if FactsOf(h).Some? {
      ConcatIsCounted(parts, EMPTY_FACTS);
      SuccessIsSmall(h);
    }
    if Counted(parts) && Small(WordsOf(h)) {
      OneWord([]);
      ConcatFits(parts, EMPTY_FACTS, [[]]);
    }
  }

  lemma AlternationSucceedsExactly(branches: seq<Hir>)
    ensures FactsOf(Alternation(branches)).Some? <==>
      branches != [] && Counted(branches) && Small(WordsOf(Alternation(branches)))
  {
    hide AltFold, Small, Describes, AltWords;
    var h := Alternation(branches);
    if FactsOf(h).Some? {
      AlternationIsCounted(branches, NO_FACTS);
      SuccessIsSmall(h);
    }
    if branches != [] && Counted(branches) && Small(WordsOf(h)) {
      assert [] + AltWords(branches) == AltWords(branches);
      AlternationFits(branches, NO_FACTS, []);
    }
  }

  lemma RepetitionSucceedsExactly(min: nat, max: Option<nat>, greedy: bool, sub: Hir)
    ensures FactsOf(Repetition(min, max, greedy, sub)).Some? <==>
      max.Some? && min <= max.value <= 64 && FactsOf(sub).Some? && Small(WordsOf(Repetition(min, max, greedy, sub)))
  {
    hide RepFold, Small, Describes, PowersUp, PowersDown;
    var h := Repetition(min, max, greedy, sub);
    if FactsOf(h).Some? {
      SuccessIsSmall(h);
    }
    if Repeatable(min, max) && FactsOf(sub).Some? && Small(WordsOf(h)) {
      var ws := WordsOf(sub);
      PartHasWords(sub);
      SmallUpAndDown(ws, min, max.value);
      assert [] + PowersUp(ws, min, max.value) == PowersUp(ws, min, max.value);
      RepetitionFits(FactsOf(sub).value, ws, min, max.value, NO_FACTS, []);
    }
  }

  // ----- Which segments can serve as anchor -----

  lemma {:induction false} SegmentIsDescribed(parts: seq<Hir>, start: nat, middle: nat, end: nat, ws: seq<Word>)
    requires start <= middle <= end <= |parts| && Finite(parts, start, end)
    requires Describes(SegmentFacts(parts, start, middle), ws)
    ensures Describes(SegmentFacts(parts, start, end), CrossFold(parts[middle..end], ws))
    decreases end - middle
  {
    hide FactsOf, WordsOf, Describes, Cross, Product;
    var segment := parts[middle..end];
    if middle < end {
      assert segment[0] == parts[middle] && segment[1..] == parts[middle + 1..end];
      PartHasWords(parts[middle]);
      DescribesProduct(SegmentFacts(parts, start, middle), ws, FactsOf(parts[middle]).value, WordsOf(parts[middle]));
      SegmentIsDescribed(parts, start, middle + 1, end, Cross(ws, WordsOf(parts[middle])));
    }
  }

  /** A segment is eligible exactly when it is not empty, tractable as a whole, and has no word below two bytes. */
  lemma EligibleExactly(parts: seq<Hir>, start: nat, end: nat)
    ensures Eligible(parts, start, end) <==>
      && start < end <= |parts| && Tractable(Concat(parts[start..end]))
      && forall w :: w in WordsOf(Concat(parts[start..end])) ==> |w| >= 2
  {
    if start < end <= |parts| {
      hide FactsOf, Describes, Small, CrossFold, SegmentFacts;
      var segment := parts[start..end];
      var ws := WordsOf(Concat(segment));
      forall k | 0 <= k < |segment| ensures FactsOf(segment[k]).Some? <==> Tractable(segment[k]) {
        CensusSucceedsExactly(segment[k]);
      }
      assert forall k :: start <= k < end ==> parts[k] == segment[k - start];
      assert Finite(parts, start, end) <==> forall k :: 0 <= k < |segment| ==> Tractable(segment[k]);
      if Finite(parts, start, end) {
        EmptySegment(parts, start, end);
        SegmentIsDescribed(parts, start, start, end, [[]]);
        LengthsAreDescribed(SegmentFacts(parts, start, end), ws);
        SmallIsWithin(SegmentFacts(parts, start, end), ws);
      }
    }
  }

  lemma EmptySegment(parts: seq<Hir>, start: nat, end: nat)
    requires start <= end <= |parts| && Finite(parts, start, end)
    ensures Describes(SegmentFacts(parts, start, start), [[]])
  {
    OneWord([]);
  }

  lemma LengthsAreDescribed(f: Facts, ws: seq<Word>)
    requires Describes(f, ws)
    ensures f.min >= 2 <==> forall w :: w in ws ==> |w| >= 2
  {
    ListFactsMeaning(ws);
  }
}
