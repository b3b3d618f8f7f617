/**
  The order of a certificate's words: exactly when it is backtracking order,
  and certified expressions for which it is not.
 */
module Disorder {
  import opened Wrappers
  import opened Hir
  import opened Metering
  import opened Census
  import opened Words
  import opened Consuming
  import opened Anchoring
  import opened Certifying
  import opened WordOrder
  import opened ExactOrder

  /** The words of a branch are in backtracking order if and only if every part of its anchor is ordered. */
  lemma AnchorOrderIsExact(b: Branch)
    requires Sound(b)
    ensures b.words == BacktrackSeq(Segment(b)) <==> forall k :: 0 <= k < |Segment(b)| ==> Ordered(Segment(b)[k])
  {
    hide FactsOf, Ordered, BacktrackSeq, CrossFold, WithinLimits, SegmentFacts;
    var parts := Segment(b);
    forall k | 0 <= k < |parts|
      ensures FactsOf(parts[k]).Some?
    {
      assert parts[k] == b.parts[b.start + k];
    }
    SequenceIsExact(parts);
    FoldIsSequence(parts, [[]]);
    CrossUnit(SeqWords(parts));
  }

  /** A repetition that is certified as one part keeps its words in backtracking order exactly when it is ordered. */
  lemma CertifiedRepetitionOrder(h: Hir)
    requires h.Repetition? && Anchorable(h) && FactsOf(h).Some? && FactsOf(h).value.min >= MIN_ANCHOR_WORD_BYTES
    ensures CertifyOf(h).Some? && |CertifyOf(h).value.branches| == 1
    ensures var b := CertifyOf(h).value.branches[0];
      b == Branch([h], 0, 1, WordsOf(h)) && (b.words == BacktrackSeq([h]) <==> Ordered(h))
  {
    hide FactsOf, WordsOf, Backtrack, Ordered, Anchorable, CertifyOf;
    SingleIsCertified(h);
    OrderIsExact(h);
    var parts := [h];
    assert parts[1..] == [];
    CrossWithUnit(Backtrack(h));
  }

  // ----- Two words, once or twice -----

  /** `(?:a|b)` for two literals. */
  function Choice(a: Bytes, b: Bytes): Hir {
    Alternation([Literal(a), Literal(b)])
  }

  function OnceOrTwice(a: Bytes, b: Bytes, greedy: bool): Hir {
    Repetition(1, Some(2), greedy, Choice(a, b))
  }

  /** An ASCII word that can be used twice in an anchor word. */
  predicate Half(a: Bytes) {
    MIN_ANCHOR_WORD_BYTES <= |a| && 2 * |a| <= MAX_ANCHOR_WORD_BYTES && forall k :: 0 <= k < |a| ==> IsAscii(a[k])
  }

  lemma HalfFacts(a: Bytes)
    requires Half(a)
    ensures FactsOf(Literal(a)) == Some(Facts(1, |a|, |a|, |a|))
  {
  }

  lemma ChoiceFacts(a: Bytes, b: Bytes)
    requires Half(a) && Half(b)
    ensures FactsOf(Choice(a, b)) == Some(Facts(2, |a| + |b|, Min(|a|, |b|), Max(|a|, |b|)))
  {
    var branches := [Literal(a), Literal(b)];
    assert branches[1..] == [Literal(b)] && branches[1..][1..] == [];
    HalfFacts(a);
    HalfFacts(b);
    hide FactsOf;
    var one := Facts(1, |a|, |a|, |a|);
    assert AltNext(FactsOf(branches[0]), NO_FACTS) == Some(one);
    var two := Join(one, Facts(1, |b|, |b|, |b|));
    assert AltNext(FactsOf(branches[1]), one) == Some(two);
    assert AltFold(branches, NO_FACTS) == AltFold(branches[1..], one) == AltFold([], two) == Some(two);
    FactsOfAlternation(branches);
  }

  lemma FactsOfAlternation(branches: seq<Hir>)
    requires branches != []
    ensures FactsOf(Alternation(branches)) == AltFold(branches, NO_FACTS)
  {
    hide AltFold;
  }

  lemma ChoiceWords(a: Bytes, b: Bytes)
    ensures WordsOf(Choice(a, b)) == [Lower(a), Lower(b)] && Ordered(Choice(a, b))
  {
    var branches := [Literal(a), Literal(b)];
    assert branches[1..] == [Literal(b)] && branches[1..][1..] == [];
    assert WordsOf(Literal(a)) == [Lower(a)] && WordsOf(Literal(b)) == [Lower(b)];
    assert Ordered(branches[0]) && Ordered(branches[1]);
    hide WordsOf, Ordered;
    assert AltWords([]) == [] && AltWords([Literal(b)]) == [Lower(b)] + [] == [Lower(b)];
    assert AltWords(branches) == [Lower(a)] + [Lower(b)] == [Lower(a), Lower(b)];
    WordsOfAlternation(branches);
  }

  lemma WordsOfAlternation(branches: seq<Hir>)
    ensures WordsOf(Alternation(branches)) == AltWords(branches)
    ensures (forall k :: 0 <= k < |branches| ==> Ordered(branches[k])) ==> Ordered(Alternation(branches))
  {
    hide AltWords;
  }

  /** One or two uses of two words of at least two bytes have a census, of width two at least. */
  lemma TwiceFacts(c: Facts, once: nat, twice: nat)
    requires once == 1 && twice == 2 && c.count == 2 && 0 <= c.total <= MAX_ANCHOR_WORD_BYTES
    requires MIN_ANCHOR_WORD_BYTES <= c.min <= c.max && 2 * c.max <= MAX_ANCHOR_WORD_BYTES
    ensures RepFold(c, once, twice, NO_FACTS).Some? && RepFold(c, once, twice, NO_FACTS).value.min >= MIN_ANCHOR_WORD_BYTES
  {
    hide Times, PowerFold;
    OnceFacts(c);
    var first := Join(NO_FACTS, c);
    var square := Product(c, c);
    TimesIsMultiplication(c.count, c.count);
    TimesIsMultiplication(c.total, c.count);
    assert RepFold(c, once, twice, NO_FACTS) == RepFold(c, once + 1, twice, first);
    assert RepFold(c, twice, twice, first) == RepFold(c, twice + 1, twice, Join(first, square));
  }

  lemma OnceFacts(c: Facts)
    requires c.count == 2 && 0 <= c.total <= MAX_ANCHOR_WORD_BYTES
    requires MIN_ANCHOR_WORD_BYTES <= c.min <= c.max && 2 * c.max <= MAX_ANCHOR_WORD_BYTES
    ensures PowerFold(c, 1, EMPTY_FACTS) == Some(c) && PowerFold(c, 2, EMPTY_FACTS) == Some(Product(c, c))
    ensures WithinLimits(Product(c, c))
  {
    hide Times;
    TimesIsMultiplication(1, c.count);
    TimesIsMultiplication(0, c.count);
    TimesIsMultiplication(c.total, 1);
    TimesIsMultiplication(c.count, c.count);
    TimesIsMultiplication(c.total, c.count);
    assert Product(EMPTY_FACTS, c) == c && ConcatFacts(EMPTY_FACTS, c) == Some(c);
    assert PowerFold(c, 0, c) == Some(c) && PowerFold(c, 0, Product(c, c)) == Some(Product(c, c));
    assert PowerFold(c, 1, c) == Some(Product(c, c));
  }

  lemma OnceOrTwiceFacts(a: Bytes, b: Bytes, greedy: bool)
    requires Half(a) && Half(b)
    ensures var h := OnceOrTwice(a, b, greedy); FactsOf(h).Some? && FactsOf(h).value.min >= MIN_ANCHOR_WORD_BYTES
  {
    hide RepFold, FactsOf, Half;
    ChoiceFacts(a, b);
    HalfLengths(a);
    HalfLengths(b);
    TwiceFacts(FactsOf(Choice(a, b)).value, 1, 2);
    FactsOfRepetition(1, 2, greedy, Choice(a, b));
  }

  lemma HalfLengths(a: Bytes)
    requires Half(a)
    ensures MIN_ANCHOR_WORD_BYTES <= |a| && 2 * |a| <= MAX_ANCHOR_WORD_BYTES
  {
  }

  lemma FactsOfRepetition(min: nat, max: nat, greedy: bool, sub: Hir)
    requires min <= max <= MAX_ANCHOR_WORD_BYTES
    ensures FactsOf(Repetition(min, Some(max), greedy, sub)) == RepetitionFacts(FactsOf(sub), min, max)
  {
    hide RepetitionFacts;
  }

  lemma OnceOrTwiceIsAnchorable(a: Bytes, b: Bytes, greedy: bool)
    requires Half(a) && Half(b)
    ensures Anchorable(OnceOrTwice(a, b, greedy))
  {
    hide Delimiters;
    var branches := [Literal(a), Literal(b)];
    assert branches[1..] == [Literal(b)] && branches[1..][1..] == [];
    var c := Consumable(SetOf(a) + SetOf(b), false);
    assert EitherFold([], c) == Some(c);
    assert EitherFold(branches[1..], Consumable(SetOf(a), false)) == Some(c);
    assert ConsumableOf(Choice(a, b)) == Some(c);
    var h := OnceOrTwice(a, b, greedy);
    assert ConsumableOf(h) == Some(c);
    HighByteIsFree(a, b);
  }

  lemma HighByteIsFree(a: Bytes, b: Bytes)
    requires Half(a) && Half(b)
    ensures Delimiters(Consumable(SetOf(a) + SetOf(b), false)) != {}
  {
    var high: Byte := 200;
    assert high in Delimiters(Consumable(SetOf(a) + SetOf(b), false));
  }

  /**
    Any two ASCII words of 2 to 32 bytes, as in `(?:ab|cd){1,2}`, greedy or
    lazy: the repetition is certified, and its words are not in backtracking
    order.
   */
  lemma OnceOrTwiceIsOutOfOrder(a: Bytes, b: Bytes, greedy: bool)
    requires Half(a) && Half(b)
    ensures var h := OnceOrTwice(a, b, greedy);
      && CertifyOf(h).Some? && |CertifyOf(h).value.branches| == 1
      && CertifyOf(h).value.branches[0].words == WordsOf(h) != BacktrackSeq([h])
  {
    hide FactsOf, WordsOf, Anchorable, CertifyOf, BacktrackSeq;
    var h := OnceOrTwice(a, b, greedy);
    OnceOrTwiceFacts(a, b, greedy);
    OnceOrTwiceIsAnchorable(a, b, greedy);
    ChoiceWords(a, b);
    CertifiedRepetitionOrder(h);
    var ws := WordsOf(Choice(a, b));
    assert |ws[0]| == |a| && !AllEmpty(ws);
    assert !Ordered(h);
  }
}
