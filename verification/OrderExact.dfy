/**
  Exactly when the materialized words of an expression are in backtracking
  order: when every repetition in it that repeats at all is ordered
  (`OrderIsExact`).
 */
module ExactOrder {
  import opened Hir
  import opened Census
  import opened Words
  import opened WordOrder

  // ----- Lists of the same size -----

  /** As many words, and as many bytes in all. */
  predicate Alike(a: seq<Word>, b: seq<Word>) {
    |a| == |b| && Total(a) == Total(b)
  }

  lemma {:induction false} TotalOfConcatenation(a: seq<Word>, b: seq<Word>)
    ensures Total(a + b) == Total(a) + Total(b)
  {
    if a == [] {
      assert a + b == b;
    } else {
      assert (a + b)[1..] == a[1..] + b;
      TotalOfConcatenation(a[1..], b);
    }
  }

  lemma {:induction false} TotalOfPrefixed(p: Word, b: seq<Word>)
    ensures Total(Prefixed(p, b)) == |p| * |b| + Total(b)
  {
    if b != [] {
      TotalOfPrefixed(p, b[1..]);
      assert Prefixed(p, b)[1..] == Prefixed(p, b[1..]);
      assert |p| * |b| == |p| + |p| * |b[1..]|;
    }
  }

  lemma {:induction false} TotalOfCross(a: seq<Word>, b: seq<Word>)
    ensures Total(Cross(a, b)) == Total(a) * |b| + |a| * Total(b)
  {
    if a != [] {
      var rest := a[1..];
      TotalOfCross(rest, b);
      TotalOfPrefixed(a[0], b);
      TotalOfConcatenation(Prefixed(a[0], b), Cross(rest, b));
      BlockAndRest(|a[0]|, Total(rest), |rest|, |b|, Total(b));
    }
  }

  lemma BlockAndRest(first: nat, rest: nat, words: nat, size: nat, total: nat)
    ensures (first * size + total) + (rest * size + words * total) == (first + rest) * size + (words + 1) * total
  {
    Distribute(size, first, rest);
    Distribute(total, words, 1);
  }

  lemma AlikeConcatenation(a: seq<Word>, b: seq<Word>, c: seq<Word>, d: seq<Word>)
    requires Alike(a, c) && Alike(b, d)
    ensures Alike(a + b, c + d) && Alike(a + b, d + c)
  {
    TotalOfConcatenation(a, b);
    TotalOfConcatenation(c, d);
    TotalOfConcatenation(d, c);
  }

  lemma AlikeCross(a: seq<Word>, b: seq<Word>, c: seq<Word>, d: seq<Word>)
    requires Alike(a, c) && Alike(b, d)
    ensures Alike(Cross(a, b), Cross(c, d))
  {
    hide Cross, Total;
    CrossSize(a, b);
    CrossSize(c, d);
    TotalOfCross(a, b);
    TotalOfCross(c, d);
  }

  lemma CrossDistributes(a: seq<Word>, b: seq<Word>, c: seq<Word>)
    ensures Alike(Cross(a, b + c), Cross(a, b) + Cross(a, c))
  {
    hide Cross, Total;
    CrossSize(a, b + c);
    CrossSize(a, b);
    CrossSize(a, c);
    TotalOfCross(a, b + c);
    TotalOfCross(a, b);
    TotalOfCross(a, c);
    TotalOfConcatenation(b, c);
    TotalOfConcatenation(Cross(a, b), Cross(a, c));
    Distribute(|a|, |b|, |c|);
    Distribute(|a|, Total(b), Total(c));
    Distribute(Total(a), |b|, |c|);
  }

  lemma {:induction false} AlikePower(ws: seq<Word>, bs: seq<Word>, n: nat)
    requires Alike(ws, bs)
    ensures Alike(Power(ws, n), Power(bs, n))
  {
    hide Alike;
    if n == 0 {
      Itself([[]]);
    } else {
      AlikePower(ws, bs, n - 1);
      AlikeCross(ws, Power(ws, n - 1), bs, Power(bs, n - 1));
    }
  }

  lemma Itself(ws: seq<Word>)
    ensures Alike(ws, ws)
  {
  }

  lemma Through(a: seq<Word>, b: seq<Word>, c: seq<Word>)
    requires Alike(a, b) && (Alike(b, c) || Alike(c, b))
    ensures Alike(a, c) && Alike(c, a)
  {
  }

  lemma {:induction false} AlikePowersUp(ws: seq<Word>, bs: seq<Word>, min: nat, max: int)
    requires Alike(ws, bs)
    ensures Alike(PowersUp(ws, min, max), PowersUp(bs, min, max))
    decreases max + 1 - min
  {
    hide Alike, Power;
    if min > max {
      Itself([]);
    } else {
      AlikePowersUp(ws, bs, min + 1, max);
      AlikePower(ws, bs, min);
      AlikeConcatenation(Power(ws, min), PowersUp(ws, min + 1, max), Power(bs, min), PowersUp(bs, min + 1, max));
    }
  }

  lemma {:induction false} UpIsAlikeDown(ws: seq<Word>, min: nat, max: int)
    ensures Alike(PowersDown(ws, min, max), PowersUp(ws, min, max))
    decreases max + 1 - min
  {
    hide Alike, Power;
    if min > max {
      Itself([]);
    } else {
      UpIsAlikeDown(ws, min + 1, max);
      PowersDownSnoc(ws, min, max);
      Itself(Power(ws, min));
      AlikeConcatenation(PowersDown(ws, min + 1, max), Power(ws, min), PowersUp(ws, min + 1, max), Power(ws, min));
    }
  }

  /** One more repetition of each: the powers move up by one. */
  lemma {:induction false} PowersMoveUp(ws: seq<Word>, min: nat, max: int)
    ensures Alike(Cross(ws, PowersUp(ws, min, max)), PowersUp(ws, min + 1, max + 1))
    decreases max + 1 - min
  {
    hide Alike, Cross;
    if min > max {
      NothingCrossed(ws);
    } else {
      var first, rest := Power(ws, min), PowersUp(ws, min + 1, max);
      PowersMoveUp(ws, min + 1, max);
      CrossDistributes(ws, first, rest);
      Itself(Cross(ws, first));
      AlikeConcatenation(Cross(ws, first), Cross(ws, rest), Cross(ws, first), PowersUp(ws, min + 2, max + 1));
      Through(Cross(ws, first + rest), Cross(ws, first) + Cross(ws, rest), PowersUp(ws, min + 1, max + 1));
    }
  }

  lemma NothingCrossed(ws: seq<Word>)
    ensures Alike(Cross(ws, []), [])
  {
    CrossSize(ws, []);
    TotalOfCross(ws, []);
  }

  /** Grouped by count or in backtracking order, a repetition has as many words and bytes. */
  lemma {:induction false} BacktrackIsAlike(ws: seq<Word>, min: nat, max: nat, greedy: bool)
    requires min <= max
    ensures Alike(BacktrackPowers(ws, min, max, greedy), PowersUp(ws, min, max))
    decreases max
  {
    hide Alike, Cross, PowersUp;
    if max == 0 {
      PowersOfOneCount(ws, 0);
      Itself([[]]);
    } else {
      var less := if min > 0 then min - 1 else 0;
      var inner, up := BacktrackPowers(ws, less, max - 1, greedy), PowersUp(ws, less, max - 1);
      BacktrackIsAlike(ws, less, max - 1, greedy);
      Itself(ws);
      AlikeCross(ws, inner, ws, up);
      PowersMoveUp(ws, less, max - 1);
      Through(Cross(ws, inner), Cross(ws, up), PowersUp(ws, less + 1, max));
      if min == 0 {
        PowersFromNone(ws, max);
        Itself([[]]);
        AlikeConcatenation([[]], Cross(ws, inner), [[]], PowersUp(ws, 1, max));
        AlikeConcatenation(Cross(ws, inner), [[]], PowersUp(ws, 1, max), [[]]);
      }
    }
  }

  lemma PowersFromNone(ws: seq<Word>, max: nat)
    ensures PowersUp(ws, 0, max) == [[]] + PowersUp(ws, 1, max)
  {
  }

  lemma RepetitionIsAlike(ws: seq<Word>, bs: seq<Word>, min: nat, max: nat, greedy: bool)
    requires Alike(ws, bs) && min <= max
    ensures Alike(Powers(ws, min, max, greedy), BacktrackPowers(bs, min, max, greedy))
  {
    hide Alike, PowersUp, PowersDown, BacktrackPowers;
    AlikePowersUp(ws, bs, min, max);
    BacktrackIsAlike(bs, min, max, greedy);
    Through(PowersUp(ws, min, max), PowersUp(bs, min, max), BacktrackPowers(bs, min, max, greedy));
    UpIsAlikeDown(ws, min, max);
    Through(PowersDown(ws, min, max), PowersUp(ws, min, max), BacktrackPowers(bs, min, max, greedy));
  }

  // ----- Telling lists apart -----

  /** Words that agree behind prefixes of their own, on lists of the same size, agree, and so do the prefixes. */
  lemma PrefixesCancel(p: Word, q: Word, a: seq<Word>, b: seq<Word>)
    requires Alike(a, b) && a != [] && forall i :: 0 <= i < |a| ==> p + a[i] == q + b[i]
    ensures p == q && a == b
  {
    assert Prefixed(p, a) == Prefixed(q, b);
    TotalOfPrefixed(p, a);
    TotalOfPrefixed(q, b);
    SameFactor(|p|, |q|, |a|);
    assert p == (p + a[0])[..|p|] && q == (q + b[0])[..|q|];
    forall i | 0 <= i < |a|
      ensures a[i] == b[i]
    {
      assert a[i] == (p + a[i])[|p|..] && b[i] == (q + b[i])[|q|..];
    }
  }

  lemma SameFactor(x: int, y: int, n: int)
    requires x * n == y * n && n > 0
    ensures x == y
  {
    if x < y {
      LessTimes(x, y, n);
    } else if y < x {
      LessTimes(y, x, n);
    }
  }

  lemma LessTimes(x: int, y: int, n: int)
    requires x < y && n > 0
    ensures x * n < y * n
  {
  }

  lemma {:induction false} CrossAt(a: seq<Word>, b: seq<Word>, i: nat, j: nat)
    requires i < |a| && j < |b|
    ensures 0 <= i * |b| && i * |b| + j < |Cross(a, b)| && Cross(a, b)[i * |b| + j] == a[i] + b[j]
  {
    if i > 0 {
      CrossAt(a[1..], b, i - 1, j);
      assert i * |b| == |b| + (i - 1) * |b|;
    } else {
      CrossSize(a[1..], b);
    }
  }

  /** Equal products of nonempty lists of the same sizes have equal factors. */
  lemma CrossCancels(a: seq<Word>, b: seq<Word>, c: seq<Word>, d: seq<Word>)
    requires |a| == |c| && a != [] && Alike(b, d) && b != [] && Cross(a, b) == Cross(c, d)
    ensures a == c && b == d
  {
    forall j | 0 <= j < |b|
      ensures a[0] + b[j] == c[0] + d[j]
    {
      CrossAt(a, b, 0, j);
      CrossAt(c, d, 0, j);
    }
    PrefixesCancel(a[0], c[0], b, d);
    forall i | 0 <= i < |a|
      ensures a[i] == c[i]
    {
      CrossAt(a, b, i, 0);
      CrossAt(c, d, i, 0);
      assert a[i] == (a[i] + b[0])[..|a[i] + b[0]| - |b[0]|] && c[i] == (c[i] + b[0])[..|c[i] + b[0]| - |b[0]|];
    }
  }

  function Copies(w: Word, n: nat): Word {
    if n == 0 then [] else w + Copies(w, n - 1)
  }

  lemma {:induction false} PowerStart(ws: seq<Word>, m: nat, i: nat)
    requires m >= 1 && i < |ws|
    ensures i < |Power(ws, m)| && Power(ws, m)[i] == Copies(ws[0], m - 1) + ws[i]
    decreases m
  {
    if m == 1 {
      CrossWithUnit(ws);
      assert Power(ws, 0) == [[]];
    } else {
      PowerStart(ws, m - 1, i);
      CrossAt(ws, Power(ws, m - 1), 0, i);
      assert ws[0] + (Copies(ws[0], m - 2) + ws[i]) == (ws[0] + Copies(ws[0], m - 2)) + ws[i];
    }
  }

  lemma {:induction false} GreedyStart(ws: seq<Word>, min: nat, max: nat, i: nat)
    requires min <= max && max >= 1 && i < |ws|
    ensures var back := BacktrackPowers(ws, min, max, true); i < |back| && back[i] == Copies(ws[0], max - 1) + ws[i]
    decreases max
  {
    if max == 1 {
      BacktrackOnce(ws, min, true);
    } else {
      var less := if min > 0 then min - 1 else 0;
      var inner := BacktrackPowers(ws, less, max - 1, true);
      GreedyStart(ws, less, max - 1, i);
      CrossAt(ws, inner, 0, i);
      assert ws[0] + (Copies(ws[0], max - 2) + ws[i]) == (ws[0] + Copies(ws[0], max - 2)) + ws[i];
    }
  }

  lemma LastBlock(a: seq<Word>, b: seq<Word>, k: nat)
    requires a != [] && k < |b|
    ensures k < |Cross(a, b)| && FromEnd(Cross(a, b), k) == a[|a| - 1] + FromEnd(b, k)
  {
    hide Cross, Prefixed;
    var front, last := a[..|a| - 1], a[|a| - 1];
    assert a == front + [last];
    CrossOfConcatenation(front, [last], b);
    CrossOfWord(last, b);
    FromEndOfConcatenation(Cross(front, b), Prefixed(last, b), k);
    PrefixedFromEnd(last, b, k);
  }

  lemma {:induction false} PowerEnd(ws: seq<Word>, m: nat, k: nat)
    requires m >= 1 && k < |ws|
    ensures k < |Power(ws, m)| && FromEnd(Power(ws, m), k) == Copies(ws[|ws| - 1], m - 1) + FromEnd(ws, k)
    decreases m
  {
    hide Cross, FromEnd;
    var last := ws[|ws| - 1];
    if m == 1 {
      CrossWithUnit(ws);
      assert Power(ws, 0) == [[]];
    } else {
      PowerEnd(ws, m - 1, k);
      LastBlock(ws, Power(ws, m - 1), k);
      assert last + (Copies(last, m - 2) + FromEnd(ws, k)) == (last + Copies(last, m - 2)) + FromEnd(ws, k);
    }
  }

  lemma {:induction false} LazyEnd(ws: seq<Word>, min: nat, max: nat, k: nat)
    requires min <= max && max >= 1 && k < |ws|
    ensures var back := BacktrackPowers(ws, min, max, false);
      k < |back| && FromEnd(back, k) == Copies(ws[|ws| - 1], max - 1) + FromEnd(ws, k)
    decreases max
  {
    hide Cross;
    var last := ws[|ws| - 1];
    if max == 1 {
      BacktrackOnce(ws, min, false);
    } else {
      var less := if min > 0 then min - 1 else 0;
      var inner := BacktrackPowers(ws, less, max - 1, false);
      LazyEnd(ws, less, max - 1, k);
      LastBlock(ws, inner, k);
      BacktrackLazyEnd(ws, min, max);
      assert last + (Copies(last, max - 2) + FromEnd(ws, k)) == (last + Copies(last, max - 2)) + FromEnd(ws, k);
    }
  }

  /** Lists of the same size whose repetitions, one grouped and one in backtracking order, agree are the same. */
  lemma RepetitionCancels(ws: seq<Word>, bs: seq<Word>, min: nat, max: nat, greedy: bool)
    requires Alike(ws, bs) && ws != [] && min <= max && max >= 1
    requires Powers(ws, min, max, greedy) == BacktrackPowers(bs, min, max, greedy)
    ensures ws == bs
  {
    hide Power, PowersUp, BacktrackPowers;
    var n := |ws|;
    if greedy {
      assert PowersDown(ws, min, max) == Power(ws, max) + PowersDown(ws, min, max - 1);
      forall i | 0 <= i < n
        ensures Copies(ws[0], max - 1) + ws[i] == Copies(bs[0], max - 1) + bs[i]
      {
        PowerStart(ws, max, i);
        GreedyStart(bs, min, max, i);
      }
      PrefixesCancel(Copies(ws[0], max - 1), Copies(bs[0], max - 1), ws, bs);
    } else {
      forall i | 0 <= i < n
        ensures Copies(ws[n - 1], max - 1) + ws[i] == Copies(bs[n - 1], max - 1) + bs[i]
      {
        var k := n - 1 - i;
        PowerEnd(ws, max, k);
        PowersUpEndWords(ws, min, max, k);
        LazyEnd(bs, min, max, k);
      }
      PrefixesCancel(Copies(ws[n - 1], max - 1), Copies(bs[n - 1], max - 1), ws, bs);
    }
  }

  // ----- The exact condition -----

  /** The words of a sequence of parts, the first part's choice varying slowest. */
  function SeqWords(parts: seq<Hir>): seq<Word> {
    if parts == [] then [[]] else Cross(WordsOf(parts[0]), SeqWords(parts[1..]))
  }

  lemma {:induction false} FoldIsSequence(parts: seq<Hir>, acc: seq<Word>)
    ensures CrossFold(parts, acc) == Cross(acc, SeqWords(parts))
  {
    hide WordsOf;
    if parts == [] {
      CrossWithUnit(acc);
    } else {
      FoldIsSequence(parts[1..], Cross(acc, WordsOf(parts[0])));
      CrossAssociates(acc, WordsOf(parts[0]), SeqWords(parts[1..]));
    }
  }

  predicate Counted(parts: seq<Hir>) {
    forall k :: 0 <= k < |parts| ==> FactsOf(parts[k]).Some?
  }

  predicate AllOrdered(parts: seq<Hir>) {
    forall k :: 0 <= k < |parts| ==> Ordered(parts[k])
  }

  lemma {:induction false} ConcatIsCounted(parts: seq<Hir>, acc: Facts)
    requires ConcatFold(parts, acc).Some?
    ensures Counted(parts)
  {
    hide FactsOf;
    if parts != [] {
      ConcatIsCounted(parts[1..], ConcatFacts(acc, FactsOf(parts[0]).value).value);
      assert forall k :: 1 <= k < |parts| ==> parts[k] == parts[1..][k - 1];
    }
  }

  lemma {:induction false} AlternationIsCounted(branches: seq<Hir>, acc: Facts)
    requires AltFold(branches, acc).Some?
    ensures Counted(branches)
  {
    hide FactsOf;
    if branches != [] {
      AlternationIsCounted(branches[1..], AltNext(FactsOf(branches[0]), acc).value);
      assert forall k :: 1 <= k < |branches| ==> branches[k] == branches[1..][k - 1];
    }
  }

  /** The lists have the same size, and are the same exactly under the condition. */
  predicate Exact(ws: seq<Word>, bs: seq<Word>, condition: bool) {
    Alike(ws, bs) && ws != [] && (ws == bs <==> condition)
  }

  lemma RepetitionIsExact(ws: seq<Word>, bs: seq<Word>, min: nat, max: nat, greedy: bool, ordered: bool)
    requires Exact(ws, bs, ordered) && min <= max
    ensures Alike(Powers(ws, min, max, greedy), BacktrackRepetition(bs, min, max, greedy))
    ensures Powers(ws, min, max, greedy) == BacktrackRepetition(bs, min, max, greedy)
      <==> max == 0 || (ordered && OrderedRepetition(ws, min, max))
  {
    hide Alike, Powers, BacktrackPowers, OrderedRepetition;
    RepetitionIsAlike(ws, bs, min, max, greedy);
    if max == 0 {
      NoRepetition(ws, bs, min, greedy);
    } else {
      RepetitionOrderIsExact(ws, min, max, greedy);
      if Powers(ws, min, max, greedy) == BacktrackPowers(bs, min, max, greedy) {
        RepetitionCancels(ws, bs, min, max, greedy);
      }
    }
  }

  lemma CrossIsExact(a: seq<Word>, b: seq<Word>, c: seq<Word>, d: seq<Word>, left: bool, right: bool)
    requires Exact(a, c, left) && Exact(b, d, right)
    ensures Exact(Cross(a, b), Cross(c, d), left && right)
  {
    hide Cross;
    AlikeCross(a, b, c, d);
    CrossAt(a, b, 0, 0);
    if Cross(a, b) == Cross(c, d) {
      CrossCancels(a, b, c, d);
    }
  }

  lemma ConcatenationIsExact(a: seq<Word>, b: seq<Word>, c: seq<Word>, d: seq<Word>, left: bool, right: bool)
    requires Exact(a, c, left) && Alike(b, d) && (b == d <==> right)
    ensures Exact(a + b, c + d, left && right)
  {
    hide Total;
    AlikeConcatenation(a, b, c, d);
    if a + b == c + d {
      assert a == (a + b)[..|a|] && c == (c + d)[..|c|];
      assert b == (a + b)[|a|..] && d == (c + d)[|c|..];
    }
  }

  /**
    The exact condition: the materialized words of an expression with a census
    are in backtracking order if and only if the expression is ordered. In any
    case they are as many, with as many bytes.
   */
  lemma {:induction false} OrderIsExact(h: Hir)
    requires FactsOf(h).Some?
    ensures Exact(WordsOf(h), Backtrack(h), Ordered(h))
    decreases h, 0
  {
    hide Alike, Exact, ConcatFold, AltFold, RepFold, Powers, BacktrackRepetition, OrderedRepetition;
    CensusIsExact(h);
    match h
    case Empty => SameWords(WordsOf(h));
    case Literal(_) => SameWords(WordsOf(h));
    case ByteClass(_) => SameWords(WordsOf(h));
    case Capture(sub) => OrderIsExact(sub);
    case Concat(parts) =>
      ConcatIsCounted(parts, EMPTY_FACTS);
      SequenceIsExact(parts);
      FoldIsSequence(parts, [[]]);
      CrossUnit(SeqWords(parts));
    case Alternation(branches) =>
      AlternationIsCounted(branches, NO_FACTS);
      AlternationIsExact(branches);
    case Repetition(min, max, greedy, sub) =>
      OrderIsExact(sub);
      RepetitionIsExact(WordsOf(sub), Backtrack(sub), min, max.value, greedy, Ordered(sub));
      ExactIntro(WordsOf(h), Backtrack(h), Ordered(h));
  }

  lemma SameWords(ws: seq<Word>)
    requires ws != []
    ensures Exact(ws, ws, true)
  {
  }

  lemma ExactIntro(ws: seq<Word>, bs: seq<Word>, condition: bool)
    requires Alike(ws, bs) && ws != [] && (ws == bs <==> condition)
    ensures Exact(ws, bs, condition)
  {
  }

  lemma {:induction false} SequenceIsExact(parts: seq<Hir>)
    requires Counted(parts)
    ensures Exact(SeqWords(parts), BacktrackSeq(parts), AllOrdered(parts))
    decreases parts, 0
  {
    hide Exact, WordsOf, Backtrack, Ordered, FactsOf;
    if parts == [] {
      SameWords([[]]);
    } else {
      var rest := parts[1..];
      OrderIsExact(parts[0]);
      SequenceIsExact(rest);
      CrossIsExact(WordsOf(parts[0]), SeqWords(rest), Backtrack(parts[0]), BacktrackSeq(rest), Ordered(parts[0]), AllOrdered(rest));
      HeadAndRest(parts);
    }
  }

  lemma HeadAndRest(parts: seq<Hir>)
    requires parts != []
    ensures AllOrdered(parts) <==> Ordered(parts[0]) && AllOrdered(parts[1..])
  {
    hide Ordered;
    assert forall k :: 0 <= k < |parts[1..]| ==> parts[1..][k] == parts[k + 1];
    if Ordered(parts[0]) && AllOrdered(parts[1..]) {
      forall k | 0 <= k < |parts|
        ensures Ordered(parts[k])
      {
        if k > 0 {
          assert Ordered(parts[1..][k - 1]);
        }
      }
    }
  }

  lemma {:induction false} AlternationIsExact(branches: seq<Hir>)
    requires Counted(branches)
    ensures Alike(AltWords(branches), BacktrackAlt(branches))
    ensures AltWords(branches) == BacktrackAlt(branches) <==> AllOrdered(branches)
    ensures branches != [] ==> Exact(AltWords(branches), BacktrackAlt(branches), AllOrdered(branches))
    decreases branches, 0
  {
    hide WordsOf, Backtrack, Ordered, FactsOf;
    if branches != [] {
      var rest := branches[1..];
      OrderIsExact(branches[0]);
      AlternationIsExact(rest);
      HeadAndRest(branches);
      ConcatenationIsExact(WordsOf(branches[0]), AltWords(rest), Backtrack(branches[0]), BacktrackAlt(rest),
                           Ordered(branches[0]), AllOrdered(rest));
    }
  }
}
