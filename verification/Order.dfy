/**
  The order of materialized words against leftmost-first backtracking.

  `Backtrack` lists the words of an expression in the order in which a
  backtracking matcher prefers them. A repetition keeps that order exactly when
  it is optional, exact, of at most one word, or of empty words only
  (`RepetitionOrderIsExact`), and so does an expression all of whose
  repetitions are like that (`OrderIsBacktracking`).
 */
module WordOrder {
  import opened Hir
  import opened Census
  import opened Words

  /** The preference order of `x{min,max}`, where `ws` is the order of `x`. */
  function BacktrackPowers(ws: seq<Word>, min: nat, max: nat, greedy: bool): seq<Word>
    decreases max
  {
    if max == 0 then [[]]
    else if min > 0 then Cross(ws, BacktrackPowers(ws, min - 1, max - 1, greedy))
    else if greedy then Cross(ws, BacktrackPowers(ws, 0, max - 1, greedy)) + [[]]
    else [[]] + Cross(ws, BacktrackPowers(ws, 0, max - 1, greedy))
  }

  function Backtrack(h: Hir): seq<Word>
    decreases h, 0
  {
    match h
    case Empty => [[]]
    case Literal(bytes) => [Lower(bytes)]
    case ByteClass(ranges) => SetWords(Normalized(ClassBytes(ranges), NoBytes()), 0)
    case UnicodeClass(_) => []
    case Look(_) => []
    case Capture(sub) => Backtrack(sub)
    case Concat(parts) => BacktrackSeq(parts)
    case Alternation(branches) => BacktrackAlt(branches)
    case Repetition(min, max, greedy, sub) =>
      if max.None? then [] else BacktrackRepetition(Backtrack(sub), min, max.value, greedy)
  }

  /** No word at all if the counts are the wrong way round. */
  function BacktrackRepetition(ws: seq<Word>, min: nat, max: nat, greedy: bool): seq<Word> {
    if max < min then [] else BacktrackPowers(ws, min, max, greedy)
  }

  /** The first part's choice is kept the longest. */
  function BacktrackSeq(parts: seq<Hir>): seq<Word>
    decreases parts, 0
  {
    if parts == [] then [[]] else Cross(Backtrack(parts[0]), BacktrackSeq(parts[1..]))
  }

  function BacktrackAlt(branches: seq<Hir>): seq<Word>
    decreases branches, 0
  {
    if branches == [] then [] else Backtrack(branches[0]) + BacktrackAlt(branches[1..])
  }

  /** Emission grouped by count cannot be told from backtracking. */
  predicate OrderedCounts(words: nat, min: nat, max: int) {
    min == max || max <= 1 || words <= 1
  }

  predicate AllEmpty(ws: seq<Word>) {
    forall i :: 0 <= i < |ws| ==> ws[i] == []
  }

  predicate OrderedRepetition(ws: seq<Word>, min: nat, max: nat) {
    max < min || OrderedCounts(|ws|, min, max) || AllEmpty(ws)
  }

  /** Every repetition below that repeats at all is optional, exact, of at most one word, or of empty words only. */
  predicate Ordered(h: Hir) {
    match h
    case Empty => true
    case Literal(_) => true
    case ByteClass(_) => true
    case UnicodeClass(_) => true
    case Look(_) => true
    case Capture(sub) => Ordered(sub)
    case Concat(parts) => forall k :: 0 <= k < |parts| ==> Ordered(parts[k])
    case Alternation(branches) => forall k :: 0 <= k < |branches| ==> Ordered(branches[k])
    case Repetition(min, max, _, sub) =>
      max.None? || max.value == 0 || (Ordered(sub) && OrderedRepetition(WordsOf(sub), min, max.value))
  }

  /** The materialized order is the backtracking order on every ordered expression. */
  lemma {:induction false} OrderIsBacktracking(h: Hir)
    requires Ordered(h)
    ensures WordsOf(h) == Backtrack(h)
    decreases h, 0
  {
    match h
    case Empty =>
    case Literal(_) =>
    case ByteClass(_) =>
    case UnicodeClass(_) =>
    case Look(_) =>
    case Capture(sub) => OrderIsBacktracking(sub);
    case Concat(parts) =>
      OrderOfConcat(parts, [[]]);
      CrossUnit(BacktrackSeq(parts));
    case Alternation(branches) => OrderOfAlternation(branches);
    case Repetition(min, max, greedy, sub) =>
      if max.Some? && max.value == 0 {
        NoRepetition(WordsOf(sub), Backtrack(sub), min, greedy);
      } else if max.Some? {
        OrderIsBacktracking(sub);
        RepetitionOrderIsExact(WordsOf(sub), min, max.value, greedy);
      }
  }

  /** Without a repetition the words do not matter. */
  lemma NoRepetition(ws: seq<Word>, bs: seq<Word>, min: nat, greedy: bool)
    ensures Powers(ws, min, 0, greedy) == BacktrackRepetition(bs, min, 0, greedy)
  {
    if min == 0 {
      PowersOfOneCount(ws, 0);
    } else {
      NoPowers(ws, min, 0);
    }
  }

  lemma {:induction false} OrderOfConcat(parts: seq<Hir>, acc: seq<Word>)
    requires forall k :: 0 <= k < |parts| ==> Ordered(parts[k])
    ensures CrossFold(parts, acc) == Cross(acc, BacktrackSeq(parts))
    decreases parts, 0
  {
    if parts == [] {
      CrossWithUnit(acc);
    } else {
      OrderIsBacktracking(parts[0]);
      OrderOfConcat(parts[1..], Cross(acc, WordsOf(parts[0])));
      CrossAssociates(acc, Backtrack(parts[0]), BacktrackSeq(parts[1..]));
    }
  }

  lemma {:induction false} OrderOfAlternation(branches: seq<Hir>)
    requires forall k :: 0 <= k < |branches| ==> Ordered(branches[k])
    ensures AltWords(branches) == BacktrackAlt(branches)
    decreases branches, 0
  {
    if branches != [] {
      OrderIsBacktracking(branches[0]);
      OrderOfAlternation(branches[1..]);
    }
  }

  lemma OrderOfRepetition(ws: seq<Word>, min: nat, max: nat, greedy: bool)
    requires OrderedCounts(|ws|, min, max)
    ensures Powers(ws, min, max, greedy) == BacktrackRepetition(ws, min, max, greedy)
  {
    if min <= max {
      if min == max {
        ExactOrder(ws, min, greedy);
        PowersOfOneCount(ws, min);
      } else if max == 1 {
        CrossWithUnit(ws);
        assert BacktrackPowers(ws, 0, 0, greedy) == [[]];
        assert Power(ws, 0) == [[]] && Power(ws, 1) == Cross(ws, Power(ws, 0)) == ws;
        assert PowersUp(ws, 0, 1) == Power(ws, 0) + (Power(ws, 1) + PowersUp(ws, 2, 1));
        assert PowersDown(ws, 0, 1) == Power(ws, 1) + (Power(ws, 0) + PowersDown(ws, 0, -1));
      } else if greedy {
        SingleWordDown(ws, min, max);
      } else {
        SingleWordUp(ws, min, max);
      }
    }
  }

  lemma PowersOfOneCount(ws: seq<Word>, n: nat)
    ensures PowersUp(ws, n, n) == Power(ws, n) == PowersDown(ws, n, n)
  {
    assert PowersUp(ws, n + 1, n) == [] && PowersDown(ws, n, n - 1) == [];
    assert Power(ws, n) + [] == Power(ws, n);
  }

  lemma {:induction false} ExactOrder(ws: seq<Word>, n: nat, greedy: bool)
    ensures BacktrackPowers(ws, n, n, greedy) == Power(ws, n)
  {
    if n > 0 {
      ExactOrder(ws, n - 1, greedy);
    }
  }

  lemma CrossIsPrefixed(ws: seq<Word>, a: seq<Word>)
    requires |ws| <= 1
    ensures Cross(ws, a) == if ws == [] then [] else Prefixed(ws[0], a)
  {
    if ws != [] {
      assert ws[1..] == [];
      assert Prefixed(ws[0], a) + [] == Prefixed(ws[0], a);
    }
  }

  lemma CrossOfOneWord(ws: seq<Word>, a: seq<Word>, b: seq<Word>)
    requires |ws| <= 1
    ensures Cross(ws, a + b) == Cross(ws, a) + Cross(ws, b)
  {
    CrossIsPrefixed(ws, a + b);
    CrossIsPrefixed(ws, a);
    CrossIsPrefixed(ws, b);
    if ws != [] {
      PrefixedAppends(ws[0], a, b);
    }
  }

  lemma CrossOfNothing(ws: seq<Word>)
    requires |ws| <= 1
    ensures Cross(ws, []) == []
  {
    CrossIsPrefixed(ws, []);
  }

  lemma {:induction false} ShiftUp(ws: seq<Word>, min: nat, max: int)
    requires |ws| <= 1
    ensures Cross(ws, PowersUp(ws, min, max)) == PowersUp(ws, min + 1, max + 1)
    decreases max + 1 - min
  {
    if min > max {
      CrossOfNothing(ws);
    } else {
      ShiftUp(ws, min + 1, max);
      CrossOfOneWord(ws, Power(ws, min), PowersUp(ws, min + 1, max));
    }
  }

  lemma {:induction false} ShiftDown(ws: seq<Word>, min: nat, max: int)
    requires |ws| <= 1
    ensures Cross(ws, PowersDown(ws, min, max)) == PowersDown(ws, min + 1, max + 1)
    decreases max + 1 - min
  {
    if min > max {
      CrossOfNothing(ws);
    } else {
      ShiftDown(ws, min, max - 1);
      CrossOfOneWord(ws, Power(ws, max), PowersDown(ws, min, max - 1));
    }
  }

  lemma {:induction false} SingleWordUp(ws: seq<Word>, min: nat, max: nat)
    requires |ws| <= 1 && min <= max
    ensures PowersUp(ws, min, max) == BacktrackPowers(ws, min, max, false)
    decreases max
  {
    hide Cross, PowersUp;
    if max == 0 {
      PowersOfOneCount(ws, 0);
    } else {
      var less := if min > 0 then min - 1 else 0;
      SingleWordUp(ws, less, max - 1);
      SingleWordUpStep(ws, min, less, max);
    }
  }

  lemma SingleWordUpStep(ws: seq<Word>, min: nat, less: nat, max: nat)
    requires |ws| <= 1 && min <= max && max > 0 && less == if min > 0 then min - 1 else 0
    ensures PowersUp(ws, min, max) == (if min > 0 then [] else [[]]) + Cross(ws, PowersUp(ws, less, max - 1))
  {
    hide Cross;
    ShiftUp(ws, less, max - 1);
  }

  lemma {:induction false} SingleWordDown(ws: seq<Word>, min: nat, max: nat)
    requires |ws| <= 1 && min <= max
    ensures PowersDown(ws, min, max) == BacktrackPowers(ws, min, max, true)
    decreases max
  {
    hide Cross, PowersDown;
    if max == 0 {
      PowersOfOneCount(ws, 0);
    } else {
      var less := if min > 0 then min - 1 else 0;
      SingleWordDown(ws, less, max - 1);
      SingleWordStep(ws, min, less, max);
    }
  }

  lemma SingleWordStep(ws: seq<Word>, min: nat, less: nat, max: nat)
    requires |ws| <= 1 && min <= max && max > 0 && less == if min > 0 then min - 1 else 0
    ensures PowersDown(ws, min, max) == Cross(ws, PowersDown(ws, less, max - 1)) + (if min > 0 then [] else [[]])
  {
    hide Cross;
    ShiftDown(ws, less, max - 1);
    if min == 0 {
      PowersDownSnoc(ws, 0, max);
    }
  }

  // ----- Empty words only -----

  lemma {:induction false} CrossSize(a: seq<Word>, b: seq<Word>)
    ensures |Cross(a, b)| == |a| * |b|
    ensures AllEmpty(a) && AllEmpty(b) ==> AllEmpty(Cross(a, b))
  {
    if a != [] {
      CrossSize(a[1..], b);
      assert |a| * |b| == |b| + |a[1..]| * |b|;
    }
  }

  lemma {:induction false} PowersUpScale(ws: seq<Word>, min: nat, max: int)
    ensures |PowersUp(ws, min + 1, max + 1)| == |ws| * |PowersUp(ws, min, max)|
    decreases max + 1 - min
  {
    hide Power, Cross;
    if min <= max {
      PowersUpScale(ws, min + 1, max);
      PowerScale(ws, min);
      Distribute(|ws|, |Power(ws, min)|, |PowersUp(ws, min + 1, max)|);
    }
  }

  lemma PowerScale(ws: seq<Word>, n: nat)
    ensures |Power(ws, n + 1)| == |ws| * |Power(ws, n)|
  {
    CrossSize(ws, Power(ws, n));
  }

  lemma Distribute(n: int, x: int, y: int)
    ensures n * (x + y) == n * x + n * y
  {
  }

  lemma {:induction false} UpAndDownAreAsLong(ws: seq<Word>, min: nat, max: int)
    ensures |PowersDown(ws, min, max)| == |PowersUp(ws, min, max)|
    decreases max + 1 - min
  {
    if min <= max {
      UpAndDownAreAsLong(ws, min + 1, max);
      PowersDownSnoc(ws, min, max);
    }
  }

  /** Grouping by count neither loses nor adds a place: both lists have the same length, for all words. */
  lemma {:induction false} BacktrackingIsAsLong(ws: seq<Word>, min: nat, max: nat, greedy: bool)
    requires min <= max
    ensures |BacktrackPowers(ws, min, max, greedy)| == |Powers(ws, min, max, greedy)|
    decreases max
  {
    hide Power, Cross, PowersUp, PowersDown;
    UpAndDownAreAsLong(ws, min, max);
    if max == 0 {
      PowersOfOneCount(ws, 0);
      OnePower(ws, max);
    } else {
      OnePower(ws, max);
      var less := if min > 0 then min - 1 else 0;
      BacktrackingIsAsLong(ws, less, max - 1, greedy);
      UpAndDownAreAsLong(ws, less, max - 1);
      PowersUpScale(ws, less, max - 1);
      CrossSize(ws, BacktrackPowers(ws, less, max - 1, greedy));
    }
  }

  lemma OnePower(ws: seq<Word>, max: nat)
    ensures |Power(ws, 0)| == 1 && |PowersUp(ws, 0, max)| == 1 + |PowersUp(ws, 1, max)|
  {
  }

  lemma {:induction false} EmptyPower(ws: seq<Word>, n: nat)
    requires AllEmpty(ws)
    ensures AllEmpty(Power(ws, n))
  {
    if n > 0 {
      EmptyPower(ws, n - 1);
      CrossSize(ws, Power(ws, n - 1));
    }
  }

  lemma {:induction false} EmptyPowers(ws: seq<Word>, min: nat, max: int)
    requires AllEmpty(ws)
    ensures AllEmpty(PowersUp(ws, min, max)) && AllEmpty(PowersDown(ws, min, max))
    decreases max + 1 - min
  {
    if min <= max {
      EmptyPowers(ws, min + 1, max);
      EmptyPower(ws, min);
      PowersDownSnoc(ws, min, max);
    }
  }

  lemma {:induction false} EmptyBacktrack(ws: seq<Word>, min: nat, max: nat, greedy: bool)
    requires AllEmpty(ws)
    ensures AllEmpty(BacktrackPowers(ws, min, max, greedy))
    decreases max
  {
    if max > 0 {
      var less := if min > 0 then min - 1 else 0;
      EmptyBacktrack(ws, less, max - 1, greedy);
      CrossSize(ws, BacktrackPowers(ws, less, max - 1, greedy));
    }
  }

  lemma EmptyOrder(ws: seq<Word>, min: nat, max: nat, greedy: bool)
    requires AllEmpty(ws) && min <= max
    ensures Powers(ws, min, max, greedy) == BacktrackPowers(ws, min, max, greedy)
  {
    hide PowersUp, PowersDown, BacktrackPowers;
    BacktrackingIsAsLong(ws, min, max, greedy);
    EmptyPowers(ws, min, max);
    EmptyBacktrack(ws, min, max, greedy);
  }

  // ----- The condition is exact -----

  /** The word at place `k` from the end. */
  function FromEnd(s: seq<Word>, k: nat): Word
    requires k < |s|
  {
    s[|s| - 1 - k]
  }

  lemma FromEndOfConcatenation(a: seq<Word>, b: seq<Word>, k: nat)
    requires k < |a| + |b|
    ensures FromEnd(a + b, k) == if k < |b| then FromEnd(b, k) else FromEnd(a, k - |b|)
  {
  }

  /** The lists begin, or end, with the same `n` words. */
  predicate SameStart(a: seq<Word>, b: seq<Word>, n: nat) {
    n <= |a| && n <= |b| && forall i :: 0 <= i < n ==> a[i] == b[i]
  }

  predicate SameEnd(a: seq<Word>, b: seq<Word>, n: nat) {
    n <= |a| && n <= |b| && forall k :: 0 <= k < n ==> FromEnd(a, k) == FromEnd(b, k)
  }

  /** The first two and the last two blocks of a product. */
  lemma FirstBlocks(ws: seq<Word>, b: seq<Word>)
    requires |ws| >= 2
    ensures |Cross(ws, b)| >= 2 * |b|
    ensures forall i :: 0 <= i < |b| ==> Cross(ws, b)[i] == ws[0] + b[i] && Cross(ws, b)[|b| + i] == ws[1] + b[i]
  {
    assert Cross(ws, b) == Prefixed(ws[0], b) + (Prefixed(ws[1], b) + Cross(ws[1..][1..], b));
  }

  lemma LastBlocks(ws: seq<Word>, b: seq<Word>, k: nat)
    requires |ws| >= 2 && k < |b|
    ensures |Cross(ws, b)| >= 2 * |b|
    ensures FromEnd(Cross(ws, b), k) == ws[|ws| - 1] + FromEnd(b, k)
    ensures FromEnd(Cross(ws, b), |b| + k) == ws[|ws| - 2] + FromEnd(b, k)
  {
    hide Cross, Prefixed, FromEnd;
    var n := |ws|;
    var x, y, front := Prefixed(ws[n - 2], b), Prefixed(ws[n - 1], b), Cross(ws[..n - 2], b);
    CrossEnd(ws, b);
    BlocksFromEnd(front, x, y, k);
    PrefixedFromEnd(ws[n - 2], b, k);
    PrefixedFromEnd(ws[n - 1], b, k);
  }

  lemma BlocksFromEnd(front: seq<Word>, x: seq<Word>, y: seq<Word>, k: nat)
    requires k < |x| == |y|
    ensures |front + x + y| >= 2 * |y|
    ensures FromEnd(front + x + y, k) == FromEnd(y, k) && FromEnd(front + x + y, |y| + k) == FromEnd(x, k)
  {
    FromEndOfConcatenation(front + x, y, k);
    FromEndOfConcatenation(front + x, y, |y| + k);
    FromEndOfConcatenation(front, x, k);
  }

  lemma PrefixedFromEnd(p: Word, b: seq<Word>, k: nat)
    requires k < |b|
    ensures FromEnd(Prefixed(p, b), k) == p + FromEnd(b, k)
  {
  }

  lemma CrossEnd(ws: seq<Word>, b: seq<Word>)
    requires |ws| >= 2
    ensures var n := |ws|;
      Cross(ws, b) == Cross(ws[..n - 2], b) + Prefixed(ws[n - 2], b) + Prefixed(ws[n - 1], b)
  {
    var n := |ws|;
    var front, x, y := ws[..n - 2], ws[n - 2], ws[n - 1];
    assert ws == (front + [x]) + [y];
    CrossOfConcatenation(front + [x], [y], b);
    CrossOfConcatenation(front, [x], b);
    CrossOfWord(x, b);
    CrossOfWord(y, b);
  }

  lemma CrossOfWord(w: Word, b: seq<Word>)
    ensures Cross([w], b) == Prefixed(w, b)
  {
    assert [w][1..] == [];
    assert Prefixed(w, b) + [] == Prefixed(w, b);
  }

  lemma {:induction false} PowerIsLong(ws: seq<Word>, m: nat)
    requires |ws| >= 2 && m >= 1
    ensures |Power(ws, m)| >= |ws| && (m >= 2 ==> |Power(ws, m)| >= 2 * |ws|)
  {
    CrossWithUnit(ws);
    if m >= 2 {
      PowerIsLong(ws, m - 1);
      FirstBlocks(ws, Power(ws, m - 1));
    }
  }

  lemma BacktrackOnce(ws: seq<Word>, min: nat, greedy: bool)
    requires min <= 1
    ensures BacktrackPowers(ws, min, 1, greedy) == if min == 1 then ws else if greedy then ws + [[]] else [[]] + ws
  {
    CrossWithUnit(ws);
    assert BacktrackPowers(ws, 0, 0, greedy) == [[]];
  }

  lemma {:induction false} BacktrackIsLong(ws: seq<Word>, min: nat, max: nat, greedy: bool)
    requires |ws| >= 2 && min <= max && max >= 1
    ensures |BacktrackPowers(ws, min, max, greedy)| >= |ws|
    ensures max >= 2 ==> |BacktrackPowers(ws, min, max, greedy)| >= 2 * |ws|
    decreases max
  {
    hide Cross;
    if max == 1 {
      BacktrackOnce(ws, min, greedy);
    } else {
      var less := if min > 0 then min - 1 else 0;
      BacktrackIsLong(ws, less, max - 1, greedy);
      FirstBlocks(ws, BacktrackPowers(ws, less, max - 1, greedy));
    }
  }

  /** A list in which each word equals the next, and some word is empty, has only empty words. */
  lemma {:induction false} AllAlike(ws: seq<Word>, k: nat, i: nat)
    requires k < |ws| && i < |ws| && ws[k] == [] && forall j :: 0 <= j < |ws| - 1 ==> ws[j] == ws[j + 1]
    ensures ws[i] == []
    decreases if i < k then k - i else i - k
  {
    if i < k {
      AllAlike(ws, k, i + 1);
    } else if i > k {
      AllAlike(ws, k, i - 1);
      assert ws[i - 1] == ws[i - 1 + 1];
    }
  }

  lemma AllAlikeAreEmpty(ws: seq<Word>, k: nat)
    requires k < |ws| && ws[k] == [] && forall j :: 0 <= j < |ws| - 1 ==> ws[j] == ws[j + 1]
    ensures AllEmpty(ws)
  {
    forall i | 0 <= i < |ws|
      ensures ws[i] == []
    {
      AllAlike(ws, k, i);
    }
  }

  lemma SamePrefix(p: Word, a: Word, b: Word)
    requires p + a == p + b
    ensures a == b
  {
    assert a == (p + a)[|p|..] && b == (p + b)[|p|..];
  }

  /**
    Greedy backtracking gives up the last repetition right after its last word,
    where the grouped list goes on to the next word but one: beyond the first
    words the lists agree only if all words are empty.
   */
  lemma {:induction false} GreedyAgreement(ws: seq<Word>, min: nat, max: nat)
    requires |ws| >= 2 && min < max && max >= 2
    requires SameStart(Power(ws, max), BacktrackPowers(ws, min, max, true), 2 * |ws|)
    ensures AllEmpty(ws)
    decreases max
  {
    var less := if min > 0 then min - 1 else 0;
    var power, inner := Power(ws, max - 1), BacktrackPowers(ws, less, max - 1, true);
    var whole, back := Power(ws, max), BacktrackPowers(ws, min, max, true);
    FirstBlocks(ws, power);
    FirstBlocks(ws, inner);
    assert forall i :: 0 <= i < |Cross(ws, inner)| ==> back[i] == Cross(ws, inner)[i];
    if max == 2 {
      GreedyBase(ws, less, whole, back);
    } else {
      PowerIsLong(ws, max - 1);
      BacktrackIsLong(ws, less, max - 1, true);
      forall i | 0 <= i < 2 * |ws|
        ensures power[i] == inner[i]
      {
        assert whole[i] == back[i];
        SamePrefix(ws[0], power[i], inner[i]);
      }
      GreedyAgreement(ws, less, max - 1);
    }
  }

  lemma GreedyBase(ws: seq<Word>, less: nat, whole: seq<Word>, back: seq<Word>)
    requires |ws| >= 2 && less == 0 && SameStart(whole, back, 2 * |ws|) && whole == Power(ws, 2)
    requires var inner := BacktrackPowers(ws, 0, 1, true);
      |Cross(ws, inner)| <= |back| && forall i :: 0 <= i < |Cross(ws, inner)| ==> back[i] == Cross(ws, inner)[i]
    ensures AllEmpty(ws)
  {
    var n, inner := |ws|, BacktrackPowers(ws, 0, 1, true);
    BacktrackOnce(ws, 0, true);
    CrossWithUnit(ws);
    assert Power(ws, 1) == Cross(ws, Power(ws, 0)) == ws;
    FirstBlocks(ws, ws);
    FirstBlocks(ws, inner);
    assert whole[n] == ws[1] + ws[0] && back[n] == ws[0] + [];
    assert |ws[1]| == 0;
    forall j | 0 <= j < n - 1
      ensures ws[j] == ws[j + 1]
    {
      assert whole[n + (j + 1)] == ws[1] + ws[j + 1] && back[(n + 1) + j] == ws[1] + ws[j];
      SamePrefix(ws[1], ws[j], ws[j + 1]);
    }
    AllAlikeAreEmpty(ws, 1);
  }

  /** The words of the product with the front of a lazy list are at its end. */
  lemma BacktrackLazyEnd(ws: seq<Word>, min: nat, max: nat)
    requires max > 0
    ensures var c := Cross(ws, BacktrackPowers(ws, if min > 0 then min - 1 else 0, max - 1, false));
      var back := BacktrackPowers(ws, min, max, false);
      |c| <= |back| && forall k :: 0 <= k < |c| ==> FromEnd(back, k) == FromEnd(c, k)
  {
  }

  /** The mirror image for lazy backtracking, read from the end of the lists. */
  lemma {:induction false} LazyAgreement(ws: seq<Word>, min: nat, max: nat)
    requires |ws| >= 2 && min < max && max >= 2
    requires SameEnd(Power(ws, max), BacktrackPowers(ws, min, max, false), 2 * |ws|)
    ensures AllEmpty(ws)
    decreases max
  {
    hide Cross, BacktrackPowers, AllEmpty, FromEnd;
    var less := if min > 0 then min - 1 else 0;
    var power, inner := Power(ws, max - 1), BacktrackPowers(ws, less, max - 1, false);
    var whole, back := Power(ws, max), BacktrackPowers(ws, min, max, false);
    BacktrackLazyEnd(ws, min, max);
    if max == 2 {
      LazyBase(ws, whole, back);
    } else {
      PowerIsLong(ws, max - 1);
      BacktrackIsLong(ws, less, max - 1, false);
      forall k | 0 <= k < 2 * |ws|
        ensures FromEnd(power, k) == FromEnd(inner, k)
      {
        assert FromEnd(whole, k) == FromEnd(back, k);
        LastBlocks(ws, power, k);
        LastBlocks(ws, inner, k);
        SamePrefix(ws[|ws| - 1], FromEnd(power, k), FromEnd(inner, k));
      }
      LazyAgreement(ws, less, max - 1);
    }
  }

  /** The two lists from the end, from the place on where they begin to differ. */
  lemma LazyTurn(ws: seq<Word>)
    requires |ws| >= 2
    ensures var n, c := |ws|, Cross(ws, [[]] + ws);
      && 2 * n <= |Power(ws, 2)| && 2 * n + 2 <= |c|
      && FromEnd(Power(ws, 2), n) == ws[n - 2] + ws[n - 1] && FromEnd(c, n) == ws[n - 1]
  {
    hide Cross, Power;
    var n, inner := |ws|, [[]] + ws;
    PowerTwo(ws);
    LastBlocks(ws, ws, 0);
    LastBlocks(ws, inner, n);
    assert FromEnd(inner, n) == [] && ws[n - 1] + [] == ws[n - 1];
  }

  lemma LazyNeighbours(ws: seq<Word>, j: nat)
    requires |ws| >= 2 && j < |ws| - 1
    ensures var n, c := |ws|, Cross(ws, [[]] + ws);
      var k := 2 * n - 1 - j;
      && 2 * n <= |Power(ws, 2)| && 2 * n + 2 <= |c|
      && FromEnd(Power(ws, 2), k) == ws[n - 2] + ws[j] && FromEnd(c, k) == ws[n - 2] + ws[j + 1]
  {
    hide Cross, Power;
    var n, inner := |ws|, [[]] + ws;
    PowerTwo(ws);
    LastBlocks(ws, ws, n - 1 - j);
    LastBlocks(ws, inner, n - 2 - j);
    assert FromEnd(inner, n - 2 - j) == ws[j + 1];
  }

  lemma LazyBase(ws: seq<Word>, whole: seq<Word>, back: seq<Word>)
    requires |ws| >= 2 && SameEnd(whole, back, 2 * |ws|) && whole == Power(ws, 2)
    requires var c := Cross(ws, BacktrackPowers(ws, 0, 1, false));
      |c| <= |back| && forall k :: 0 <= k < |c| ==> FromEnd(back, k) == FromEnd(c, k)
    ensures AllEmpty(ws)
  {
    hide Cross, Power, BacktrackPowers, AllEmpty, FromEnd;
    var n := |ws|;
    BacktrackOnce(ws, 0, false);
    LazyTurn(ws);
    assert FromEnd(whole, n) == FromEnd(back, n);
    assert |ws[n - 2]| == 0;
    forall j | 0 <= j < n - 1
      ensures ws[j] == ws[j + 1]
    {
      LazyNeighbours(ws, j);
      assert FromEnd(whole, 2 * n - 1 - j) == FromEnd(back, 2 * n - 1 - j);
      SamePrefix(ws[n - 2], ws[j], ws[j + 1]);
    }
    AllAlikeAreEmpty(ws, n - 2);
  }

  lemma PowerTwo(ws: seq<Word>)
    ensures Power(ws, 2) == Cross(ws, ws)
  {
    CrossWithUnit(ws);
    assert Power(ws, 1) == Cross(ws, Power(ws, 0)) == ws;
  }

  lemma {:induction false} PowersUpEnd(ws: seq<Word>, min: nat, max: int)
    requires min <= max
    ensures PowersUp(ws, min, max) == PowersUp(ws, min, max - 1) + Power(ws, max)
    decreases max - min
  {
    hide Power;
    if min < max {
      PowersUpEnd(ws, min + 1, max);
    } else {
      NoPowers(ws, min + 1, max);
      NoPowers(ws, min, max - 1);
      assert Power(ws, max) + [] == [] + Power(ws, max);
    }
  }

  lemma PowersUpEndWords(ws: seq<Word>, min: nat, max: int, k: nat)
    requires min <= max && k < |Power(ws, max)|
    ensures k < |PowersUp(ws, min, max)| && FromEnd(PowersUp(ws, min, max), k) == FromEnd(Power(ws, max), k)
  {
    hide Power, PowersUp;
    PowersUpEnd(ws, min, max);
    FromEndOfConcatenation(PowersUp(ws, min, max - 1), Power(ws, max), k);
  }

  lemma AgreementMeansEmpty(ws: seq<Word>, min: nat, max: nat, greedy: bool)
    requires |ws| >= 2 && min < max && max >= 2
    requires Powers(ws, min, max, greedy) == BacktrackPowers(ws, min, max, greedy)
    ensures AllEmpty(ws)
  {
    hide Power, PowersUp, BacktrackPowers, FromEnd;
    PowerIsLong(ws, max);
    if greedy {
      assert PowersDown(ws, min, max) == Power(ws, max) + PowersDown(ws, min, max - 1);
      GreedyAgreement(ws, min, max);
    } else {
      forall k | 0 <= k < 2 * |ws|
        ensures k < |PowersUp(ws, min, max)| && FromEnd(PowersUp(ws, min, max), k) == FromEnd(Power(ws, max), k)
      {
        PowersUpEndWords(ws, min, max, k);
      }
      PowersUpEndWords(ws, min, max, 2 * |ws| - 1);
      LazyAgreement(ws, min, max);
    }
  }

  /**
    For any words, the repetition emits them in backtracking order if and only
    if its counts are exact or at most one, it has at most one word, or all its
    words are empty.
   */
  lemma RepetitionOrderIsExact(ws: seq<Word>, min: nat, max: nat, greedy: bool)
    ensures Powers(ws, min, max, greedy) == BacktrackRepetition(ws, min, max, greedy) <==> OrderedRepetition(ws, min, max)
  {
    hide BacktrackPowers, PowersUp, PowersDown, AllEmpty;
    if max < min {
      NoPowers(ws, min, max);
    } else if OrderedCounts(|ws|, min, max) {
      OrderOfRepetition(ws, min, max, greedy);
    } else if AllEmpty(ws) {
      EmptyOrder(ws, min, max, greedy);
    } else if Powers(ws, min, max, greedy) == BacktrackPowers(ws, min, max, greedy) {
      AgreementMeansEmpty(ws, min, max, greedy);
    }
  }

  lemma NoPowers(ws: seq<Word>, min: nat, max: int)
    requires max < min
    ensures PowersUp(ws, min, max) == [] && PowersDown(ws, min, max) == []
  {
  }

  lemma {:induction false} SetWordsAreBytes(norm: seq<bool>, from: nat)
    requires from + |norm| == 256
    ensures forall i :: 0 <= i < |SetWords(norm, from)| ==> |SetWords(norm, from)[i]| == 1
    decreases norm
  {
    if norm != [] {
      SetWordsAreBytes(norm[1..], from + 1);
    }
  }

  /** For a repeated byte class only the counts and the number of members matter. */
  lemma ClassRepetitionOrder(ranges: seq<(Byte, Byte)>, min: nat, max: nat, greedy: bool)
    requires min <= max
    ensures var ws := WordsOf(ByteClass(ranges));
      Powers(ws, min, max, greedy) == BacktrackPowers(ws, min, max, greedy) <==> OrderedCounts(|ws|, min, max)
  {
    hide Powers, BacktrackPowers, SetWords;
    var ws := WordsOf(ByteClass(ranges));
    SetWordsAreBytes(Normalized(ClassBytes(ranges), NoBytes()), 0);
    RepetitionOrderIsExact(ws, min, max, greedy);
    assert ws != [] ==> |ws[0]| == 1 && ws[0] != [];
  }
}
