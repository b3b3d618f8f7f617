/**
  The words a finite-anchor expression is materialized into: which words, in
  which order (`WordsOf`), and that the census describes them exactly
  (`CensusIsExact`).
 */
module Words {
  import opened Hir
  import opened Census

  type Word = Bytes

  // ----- Lists of words -----

  /** `p` in front of every word. */
  function Prefixed(p: Word, ws: seq<Word>): (r: seq<Word>)
    ensures |r| == |ws| && forall i :: 0 <= i < |ws| ==> r[i] == p + ws[i]
  {
    seq(|ws|, i requires 0 <= i < |ws| => p + ws[i])
  }

  /** Every word of `a` followed by every word of `b`, the first choice varying slowest. */
  function Cross(a: seq<Word>, b: seq<Word>): seq<Word> {
    if a == [] then [] else Prefixed(a[0], b) + Cross(a[1..], b)
  }

  function Power(ws: seq<Word>, n: nat): seq<Word> {
    if n == 0 then [[]] else Cross(ws, Power(ws, n - 1))
  }

  /** The powers `min..=max`, fewest first. */
  function PowersUp(ws: seq<Word>, min: nat, max: int): seq<Word>
    decreases max + 1 - min
  {
    if min > max then [] else Power(ws, min) + PowersUp(ws, min + 1, max)
  }

  /** The powers `min..=max`, most first. */
  function PowersDown(ws: seq<Word>, min: nat, max: int): seq<Word>
    decreases max + 1 - min
  {
    if min > max then [] else Power(ws, max) + PowersDown(ws, min, max - 1)
  }

  /** One-byte words of the set entries, ascending; the first entry stands for byte `from`. */
  function SetWords(norm: seq<bool>, from: nat): seq<Word>
    requires from + |norm| == 256
    decreases norm
  {
    if norm == [] then []
    else (if norm[0] then [[from as Byte]] else []) + SetWords(norm[1..], from + 1)
  }

  function WordsOf(h: Hir): seq<Word>
    decreases h, 0
  {
    match h
    case Empty => [[]]
    case Literal(bytes) => [Lower(bytes)]
    case ByteClass(ranges) => SetWords(Normalized(ClassBytes(ranges), NoBytes()), 0)
    case UnicodeClass(_) => []
    case Look(_) => []
    case Capture(sub) => WordsOf(sub)
    case Concat(parts) => CrossFold(parts, [[]])
    case Alternation(branches) => AltWords(branches)
    case Repetition(min, max, greedy, sub) => if max.None? then [] else Powers(WordsOf(sub), min, max.value, greedy)
  }

  function Powers(ws: seq<Word>, min: nat, max: int, greedy: bool): seq<Word> {
    if greedy then PowersDown(ws, min, max) else PowersUp(ws, min, max)
  }

  function CrossFold(parts: seq<Hir>, acc: seq<Word>): seq<Word>
    decreases parts, 0
  {
    if parts == [] then acc else CrossFold(parts[1..], Cross(acc, WordsOf(parts[0])))
  }

  function AltWords(branches: seq<Hir>): seq<Word>
    decreases branches, 0
  {
    if branches == [] then [] else WordsOf(branches[0]) + AltWords(branches[1..])
  }

  // ----- Algebra of products -----

  lemma PrefixedAppends(p: Word, a: seq<Word>, b: seq<Word>)
    ensures Prefixed(p, a + b) == Prefixed(p, a) + Prefixed(p, b)
  {
  }

  lemma CrossCons(w: Word, a: seq<Word>, b: seq<Word>)
    ensures Cross([w] + a, b) == Prefixed(w, b) + Cross(a, b)
  {
    assert ([w] + a)[1..] == a;
  }

  lemma {:induction false} CrossOfConcatenation(a: seq<Word>, b: seq<Word>, c: seq<Word>)
    ensures Cross(a + b, c) == Cross(a, c) + Cross(b, c)
  {
    if a == [] {
      assert a + b == b;
    } else {
      assert a + b == [a[0]] + (a[1..] + b);
      CrossCons(a[0], a[1..] + b, c);
      CrossOfConcatenation(a[1..], b, c);
    }
  }

  lemma {:induction false} CrossOfPrefixed(p: Word, b: seq<Word>, c: seq<Word>)
    ensures Cross(Prefixed(p, b), c) == Prefixed(p, Cross(b, c))
  {
    if b != [] {
      CrossOfPrefixed(p, b[1..], c);
      assert Prefixed(p, b)[1..] == Prefixed(p, b[1..]);
      assert Prefixed(p + b[0], c) == Prefixed(p, Prefixed(b[0], c)) by {
        forall i | 0 <= i < |c| ensures (p + b[0]) + c[i] == p + (b[0] + c[i]) {
        }
      }
    }
  }

  lemma {:induction false} CrossAssociates(a: seq<Word>, b: seq<Word>, c: seq<Word>)
    ensures Cross(Cross(a, b), c) == Cross(a, Cross(b, c))
  {
    if a != [] {
      CrossAssociates(a[1..], b, c);
      CrossOfConcatenation(Prefixed(a[0], b), Cross(a[1..], b), c);
      CrossOfPrefixed(a[0], b, c);
    }
  }

  lemma PrefixedEmpty(ws: seq<Word>)
    ensures Prefixed([], ws) == ws
  {
    forall i | 0 <= i < |ws|
      ensures Prefixed([], ws)[i] == ws[i]
    {
      assert [] + ws[i] == ws[i];
    }
  }

  lemma CrossUnit(ws: seq<Word>)
    ensures Cross([[]], ws) == ws
  {
    PrefixedEmpty(ws);
    var unit: seq<Word> := [[]];
    assert unit[1..] == [];
  }

  lemma {:induction false} CrossWithUnit(ws: seq<Word>)
    ensures Cross(ws, [[]]) == ws
  {
    if ws != [] {
      CrossWithUnit(ws[1..]);
      assert ws[0] + [] == ws[0];
      assert Prefixed(ws[0], [[]]) == [ws[0]];
      assert ws == [ws[0]] + ws[1..];
    }
  }

  lemma {:induction false} CrossContains(a: seq<Word>, b: seq<Word>, u: Word, v: Word)
    requires u in a && v in b
    ensures u + v in Cross(a, b)
  {
    if u == a[0] {
      var j :| 0 <= j < |b| && b[j] == v;
      assert Prefixed(a[0], b)[j] == u + v;
    } else {
      CrossContains(a[1..], b, u, v);
    }
  }

  lemma {:induction false} CrossSplits(a: seq<Word>, b: seq<Word>, w: Word) returns (u: Word, v: Word)
    requires w in Cross(a, b)
    ensures w == u + v && u in a && v in b
  {
    if w in Prefixed(a[0], b) {
      var j :| 0 <= j < |b| && Prefixed(a[0], b)[j] == w;
      u, v := a[0], b[j];
    } else {
      u, v := CrossSplits(a[1..], b, w);
    }
  }

  lemma {:induction false} PowersDownSnoc(ws: seq<Word>, min: nat, max: int)
    requires min <= max
    ensures PowersDown(ws, min, max) == PowersDown(ws, min + 1, max) + Power(ws, min)
    decreases max - min
  {
    if min < max {
      PowersDownSnoc(ws, min, max - 1);
    } else {
      assert PowersDown(ws, min, max - 1) == [];
      assert Power(ws, max) + [] == [] + Power(ws, min);
    }
  }

  // ----- The census describes the words -----

  function WordFacts(w: Word): Facts {
    Facts(1, |w|, |w|, |w|)
  }

  /** The count, total, least and greatest length of a nonempty list of words. */
  function ListFacts(ws: seq<Word>): Facts
    requires ws != []
  {
    if |ws| == 1 then WordFacts(ws[0]) else Join(WordFacts(ws[0]), ListFacts(ws[1..]))
  }

  function Total(ws: seq<Word>): nat {
    if ws == [] then 0 else |ws[0]| + Total(ws[1..])
  }

  /** What `ListFacts` means: exact count and total, and attained bounds on every length. */
  lemma {:induction false} ListFactsMeaning(ws: seq<Word>)
    requires ws != []
    ensures var f := ListFacts(ws);
      && f.count == |ws| && f.total == Total(ws)
      && (forall i :: 0 <= i < |ws| ==> f.min <= |ws[i]| <= f.max)
      && (exists i :: 0 <= i < |ws| && |ws[i]| == f.min)
      && (exists i :: 0 <= i < |ws| && |ws[i]| == f.max)
  {
    var f, rest := ListFacts(ws), ws[1..];
    if |ws| > 1 {
      var g := ListFacts(rest);
      ListFactsMeaning(rest);
      forall i | 0 <= i < |ws|
        ensures f.min <= |ws[i]| <= f.max
      {
        assert i > 0 ==> ws[i] == rest[i - 1];
      }
      var lo :| 0 <= lo < |rest| && |rest[lo]| == g.min;
      var hi :| 0 <= hi < |rest| && |rest[hi]| == g.max;
      assert |ws[lo + 1]| == g.min && |ws[hi + 1]| == g.max;
      assert |ws[0]| == f.min || |ws[lo + 1]| == f.min;
      assert |ws[0]| == f.max || |ws[hi + 1]| == f.max;
    } else {
      assert Total(rest) == 0;
      assert |ws[0]| == f.min == f.max;
    }
  }

  lemma {:induction false} FactsOfConcatenation(a: seq<Word>, b: seq<Word>)
    requires a != [] && b != []
    ensures ListFacts(a + b) == Join(ListFacts(a), ListFacts(b))
  {
    assert (a + b)[1..] == a[1..] + b;
    if |a| > 1 {
      FactsOfConcatenation(a[1..], b);
    } else {
      assert a[1..] + b == b;
    }
  }

  lemma {:induction false} TimesAdds(a: int, b: int, n: int)
    ensures Times(a + b, n) == Times(a, n) + Times(b, n)
    decreases n
  {
    if n > 0 {
      TimesAdds(a, b, n - 1);
    }
  }

  lemma {:induction false} TimesAddsRight(a: int, m: int, n: int)
    requires 0 <= m && 0 <= n
    ensures Times(a, m + n) == Times(a, m) + Times(a, n)
    decreases n
  {
    if n > 0 {
      TimesAddsRight(a, m, n - 1);
      assert m + n - 1 == m + (n - 1);
    }
  }

  lemma {:induction false} TimesOne(n: int)
    requires 0 <= n
    ensures Times(1, n) == n && Times(0, n) == 0
    decreases n
  {
    if n > 0 {
      TimesOne(n - 1);
    }
  }

  lemma TimesByOne(n: int)
    ensures Times(n, 1) == n
  {
    assert Times(n, 0) == 0;
  }

  lemma ProductDistributes(f: Facts, g: Facts, h: Facts)
    requires 0 <= f.count && 0 <= g.count && 0 <= h.count
    ensures Product(Join(f, g), h) == Join(Product(f, h), Product(g, h))
  {
    TimesAdds(f.count, g.count, h.count);
    TimesAdds(f.total, g.total, h.count);
    TimesAddsRight(h.total, f.count, g.count);
  }

  lemma {:induction false} FactsOfPrefixed(p: Word, ws: seq<Word>)
    requires ws != []
    ensures ListFacts(Prefixed(p, ws)) == Product(WordFacts(p), ListFacts(ws))
  {
    var f := ListFacts(ws);
    ListFactsMeaning(ws);
    TimesOne(|ws|);
    TimesByOne(f.total);
    if |ws| == 1 {
      TimesByOne(|p|);
    } else {
      FactsOfPrefixed(p, ws[1..]);
      ListFactsMeaning(ws[1..]);
      TimesOne(|ws| - 1);
      TimesByOne(ListFacts(ws[1..]).total);
      assert Prefixed(p, ws)[1..] == Prefixed(p, ws[1..]);
    }
  }

  lemma {:induction false} FactsOfCross(a: seq<Word>, b: seq<Word>)
    requires a != [] && b != []
    ensures Cross(a, b) != [] && ListFacts(Cross(a, b)) == Product(ListFacts(a), ListFacts(b))
  {
    FactsOfPrefixed(a[0], b);
    if |a| == 1 {
      assert Cross(a[1..], b) == [];
      assert Cross(a, b) == Prefixed(a[0], b);
    } else {
      FactsOfCross(a[1..], b);
      FactsOfConcatenation(Prefixed(a[0], b), Cross(a[1..], b));
      ListFactsMeaning(a[1..]);
      ListFactsMeaning(b);
      ProductDistributes(WordFacts(a[0]), ListFacts(a[1..]), ListFacts(b));
    }
  }

  /** `f` is the exact census of the nonempty list `ws`. */
  predicate Describes(f: Facts, ws: seq<Word>) {
    ws != [] && f == ListFacts(ws)
  }

  lemma DescribesProduct(f: Facts, a: seq<Word>, g: Facts, b: seq<Word>)
    requires Describes(f, a) && Describes(g, b)
    ensures Describes(Product(f, g), Cross(a, b))
  {
    FactsOfCross(a, b);
  }

  /** A running sum: nothing yet, or the facts of the words so far. */
  predicate Sums(f: Facts, ws: seq<Word>) {
    if ws == [] then f == NO_FACTS else Describes(f, ws)
  }

  lemma SumsJoin(f: Facts, a: seq<Word>, g: Facts, b: seq<Word>)
    requires Sums(f, a) && Describes(g, b) && Sane(g)
    ensures Describes(Join(f, g), a + b) && Describes(Join(f, g), b + a)
  {
    if a == [] {
      assert Join(f, g) == g && a + b == b && b + a == b;
    } else {
      FactsOfConcatenation(a, b);
      FactsOfConcatenation(b, a);
    }
  }

  /** The census of an expression describes the words it is materialized into. */
  lemma {:induction false} CensusIsExact(h: Hir)
    requires FactsOf(h).Some?
    ensures Describes(FactsOf(h).value, WordsOf(h))
    decreases h, 0
  {
    match h
    case Empty => OneWord([]);
    case Literal(bytes) => OneWord(Lower(bytes));
    case ByteClass(ranges) =>
      var norm := Normalized(ClassBytes(ranges), NoBytes());
      SetWordsCensus(norm, 0);
    case Capture(sub) => CensusIsExact(sub);
    case Concat(parts) =>
      OneWord([]);
      ConcatCensusIsExact(parts, EMPTY_FACTS, [[]]);
    case Alternation(branches) =>
      AltCensusIsExact(branches, NO_FACTS, []);
      assert [] + AltWords(branches) == AltWords(branches);
    case Repetition(min, max, greedy, sub) =>
      CensusIsExact(sub);
      FactsSane(sub);
      var ws := WordsOf(sub);
      if greedy {
        DownCensusIsExact(FactsOf(sub).value, ws, min, max.value, NO_FACTS, []);
        assert PowersDown(ws, min, max.value) + [] == PowersDown(ws, min, max.value);
      } else {
        UpCensusIsExact(FactsOf(sub).value, ws, min, max.value, NO_FACTS, []);
        assert [] + PowersUp(ws, min, max.value) == PowersUp(ws, min, max.value);
      }
  }

  lemma OneWord(w: Word)
    ensures Describes(WordFacts(w), [w])
  {
  }

  lemma {:induction false} SetWordsCensus(norm: seq<bool>, from: nat)
    requires from + |norm| == 256
    ensures |SetWords(norm, from)| == CountSet(norm)
    ensures SetWords(norm, from) != [] ==>
      ListFacts(SetWords(norm, from)) == Facts(|SetWords(norm, from)|, |SetWords(norm, from)|, 1, 1)
    decreases norm
  {
    if norm != [] {
      SetWordsCensus(norm[1..], from + 1);
      var rest := SetWords(norm[1..], from + 1);
      if norm[0] {
        assert ([[from as Byte]] + rest)[1..] == rest;
      } else {
        assert SetWords(norm, from) == rest;
      }
    }
  }

  lemma {:induction false} ConcatCensusIsExact(parts: seq<Hir>, acc: Facts, ws: seq<Word>)
    requires ConcatFold(parts, acc).Some? && Describes(acc, ws)
    ensures Describes(ConcatFold(parts, acc).value, CrossFold(parts, ws))
    decreases parts, 0
  {
    if parts != [] {
      CensusIsExact(parts[0]);
      var child := FactsOf(parts[0]).value;
      DescribesProduct(acc, ws, child, WordsOf(parts[0]));
      ConcatCensusIsExact(parts[1..], Product(acc, child), Cross(ws, WordsOf(parts[0])));
    }
  }

  lemma {:induction false} AltCensusIsExact(branches: seq<Hir>, acc: Facts, ws: seq<Word>)
    requires AltFold(branches, acc).Some? && Sums(acc, ws) && (branches == [] ==> ws != [])
    ensures Describes(AltFold(branches, acc).value, ws + AltWords(branches))
    decreases branches, 0
  {
    if branches == [] {
      assert ws + AltWords(branches) == ws;
    } else {
      var first, next := WordsOf(branches[0]), Join(acc, FactsOf(branches[0]).value);
      CensusIsExact(branches[0]);
      FactsSane(branches[0]);
      SumsJoin(acc, ws, FactsOf(branches[0]).value, first);
      AltCensusIsExact(branches[1..], next, ws + first);
      assert (ws + first) + AltWords(branches[1..]) == ws + AltWords(branches);
    }
  }

  lemma {:induction false} PowerCensusIsExact(child: Facts, cs: seq<Word>, n: nat, acc: Facts, ws: seq<Word>)
    requires PowerFold(child, n, acc).Some? && Describes(child, cs) && Describes(acc, ws)
    ensures Describes(PowerFold(child, n, acc).value, Cross(ws, Power(cs, n)))
  {
    if n == 0 {
      CrossWithUnit(ws);
    } else {
      DescribesProduct(acc, ws, child, cs);
      PowerCensusIsExact(child, cs, n - 1, Product(acc, child), Cross(ws, cs));
      CrossAssociates(ws, cs, Power(cs, n - 1));
    }
  }

  lemma OnePowerIsExact(child: Facts, cs: seq<Word>, n: nat)
    requires PowerFold(child, n, EMPTY_FACTS).Some? && Describes(child, cs)
    ensures Describes(PowerFold(child, n, EMPTY_FACTS).value, Power(cs, n))
  {
    OneWord([]);
    PowerCensusIsExact(child, cs, n, EMPTY_FACTS, [[]]);
    CrossUnit(Power(cs, n));
  }

  /** One more power added to a running sum, on either side. */
  lemma PowerJoins(child: Facts, cs: seq<Word>, count: nat, acc: Facts, ws: seq<Word>) returns (next: Facts)
    requires PowerFold(child, count, EMPTY_FACTS).Some? && Describes(child, cs) && Sane(child) && Sums(acc, ws)
    ensures next == Join(acc, PowerFold(child, count, EMPTY_FACTS).value)
    ensures ws + Power(cs, count) != [] && Sums(next, ws + Power(cs, count))
    ensures Power(cs, count) + ws != [] && Sums(next, Power(cs, count) + ws)
  {
    var repeated := PowerFold(child, count, EMPTY_FACTS).value;
    next := Join(acc, repeated);
    OnePowerIsExact(child, cs, count);
    PowerFoldSane(child, count, EMPTY_FACTS);
    SumsJoin(acc, ws, repeated, Power(cs, count));
  }

  lemma PowersUpShift(cs: seq<Word>, count: nat, max: int, ws: seq<Word>)
    requires count <= max
    ensures (ws + Power(cs, count)) + PowersUp(cs, count + 1, max) == ws + PowersUp(cs, count, max)
  {
  }

  lemma {:induction false} UpCensusIsExact(child: Facts, cs: seq<Word>, count: nat, max: nat, acc: Facts, ws: seq<Word>)
    requires RepFold(child, count, max, acc).Some? && Describes(child, cs) && Sane(child) && Sums(acc, ws)
    requires count > max ==> ws != []
    ensures Describes(RepFold(child, count, max, acc).value, ws + PowersUp(cs, count, max))
    decreases max + 1 - count
  {
    if count > max {
      assert ws + PowersUp(cs, count, max) == ws;
    } else {
      var next := PowerJoins(child, cs, count, acc, ws);
      assert RepFold(child, count, max, acc) == RepFold(child, count + 1, max, next);
      UpCensusIsExact(child, cs, count + 1, max, next, ws + Power(cs, count));
      PowersUpShift(cs, count, max, ws);
    }
  }

  lemma PowersDownShift(cs: seq<Word>, count: nat, max: int, ws: seq<Word>)
    requires count <= max
    ensures PowersDown(cs, count + 1, max) + (Power(cs, count) + ws) == PowersDown(cs, count, max) + ws
  {
    PowersDownSnoc(cs, count, max);
  }

  lemma {:induction false} DownCensusIsExact(child: Facts, cs: seq<Word>, count: nat, max: nat, acc: Facts, ws: seq<Word>)
    requires RepFold(child, count, max, acc).Some? && Describes(child, cs) && Sane(child) && Sums(acc, ws)
    requires count > max ==> ws != []
    ensures Describes(RepFold(child, count, max, acc).value, PowersDown(cs, count, max) + ws)
    decreases max + 1 - count
  {
    if count > max {
      assert PowersDown(cs, count, max) + ws == ws;
    } else {
      var next := PowerJoins(child, cs, count, acc, ws);
      assert RepFold(child, count, max, acc) == RepFold(child, count + 1, max, next);
      DownCensusIsExact(child, cs, count + 1, max, next, Power(cs, count) + ws);
      PowersDownShift(cs, count, max, ws);
    }
  }
}
