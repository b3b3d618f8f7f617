/**
  The materialized words of an expression with a census are exactly the
  ASCII-lowercase images of the words of its language: none is missing
  (`WordsAreComplete`) and none is invented (`WordsAreSound`).
 */
module AnchorLanguage {
  import opened Hir
  import opened Census
  import opened Words

  // ----- Byte classes -----

  predicate AllAscii(bytes: Bytes) {
    forall k :: 0 <= k < |bytes| ==> IsAscii(bytes[k])
  }

  lemma {:induction false} CountSetNone(norm: seq<bool>)
    requires forall k :: 0 <= k < |norm| ==> !norm[k]
    ensures CountSet(norm) == 0
  {
    if norm != [] {
      CountSetNone(norm[1..]);
    }
  }

  lemma {:induction false} NormalizedRejects(bytes: Bytes, acc: seq<bool>)
    requires |acc| == 256 && !AllAscii(bytes)
    ensures CountSet(Normalized(bytes, acc)) == 0
  {
    if IsAscii(bytes[0]) {
      NormalizedRejects(bytes[1..], acc[LowerByte(bytes[0]) := true]);
    } else {
      CountSetNone(NoBytes());
    }
  }

  lemma {:induction false} NormalizedMembers(bytes: Bytes, acc: seq<bool>, b: Byte)
    requires |acc| == 256 && AllAscii(bytes)
    ensures Normalized(bytes, acc)[b] <==> acc[b] || exists k :: 0 <= k < |bytes| && LowerByte(bytes[k]) == b
  {
    if bytes != [] {
      var rest := bytes[1..];
      NormalizedMembers(rest, acc[LowerByte(bytes[0]) := true], b);
      if k :| 0 <= k < |rest| && LowerByte(rest[k]) == b {
        assert LowerByte(bytes[k + 1]) == b;
      }
      if k :| 0 <= k < |bytes| && LowerByte(bytes[k]) == b {
        assert k == 0 || LowerByte(rest[k - 1]) == b;
      }
    }
  }

  lemma {:induction false} SetWordsMembers(norm: seq<bool>, from: nat, w: Word)
    requires from + |norm| == 256
    ensures w in SetWords(norm, from) <==> |w| == 1 && from <= w[0] && norm[w[0] - from]
    decreases norm
  {
    if norm != [] {
      SetWordsMembers(norm[1..], from + 1, w);
      assert |w| == 1 ==> w == [w[0]];
    }
  }

  /** The words of a class with a census are its folded members. */
  lemma ClassWords(ranges: seq<(Byte, Byte)>, w: Word)
    requires FactsOf(ByteClass(ranges)).Some?
    ensures w in WordsOf(ByteClass(ranges)) <==>
      |w| == 1 && exists b: Byte :: InRanges(ranges, b) && LowerByte(b) == w[0]
  {
    var bytes := ClassBytes(ranges);
    if !AllAscii(bytes) {
      NormalizedRejects(bytes, NoBytes());
    }
    SetWordsMembers(Normalized(bytes, NoBytes()), 0, w);
    if |w| == 1 {
      NormalizedMembers(bytes, NoBytes(), w[0]);
      if k :| 0 <= k < |bytes| && LowerByte(bytes[k]) == w[0] {
        ClassBytesAreMembers(ranges, bytes[k]);
      }
      if b: Byte :| InRanges(ranges, b) && LowerByte(b) == w[0] {
        ClassBytesAreMembers(ranges, b);
      }
    }
  }

  // ----- Completeness -----

  /** Every word of the language is materialized, with its ASCII letters lowered. */
  lemma {:induction false} WordsAreComplete(h: Hir, w: Bytes)
    requires FactsOf(h).Some? && InLang(h, w)
    ensures Lower(w) in WordsOf(h)
    decreases h
  {
    match h
    case Empty => assert Lower(w) == [];
    case Literal(_) =>
    case ByteClass(ranges) => ClassWords(ranges, Lower(w));
    case Capture(sub) => WordsAreComplete(sub, w);
    case Concat(parts) =>
      CompleteConcat(parts, EMPTY_FACTS, [[]], [], w);
      assert [] + Lower(w) == Lower(w);
    case Alternation(branches) =>
      var k :| 0 <= k < |branches| && InLang(branches[k], w);
      CompleteAlternation(branches, NO_FACTS, k, w);
    case Repetition(min, max, greedy, sub) =>
      var n: nat :| CountAllowed(min, max, n) && InPower(sub, n, w);
      var ws := WordsOf(sub);
      forall a | InLang(sub, a)
        ensures Lower(a) in ws
      {
        WordsAreComplete(sub, a);
      }
      CompletePower(sub, ws, n, w);
      if greedy {
        PowersDownContains(ws, min, max.value, n, Lower(w));
      } else {
        PowersUpContains(ws, min, max.value, n, Lower(w));
      }
  }

  lemma LowerAfter(p: Word, a: Bytes, b: Bytes)
    ensures (p + Lower(a)) + Lower(b) == p + Lower(a + b)
  {
    LowerAppend(a, b);
  }

  lemma {:induction false} CompleteConcat(parts: seq<Hir>, acc: Facts, ws: seq<Word>, p: Word, w: Bytes)
    requires ConcatFold(parts, acc).Some? && p in ws && InSeq(parts, w)
    ensures p + Lower(w) in CrossFold(parts, ws)
    decreases parts, 1
  {
    if parts == [] {
      assert p + Lower(w) == p;
    } else {
      var q, b := CompleteStep(parts, ws, p, w);
      CompleteConcat(parts[1..], Product(acc, FactsOf(parts[0]).value), Cross(ws, WordsOf(parts[0])), q, b);
    }
  }

  lemma {:induction false} CompleteStep(parts: seq<Hir>, ws: seq<Word>, p: Word, w: Bytes) returns (q: Word, b: Bytes)
    requires parts != [] && FactsOf(parts[0]).Some? && p in ws && InSeq(parts, w)
    ensures q in Cross(ws, WordsOf(parts[0])) && InSeq(parts[1..], b) && q + Lower(b) == p + Lower(w)
    decreases parts, 0
  {
    var a: Bytes;
    a, b := InSeqHead(parts, w);
    WordsAreComplete(parts[0], a);
    CrossContains(ws, WordsOf(parts[0]), p, Lower(a));
    q := p + Lower(a);
    LowerAfter(p, a, b);
  }

  lemma {:induction false} CompleteAlternation(branches: seq<Hir>, acc: Facts, k: nat, w: Bytes)
    requires AltFold(branches, acc).Some? && k < |branches| && InLang(branches[k], w)
    ensures Lower(w) in AltWords(branches)
    decreases branches, 0
  {
    if k == 0 {
      WordsAreComplete(branches[0], w);
    } else {
      CompleteAlternation(branches[1..], Join(acc, FactsOf(branches[0]).value), k - 1, w);
    }
  }

  lemma {:induction false} CompletePower(h: Hir, ws: seq<Word>, n: nat, w: Bytes)
    requires (forall a :: InLang(h, a) ==> Lower(a) in ws) && InPower(h, n, w)
    ensures Lower(w) in Power(ws, n)
    decreases n
  {
    if n == 0 {
      assert Lower(w) == [];
    } else {
      var a, b := InPowerHead(h, n, w);
      CompletePower(h, ws, n - 1, b);
      CrossContains(ws, Power(ws, n - 1), Lower(a), Lower(b));
      LowerAppend(a, b);
    }
  }

  lemma {:induction false} PowersUpContains(ws: seq<Word>, min: nat, max: int, n: nat, w: Word)
    requires min <= n <= max && w in Power(ws, n)
    ensures w in PowersUp(ws, min, max)
    decreases max - min
  {
    hide Power;
    if min < n {
      PowersUpContains(ws, min + 1, max, n, w);
    }
  }

  lemma {:induction false} PowersDownContains(ws: seq<Word>, min: nat, max: int, n: nat, w: Word)
    requires min <= n <= max && w in Power(ws, n)
    ensures w in PowersDown(ws, min, max)
    decreases max - min
  {
    hide Power;
    if n < max {
      PowersDownContains(ws, min, max - 1, n, w);
    }
  }

  // ----- Soundness -----

  /** Every materialized word is the lowered image of a word of the language. */
  lemma {:induction false} WordsAreSound(h: Hir, u: Word) returns (w: Bytes)
    requires FactsOf(h).Some? && u in WordsOf(h)
    ensures InLang(h, w) && Lower(w) == u
    decreases h, 0
  {
    match h
    case Empty => w := [];
    case Literal(bytes) => w := bytes;
    case ByteClass(ranges) =>
      ClassWords(ranges, u);
      var b: Byte :| InRanges(ranges, b) && LowerByte(b) == u[0];
      w := [b];
      assert Lower(w) == u;
    case Capture(sub) => w := WordsAreSound(sub, u);
    case Concat(parts) =>
      var p;
      p, w := SoundConcat(parts, EMPTY_FACTS, [[]], u);
      assert p == [] && [] + Lower(w) == Lower(w);
    case Alternation(branches) => w := SoundAlternation(branches, NO_FACTS, u);
    case Repetition(min, max, greedy, sub) =>
      var ws := WordsOf(sub);
      var n: nat;
      if greedy {
        n := PowersDownCount(ws, min, max.value, u);
      } else {
        n := PowersUpCount(ws, min, max.value, u);
      }
      forall x | x in ws
        ensures exists a :: InLang(sub, a) && Lower(a) == x
      {
        var a := WordsAreSound(sub, x);
      }
      w := SoundPower(sub, ws, n, u);
      assert CountAllowed(min, max, n) && InPower(sub, n, w);
  }

  lemma {:induction false} SoundConcat(parts: seq<Hir>, acc: Facts, ws: seq<Word>, u: Word) returns (p: Word, w: Bytes)
    requires ConcatFold(parts, acc).Some? && u in CrossFold(parts, ws)
    ensures p in ws && InSeq(parts, w) && u == p + Lower(w)
    decreases parts, 0
  {
    if parts == [] {
      p, w := u, [];
      assert p + Lower([]) == p;
    } else {
      var child := WordsOf(parts[0]);
      var q, b := SoundConcat(parts[1..], Product(acc, FactsOf(parts[0]).value), Cross(ws, child), u);
      var v: Word;
      p, v := CrossSplits(ws, child, q);
      var a := WordsAreSound(parts[0], v);
      w := a + b;
      InSeqIntro(parts, a, b);
      LowerAfter(p, a, b);
    }
  }

  lemma {:induction false} SoundAlternation(branches: seq<Hir>, acc: Facts, u: Word) returns (w: Bytes)
    requires AltFold(branches, acc).Some? && u in AltWords(branches)
    ensures InLang(Alternation(branches), w) && Lower(w) == u
    decreases branches, 0
  {
    if u in WordsOf(branches[0]) {
      w := WordsAreSound(branches[0], u);
    } else {
      w := SoundAlternation(branches[1..], Join(acc, FactsOf(branches[0]).value), u);
      var k :| 0 <= k < |branches[1..]| && InLang(branches[1..][k], w);
      assert branches[k + 1] == branches[1..][k];
    }
  }

  lemma {:induction false} SoundPower(h: Hir, ws: seq<Word>, n: nat, u: Word) returns (w: Bytes)
    requires (forall x :: x in ws ==> exists a :: InLang(h, a) && Lower(a) == x) && u in Power(ws, n)
    ensures InPower(h, n, w) && Lower(w) == u
    decreases n
  {
    if n == 0 {
      w := [];
    } else {
      var x, y := CrossSplits(ws, Power(ws, n - 1), u);
      var a :| InLang(h, a) && Lower(a) == x;
      var b := SoundPower(h, ws, n - 1, y);
      w := a + b;
      InPowerIntro(h, n, a, b);
      LowerAppend(a, b);
    }
  }

  lemma {:induction false} PowersUpCount(ws: seq<Word>, min: nat, max: int, w: Word) returns (n: nat)
    requires w in PowersUp(ws, min, max)
    ensures min <= n <= max && w in Power(ws, n)
    decreases max + 1 - min
  {
    hide Power;
    if w in Power(ws, min) {
      n := min;
    } else {
      n := PowersUpCount(ws, min + 1, max, w);
    }
  }

  lemma {:induction false} PowersDownCount(ws: seq<Word>, min: nat, max: int, w: Word) returns (n: nat)
    requires w in PowersDown(ws, min, max)
    ensures min <= n <= max && w in Power(ws, n)
    decreases max + 1 - min
  {
    hide Power;
    if w in Power(ws, max) {
      n := max;
    } else {
      n := PowersDownCount(ws, min, max - 1, w);
    }
  }
}
