/**
  Regular-expression trees and their two semantics.

  `MatchSpan` is the reference semantics: an expression matches a span of a
  haystack, and assertions may look at the whole haystack. `InLang` is the
  context-free language of an expression. The two agree on every expression
  without assertions and Unicode classes (`SpanIsLanguage`).
 */
module Hir {
  import opened Wrappers

  type Byte = b: int | 0 <= b < 256

  type Bytes = seq<Byte>

  datatype Hir =
    | Empty
    | Literal(bytes: Bytes)
    | ByteClass(ranges: seq<(Byte, Byte)>)
    | UnicodeClass(classId: nat)
    | Look(lookId: nat)
    | Capture(sub: Hir)
    | Concat(parts: seq<Hir>)
    | Alternation(branches: seq<Hir>)
    | Repetition(min: nat, max: Option<nat>, greedy: bool, rsub: Hir)

  /** What an assertion and a Unicode class accept; both are outside the certified fragment. */
  datatype Env = Env(look: (nat, Bytes, nat) -> bool, uni: (nat, Bytes) -> bool)

  // ----- Bytes of a class, and ASCII case folding -----

  /** The bytes `start..=end`, empty when the range is reversed. */
  function RangeBytes(start: int, end: int): (bytes: Bytes)
    requires 0 <= start && end < 256
    ensures forall b: Byte :: b in bytes <==> start <= b <= end
    decreases 256 - start
  {
    if start > end then [] else [start as Byte] + RangeBytes(start + 1, end)
  }

  /** Every byte of every range, in iteration order. */
  function ClassBytes(ranges: seq<(Byte, Byte)>): Bytes {
    if ranges == [] then [] else RangeBytes(ranges[0].0, ranges[0].1) + ClassBytes(ranges[1..])
  }

  /** Membership in a byte class, straight from its ranges. */
  predicate InRanges(ranges: seq<(Byte, Byte)>, b: Byte) {
    exists k :: 0 <= k < |ranges| && ranges[k].0 <= b <= ranges[k].1
  }

  lemma {:induction false} ClassBytesAreMembers(ranges: seq<(Byte, Byte)>, b: Byte)
    ensures b in ClassBytes(ranges) <==> InRanges(ranges, b)
  {
    if ranges != [] {
      var rest := ranges[1..];
      ClassBytesAreMembers(rest, b);
      if InRanges(rest, b) {
        var k :| 0 <= k < |rest| && rest[k].0 <= b <= rest[k].1;
        assert ranges[k + 1] == rest[k];
      }
      if InRanges(ranges, b) && !(ranges[0].0 <= b <= ranges[0].1) {
        var k :| 0 <= k < |ranges| && ranges[k].0 <= b <= ranges[k].1;
        assert rest[k - 1] == ranges[k];
      }
    }
  }

  predicate IsAscii(b: Byte) {
    b < 128
  }

  function LowerByte(b: Byte): Byte {
    if 65 <= b <= 90 then b + 32 else b
  }

  predicate SmallAndCapital(a: Byte, b: Byte) {
    97 <= a <= 122 && b == a - 32
  }

  /** Two bytes fold alike exactly when they are the same or the small and the capital form of one letter. */
  lemma FoldIsCaseEquality(a: Byte, b: Byte)
    ensures LowerByte(a) == LowerByte(b) <==> a == b || SmallAndCapital(a, b) || SmallAndCapital(b, a)
  {
  }

  function Lower(w: Bytes): (r: Bytes)
    ensures |r| == |w|
  {
    seq(|w|, i requires 0 <= i < |w| => LowerByte(w[i]))
  }

  lemma LowerAppend(a: Bytes, b: Bytes)
    ensures Lower(a + b) == Lower(a) + Lower(b)
  {
  }

  // ----- Span semantics -----

  predicate CountAllowed(min: nat, max: Option<nat>, n: nat) {
    min <= n && (max.Some? ==> n <= max.value)
  }

  ghost predicate MatchSpan(env: Env, h: Hir, hay: Bytes, i: nat, j: nat)
    requires i <= j <= |hay|
    decreases h, 0
  {
    match h
    case Empty => i == j
    case Literal(bytes) => hay[i..j] == bytes
    case ByteClass(ranges) => j == i + 1 && InRanges(ranges, hay[i])
    case UnicodeClass(id) => env.uni(id, hay[i..j])
    case Look(id) => i == j && env.look(id, hay, i)
    case Capture(sub) => MatchSpan(env, sub, hay, i, j)
    case Concat(parts) => MatchParts(env, parts, hay, i, j)
    case Alternation(branches) => exists k :: 0 <= k < |branches| && MatchSpan(env, branches[k], hay, i, j)
    case Repetition(min, max, _, sub) =>
      exists n: nat :: CountAllowed(min, max, n) && MatchPower(env, sub, n, hay, i, j)
  }

  ghost predicate MatchParts(env: Env, parts: seq<Hir>, hay: Bytes, i: nat, j: nat)
    requires i <= j <= |hay|
    decreases parts, 1
  {
    if parts == [] then i == j else exists k :: MatchPartsAt(env, parts, hay, i, k, j)
  }

  ghost predicate MatchPartsAt(env: Env, parts: seq<Hir>, hay: Bytes, i: nat, k: int, j: nat)
    requires i <= j <= |hay| && parts != []
    decreases parts, 0
  {
    i <= k <= j && MatchSpan(env, parts[0], hay, i, k) && MatchParts(env, parts[1..], hay, k, j)
  }

  ghost predicate MatchPower(env: Env, h: Hir, n: nat, hay: Bytes, i: nat, j: nat)
    requires i <= j <= |hay|
    decreases h, 1, n, 1
  {
    if n == 0 then i == j else exists k :: MatchPowerAt(env, h, n, hay, i, k, j)
  }

  ghost predicate MatchPowerAt(env: Env, h: Hir, n: nat, hay: Bytes, i: nat, k: int, j: nat)
    requires i <= j <= |hay| && n > 0
    decreases h, 1, n, 0
  {
    i <= k <= j && MatchSpan(env, h, hay, i, k) && MatchPower(env, h, n - 1, hay, k, j)
  }

  // ----- Language semantics -----

  ghost predicate InLang(h: Hir, w: Bytes)
    decreases h, 0
  {
    match h
    case Empty => w == []
    case Literal(bytes) => w == bytes
    case ByteClass(ranges) => |w| == 1 && InRanges(ranges, w[0])
    case UnicodeClass(_) => false
    case Look(_) => false
    case Capture(sub) => InLang(sub, w)
    case Concat(parts) => InSeq(parts, w)
    case Alternation(branches) => exists k :: 0 <= k < |branches| && InLang(branches[k], w)
    case Repetition(min, max, _, sub) => exists n: nat :: CountAllowed(min, max, n) && InPower(sub, n, w)
  }

  ghost predicate InSeq(parts: seq<Hir>, w: Bytes)
    decreases parts, 1
  {
    if parts == [] then w == [] else exists k :: InSeqAt(parts, w, k)
  }

  ghost predicate InSeqAt(parts: seq<Hir>, w: Bytes, k: int)
    requires parts != []
    decreases parts, 0
  {
    0 <= k <= |w| && InLang(parts[0], w[..k]) && InSeq(parts[1..], w[k..])
  }

  ghost predicate InPower(h: Hir, n: nat, w: Bytes)
    decreases h, 1, n, 1
  {
    if n == 0 then w == [] else exists k :: InPowerAt(h, n, w, k)
  }

  ghost predicate InPowerAt(h: Hir, n: nat, w: Bytes, k: int)
    requires n > 0
    decreases h, 1, n, 0
  {
    0 <= k <= |w| && InLang(h, w[..k]) && InPower(h, n - 1, w[k..])
  }

  /** No assertion and no Unicode class anywhere below. */
  predicate Plain(h: Hir) {
    match h
    case Empty => true
    case Literal(_) => true
    case ByteClass(_) => true
    case UnicodeClass(_) => false
    case Look(_) => false
    case Capture(sub) => Plain(sub)
    case Concat(parts) => forall k :: 0 <= k < |parts| ==> Plain(parts[k])
    case Alternation(branches) => forall k :: 0 <= k < |branches| ==> Plain(branches[k])
    case Repetition(_, _, _, sub) => Plain(sub)
  }

  // ----- The two semantics agree on plain expressions -----

  lemma {:induction false} SpanIsLanguage(env: Env, h: Hir, hay: Bytes, i: nat, j: nat)
    requires Plain(h) && i <= j <= |hay|
    ensures MatchSpan(env, h, hay, i, j) <==> InLang(h, hay[i..j])
    decreases h, 0
  {
    match h
    case Empty =>
    case Literal(_) =>
    case ByteClass(_) =>
    case Capture(sub) => SpanIsLanguage(env, sub, hay, i, j);
    case Concat(parts) => SpanIsSeq(env, parts, hay, i, j);
    case Alternation(branches) =>
      forall k | 0 <= k < |branches| {
        SpanIsLanguage(env, branches[k], hay, i, j);
      }
    case Repetition(_, _, _, sub) =>
      forall n: nat {
        SpanIsPower(env, sub, n, hay, i, j);
      }
  }

  lemma {:induction false} SpanIsSeq(env: Env, parts: seq<Hir>, hay: Bytes, i: nat, j: nat)
    requires (forall k :: 0 <= k < |parts| ==> Plain(parts[k])) && i <= j <= |hay|
    ensures MatchParts(env, parts, hay, i, j) <==> InSeq(parts, hay[i..j])
    decreases parts, 0
  {
    if parts != [] {
      var w := hay[i..j];
      forall k | i <= k <= j
        ensures MatchPartsAt(env, parts, hay, i, k, j) <==> InSeqAt(parts, w, k - i)
      {
        SpanIsLanguage(env, parts[0], hay, i, k);
        SpanIsSeq(env, parts[1..], hay, k, j);
        assert w[..k - i] == hay[i..k];
        assert w[k - i..] == hay[k..j];
      }
      if InSeq(parts, w) {
        var a, _ := InSeqHead(parts, w);
        assert MatchPartsAt(env, parts, hay, i, i + |a|, j);
      }
    }
  }

  lemma {:induction false} SpanIsPower(env: Env, h: Hir, n: nat, hay: Bytes, i: nat, j: nat)
    requires Plain(h) && i <= j <= |hay|
    ensures MatchPower(env, h, n, hay, i, j) <==> InPower(h, n, hay[i..j])
    decreases h, 1, n
  {
    if n > 0 {
      var w := hay[i..j];
      forall k | i <= k <= j
        ensures MatchPowerAt(env, h, n, hay, i, k, j) <==> InPowerAt(h, n, w, k - i)
      {
        SpanIsLanguage(env, h, hay, i, k);
        SpanIsPower(env, h, n - 1, hay, k, j);
        assert w[..k - i] == hay[i..k];
        assert w[k - i..] == hay[k..j];
      }
      if InPower(h, n, w) {
        var a, _ := InPowerHead(h, n, w);
        assert MatchPowerAt(env, h, n, hay, i, i + |a|, j);
      }
    }
  }

  // ----- Sequences of expressions -----

  lemma InSeqIntro(parts: seq<Hir>, a: Bytes, b: Bytes)
    requires parts != [] && InLang(parts[0], a) && InSeq(parts[1..], b)
    ensures InSeq(parts, a + b)
  {
    assert (a + b)[..|a|] == a && (a + b)[|a|..] == b;
    assert InSeqAt(parts, a + b, |a|);
  }

  lemma InSeqHead(parts: seq<Hir>, w: Bytes) returns (a: Bytes, b: Bytes)
    requires parts != [] && InSeq(parts, w)
    ensures w == a + b && InLang(parts[0], a) && InSeq(parts[1..], b)
    ensures InSeqAt(parts, w, |a|)
  {
    var k :| InSeqAt(parts, w, k);
    a, b := w[..k], w[k..];
  }

  lemma InSeqSingle(h: Hir, w: Bytes)
    ensures InSeq([h], w) <==> InLang(h, w)
  {
    assert [h][1..] == [];
    if InLang(h, w) {
      InSeqIntro([h], w, []);
      assert w + [] == w;
    }
    if InSeq([h], w) {
      var a, b := InSeqHead([h], w);
      assert w == a;
    }
  }

  /** A word of `a` followed by a word of `b` is a word of `a + b`. */
  lemma {:induction false} InSeqJoin(a: seq<Hir>, b: seq<Hir>, u: Bytes, v: Bytes)
    requires InSeq(a, u) && InSeq(b, v)
    ensures InSeq(a + b, u + v)
    decreases a
  {
    if a == [] {
      assert a + b == b && u + v == v;
    } else {
      var x, y := InSeqHead(a, u);
      InSeqJoin(a[1..], b, y, v);
      assert (a + b)[1..] == a[1..] + b;
      InSeqIntro(a + b, x, y + v);
      assert x + (y + v) == u + v;
    }
  }

  /** Every word of `a + b` splits into a word of `a` and a word of `b`. */
  lemma {:induction false} InSeqSplit(a: seq<Hir>, b: seq<Hir>, w: Bytes) returns (u: Bytes, v: Bytes)
    requires InSeq(a + b, w)
    ensures w == u + v && InSeq(a, u) && InSeq(b, v)
    decreases a
  {
    if a == [] {
      assert a + b == b;
      u, v := [], w;
    } else {
      assert (a + b)[1..] == a[1..] + b;
      var x, y := InSeqHead(a + b, w);
      u, v := InSeqSplit(a[1..], b, y);
      InSeqIntro(a, x, u);
      u := x + u;
    }
  }

  lemma InPowerIntro(h: Hir, n: nat, a: Bytes, b: Bytes)
    requires n > 0 && InLang(h, a) && InPower(h, n - 1, b)
    ensures InPower(h, n, a + b)
  {
    assert (a + b)[..|a|] == a && (a + b)[|a|..] == b;
    assert InPowerAt(h, n, a + b, |a|);
  }

  lemma InPowerHead(h: Hir, n: nat, w: Bytes) returns (a: Bytes, b: Bytes)
    requires n > 0 && InPower(h, n, w)
    ensures w == a + b && InLang(h, a) && InPower(h, n - 1, b)
    ensures InPowerAt(h, n, w, |a|)
  {
    var k :| InPowerAt(h, n, w, k);
    a, b := w[..k], w[k..];
  }
}
