/**
  The consumable bytes are exact. The analysis answers exactly the expressions
  without assertions, Unicode classes and empty alternations; an expression is
  nullable exactly when it has the empty word; and, when no class is empty and
  no repetition impossible or idle, the bytes are exactly those that words hold.
 */
module ExactConsuming {
  import opened Wrappers
  import opened Hir
  import opened Consuming

  /** No assertion, no Unicode class, no alternation without alternatives. */
  predicate Analyzable(h: Hir) {
    match h
    case Empty => true
    case Literal(_) => true
    case ByteClass(_) => true
    case UnicodeClass(_) => false
    case Look(_) => false
    case Capture(sub) => Analyzable(sub)
    case Concat(parts) => forall k :: 0 <= k < |parts| ==> Analyzable(parts[k])
    case Alternation(branches) => branches != [] && forall k :: 0 <= k < |branches| ==> Analyzable(branches[k])
    case Repetition(_, _, _, sub) => Analyzable(sub)
  }

  /** Counts the right way round, as the parser delivers them. */
  predicate Possible(h: Hir) {
    match h
    case Empty => true
    case Literal(_) => true
    case ByteClass(_) => true
    case UnicodeClass(_) => true
    case Look(_) => true
    case Capture(sub) => Possible(sub)
    case Concat(parts) => forall k :: 0 <= k < |parts| ==> Possible(parts[k])
    case Alternation(branches) => forall k :: 0 <= k < |branches| ==> Possible(branches[k])
    case Repetition(min, max, _, sub) => Possible(sub) && (max.Some? ==> min <= max.value)
  }

  /** Besides, every class has a member and every repetition may repeat. */
  predicate Proper(h: Hir) {
    match h
    case Empty => true
    case Literal(_) => true
    case ByteClass(ranges) => exists k :: 0 <= k < |ranges| && ranges[k].0 <= ranges[k].1
    case UnicodeClass(_) => true
    case Look(_) => true
    case Capture(sub) => Proper(sub)
    case Concat(parts) => forall k :: 0 <= k < |parts| ==> Proper(parts[k])
    case Alternation(branches) => forall k :: 0 <= k < |branches| ==> Proper(branches[k])
    case Repetition(min, max, _, sub) => Proper(sub) && (max.Some? ==> min <= max.value && 0 < max.value)
  }

  lemma {:induction false} ProperIsPossible(h: Hir)
    requires Proper(h)
    ensures Possible(h)
  {
    match h
    case Empty =>
    case Literal(_) =>
    case ByteClass(_) =>
    case UnicodeClass(_) =>
    case Look(_) =>
    case Capture(sub) => ProperIsPossible(sub);
    case Concat(parts) =>
      forall k | 0 <= k < |parts|
        ensures Possible(parts[k])
      {
        ProperIsPossible(parts[k]);
      }
    case Alternation(branches) =>
      forall k | 0 <= k < |branches|
        ensures Possible(branches[k])
      {
        ProperIsPossible(branches[k]);
      }
    case Repetition(_, _, _, sub) => ProperIsPossible(sub);
  }

  // ----- What the folds compute -----

  predicate Answered(parts: seq<Hir>) {
    forall k :: 0 <= k < |parts| ==> ConsumableOf(parts[k]).Some?
  }

  predicate AllNullable(parts: seq<Hir>) {
    forall k :: 0 <= k < |parts| ==> ConsumableOf(parts[k]).Some? && ConsumableOf(parts[k]).value.nullable
  }

  predicate AnyNullable(parts: seq<Hir>) {
    exists k :: 0 <= k < |parts| && ConsumableOf(parts[k]).Some? && ConsumableOf(parts[k]).value.nullable
  }

  predicate AnyConsumes(parts: seq<Hir>, b: Byte) {
    exists k :: 0 <= k < |parts| && ConsumableOf(parts[k]).Some? && b in ConsumableOf(parts[k]).value.bytes
  }

  lemma Unfold(parts: seq<Hir>, b: Byte)
    requires parts != []
    ensures Answered(parts) <==> ConsumableOf(parts[0]).Some? && Answered(parts[1..])
    ensures ConsumableOf(parts[0]).Some? ==>
      var c := ConsumableOf(parts[0]).value;
      && (AllNullable(parts) <==> c.nullable && AllNullable(parts[1..]))
      && (AnyNullable(parts) <==> c.nullable || AnyNullable(parts[1..]))
      && (AnyConsumes(parts, b) <==> b in c.bytes || AnyConsumes(parts[1..], b))
  {
    hide ConsumableOf;
    var rest := parts[1..];
    assert forall k :: 0 <= k < |rest| ==> rest[k] == parts[k + 1];
    assert forall k :: 1 <= k < |parts| ==> parts[k] == rest[k - 1];
  }

  lemma {:induction false} BothFoldIs(parts: seq<Hir>, acc: Consumable, b: Byte)
    ensures BothFold(parts, acc).Some? <==> Answered(parts)
    ensures BothFold(parts, acc).Some? ==>
      var c := BothFold(parts, acc).value;
      (c.nullable <==> acc.nullable && AllNullable(parts)) && (b in c.bytes <==> b in acc.bytes || AnyConsumes(parts, b))
  {
    hide ConsumableOf;
    if parts != [] {
      Unfold(parts, b);
      if ConsumableOf(parts[0]).Some? {
        BothFoldIs(parts[1..], Both(acc, ConsumableOf(parts[0]).value), b);
      }
    }
  }

  lemma {:induction false} EitherFoldIs(parts: seq<Hir>, acc: Consumable, b: Byte)
    ensures EitherFold(parts, acc).Some? <==> Answered(parts)
    ensures EitherFold(parts, acc).Some? ==>
      var c := EitherFold(parts, acc).value;
      (c.nullable <==> acc.nullable || AnyNullable(parts)) && (b in c.bytes <==> b in acc.bytes || AnyConsumes(parts, b))
  {
    hide ConsumableOf;
    if parts != [] {
      Unfold(parts, b);
      if ConsumableOf(parts[0]).Some? {
        EitherFoldIs(parts[1..], Either(acc, ConsumableOf(parts[0]).value), b);
      }
    }
  }

  /** A concatenation and an alternation, in terms of their parts. */
  lemma ConcatConsumes(parts: seq<Hir>, b: Byte)
    ensures ConsumableOf(Concat(parts)).Some? <==> Answered(parts)
    ensures Answered(parts) ==>
      var c := ConsumableOf(Concat(parts)).value;
      (c.nullable <==> AllNullable(parts)) && (b in c.bytes <==> AnyConsumes(parts, b))
  {
    hide BothFold;
    BothFoldIs(parts, NOTHING_YET, b);
  }

  lemma AlternationConsumes(branches: seq<Hir>, b: Byte)
    ensures ConsumableOf(Alternation(branches)).Some? <==> branches != [] && Answered(branches)
    ensures branches != [] && Answered(branches) ==>
      var c := ConsumableOf(Alternation(branches)).value;
      (c.nullable <==> AnyNullable(branches)) && (b in c.bytes <==> AnyConsumes(branches, b))
  {
    hide EitherFold;
    if branches != [] {
      Unfold(branches, b);
      if ConsumableOf(branches[0]).Some? {
        EitherFoldIs(branches[1..], ConsumableOf(branches[0]).value, b);
      }
    }
  }

  // ----- Which expressions are answered -----

  lemma {:induction false} AnswersAreExact(h: Hir)
    ensures ConsumableOf(h).Some? <==> Analyzable(h)
  {
    hide BothFold, EitherFold;
    match h
    case Empty =>
    case Literal(_) =>
    case ByteClass(_) =>
    case UnicodeClass(_) =>
    case Look(_) =>
    case Capture(sub) => AnswersAreExact(sub);
    case Concat(parts) =>
      forall k | 0 <= k < |parts|
        ensures ConsumableOf(parts[k]).Some? <==> Analyzable(parts[k])
      {
        AnswersAreExact(parts[k]);
      }
      ConcatConsumes(parts, 0);
    case Alternation(branches) =>
      forall k | 0 <= k < |branches|
        ensures ConsumableOf(branches[k]).Some? <==> Analyzable(branches[k])
      {
        AnswersAreExact(branches[k]);
      }
      AlternationConsumes(branches, 0);
    case Repetition(_, _, _, sub) => AnswersAreExact(sub);
  }

  // ----- Nullability -----

  lemma {:induction false} EmptySeq(parts: seq<Hir>)
    requires forall k :: 0 <= k < |parts| ==> InLang(parts[k], [])
    ensures InSeq(parts, [])
  {
    hide InLang;
    if parts != [] {
      assert forall k :: 0 <= k < |parts[1..]| ==> parts[1..][k] == parts[k + 1];
      EmptySeq(parts[1..]);
      var none: Bytes := [];
      InSeqIntro(parts, none, none);
      assert none + none == none;
    }
  }

  lemma {:induction false} EmptyPower(h: Hir, n: nat)
    requires n > 0 ==> InLang(h, [])
    ensures InPower(h, n, [])
    decreases n
  {
    hide InLang;
    if n > 0 {
      EmptyPower(h, n - 1);
      var none: Bytes := [];
      InPowerIntro(h, n, none, none);
      assert none + none == none;
    }
  }

  lemma {:induction false} NullableHasEmptyWord(h: Hir)
    requires ConsumableOf(h).Some? && ConsumableOf(h).value.nullable && Possible(h)
    ensures InLang(h, [])
  {
    hide BothFold, EitherFold, ClassBytes;
    match h
    case Empty =>
    case Literal(_) =>
    case Capture(sub) => NullableHasEmptyWord(sub);
    case Concat(parts) =>
      ConcatConsumes(parts, 0);
      forall k | 0 <= k < |parts|
        ensures InLang(parts[k], [])
      {
        NullableHasEmptyWord(parts[k]);
      }
      EmptySeq(parts);
    case Alternation(branches) =>
      AlternationConsumes(branches, 0);
      var k :| 0 <= k < |branches| && ConsumableOf(branches[k]).Some? && ConsumableOf(branches[k]).value.nullable;
      NullableHasEmptyWord(branches[k]);
    case Repetition(min, max, _, sub) =>
      if min > 0 {
        NullableHasEmptyWord(sub);
      }
      EmptyPower(sub, min);
      assert CountAllowed(min, max, min);
  }

  /** Nullable means having the empty word. */
  lemma NullableIsExact(h: Hir)
    requires ConsumableOf(h).Some? && Possible(h)
    ensures ConsumableOf(h).value.nullable <==> InLang(h, [])
  {
    hide ConsumableOf, InLang;
    if ConsumableOf(h).value.nullable {
      NullableHasEmptyWord(h);
    }
    if InLang(h, []) {
      ConsumableIsSound(h, []);
    }
  }

  // ----- Bytes -----

  /** Some word, and if wanted one that holds a byte. */
  predicate Fits(w: Bytes, wanted: Option<Byte>) {
    wanted.Some? ==> wanted.value in w
  }

  lemma {:induction false} SomePower(h: Hir, n: nat, w: Bytes) returns (v: Bytes)
    requires InLang(h, w)
    ensures InPower(h, n, v) && (n > 0 ==> forall b :: b in w ==> b in v)
    decreases n
  {
    hide InLang;
    if n == 0 {
      v := [];
    } else {
      var rest := SomePower(h, n - 1, w);
      InPowerIntro(h, n, w, rest);
      v := w + rest;
    }
  }

  lemma ClassWord(ranges: seq<(Byte, Byte)>, wanted: Option<Byte>) returns (w: Bytes)
    requires Proper(ByteClass(ranges)) && (wanted.Some? ==> wanted.value in ClassBytes(ranges))
    ensures InLang(ByteClass(ranges), w) && Fits(w, wanted)
  {
    if wanted.Some? {
      ClassBytesAreMembers(ranges, wanted.value);
      w := [wanted.value];
    } else {
      var k :| 0 <= k < |ranges| && ranges[k].0 <= ranges[k].1;
      w := [ranges[k].0];
    }
  }

  /** A proper expression has a word, and one with any byte it is said to consume. */
  lemma {:induction false} SomeWord(h: Hir, wanted: Option<Byte>) returns (w: Bytes)
    requires ConsumableOf(h).Some? && Proper(h) && (wanted.Some? ==> wanted.value in ConsumableOf(h).value.bytes)
    ensures InLang(h, w) && Fits(w, wanted)
    decreases h, 1
  {
    hide BothFold, EitherFold, ClassBytes;
    match h
    case Empty => w := [];
    case Literal(bytes) => w := bytes;
    case ByteClass(ranges) => w := ClassWord(ranges, wanted);
    case Capture(sub) => w := SomeWord(sub, wanted);
    case Concat(parts) =>
      ConcatConsumes(parts, if wanted.Some? then wanted.value else 0);
      w := SomeSeqWord(parts, wanted);
    case Alternation(branches) =>
      AlternationConsumes(branches, if wanted.Some? then wanted.value else 0);
      var k: int := 0;
      if wanted.Some? {
        k :| 0 <= k < |branches| && ConsumableOf(branches[k]).Some? && wanted.value in ConsumableOf(branches[k]).value.bytes;
      }
      w := SomeWord(branches[k], wanted);
    case Repetition(min, max, _, sub) =>
      var v := SomeWord(sub, wanted);
      var n := if min > 0 then min else 1;
      w := SomePower(sub, n, v);
      assert CountAllowed(min, max, n);
  }

  lemma {:induction false} SomeSeqWord(parts: seq<Hir>, wanted: Option<Byte>) returns (w: Bytes)
    requires Answered(parts) && (forall k :: 0 <= k < |parts| ==> Proper(parts[k]))
    requires wanted.Some? ==> AnyConsumes(parts, wanted.value)
    ensures InSeq(parts, w) && Fits(w, wanted)
    decreases parts, 0
  {
    hide ConsumableOf, InLang, Proper;
    if parts == [] {
      w := [];
    } else {
      var rest := parts[1..];
      assert forall k :: 0 <= k < |rest| ==> rest[k] == parts[k + 1];
      Unfold(parts, if wanted.Some? then wanted.value else 0);
      var first := wanted.Some? && wanted.value in ConsumableOf(parts[0]).value.bytes;
      var a := SomeWord(parts[0], if first then wanted else None);
      var b := SomeSeqWord(rest, if first then None else wanted);
      InSeqIntro(parts, a, b);
      w := a + b;
    }
  }

  /** The bytes of a proper expression are exactly those that its words hold. */
  lemma BytesAreExact(h: Hir, b: Byte)
    requires ConsumableOf(h).Some? && Proper(h)
    ensures b in ConsumableOf(h).value.bytes <==> exists w :: InLang(h, w) && b in w
  {
    hide ConsumableOf, InLang, Proper;
    if b in ConsumableOf(h).value.bytes {
      var w := SomeWord(h, Some(b));
    }
    if w :| InLang(h, w) && b in w {
      ConsumableIsSound(h, w);
      var i :| 0 <= i < |w| && w[i] == b;
    }
  }

  // ----- Without any condition on classes and counts -----

  /** The byte is in some literal or class of the expression. */
  predicate Writes(h: Hir, b: Byte) {
    match h
    case Empty => false
    case Literal(bytes) => b in bytes
    case ByteClass(ranges) => InRanges(ranges, b)
    case UnicodeClass(_) => false
    case Look(_) => false
    case Capture(sub) => Writes(sub, b)
    case Concat(parts) => exists k :: 0 <= k < |parts| && Writes(parts[k], b)
    case Alternation(branches) => exists k :: 0 <= k < |branches| && Writes(branches[k], b)
    case Repetition(_, _, _, sub) => Writes(sub, b)
  }

  /** In any case the bytes are exactly those of all literals and classes. */
  lemma {:induction false} BytesAreWritten(h: Hir, b: Byte)
    requires ConsumableOf(h).Some?
    ensures b in ConsumableOf(h).value.bytes <==> Writes(h, b)
  {
    hide BothFold, EitherFold, ClassBytes;
    match h
    case Empty =>
    case Literal(_) =>
    case ByteClass(ranges) => ClassBytesAreMembers(ranges, b);
    case Capture(sub) => BytesAreWritten(sub, b);
    case Concat(parts) =>
      ConcatConsumes(parts, b);
      forall k | 0 <= k < |parts|
        ensures b in ConsumableOf(parts[k]).value.bytes <==> Writes(parts[k], b)
      {
        BytesAreWritten(parts[k], b);
      }
    case Alternation(branches) =>
      AlternationConsumes(branches, b);
      forall k | 0 <= k < |branches|
        ensures b in ConsumableOf(branches[k]).value.bytes <==> Writes(branches[k], b)
      {
        BytesAreWritten(branches[k], b);
      }
    case Repetition(_, _, _, sub) => BytesAreWritten(sub, b);
  }

  /** With an empty class beside it, a byte is reported although no word holds it: the expression has no word. */
  lemma EmptyClassKeepsBytes(b: Byte, w: Bytes)
    ensures var h := Concat([Literal([b]), ByteClass([])]);
      ConsumableOf(h).Some? && b in ConsumableOf(h).value.bytes && !Proper(h) && !InLang(h, w)
  {
    var parts := [Literal([b]), ByteClass([])];
    assert !Proper(parts[1]);
    assert ConsumableOf(parts[0]).Some? && ConsumableOf(parts[1]).Some? && b in ConsumableOf(parts[0]).value.bytes;
    hide BothFold;
    ConcatConsumes(parts, b);
    if InLang(Concat(parts), w) {
      var x, y := InSeqHead(parts, w);
      assert parts[1..] == [ByteClass([])];
      InSeqSingle(ByteClass([]), y);
    }
  }
}
