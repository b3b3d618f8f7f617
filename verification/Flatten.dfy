/**
  Flattening of captures and concatenations into a list of parts, which keeps
  the language, and the distribution of one alternation part into branches.
 */
module Flattening {
  import opened Hir
  import opened Metering
  import opened Census

  function Flatten(h: Hir): (parts: seq<Hir>)
    decreases h, 0
  {
    match h
    case Capture(sub) => Flatten(sub)
    case Concat(parts) => FlattenAll(parts)
    case _ => [h]
  }

  function FlattenAll(parts: seq<Hir>): seq<Hir>
    decreases parts, 0
  {
    if parts == [] then [] else Flatten(parts[0]) + FlattenAll(parts[1..])
  }

  /** One charge for every visited node, both when counting and when copying. */
  function FlattenWork(h: Hir): nat
    decreases h, 0
  {
    match h
    case Capture(sub) => 1 + FlattenWork(sub)
    case Concat(parts) => 1 + FlattenAllWork(parts)
    case _ => 1
  }

  function FlattenAllWork(parts: seq<Hir>): nat
    decreases parts, 0
  {
    if parts == [] then 0 else FlattenWork(parts[0]) + FlattenAllWork(parts[1..])
  }

  // ----- Language -----

  lemma {:induction false} FlattenKeepsLanguage(h: Hir, w: Bytes)
    ensures InLang(h, w) <==> InSeq(Flatten(h), w)
    decreases h, 0
  {
    match h
    case Capture(sub) => FlattenKeepsLanguage(sub, w);
    case Concat(parts) =>
      if InSeq(parts, w) {
        FlattenAllAdmits(parts, w);
      }
      if InSeq(FlattenAll(parts), w) {
        FlattenAllReflects(parts, w);
      }
    case _ => InSeqSingle(h, w);
  }

  lemma {:induction false} FlattenAllAdmits(parts: seq<Hir>, w: Bytes)
    requires InSeq(parts, w)
    ensures InSeq(FlattenAll(parts), w)
    decreases parts, 0
  {
    if parts != [] {
      var a, b := InSeqHead(parts, w);
      FlattenKeepsLanguage(parts[0], a);
      FlattenAllAdmits(parts[1..], b);
      InSeqJoin(Flatten(parts[0]), FlattenAll(parts[1..]), a, b);
    }
  }

  lemma {:induction false} FlattenAllReflects(parts: seq<Hir>, w: Bytes)
    requires InSeq(FlattenAll(parts), w)
    ensures InSeq(parts, w)
    decreases parts, 0
  {
    if parts != [] {
      var a, b := InSeqSplit(Flatten(parts[0]), FlattenAll(parts[1..]), w);
      FlattenKeepsLanguage(parts[0], a);
      FlattenAllReflects(parts[1..], b);
      InSeqIntro(parts, a, b);
    }
  }

  /** A word through an alternation part goes through one of its alternatives. */
  lemma DistributeAlternation(before: seq<Hir>, alternatives: seq<Hir>, after: seq<Hir>, w: Bytes) returns (k: nat)
    requires InSeq(before + [Alternation(alternatives)] + after, w)
    ensures k < |alternatives| && InSeq(before + Flatten(alternatives[k]) + after, w)
  {
    var u, z := InSeqSplit(before + [Alternation(alternatives)], after, w);
    var x, y := InSeqSplit(before, [Alternation(alternatives)], u);
    InSeqSingle(Alternation(alternatives), y);
    k :| 0 <= k < |alternatives| && InLang(alternatives[k], y);
    FlattenKeepsLanguage(alternatives[k], y);
    InSeqJoin(before, Flatten(alternatives[k]), x, y);
    InSeqJoin(before + Flatten(alternatives[k]), after, x + y, z);
  }

  // ----- Metered counting and copying -----

  lemma {:induction false} CountIsPaid(h: Hir)
    ensures |Flatten(h)| <= FlattenWork(h)
    decreases h, 0
  {
    match h
    case Capture(sub) => CountIsPaid(sub);
    case Concat(parts) => CountsArePaid(parts);
    case _ =>
  }

  lemma {:induction false} CountsArePaid(parts: seq<Hir>)
    ensures |FlattenAll(parts)| <= FlattenAllWork(parts)
    decreases parts, 0
  {
    if parts != [] {
      CountIsPaid(parts[0]);
      CountsArePaid(parts[1..]);
    }
  }

  method FlattenedCount(h: Hir, meter: Meter) returns (r: Outcome<int>)
    requires meter.Valid()
    modifies meter`work, meter.budget`work
    ensures meter.Valid() && Spent(old(meter.Now()), meter.Now(), FlattenWork(h), r)
    ensures r.Success? ==> r.value == |Flatten(h)|
    decreases h, 0
  {
    var _ :- meter.Charge(1);
    match h
    case Capture(sub) => r := FlattenedCount(sub, meter);
    case Concat(parts) => r := SumCounts(parts, meter);
    case _ => r := Success(1);
  }

  method SumCounts(parts: seq<Hir>, meter: Meter) returns (r: Outcome<int>)
    requires meter.Valid()
    modifies meter`work, meter.budget`work
    ensures meter.Valid() && Spent(old(meter.Now()), meter.Now(), FlattenAllWork(parts), r)
    ensures r.Success? ==> r.value == |FlattenAll(parts)|
    decreases parts, 0
  {
    var total := 0;
    ghost var done: nat := 0;
    for i := 0 to |parts|
      invariant Charged(old(meter.Now()), done, meter) && 0 <= total <= done
      invariant done + FlattenAllWork(parts[i..]) == FlattenAllWork(parts)
      invariant total + |FlattenAll(parts[i..])| == |FlattenAll(parts)|
    {
      assert parts[i..][0] == parts[i] && parts[i..][1..] == parts[i + 1..];
      CountIsPaid(parts[i]);
      var count :- FlattenedCount(parts[i], meter);
      done := done + FlattenWork(parts[i]);
      total :- CheckedAdd(total, count, TemporaryStates);
    }
    return Success(total);
  }

  method FlattenInto(h: Hir, output: ExactVec<Hir>, meter: Meter) returns (r: Outcome<ExactVec<Hir>>)
    requires meter.Valid() && |output.items| + |Flatten(h)| <= output.capacity
    modifies meter`work, meter.budget`work
    ensures meter.Valid() && Spent(old(meter.Now()), meter.Now(), FlattenWork(h), r)
    ensures r.Success? ==> r.value == ExactVec(output.items + Flatten(h), output.capacity)
    decreases h, 0
  {
    var _ :- meter.Charge(1);
    match h
    case Capture(sub) => r := FlattenInto(sub, output, meter);
    case Concat(parts) => r := FlattenAllInto(parts, output, meter);
    case _ => r := Push(output, h);
  }

  method FlattenAllInto(parts: seq<Hir>, output: ExactVec<Hir>, meter: Meter) returns (r: Outcome<ExactVec<Hir>>)
    requires meter.Valid() && |output.items| + |FlattenAll(parts)| <= output.capacity
    modifies meter`work, meter.budget`work
    ensures meter.Valid() && Spent(old(meter.Now()), meter.Now(), FlattenAllWork(parts), r)
    ensures r.Success? ==> r.value == ExactVec(output.items + FlattenAll(parts), output.capacity)
    decreases parts, 0
  {
    var filled := output;
    ghost var done: nat := 0;
    for i := 0 to |parts|
      invariant Charged(old(meter.Now()), done, meter) && filled.capacity == output.capacity
      invariant done + FlattenAllWork(parts[i..]) == FlattenAllWork(parts)
      invariant filled.items + FlattenAll(parts[i..]) == output.items + FlattenAll(parts)
    {
      assert parts[i..][0] == parts[i] && parts[i..][1..] == parts[i + 1..];
      ghost var before := filled.items;
      filled :- FlattenInto(parts[i], filled, meter);
      assert filled.items + FlattenAll(parts[i + 1..]) == before + (Flatten(parts[i]) + FlattenAll(parts[i + 1..]));
      done := done + FlattenWork(parts[i]);
    }
    assert filled.items + [] == filled.items;
    return Success(filled);
  }
}
