/**
  Which bytes a match can consume, and whether a match can be empty. The answer
  exists only for expressions without assertions and Unicode classes, and it
  over-approximates the language (`ConsumableIsSound`).
 */
module Consuming {
  import opened Wrappers
  import opened Hir
  import opened Metering
  import opened Census

  datatype Consumable = Consumable(bytes: set<Byte>, nullable: bool)

  /** Words of the bit set the source charges for on every union. */
  const BYTE_SET_WORDS: int := 4

  function SetOf(bytes: Bytes): set<Byte> {
    set b | b in bytes
  }

  function Both(a: Consumable, b: Consumable): Consumable {
    Consumable(a.bytes + b.bytes, a.nullable && b.nullable)
  }

  function Either(a: Consumable, b: Consumable): Consumable {
    Consumable(a.bytes + b.bytes, a.nullable || b.nullable)
  }

  const NOTHING_YET := Consumable({}, true)

  function ConsumableOf(h: Hir): Option<Consumable>
    decreases h, 0
  {
    match h
    case Empty => Some(NOTHING_YET)
    case Literal(bytes) => Some(Consumable(SetOf(bytes), bytes == []))
    case ByteClass(ranges) => Some(Consumable(SetOf(ClassBytes(ranges)), false))
    case UnicodeClass(_) => None
    case Look(_) => None
    case Capture(sub) => ConsumableOf(sub)
    case Concat(parts) => BothFold(parts, NOTHING_YET)
    case Alternation(branches) =>
      if branches == [] || ConsumableOf(branches[0]).None? then None
      else EitherFold(branches[1..], ConsumableOf(branches[0]).value)
    case Repetition(min, _, _, sub) =>
      if ConsumableOf(sub).None? then None
      else Some(Consumable(ConsumableOf(sub).value.bytes, ConsumableOf(sub).value.nullable || min == 0))
  }

  function BothFold(parts: seq<Hir>, acc: Consumable): Option<Consumable>
    decreases parts, 0
  {
    if parts == [] then Some(acc)
    else match ConsumableOf(parts[0])
      case None => None
      case Some(child) => BothFold(parts[1..], Both(acc, child))
  }

  function EitherFold(branches: seq<Hir>, acc: Consumable): Option<Consumable>
    decreases branches, 0
  {
    if branches == [] then Some(acc)
    else match ConsumableOf(branches[0])
      case None => None
      case Some(child) => EitherFold(branches[1..], Either(acc, child))
  }

  function ConsumableWork(h: Hir): nat
    decreases h, 0
  {
    match h
    case Empty => 1
    case Literal(bytes) => 1 + |bytes|
    case ByteClass(ranges) => 1 + |ClassBytes(ranges)|
    case UnicodeClass(_) => 1
    case Look(_) => 1
    case Capture(sub) => 1 + ConsumableWork(sub)
    case Concat(parts) => 1 + ManyWork(parts)
    case Alternation(branches) =>
      if branches == [] then 1
      else if ConsumableOf(branches[0]).None? then 1 + ConsumableWork(branches[0])
      else 1 + ConsumableWork(branches[0]) + ManyWork(branches[1..])
    case Repetition(_, _, _, sub) => 1 + ConsumableWork(sub)
  }

  function ManyWork(parts: seq<Hir>): nat
    decreases parts, 0
  {
    if parts == [] then 0
    else if ConsumableOf(parts[0]).None? then ConsumableWork(parts[0])
    else ConsumableWork(parts[0]) + BYTE_SET_WORDS + ManyWork(parts[1..])
  }

  // ----- Soundness -----

  /** `w` stays inside `c`. */
  predicate Covers(c: Consumable, w: Bytes) {
    (forall i :: 0 <= i < |w| ==> w[i] in c.bytes) && (w == [] ==> c.nullable)
  }

  lemma CoversBoth(a: Consumable, u: Bytes, b: Consumable, v: Bytes)
    requires Covers(a, u) && Covers(b, v)
    ensures Covers(Both(a, b), u + v)
  {
  }

  lemma {:induction false} PlainIsConsumable(h: Hir)
    requires ConsumableOf(h).Some?
    ensures Plain(h)
    decreases h, 0
  {
    match h
    case Empty =>
    case Literal(_) =>
    case ByteClass(_) =>
    case Capture(sub) => PlainIsConsumable(sub);
    case Concat(parts) => PlainBoth(parts, NOTHING_YET);
    case Alternation(branches) =>
      PlainIsConsumable(branches[0]);
      PlainEither(branches[1..], ConsumableOf(branches[0]).value);
      assert forall k :: 1 <= k < |branches| ==> branches[k] == branches[1..][k - 1];
    case Repetition(_, _, _, sub) => PlainIsConsumable(sub);
  }

  lemma {:induction false} PlainBoth(parts: seq<Hir>, acc: Consumable)
    requires BothFold(parts, acc).Some?
    ensures forall k :: 0 <= k < |parts| ==> Plain(parts[k])
    decreases parts, 0
  {
    if parts != [] {
      PlainIsConsumable(parts[0]);
      PlainBoth(parts[1..], Both(acc, ConsumableOf(parts[0]).value));
      assert forall k :: 1 <= k < |parts| ==> parts[k] == parts[1..][k - 1];
    }
  }

  lemma {:induction false} PlainEither(parts: seq<Hir>, acc: Consumable)
    requires EitherFold(parts, acc).Some?
    ensures forall k :: 0 <= k < |parts| ==> Plain(parts[k])
    decreases parts, 0
  {
    if parts != [] {
      PlainIsConsumable(parts[0]);
      PlainEither(parts[1..], Either(acc, ConsumableOf(parts[0]).value));
      assert forall k :: 1 <= k < |parts| ==> parts[k] == parts[1..][k - 1];
    }
  }

  /** No word uses a byte outside the set, and only a nullable expression has the empty word. */
  lemma {:induction false} ConsumableIsSound(h: Hir, w: Bytes)
    requires ConsumableOf(h).Some? && InLang(h, w)
    ensures Covers(ConsumableOf(h).value, w)
    decreases h, 0
  {
    match h
    case Empty =>
    case Literal(_) =>
    case ByteClass(ranges) => ClassBytesAreMembers(ranges, w[0]);
    case Capture(sub) => ConsumableIsSound(sub, w);
    case Concat(parts) =>
      SoundBoth(parts, NOTHING_YET, [], w);
      assert [] + w == w;
    case Alternation(branches) =>
      var k :| 0 <= k < |branches| && InLang(branches[k], w);
      var first := ConsumableOf(branches[0]).value;
      if k == 0 {
        ConsumableIsSound(branches[0], w);
        EitherGrows(branches[1..], first);
      } else {
        assert branches[1..][k - 1] == branches[k];
        SoundEither(branches[1..], first, k - 1, w);
      }
    case Repetition(min, _, _, sub) =>
      var n: nat :| CountAllowed(min, h.max, n) && InPower(sub, n, w);
      var child := ConsumableOf(sub).value;
      forall a | InLang(sub, a)
        ensures Covers(child, a)
      {
        ConsumableIsSound(sub, a);
      }
      SoundRepetition(sub, child, n, w);
  }

  lemma {:induction false} SoundBoth(parts: seq<Hir>, acc: Consumable, u: Bytes, w: Bytes)
    requires BothFold(parts, acc).Some? && Covers(acc, u) && InSeq(parts, w)
    ensures Covers(BothFold(parts, acc).value, u + w)
    decreases parts, 0
  {
    if parts == [] {
      assert u + w == u;
    } else {
      var a, b := InSeqHead(parts, w);
      var child := ConsumableOf(parts[0]).value;
      ConsumableIsSound(parts[0], a);
      CoversBoth(acc, u, child, a);
      SoundBoth(parts[1..], Both(acc, child), u + a, b);
      assert (u + a) + b == u + w;
    }
  }

  lemma {:induction false} EitherGrows(branches: seq<Hir>, acc: Consumable)
    requires EitherFold(branches, acc).Some?
    ensures acc.bytes <= EitherFold(branches, acc).value.bytes
    ensures acc.nullable ==> EitherFold(branches, acc).value.nullable
    decreases branches, 0
  {
    if branches != [] {
      EitherGrows(branches[1..], Either(acc, ConsumableOf(branches[0]).value));
    }
  }

  lemma {:induction false} SoundEither(branches: seq<Hir>, acc: Consumable, k: nat, w: Bytes)
    requires EitherFold(branches, acc).Some? && k < |branches| && InLang(branches[k], w)
    ensures Covers(EitherFold(branches, acc).value, w)
    decreases branches, 0
  {
    var next := Either(acc, ConsumableOf(branches[0]).value);
    if k == 0 {
      ConsumableIsSound(branches[0], w);
      EitherGrows(branches[1..], next);
    } else {
      SoundEither(branches[1..], next, k - 1, w);
    }
  }

  lemma {:induction false} SoundRepetition(h: Hir, c: Consumable, n: nat, w: Bytes)
    requires (forall a :: InLang(h, a) ==> Covers(c, a)) && InPower(h, n, w)
    ensures forall i :: 0 <= i < |w| ==> w[i] in c.bytes
    ensures n > 0 && w == [] ==> c.nullable
    decreases n
  {
    if n > 0 {
      var a, b := InPowerHead(h, n, w);
      SoundRepetition(h, c, n - 1, b);
    }
  }

  // ----- The metered analysis -----

  method ConsumableFacts(h: Hir, meter: Meter) returns (r: Outcome<Option<Consumable>>)
    requires meter.Valid()
    modifies meter`work, meter.budget`work
    ensures meter.Valid() && Spent(old(meter.Now()), meter.Now(), ConsumableWork(h), r)
    ensures r.Success? ==> r.value == ConsumableOf(h)
    decreases h, 1
  {
    hide BothFold, EitherFold, ManyWork, ClassBytes;
    var _ :- meter.Charge(1);
    match h
    case Empty => r := Success(Some(NOTHING_YET));
    case Literal(bytes) =>
      var members :- CollectBytes(bytes, meter);
      r := Success(Some(Consumable(members, bytes == [])));
    case ByteClass(ranges) =>
      var members :- CollectBytes(ClassBytes(ranges), meter);
      r := Success(Some(Consumable(members, false)));
    case UnicodeClass(_) => r := Success(None);
    case Look(_) => r := Success(None);
    case Capture(sub) => r := ConsumableFacts(sub, meter);
    case Concat(parts) => r := ConcatConsumable(parts, meter);
    case Alternation(branches) =>
      if branches == [] {
        return Success(None);
      }
      var first :- ConsumableFacts(branches[0], meter);
      if first.None? {
        return Success(None);
      }
      r := AlternationConsumable(branches[1..], first.value, meter);
    case Repetition(min, _, _, sub) =>
      var child :- ConsumableFacts(sub, meter);
      if child.None? {
        return Success(None);
      }
      r := Success(Some(Consumable(child.value.bytes, child.value.nullable || min == 0)));
  }

  method CollectBytes(bytes: Bytes, meter: Meter) returns (r: Outcome<set<Byte>>)
    requires meter.Valid()
    modifies meter`work, meter.budget`work
    ensures meter.Valid() && Spent(old(meter.Now()), meter.Now(), |bytes|, r)
    ensures r.Success? ==> r.value == SetOf(bytes)
  {
    var members: set<Byte> := {};
    for i := 0 to |bytes|
      invariant members == SetOf(bytes[..i]) && Charged(old(meter.Now()), i, meter)
    {
      var _ :- meter.Charge(1);
      members := members + {bytes[i]};
    }
    assert bytes[..|bytes|] == bytes;
    return Success(members);
  }

  method ConcatConsumable(parts: seq<Hir>, meter: Meter) returns (r: Outcome<Option<Consumable>>)
    requires meter.Valid()
    modifies meter`work, meter.budget`work
    ensures meter.Valid() && Spent(old(meter.Now()), meter.Now(), ManyWork(parts), r)
    ensures r.Success? ==> r.value == BothFold(parts, NOTHING_YET)
    decreases parts, 0
  {
    var facts := NOTHING_YET;
    ghost var done: nat := 0;
    for i := 0 to |parts|
      invariant Charged(old(meter.Now()), done, meter)
      invariant done + ManyWork(parts[i..]) == ManyWork(parts)
      invariant BothFold(parts[i..], facts) == BothFold(parts, NOTHING_YET)
    {
      assert parts[i..][0] == parts[i] && parts[i..][1..] == parts[i + 1..];
      var child :- ConsumableFacts(parts[i], meter);
      if child.None? {
        return Success(None);
      }
      var _ :- meter.Charge(BYTE_SET_WORDS);
      facts := Both(facts, child.value);
      done := done + ConsumableWork(parts[i]) + BYTE_SET_WORDS;
    }
    return Success(Some(facts));
  }

  method AlternationConsumable(rest: seq<Hir>, first: Consumable, meter: Meter) returns (r: Outcome<Option<Consumable>>)
    requires meter.Valid()
    modifies meter`work, meter.budget`work
    ensures meter.Valid() && Spent(old(meter.Now()), meter.Now(), ManyWork(rest), r)
    ensures r.Success? ==> r.value == EitherFold(rest, first)
    decreases rest, 0
  {
    var facts := first;
    ghost var done: nat := 0;
    for i := 0 to |rest|
      invariant Charged(old(meter.Now()), done, meter)
      invariant done + ManyWork(rest[i..]) == ManyWork(rest)
      invariant EitherFold(rest[i..], facts) == EitherFold(rest, first)
    {
      assert rest[i..][0] == rest[i] && rest[i..][1..] == rest[i + 1..];
      var child :- ConsumableFacts(rest[i], meter);
      if child.None? {
        return Success(None);
      }
      var _ :- meter.Charge(BYTE_SET_WORDS);
      facts := Either(facts, child.value);
      done := done + ConsumableWork(rest[i]) + BYTE_SET_WORDS;
    }
    return Success(Some(facts));
  }
}
