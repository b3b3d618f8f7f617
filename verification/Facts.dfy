/**
  The finite-language census: how many words an expression has once ASCII case
  is folded, and their total, least and greatest length. `FactsOf` is the value
  of the census, `FactsWork` the work it charges; the method `LanguageFacts`
  computes the one and charges the other.
 */
module Census {
  import opened Wrappers
  import opened Hir
  import opened Metering

  const MAX_ANCHOR_PATTERNS: int := 4096
  const MAX_ANCHOR_PATTERN_BYTES: int := 0x10_0000
  const MAX_ANCHOR_WORD_BYTES: int := 64
  const MIN_ANCHOR_WORD_BYTES: int := 2

  datatype Facts = Facts(count: int, total: int, min: int, max: int)

  const EMPTY_FACTS := Facts(1, 0, 0, 0)

  /** Where a sum over alternatives starts. */
  const NO_FACTS := Facts(0, 0, USIZE_MAX, 0)

  predicate WithinLimits(f: Facts) {
    f.count <= MAX_ANCHOR_PATTERNS && f.total <= MAX_ANCHOR_PATTERN_BYTES && f.max <= MAX_ANCHOR_WORD_BYTES
  }

  /** What every census result satisfies. */
  predicate Sane(f: Facts) {
    WithinLimits(f) && 1 <= f.count && 0 <= f.total && 0 <= f.min <= f.max
  }

  /** Multiplication as repeated addition, which keeps the census functions linear for the solver. */
  function Times(a: int, b: int): int
    decreases b
  {
    if b <= 0 then 0 else Times(a, b - 1) + a
  }

  lemma {:induction false} TimesIsMultiplication(a: int, b: int)
    requires 0 <= b
    ensures Times(a, b) == a * b
    decreases b
  {
    if b > 0 {
      TimesIsMultiplication(a, b - 1);
      assert a * b == a * (b - 1) + a;
    }
  }

  /** The facts of a product of two languages, before any limit. */
  function Product(l: Facts, r: Facts): Facts {
    Facts(Times(l.count, r.count), Times(l.total, r.count) + Times(r.total, l.count), l.min + r.min, l.max + r.max)
  }

  /** The facts of one list of words after another. */
  function Join(l: Facts, r: Facts): Facts {
    Facts(l.count + r.count, l.total + r.total, Min(l.min, r.min), Max(l.max, r.max))
  }

  function ConcatFacts(l: Facts, r: Facts): Option<Facts> {
    var f := Product(l, r);
    if WithinLimits(f) then Some(f) else None
  }

  // ----- Byte classes -----

  function NoBytes(): (r: seq<bool>)
    ensures |r| == 256 && forall k :: 0 <= k < 256 ==> !r[k]
  {
    seq(256, _ => false)
  }

  /** The folded members of a class, or none at all as soon as one member is not ASCII. */
  function Normalized(bytes: Bytes, acc: seq<bool>): (norm: seq<bool>)
    requires |acc| == 256
    ensures |norm| == 256
  {
    if bytes == [] then acc
    else if !IsAscii(bytes[0]) then NoBytes()
    else Normalized(bytes[1..], acc[LowerByte(bytes[0]) := true])
  }

  function NormalizedWork(bytes: Bytes): nat {
    if bytes == [] then 0
    else if !IsAscii(bytes[0]) then 1
    else 1 + NormalizedWork(bytes[1..])
  }

  function CountSet(norm: seq<bool>): nat {
    if norm == [] then 0 else (if norm[0] then 1 else 0) + CountSet(norm[1..])
  }

  lemma {:induction false} CountSetBound(norm: seq<bool>)
    ensures CountSet(norm) <= |norm|
  {
    if norm != [] {
      CountSetBound(norm[1..]);
    }
  }

  // ----- The census -----

  predicate Repeatable(min: nat, max: Option<nat>) {
    max.Some? && min <= max.value <= MAX_ANCHOR_WORD_BYTES
  }

  function FactsOf(h: Hir): Option<Facts>
    decreases h, 0
  {
    match h
    case Empty => Some(EMPTY_FACTS)
    case Literal(bytes) =>
      if (exists k :: 0 <= k < |bytes| && !IsAscii(bytes[k])) || |bytes| > MAX_ANCHOR_WORD_BYTES then None
      else Some(Facts(1, |bytes|, |bytes|, |bytes|))
    case ByteClass(ranges) =>
      var count := CountSet(Normalized(ClassBytes(ranges), NoBytes()));
      if count == 0 then None else Some(Facts(count, count, 1, 1))
    case UnicodeClass(_) => None
    case Look(_) => None
    case Capture(sub) => FactsOf(sub)
    case Concat(parts) => ConcatFold(parts, EMPTY_FACTS)
    case Alternation(branches) => if branches == [] then None else AltFold(branches, NO_FACTS)
    case Repetition(min, max, _, sub) =>
      if !Repeatable(min, max) then None
      else RepetitionFacts(FactsOf(sub), min, max.value)
  }

  function RepetitionFacts(child: Option<Facts>, min: nat, maximum: nat): Option<Facts> {
    if child.None? then None else RepFold(child.value, min, maximum, NO_FACTS)
  }

  function ConcatFold(parts: seq<Hir>, acc: Facts): Option<Facts>
    decreases parts, 0
  {
    if parts == [] then Some(acc)
    else match FactsOf(parts[0])
      case None => None
      case Some(child) =>
        match ConcatFacts(acc, child)
        case None => None
        case Some(next) => ConcatFold(parts[1..], next)
  }

  function AltFold(branches: seq<Hir>, acc: Facts): Option<Facts>
    decreases branches, 0
  {
    if branches == [] then Some(acc)
    else match AltNext(FactsOf(branches[0]), acc)
      case None => None
      case Some(next) => AltFold(branches[1..], next)
  }

  /** One more alternative, unless it has no census or the sum is over a limit. */
  function AltNext(child: Option<Facts>, acc: Facts): Option<Facts> {
    if child.None? then None
    else if WithinLimits(Join(acc, child.value)) then Some(Join(acc, child.value))
    else None
  }

  /** `acc` multiplied by `child`, `n` times. */
  function PowerFold(child: Facts, n: nat, acc: Facts): Option<Facts> {
    if n == 0 then Some(acc)
    else match ConcatFacts(acc, child)
      case None => None
      case Some(next) => PowerFold(child, n - 1, next)
  }

  function RepFold(child: Facts, count: nat, maximum: nat, acc: Facts): Option<Facts>
    decreases maximum + 1 - count
  {
    if count > maximum then Some(acc)
    else match PowerFold(child, count, EMPTY_FACTS)
      case None => None
      case Some(repeated) =>
        var next := Join(acc, repeated);
        if WithinLimits(next) then RepFold(child, count + 1, maximum, next) else None
  }

  // ----- The work it charges -----

  function FactsWork(h: Hir): nat
    decreases h, 0
  {
    match h
    case Empty => 1
    case Literal(bytes) => 1 + |bytes|
    case ByteClass(ranges) => 1 + NormalizedWork(ClassBytes(ranges)) + 256
    case UnicodeClass(_) => 1
    case Look(_) => 1
    case Capture(sub) => 1 + FactsWork(sub)
    case Concat(parts) => 1 + ConcatWork(parts, EMPTY_FACTS)
    case Alternation(branches) => 1 + AltWork(branches, NO_FACTS)
    case Repetition(min, max, _, sub) =>
      if !Repeatable(min, max) then 1
      else 1 + FactsWork(sub) + RepetitionWork(FactsOf(sub), min, max.value)
  }

  function RepetitionWork(child: Option<Facts>, min: nat, maximum: nat): nat {
    if child.None? then 0 else RepWork(child.value, min, maximum, NO_FACTS)
  }

  function ConcatWork(parts: seq<Hir>, acc: Facts): nat
    decreases parts, 0
  {
    if parts == [] then 0
    else if FactsOf(parts[0]).None? then FactsWork(parts[0])
    else
      var next := ConcatFacts(acc, FactsOf(parts[0]).value);
      FactsWork(parts[0]) + 1 + (if next.None? then 0 else ConcatWork(parts[1..], next.value))
  }

  function AltWork(branches: seq<Hir>, acc: Facts): nat
    decreases branches, 0
  {
    if branches == [] then 0
    else match AltNext(FactsOf(branches[0]), acc)
      case None => FactsWork(branches[0])
      case Some(next) => FactsWork(branches[0]) + AltWork(branches[1..], next)
  }

  function PowerWork(child: Facts, n: nat, acc: Facts): nat {
    if n == 0 then 0
    else
      var next := ConcatFacts(acc, child);
      1 + (if next.None? then 0 else PowerWork(child, n - 1, next.value))
  }

  function RepWork(child: Facts, count: nat, maximum: nat, acc: Facts): nat
    decreases maximum + 1 - count
  {
    if count > maximum then 0
    else if PowerFold(child, count, EMPTY_FACTS).None? then 1 + PowerWork(child, count, EMPTY_FACTS)
    else
      var next := Join(acc, PowerFold(child, count, EMPTY_FACTS).value);
      1 + PowerWork(child, count, EMPTY_FACTS) +
      (if WithinLimits(next) then RepWork(child, count + 1, maximum, next) else 0)
  }

  // ----- Census results are sane -----

  lemma {:induction false} TimesGrows(a: int, b: int)
    requires 0 <= a && 1 <= b
    ensures Times(a, b) >= a
    ensures 1 <= a ==> Times(a, b) >= b
    decreases b
  {
    if b > 1 {
      TimesGrows(a, b - 1);
    } else {
      assert Times(a, 0) == 0;
    }
  }

  lemma ProductGrows(l: Facts, r: Facts)
    requires 1 <= l.count && 0 <= l.total && 0 <= l.min && 0 <= l.max
    requires 1 <= r.count && 0 <= r.total && 0 <= r.min && 0 <= r.max
    ensures var p := Product(l, r);
      && p.count >= l.count && p.total >= l.total && p.max >= l.max && p.min >= l.min
      && p.count >= r.count && p.total >= r.total && p.max >= r.max && p.min >= r.min
  {
    TimesGrows(l.count, r.count);
    TimesGrows(l.total, r.count);
    TimesGrows(r.total, l.count);
  }

  lemma MulAtMost(a: int, b: int, x: int, y: int)
    requires 0 <= a <= x && 0 <= b <= y
    ensures 0 <= a * b <= x * y
  {
    assert a * b <= x * b;
    assert x * b <= x * y;
  }

  lemma ConcatSane(l: Facts, r: Facts)
    requires Sane(l) && Sane(r)
    ensures ConcatFacts(l, r).Some? ==> Sane(ConcatFacts(l, r).value)
  {
    ProductGrows(l, r);
  }

  lemma {:induction false} FactsSane(h: Hir)
    ensures FactsOf(h).Some? ==> Sane(FactsOf(h).value)
    decreases h, 0
  {
    match h
    case Empty =>
    case Literal(_) =>
    case ByteClass(ranges) => ClassCountBound(ClassBytes(ranges), NoBytes());
    case UnicodeClass(_) =>
    case Look(_) =>
    case Capture(sub) => FactsSane(sub);
    case Concat(parts) => ConcatFoldSane(parts, EMPTY_FACTS);
    case Alternation(branches) =>
      if branches != [] {
        AltFoldSane(branches, NO_FACTS);
      }
    case Repetition(min, max, _, sub) =>
      FactsSane(sub);
      if Repeatable(min, max) && FactsOf(sub).Some? {
        RepFoldSane(FactsOf(sub).value, min, max.value, NO_FACTS);
      }
  }

  lemma ClassCountBound(bytes: Bytes, acc: seq<bool>)
    requires |acc| == 256
    ensures CountSet(Normalized(bytes, acc)) <= 256
  {
    CountSetBound(Normalized(bytes, acc));
  }

  lemma {:induction false} ConcatFoldSane(parts: seq<Hir>, acc: Facts)
    requires Sane(acc)
    ensures ConcatFold(parts, acc).Some? ==> Sane(ConcatFold(parts, acc).value)
    decreases parts, 0
  {
    if parts != [] && FactsOf(parts[0]).Some? {
      FactsSane(parts[0]);
      var child := FactsOf(parts[0]).value;
      ConcatSane(acc, child);
      if ConcatFacts(acc, child).Some? {
        ConcatFoldSane(parts[1..], ConcatFacts(acc, child).value);
      }
    }
  }

  /** What a running sum satisfies, also before its first term. */
  predicate Partial(f: Facts) {
    WithinLimits(f) && 0 <= f.count && 0 <= f.total && 0 <= f.min && 0 <= f.max
  }

  lemma JoinSane(acc: Facts, f: Facts)
    requires Partial(acc) && Sane(f) && WithinLimits(Join(acc, f))
    ensures Sane(Join(acc, f))
  {
  }

  lemma AltNextSane(branch: Hir, acc: Facts)
    requires Partial(acc) && (FactsOf(branch).Some? ==> Sane(FactsOf(branch).value))
    ensures AltNext(FactsOf(branch), acc).Some? ==> Sane(AltNext(FactsOf(branch), acc).value)
  {
  }

  lemma {:induction false} AltFoldSane(branches: seq<Hir>, acc: Facts)
    requires Partial(acc) && (branches == [] ==> Sane(acc))
    ensures AltFold(branches, acc).Some? ==> Sane(AltFold(branches, acc).value)
    decreases branches, 0
  {
    if branches != [] {
      FactsSane(branches[0]);
      AltNextSane(branches[0], acc);
      var next := AltNext(FactsOf(branches[0]), acc);
      if next.Some? {
        AltFoldSane(branches[1..], next.value);
      }
    }
  }

  lemma {:induction false} PowerFoldSane(child: Facts, n: nat, acc: Facts)
    requires Sane(child) && Sane(acc)
    ensures PowerFold(child, n, acc).Some? ==> Sane(PowerFold(child, n, acc).value)
  {
    if n > 0 {
      ConcatSane(acc, child);
      if ConcatFacts(acc, child).Some? {
        PowerFoldSane(child, n - 1, ConcatFacts(acc, child).value);
      }
    }
  }

  lemma {:induction false} RepFoldSane(child: Facts, count: nat, maximum: nat, acc: Facts)
    requires Sane(child) && Partial(acc)
    ensures RepFold(child, count, maximum, acc).Some? ==> Partial(RepFold(child, count, maximum, acc).value)
    ensures RepFold(child, count, maximum, acc).Some? && count <= maximum ==> Sane(RepFold(child, count, maximum, acc).value)
    decreases maximum + 1 - count
  {
    if count <= maximum {
      PowerFoldSane(child, count, EMPTY_FACTS);
      var power := PowerFold(child, count, EMPTY_FACTS);
      if power.Some? && WithinLimits(Join(acc, power.value)) {
        JoinSane(acc, power.value);
        RepFoldSane(child, count + 1, maximum, Join(acc, power.value));
      }
    }
  }

  // ----- The metered census -----

  /** The state of a loop that has charged `done` since it started in `s`. */
  ghost predicate Charged(s: State, done: nat, meter: Meter)
    reads meter, meter.budget
  {
    meter.Valid() && meter.budget.work == s.budgetWork + done && meter.work == s.work + done
  }

  method NormalizedClass(ranges: seq<(Byte, Byte)>, meter: Meter) returns (r: Outcome<seq<bool>>)
    requires meter.Valid()
    modifies meter`work, meter.budget`work
    ensures meter.Valid() && Spent(old(meter.Now()), meter.Now(), NormalizedWork(ClassBytes(ranges)), r)
    ensures r.Success? ==> r.value == Normalized(ClassBytes(ranges), NoBytes())
  {
    var normalized := NoBytes();
    var bytes := ClassBytes(ranges);
    for i := 0 to |bytes|
      invariant |normalized| == 256
      invariant i + NormalizedWork(bytes[i..]) == NormalizedWork(bytes)
      invariant Normalized(bytes[i..], normalized) == Normalized(bytes, NoBytes())
      invariant Charged(old(meter.Now()), i, meter)
    {
      assert bytes[i..][1..] == bytes[i + 1..];
      var _ :- meter.Charge(1);
      if !IsAscii(bytes[i]) {
        return Success(NoBytes());
      }
      normalized := normalized[LowerByte(bytes[i]) := true];
    }
    return Success(normalized);
  }

  method CombineFacts(l: Facts, r: Facts, meter: Meter) returns (o: Outcome<Option<Facts>>)
    requires meter.Valid() && Sane(l) && Sane(r)
    modifies meter`work, meter.budget`work
    ensures meter.Valid() && Spent(old(meter.Now()), meter.Now(), 1, o)
    ensures o.Success? ==> o.value == ConcatFacts(l, r)
  {
    var _ :- meter.Charge(1);
    TimesIsMultiplication(l.count, r.count);
    TimesIsMultiplication(l.total, r.count);
    TimesIsMultiplication(r.total, l.count);
    MulAtMost(l.count, r.count, MAX_ANCHOR_PATTERNS, MAX_ANCHOR_PATTERNS);
    MulAtMost(l.total, r.count, MAX_ANCHOR_PATTERN_BYTES, MAX_ANCHOR_PATTERNS);
    MulAtMost(r.total, l.count, MAX_ANCHOR_PATTERN_BYTES, MAX_ANCHOR_PATTERNS);
    var count :- CheckedMul(l.count, r.count, TemporaryStates);
    var left :- CheckedMul(l.total, r.count, LiteralBytes);
    var right :- CheckedMul(r.total, l.count, LiteralBytes);
    var total :- CheckedAdd(left, right, LiteralBytes);
    var min :- CheckedAdd(l.min, r.min, LiteralBytes);
    var max :- CheckedAdd(l.max, r.max, LiteralBytes);
    var facts := Facts(count, total, min, max);
    return Success(if WithinLimits(facts) then Some(facts) else None);
  }

  /** The metered census of any expression: it computes `FactsOf` and charges `FactsWork`. */
  method LanguageFacts(h: Hir, meter: Meter) returns (r: Outcome<Option<Facts>>)
    requires meter.Valid()
    modifies meter`work, meter.budget`work
    ensures meter.Valid() && Spent(old(meter.Now()), meter.Now(), FactsWork(h), r)
    ensures r.Success? ==> r.value == FactsOf(h)
    decreases h, 0
  {
    hide ConcatFold, AltFold, RepFold, ConcatWork, RepWork, Normalized, CountSet, ClassBytes;
    var _ :- meter.Charge(1);
    match h
    case Empty => r := Success(Some(EMPTY_FACTS));
    case Literal(bytes) => r := LiteralCensus(bytes, meter);
    case ByteClass(ranges) => r := ClassCensus(ranges, meter);
    case UnicodeClass(_) => r := Success(None);
    case Look(_) => r := Success(None);
    case Capture(sub) => r := LanguageFacts(sub, meter);
    case Concat(parts) => r := ConcatCensus(parts, meter);
    case Alternation(branches) =>
      if branches == [] {
        return Success(None);
      }
      r := AlternationCensus(branches, meter);
    case Repetition(min, max, _, sub) =>
      if !Repeatable(min, max) {
        return Success(None);
      }
      var child :- LanguageFacts(sub, meter);
      FactsSane(sub);
      r := RepetitionCensus(child, min, max.value, meter);
  }

  method LiteralCensus(bytes: Bytes, meter: Meter) returns (r: Outcome<Option<Facts>>)
    requires meter.Valid()
    modifies meter`work, meter.budget`work
    ensures meter.Valid() && Spent(old(meter.Now()), meter.Now(), |bytes|, r)
    ensures r.Success? ==> r.value == FactsOf(Literal(bytes))
  {
    var _ :- meter.Charge(|bytes|);
    if (exists k :: 0 <= k < |bytes| && !IsAscii(bytes[k])) || |bytes| > MAX_ANCHOR_WORD_BYTES {
      return Success(None);
    }
    return Success(Some(Facts(1, |bytes|, |bytes|, |bytes|)));
  }

  method ClassCensus(ranges: seq<(Byte, Byte)>, meter: Meter) returns (r: Outcome<Option<Facts>>)
    requires meter.Valid()
    modifies meter`work, meter.budget`work
    ensures meter.Valid() && Spent(old(meter.Now()), meter.Now(), NormalizedWork(ClassBytes(ranges)) + 256, r)
    ensures r.Success? ==> r.value == FactsOf(ByteClass(ranges))
  {
    var normalized :- NormalizedClass(ranges, meter);
    var _ :- meter.Charge(256);
    var count := CountSet(normalized);
    return Success(if count == 0 then None else Some(Facts(count, count, 1, 1)));
  }

  method ConcatCensus(parts: seq<Hir>, meter: Meter) returns (r: Outcome<Option<Facts>>)
    requires meter.Valid()
    modifies meter`work, meter.budget`work
    ensures meter.Valid() && Spent(old(meter.Now()), meter.Now(), ConcatWork(parts, EMPTY_FACTS), r)
    ensures r.Success? ==> r.value == ConcatFold(parts, EMPTY_FACTS)
    decreases parts, 0
  {
    var facts := EMPTY_FACTS;
    ghost var done: nat := 0;
    for i := 0 to |parts|
      invariant Sane(facts) && Charged(old(meter.Now()), done, meter)
      invariant done + ConcatWork(parts[i..], facts) == ConcatWork(parts, EMPTY_FACTS)
      invariant ConcatFold(parts[i..], facts) == ConcatFold(parts, EMPTY_FACTS)
    {
      assert parts[i..][0] == parts[i] && parts[i..][1..] == parts[i + 1..];
      FactsSane(parts[i]);
      var child :- LanguageFacts(parts[i], meter);
      if child.None? {
        return Success(None);
      }
      ConcatSane(facts, child.value);
      var next :- CombineFacts(facts, child.value, meter);
      if next.None? {
        return Success(None);
      }
      facts := next.value;
      done := done + FactsWork(parts[i]) + 1;
    }
    return Success(Some(facts));
  }

  /** The checked sum of two lists' facts; it never overflows on census results. */
  function CheckedJoin(acc: Facts, f: Facts): (r: Outcome<Facts>)
    requires Partial(acc) && Sane(f)
    ensures r == Success(Join(acc, f))
  {
    var count :- CheckedAdd(acc.count, f.count, TemporaryStates);
    var total :- CheckedAdd(acc.total, f.total, LiteralBytes);
    Success(Facts(count, total, Min(acc.min, f.min), Max(acc.max, f.max)))
  }

  method AlternativeCensus(branch: Hir, facts: Facts, meter: Meter) returns (r: Outcome<Option<Facts>>)
    requires meter.Valid() && Partial(facts)
    modifies meter`work, meter.budget`work
    ensures meter.Valid() && Spent(old(meter.Now()), meter.Now(), FactsWork(branch), r)
    ensures r.Success? ==> r.value == AltNext(FactsOf(branch), facts) && (r.value.Some? ==> Sane(r.value.value))
    decreases branch, 1
  {
    FactsSane(branch);
    var child :- LanguageFacts(branch, meter);
    if child.None? {
      return Success(None);
    }
    var next :- CheckedJoin(facts, child.value);
    return Success(if WithinLimits(next) then Some(next) else None);
  }

  method AlternationCensus(branches: seq<Hir>, meter: Meter) returns (r: Outcome<Option<Facts>>)
    requires meter.Valid()
    modifies meter`work, meter.budget`work
    ensures meter.Valid() && Spent(old(meter.Now()), meter.Now(), AltWork(branches, NO_FACTS), r)
    ensures r.Success? ==> r.value == AltFold(branches, NO_FACTS)
    decreases branches, 0
  {
    var facts := NO_FACTS;
    ghost var done: nat := 0;
    for i := 0 to |branches|
      invariant Partial(facts) && Charged(old(meter.Now()), done, meter)
      invariant done + AltWork(branches[i..], facts) == AltWork(branches, NO_FACTS)
      invariant AltFold(branches[i..], facts) == AltFold(branches, NO_FACTS)
    {
      assert branches[i..][0] == branches[i] && branches[i..][1..] == branches[i + 1..];
      var next :- AlternativeCensus(branches[i], facts, meter);
      if next.None? {
        return Success(None);
      }
      facts := next.value;
      done := done + FactsWork(branches[i]);
    }
    return Success(Some(facts));
  }

  method PowerCensus(child: Facts, count: nat, meter: Meter) returns (r: Outcome<Option<Facts>>)
    requires meter.Valid() && Sane(child)
    modifies meter`work, meter.budget`work
    ensures meter.Valid() && Spent(old(meter.Now()), meter.Now(), PowerWork(child, count, EMPTY_FACTS), r)
    ensures r.Success? ==> r.value == PowerFold(child, count, EMPTY_FACTS)
  {
    var repeated := EMPTY_FACTS;
    for i := 0 to count
      invariant Sane(repeated) && Charged(old(meter.Now()), i, meter)
      invariant i + PowerWork(child, count - i, repeated) == PowerWork(child, count, EMPTY_FACTS)
      invariant PowerFold(child, count - i, repeated) == PowerFold(child, count, EMPTY_FACTS)
    {
      ConcatSane(repeated, child);
      var next :- CombineFacts(repeated, child, meter);
      if next.None? {
        return Success(None);
      }
      repeated := next.value;
    }
    return Success(Some(repeated));
  }

  method RepetitionCensus(child: Option<Facts>, min: nat, maximum: nat, meter: Meter)
    returns (r: Outcome<Option<Facts>>)
    requires meter.Valid() && min <= maximum && (child.Some? ==> Sane(child.value))
    modifies meter`work, meter.budget`work
    ensures meter.Valid() && Spent(old(meter.Now()), meter.Now(), RepetitionWork(child, min, maximum), r)
    ensures r.Success? ==> r.value == RepetitionFacts(child, min, maximum)
  {
    if child.None? {
      return Success(None);
    }
    r := CountCensus(child.value, min, maximum, meter);
  }

  method CountCensus(child: Facts, min: nat, maximum: nat, meter: Meter) returns (r: Outcome<Option<Facts>>)
    requires meter.Valid() && Sane(child) && min <= maximum
    modifies meter`work, meter.budget`work
    ensures meter.Valid() && Spent(old(meter.Now()), meter.Now(), RepWork(child, min, maximum, NO_FACTS), r)
    ensures r.Success? ==> r.value == RepFold(child, min, maximum, NO_FACTS)
  {
    var total := NO_FACTS;
    ghost var done: nat := 0;
    for count := min to maximum + 1
      invariant Partial(total) && Charged(old(meter.Now()), done, meter)
      invariant done + RepWork(child, count, maximum, total) == RepWork(child, min, maximum, NO_FACTS)
      invariant RepFold(child, count, maximum, total) == RepFold(child, min, maximum, NO_FACTS)
    {
      var _ :- meter.Charge(1);
      PowerFoldSane(child, count, EMPTY_FACTS);
      var repeated :- PowerCensus(child, count, meter);
      if repeated.None? {
        return Success(None);
      }
      var next :- CheckedJoin(total, repeated.value);
      if !WithinLimits(next) {
        return Success(None);
      }
      JoinSane(total, repeated.value);
      total := next;
      done := done + 1 + PowerWork(child, count, EMPTY_FACTS);
    }
    return Success(Some(total));
  }
}
