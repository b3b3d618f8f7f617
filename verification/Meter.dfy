/**
  Work and byte metering of the finite-anchor certifier.

  `CompileBudget` holds the authoritative limits and counters of a whole
  compilation; `Meter` is one certifier transaction inside it. A `Cost` sums up
  what a computation asks of a meter: the work it charges, the bytes it leaves
  live, and the highest number of bytes it holds on the way. `Fits` says when a
  meter can pay a cost, `After` what it looks like afterwards.
 */
module Metering {

  const USIZE_MAX: int := 0xFFFF_FFFF_FFFF_FFFF

  datatype Resource = CompileWork | ProgramBytes | TemporaryStates | LiteralBytes

  datatype Error =
    | ArithmeticOverflow(resource: Resource)
    | ResourceLimit(resource: Resource, required: int, limit: int)
    | AllocationFailed
    | InternalInvariant

  datatype Outcome<+T> = Success(value: T) | Failure(error: Error) {
    predicate IsFailure() {
      Failure?
    }

    /** Total, because some of the checks that use it provably never fail. */
    function PropagateFailure<U>(): Outcome<U> {
      match this
      case Failure(e) => Failure(e)
      case Success(_) => Failure(InternalInvariant)
    }

    function Extract(): T
      requires Success?
    {
      value
    }
  }

  function CheckedAdd(a: int, b: int, resource: Resource): (r: Outcome<int>)
    ensures r.Success? <==> a + b <= USIZE_MAX
    ensures r.Success? ==> r.value == a + b
    ensures r.Failure? ==> r.error == ArithmeticOverflow(resource)
  {
    if a + b <= USIZE_MAX then Success(a + b) else Failure(ArithmeticOverflow(resource))
  }

  function CheckedMul(a: int, b: int, resource: Resource): (r: Outcome<int>)
    ensures r.Success? <==> a * b <= USIZE_MAX
    ensures r.Success? ==> r.value == a * b
    ensures r.Failure? ==> r.error == ArithmeticOverflow(resource)
  {
    if a * b <= USIZE_MAX then Success(a * b) else Failure(ArithmeticOverflow(resource))
  }

  function Max(a: int, b: int): int {
    if a >= b then a else b
  }

  function Min(a: int, b: int): int {
    if a <= b then a else b
  }

  // ----- Costs -----

  /** `peak` is the highest level reached by an acquisition, relative to the start. */
  datatype Cost = Cost(work: nat, net: int, peak: int, acquires: bool)

  function Work(amount: nat): Cost {
    Cost(amount, 0, 0, false)
  }

  function Acquiring(bytes: nat): Cost {
    Cost(0, bytes, bytes, true)
  }

  function Releasing(bytes: nat): Cost {
    Cost(0, 0 - bytes, 0, false)
  }

  /** One computation after another. */
  function Then(a: Cost, b: Cost): Cost {
    Cost(a.work + b.work, a.net + b.net,
         if a.acquires && b.acquires then Max(a.peak, a.net + b.peak)
         else if a.acquires then a.peak
         else if b.acquires then a.net + b.peak
         else 0,
         a.acquires || b.acquires)
  }

  // ----- Meter states -----

  datatype State = State(
    maxWork: int, maxProgramBytes: int, maxScratchBytes: int,
    budgetWork: int, live: int, logical: int,
    work: int, scratch: int, scratchPeak: int)

  predicate Coherent(s: State) {
    && s.maxWork <= USIZE_MAX && s.maxProgramBytes <= USIZE_MAX && s.maxScratchBytes <= USIZE_MAX
    && 0 <= s.work <= s.budgetWork <= s.maxWork
    && 0 <= s.scratch <= s.live <= USIZE_MAX
    && s.scratch <= s.logical <= USIZE_MAX
    && s.scratch <= s.scratchPeak
    && (s.scratch > 0 ==> s.scratch <= s.maxScratchBytes)
  }

  /** The limits, and the bytes that belong to the rest of the compilation, are the same. */
  predicate SameBasis(s: State, t: State) {
    && t.maxWork == s.maxWork && t.maxProgramBytes == s.maxProgramBytes && t.maxScratchBytes == s.maxScratchBytes
    && t.live - t.scratch == s.live - s.scratch
    && t.logical - t.scratch == s.logical - s.scratch
  }

  predicate Fits(s: State, c: Cost) {
    && s.budgetWork + c.work <= s.maxWork
    && (c.acquires ==>
          && s.scratch + c.peak <= s.maxScratchBytes
          && s.live + c.peak <= s.maxProgramBytes
          && s.logical + c.peak <= s.maxProgramBytes)
  }

  function After(s: State, c: Cost): State {
    s.(budgetWork := s.budgetWork + c.work, live := s.live + c.net, logical := s.logical + c.net,
       work := s.work + c.work, scratch := s.scratch + c.net,
       scratchPeak := if c.acquires then Max(s.scratchPeak, s.scratch + c.peak) else s.scratchPeak)
  }

  /** A sequence of two computations fits exactly when each fits in its turn. */
  lemma FitsThen(s: State, a: Cost, b: Cost)
    ensures Fits(s, Then(a, b)) <==> Fits(s, a) && Fits(After(s, a), b)
    ensures After(s, Then(a, b)) == After(After(s, a), b)
    ensures SameBasis(s, After(s, a)) && SameBasis(s, After(s, Then(a, b)))
    ensures After(s, a).scratch == s.scratch + a.net
  {
  }

  lemma ThreeSteps(s: State, a: Cost, b: Cost, c: Cost)
    ensures var all := Then(a, Then(b, c));
      && (Fits(s, all) <==> Fits(s, a) && Fits(After(s, a), b) && Fits(After(After(s, a), b), c))
      && After(s, all) == After(After(After(s, a), b), c)
      && SameBasis(s, After(s, a)) && SameBasis(s, After(After(s, a), b)) && SameBasis(s, After(s, all))
  {
    FitsThen(s, a, Then(b, c));
    FitsThen(After(s, a), b, c);
  }

  /** A meter can always pay nothing, and is not changed by it. */
  lemma NothingLeft(s: State)
    requires Coherent(s)
    ensures Fits(s, Work(0)) && After(s, Work(0)) == s
  {
  }

  predicate Refusal(e: Error) {
    e.ArithmeticOverflow? || e.ResourceLimit?
  }

  /**
    A metered computation of cost `c` went from `s` to `t` with result `r`: it
    succeeds only if the cost fits and then leaves exactly the paid state; it
    refuses only if the cost does not fit; only the allocator may fail besides.
   */
  predicate Ran<T>(s: State, t: State, c: Cost, r: Outcome<T>) {
    && SameBasis(s, t)
    && match r
       case Success(_) => Fits(s, c) && t == After(s, c)
       case Failure(e) => e.AllocationFailed? || (Refusal(e) && !Fits(s, c))
  }

  /** A computation that only charges `work`: it succeeds exactly when the work fits. */
  predicate Spent<T>(s: State, t: State, work: nat, r: Outcome<T>) {
    match r
    case Success(_) => s.budgetWork + work <= s.maxWork && t.budgetWork == s.budgetWork + work && t.work == s.work + work
    case Failure(e) => Refusal(e) && s.budgetWork + work > s.maxWork
  }

  lemma SpentIsRan<T>(s: State, t: State, work: nat, r: Outcome<T>)
    requires Spent(s, t, work, r) && t == s.(budgetWork := t.budgetWork, work := t.work)
    ensures SameBasis(s, t)
    ensures r.Success? ==> Fits(s, Work(work)) && t == After(s, Work(work))
    ensures r.Failure? ==> !Fits(s, Work(work))
  {
  }

  // ----- The budget and the meter -----

  class CompileBudget {
    const maxWork: int
    const maxProgramBytes: int
    var work: int
    var live: int
    var logical: int

    constructor (maxWork: int, maxProgramBytes: int)
      requires 0 <= maxWork <= USIZE_MAX && 0 <= maxProgramBytes <= USIZE_MAX
      ensures this.maxWork == maxWork && this.maxProgramBytes == maxProgramBytes
      ensures work == 0 && live == 0 && logical == 0 && Valid()
    {
      this.maxWork, this.maxProgramBytes := maxWork, maxProgramBytes;
      work, live, logical := 0, 0, 0;
    }

    ghost predicate Valid()
      reads this
    {
      && maxWork <= USIZE_MAX && maxProgramBytes <= USIZE_MAX
      && 0 <= work <= maxWork && 0 <= live <= USIZE_MAX && 0 <= logical <= USIZE_MAX
    }

    method Charge(amount: int) returns (r: Outcome<()>)
      requires Valid() && 0 <= amount
      modifies this`work
      ensures Valid()
      ensures r.Success? <==> old(work) + amount <= maxWork
      ensures r.Success? ==> work == old(work) + amount
      ensures r.Failure? ==> Refusal(r.error) && work == old(work)
    {
      var required :- CheckedAdd(work, amount, CompileWork);
      if required > maxWork {
        return Failure(ResourceLimit(CompileWork, required, maxWork));
      }
      work := required;
      return Success(());
    }

    method AcquireChecked(amount: int) returns (r: Outcome<()>)
      requires Valid() && 0 <= amount
      modifies this`live, this`logical
      ensures Valid()
      ensures r.Success? <==> old(live) + amount <= maxProgramBytes && old(logical) + amount <= maxProgramBytes
      ensures r.Success? ==> live == old(live) + amount && logical == old(logical) + amount
      ensures r.Failure? ==> Refusal(r.error) && live == old(live) && logical == old(logical)
    {
      var physicalRequired :- CheckedAdd(live, amount, ProgramBytes);
      var logicalRequired :- CheckedAdd(logical, amount, ProgramBytes);
      if physicalRequired > maxProgramBytes {
        return Failure(ResourceLimit(ProgramBytes, physicalRequired, maxProgramBytes));
      }
      if logicalRequired > maxProgramBytes {
        return Failure(ResourceLimit(ProgramBytes, logicalRequired, maxProgramBytes));
      }
      live, logical := physicalRequired, logicalRequired;
      return Success(());
    }

    method ReleaseBytes(amount: int) returns (r: Outcome<()>)
      requires Valid() && 0 <= amount
      modifies this`live, this`logical
      ensures Valid()
      ensures r.Success? <==> amount <= old(live) && amount <= old(logical)
      ensures r.Success? ==> live == old(live) - amount && logical == old(logical) - amount
      ensures r.Failure? ==> r.error == InternalInvariant && live == old(live) && logical == old(logical)
    {
      if live < amount || logical < amount {
        return Failure(InternalInvariant);
      }
      live, logical := live - amount, logical - amount;
      return Success(());
    }
  }

  class Meter {
    const budget: CompileBudget
    const maxScratchBytes: int
    var work: int
    var scratch: int
    var scratchPeak: int

    constructor (maxScratchBytes: int, budget: CompileBudget)
      requires budget.Valid() && 0 <= maxScratchBytes <= USIZE_MAX
      ensures this.budget == budget && this.maxScratchBytes == maxScratchBytes
      ensures work == 0 && scratch == 0 && scratchPeak == 0 && Valid()
    {
      this.budget, this.maxScratchBytes := budget, maxScratchBytes;
      work, scratch, scratchPeak := 0, 0, 0;
    }

    ghost function Now(): State
      reads this, budget
    {
      State(budget.maxWork, budget.maxProgramBytes, maxScratchBytes,
            budget.work, budget.live, budget.logical, work, scratch, scratchPeak)
    }

    ghost predicate Valid()
      reads this, budget
    {
      Coherent(Now())
    }

    method Charge(amount: int) returns (r: Outcome<()>)
      requires Valid() && 0 <= amount
      modifies this`work, budget`work
      ensures Valid() && Spent(old(Now()), Now(), amount, r)
    {
      var _ :- budget.Charge(amount);
      work :- CheckedAdd(work, amount, CompileWork);
      return Success(());
    }

    method Acquire(bytes: int) returns (r: Outcome<()>)
      requires Valid() && 0 <= bytes
      modifies this, budget
      ensures Valid() && Ran(old(Now()), Now(), Acquiring(bytes), r)
      ensures r.Failure? ==> Refusal(r.error)
    {
      var required :- CheckedAdd(scratch, bytes, ProgramBytes);
      if required > maxScratchBytes {
        return Failure(ResourceLimit(ProgramBytes, required, maxScratchBytes));
      }
      var _ :- budget.AcquireChecked(bytes);
      scratch := required;
      scratchPeak := Max(scratchPeak, required);
      return Success(());
    }

    method Release(bytes: int) returns (r: Outcome<()>)
      requires Valid() && 0 <= bytes
      modifies this, budget
      ensures Valid() && SameBasis(old(Now()), Now())
      ensures r.Success? <==> bytes <= old(scratch)
      ensures r.Success? ==> Now() == After(old(Now()), Releasing(bytes))
      ensures r.Failure? ==> r.error == InternalInvariant
    {
      if scratch < bytes {
        return Failure(InternalInvariant);
      }
      var _ :- budget.ReleaseBytes(bytes);
      scratch := scratch - bytes;
      return Success(());
    }

    method ReleaseAll() returns (r: Outcome<()>)
      requires Valid()
      modifies this, budget
      ensures Valid() && r.Success?
      ensures Now() == After(old(Now()), Releasing(old(scratch)))
    {
      var _ :- budget.ReleaseBytes(scratch);
      scratch := 0;
      return Success(());
    }
  }

  // ----- Exact-capacity vectors -----

  /** A vector that refuses to grow past the capacity it was allocated with. */
  datatype ExactVec<T> = ExactVec(items: seq<T>, capacity: int)

  function Push<T>(v: ExactVec<T>, x: T): Outcome<ExactVec<T>> {
    if |v.items| >= v.capacity then Failure(InternalInvariant)
    else Success(v.(items := v.items + [x]))
  }

  function ExactVecCost(count: nat, bytes: nat): Cost {
    Then(Work(2 + count), Acquiring(bytes))
  }

  /** Allocates room for `count` elements; the allocator itself may fail. */
  method NewExactVec<T>(count: int, elementBytes: int, meter: Meter) returns (r: Outcome<(ExactVec<T>, int)>)
    requires meter.Valid() && 0 <= count && 0 <= elementBytes
    modifies meter, meter.budget
    ensures meter.Valid() && Ran(old(meter.Now()), meter.Now(), ExactVecCost(count, count * elementBytes), r)
    ensures r.Success? ==> r.value == (ExactVec([], count), count * elementBytes)
  {
    var bytes :- CheckedMul(count, elementBytes, ProgramBytes);
    var amount :- CheckedAdd(2, count, CompileWork);
    var _ :- meter.Charge(amount);
    var _ :- meter.Acquire(bytes);
    var granted: bool := *;
    if !granted {
      return Failure(AllocationFailed);
    }
    return Success((ExactVec([], count), bytes));
  }
}
