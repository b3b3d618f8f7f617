/**
  The mixing of the SplitMix64 generator. It can be undone, so an output
  determines the state behind it, and outputs do not repeat before the state
  does, which is after 2^64 draws.
 */
module SplitMix {

  const GAMMA: bv64 := 0x9E37_79B9_7F4A_7C15

  // ----- The three rounds: folds and odd factors -----

  function Fold30(x: bv64): bv64 {
    x ^ (x >> 30)
  }

  function Fold27(x: bv64): bv64 {
    x ^ (x >> 27)
  }

  function Fold31(x: bv64): bv64 {
    x ^ (x >> 31)
  }

  function FirstFactor(x: bv64): bv64 {
    x * 0xBF58_476D_1CE4_E5B9
  }

  function SecondFactor(x: bv64): bv64 {
    x * 0x94D0_49BB_1331_11EB
  }

  /** The output for a generator state. */
  function Mixed(state: bv64): bv64 {
    Fold31(SecondFactor(Fold27(FirstFactor(Fold30(state)))))
  }

  /** The first two outputs from seed 0. */
  lemma KnownOutputs()
    ensures Mixed(0x9E37_79B9_7F4A_7C15) == 0xE220_A839_7B1D_CDAF
    ensures Mixed(0x3C6E_F372_FE94_F82A) == 0x6E78_9E6A_A1B9_65F4
  {
  }

  // ----- Undoing them -----

  function Unfold30(y: bv64): bv64 {
    y ^ (y >> 30) ^ (y >> 60)
  }

  function Unfold27(y: bv64): bv64 {
    y ^ (y >> 27) ^ (y >> 54)
  }

  function Unfold31(y: bv64): bv64 {
    y ^ (y >> 31) ^ (y >> 62)
  }

  /** The inverses of the factors modulo 2^64. */
  function FirstQuotient(y: bv64): bv64 {
    y * 0x96DE_1B17_3F11_9089
  }

  function SecondQuotient(y: bv64): bv64 {
    y * 0x3196_42B2_D24D_8EC3
  }

  /** The state behind an output. */
  function Unmixed(output: bv64): bv64 {
    Unfold30(FirstQuotient(Unfold27(SecondQuotient(Unfold31(output)))))
  }

  /**
    The solver sees that a number times a constant times its inverse is the
    number only when both products stand in one term. This lemma, and those
    named alike below, put a term in place of an equal function value.
   */
  lemma EqualProducts(t: bv64, u: bv64)
    requires t == u
    ensures t * 0x96DE_1B17_3F11_9089 == u * 0x96DE_1B17_3F11_9089
    ensures t * 0x3196_42B2_D24D_8EC3 == u * 0x3196_42B2_D24D_8EC3
  {
  }

  lemma FirstFactorCancels(x: bv64)
    ensures FirstQuotient(FirstFactor(x)) == x
  {
    EqualProducts(FirstFactor(x), x * 0xBF58_476D_1CE4_E5B9);
  }

  lemma SecondFactorCancels(x: bv64)
    ensures SecondQuotient(SecondFactor(x)) == x
  {
    EqualProducts(SecondFactor(x), x * 0x94D0_49BB_1331_11EB);
  }

  lemma XorsCancel(a: bv64, b: bv64, c: bv64)
    ensures (a ^ b) ^ (b ^ c) ^ (c ^ 0) == a
  {
  }

  lemma Plain30(x: bv64)
    ensures var y := x ^ (x >> 30); y ^ (y >> 30) ^ (y >> 60) == x
  {
    XorsCancel(x, x >> 30, x >> 60);
  }

  lemma UnfoldsTo30(x: bv64, y: bv64)
    requires y == x ^ (x >> 30)
    ensures Unfold30(y) == x
  {
    Plain30(x);
  }

  lemma Fold30Cancels(x: bv64)
    ensures Unfold30(Fold30(x)) == x
  {
    UnfoldsTo30(x, Fold30(x));
  }

  lemma Plain27(x: bv64)
    ensures var y := x ^ (x >> 27); y ^ (y >> 27) ^ (y >> 54) == x
  {
    XorsCancel(x, x >> 27, x >> 54);
  }

  lemma UnfoldsTo27(x: bv64, y: bv64)
    requires y == x ^ (x >> 27)
    ensures Unfold27(y) == x
  {
    Plain27(x);
  }

  lemma Fold27Cancels(x: bv64)
    ensures Unfold27(Fold27(x)) == x
  {
    UnfoldsTo27(x, Fold27(x));
  }

  lemma Plain31(x: bv64)
    ensures var y := x ^ (x >> 31); y ^ (y >> 31) ^ (y >> 62) == x
  {
    XorsCancel(x, x >> 31, x >> 62);
  }

  lemma UnfoldsTo31(x: bv64, y: bv64)
    requires y == x ^ (x >> 31)
    ensures Unfold31(y) == x
  {
    Plain31(x);
  }

  lemma Fold31Cancels(x: bv64)
    ensures Unfold31(Fold31(x)) == x
  {
    UnfoldsTo31(x, Fold31(x));
  }

  /** The output of the generator determines its state. */
  lemma MixingIsUndone(state: bv64)
    ensures Unmixed(Mixed(state)) == state
  {
    hide Fold30, Fold27, Fold31, FirstFactor, SecondFactor;
    hide Unfold30, Unfold27, Unfold31, FirstQuotient, SecondQuotient;
    var a := Fold30(state);
    var b := FirstFactor(a);
    var c := Fold27(b);
    var d := SecondFactor(c);
    Fold30Cancels(state);
    FirstFactorCancels(a);
    Fold27Cancels(b);
    SecondFactorCancels(c);
    Fold31Cancels(d);
  }

  // ----- A full period -----

  /** How far `i` draws, counted modulo 2^64, move the state; and how many draws move it so far. */
  function Steps(i: bv64): bv64 {
    i * 0x9E37_79B9_7F4A_7C15
  }

  function StepCount(distance: bv64): bv64 {
    distance * 0xF1DE_83E1_9937_733D
  }

  lemma EqualCounts(t: bv64, u: bv64)
    requires t == u
    ensures t * 0xF1DE_83E1_9937_733D == u * 0xF1DE_83E1_9937_733D
  {
  }

  lemma StepsAreCounted(i: bv64)
    ensures StepCount(Steps(i)) == i
  {
    EqualCounts(Steps(i), i * 0x9E37_79B9_7F4A_7C15);
  }

  function Moved(seed: bv64, distance: bv64): bv64 {
    seed + distance
  }

  function Distance(seed: bv64, state: bv64): bv64 {
    state - seed
  }

  lemma EqualDistances(seed: bv64, t: bv64, u: bv64)
    requires t == u
    ensures t - seed == u - seed
  {
  }

  lemma DistanceOfMoved(seed: bv64, distance: bv64)
    ensures Distance(seed, Moved(seed, distance)) == distance
  {
    EqualDistances(seed, Moved(seed, distance), seed + distance);
  }

  /** The state after `i` draws. */
  function StateAt(seed: bv64, i: bv64): bv64 {
    Moved(seed, Steps(i))
  }

  lemma EqualSums(t: bv64, u: bv64)
    requires t == u
    ensures t + GAMMA == u + GAMMA && t + 0x9E37_79B9_7F4A_7C15 == u + 0x9E37_79B9_7F4A_7C15
  {
  }

  lemma OneMoreStep(i: bv64)
    ensures Steps(i + 1) == Steps(i) + 0x9E37_79B9_7F4A_7C15
  {
    EqualSums(Steps(i), i * 0x9E37_79B9_7F4A_7C15);
  }

  lemma MovedOnce(seed: bv64, distance: bv64)
    ensures Moved(seed, distance + 0x9E37_79B9_7F4A_7C15) == Moved(seed, distance) + 0x9E37_79B9_7F4A_7C15
  {
    EqualSums(Moved(seed, distance), seed + distance);
  }

  /** A draw moves the state by one step. */
  lemma StateAtNextDraw(seed: bv64, i: bv64)
    ensures StateAt(seed, i + 1) == StateAt(seed, i) + GAMMA
  {
    hide Moved, Steps;
    OneMoreStep(i);
    MovedOnce(seed, Steps(i));
  }

  // ----- Counting draws -----

  /** The state after a number of draws from a seed. */
  function StateAfter(seed: bv64, draws: nat): bv64 {
    if draws == 0 then seed else StateAfter(seed, draws - 1) + GAMMA
  }

  function Sum(a: bv64, b: bv64): bv64 {
    a + b
  }

  predicate Less(a: bv64, b: bv64) {
    a < b
  }

  /** A number counted up in 64 bits. */
  function Counted(n: nat): bv64 {
    if n == 0 then 0 else Sum(Counted(n - 1), 1)
  }

  lemma {:induction false} StateIsCounted(seed: bv64, n: nat)
    ensures StateAfter(seed, n) == StateAt(seed, Counted(n))
  {
    hide StateAt, Sum;
    if n == 0 {
      NoDraw(seed);
    } else {
      StateIsCounted(seed, n - 1);
      StateAtSum(seed, Counted(n - 1));
    }
  }

  lemma StateAtSum(seed: bv64, i: bv64)
    ensures StateAt(seed, Sum(i, 1)) == StateAt(seed, i) + GAMMA
  {
    hide StateAt;
    StateAtNextDraw(seed, i);
  }

  lemma NoDraw(seed: bv64)
    ensures StateAt(seed, 0) == seed
  {
  }

  lemma EqualTotals(a: bv64, t: bv64, u: bv64)
    requires t == u
    ensures a + t == a + u && t + a == u + a
  {
  }

  lemma SumAssociates(a: bv64, b: bv64, c: bv64)
    ensures Sum(Sum(a, b), c) == Sum(a, Sum(b, c))
  {
    EqualTotals(c, Sum(a, b), a + b);
    EqualTotals(a, Sum(b, c), b + c);
  }

  lemma SumWithNothing(a: bv64)
    ensures Sum(a, 0) == a && Sum(0, a) == a
  {
  }

  lemma {:induction false} CountsAdd(m: nat, n: nat)
    ensures Counted(m + n) == Sum(Counted(m), Counted(n))
    decreases n
  {
    hide Sum;
    if n == 0 {
      SumWithNothing(Counted(m));
    } else {
      CountsAdd(m, n - 1);
      SumAssociates(Counted(m), Counted(n - 1), 1);
    }
  }

  lemma HalfCount(n: nat)
    ensures var c := Sum(Counted(n / 2), Counted(n / 2)); Counted(n) == if n % 2 == 0 then c else Sum(c, 1)
  {
    hide Sum;
    var m := n / 2;
    CountsAdd(m, m);
    assert n == m + m || n == m + m + 1;
  }

  // ----- Counting does not wrap around below 2^64 -----

  /** Numbers below `t` count to less than `l`. */
  predicate Below(t: nat, l: bv64) {
    forall m: nat :: m < t ==> Less(Counted(m), l)
  }

  lemma DoublesKeepOrder(c: bv64, l: bv64, t: bv64, k: bv64)
    requires Less(c, l) && l <= 0x4000_0000_0000_0000 && t == c + c && k == l + l
    ensures Less(t, k)
  {
  }

  lemma DoublesLeaveRoom(c: bv64, l: bv64, t: bv64, k: bv64)
    requires Less(c, l) && l <= 0x4000_0000_0000_0000 && t == c + c + 1 && k == l + l
    ensures Less(t, k)
  {
  }

  lemma OneMoreThanDouble(c: bv64)
    ensures Sum(Sum(c, c), 1) == c + c + 1
  {
    EqualTotals(1, Sum(c, c), c + c);
  }

  lemma DoubleStaysBelow(c: bv64, l: bv64, k: bv64)
    requires Less(c, l) && l <= 0x4000_0000_0000_0000 && k == l + l
    ensures Less(Sum(c, c), k) && Less(Sum(Sum(c, c), 1), k)
  {
    hide Less;
    OneMoreThanDouble(c);
    DoublesKeepOrder(c, l, Sum(c, c), k);
    DoublesLeaveRoom(c, l, Sum(Sum(c, c), 1), k);
  }

  lemma BelowTwice(t: nat, l: bv64, u: nat, k: bv64)
    requires Below(t, l) && l <= 0x4000_0000_0000_0000 && u == 2 * t && k == l + l
    ensures Below(u, k)
  {
    hide Counted, Sum, Less;
    forall n: nat | n < u
      ensures Less(Counted(n), k)
    {
      HalfCount(n);
      DoubleStaysBelow(Counted(n / 2), l, k);
    }
  }

  lemma BelowSixteenTimes(t: nat, l: bv64, l1: bv64, l2: bv64, l3: bv64, l4: bv64)
    requires Below(t, l) && l1 == l + l && l2 == l1 + l1 && l3 == l2 + l2 && l4 == l3 + l3
    requires l <= 0x4000_0000_0000_0000 && l1 <= 0x4000_0000_0000_0000
    requires l2 <= 0x4000_0000_0000_0000 && l3 <= 0x4000_0000_0000_0000
    ensures Below(16 * t, l4)
  {
    hide Below;
    BelowTwice(t, l, 2 * t, l1);
    BelowTwice(2 * t, l1, 4 * t, l2);
    BelowTwice(4 * t, l2, 8 * t, l3);
    BelowTwice(8 * t, l3, 16 * t, l4);
  }

  /** Numbers below 2^63 count to less than 2^63. */
  lemma HalfTheRange()
    ensures Below(0x8000_0000_0000_0000, 0x8000_0000_0000_0000)
  {
    assert Below(1, 1);
    hide Below;
    BelowSixteenTimes(0x1, 0x1, 0x2, 0x4, 0x8, 0x10);
    BelowSixteenTimes(0x10, 0x10, 0x20, 0x40, 0x80, 0x100);
    BelowSixteenTimes(0x100, 0x100, 0x200, 0x400, 0x800, 0x1000);
    BelowSixteenTimes(0x1000, 0x1000, 0x2000, 0x4000, 0x8000, 0x1_0000);
    BelowSixteenTimes(0x1_0000, 0x1_0000, 0x2_0000, 0x4_0000, 0x8_0000, 0x10_0000);
    BelowSixteenTimes(0x10_0000, 0x10_0000, 0x20_0000, 0x40_0000, 0x80_0000, 0x100_0000);
    BelowSixteenTimes(0x100_0000, 0x100_0000, 0x200_0000, 0x400_0000, 0x800_0000, 0x1000_0000);
    BelowSixteenTimes(0x1000_0000, 0x1000_0000, 0x2000_0000, 0x4000_0000, 0x8000_0000, 0x1_0000_0000);
    BelowSixteenTimes(0x1_0000_0000, 0x1_0000_0000, 0x2_0000_0000, 0x4_0000_0000, 0x8_0000_0000, 0x10_0000_0000);
    BelowSixteenTimes(0x10_0000_0000, 0x10_0000_0000, 0x20_0000_0000, 0x40_0000_0000, 0x80_0000_0000, 0x100_0000_0000);
    BelowSixteenTimes(0x100_0000_0000, 0x100_0000_0000, 0x200_0000_0000, 0x400_0000_0000, 0x800_0000_0000, 0x1000_0000_0000);
    BelowSixteenTimes(0x1000_0000_0000, 0x1000_0000_0000, 0x2000_0000_0000, 0x4000_0000_0000, 0x8000_0000_0000, 0x1_0000_0000_0000);
    BelowSixteenTimes(0x1_0000_0000_0000, 0x1_0000_0000_0000, 0x2_0000_0000_0000, 0x4_0000_0000_0000, 0x8_0000_0000_0000, 0x10_0000_0000_0000);
    BelowSixteenTimes(0x10_0000_0000_0000, 0x10_0000_0000_0000, 0x20_0000_0000_0000, 0x40_0000_0000_0000, 0x80_0000_0000_0000, 0x100_0000_0000_0000);
    BelowSixteenTimes(0x100_0000_0000_0000, 0x100_0000_0000_0000, 0x200_0000_0000_0000, 0x400_0000_0000_0000, 0x800_0000_0000_0000, 0x1000_0000_0000_0000);
    BelowTwice(0x1000_0000_0000_0000, 0x1000_0000_0000_0000, 0x2000_0000_0000_0000, 0x2000_0000_0000_0000);
    BelowTwice(0x2000_0000_0000_0000, 0x2000_0000_0000_0000, 0x4000_0000_0000_0000, 0x4000_0000_0000_0000);
    BelowTwice(0x4000_0000_0000_0000, 0x4000_0000_0000_0000, 0x8000_0000_0000_0000, 0x8000_0000_0000_0000);
  }

  lemma DoublesVanish(c: bv64)
    ensures Less(c, 0x8000_0000_0000_0000) && Sum(c, c) == 0 ==> c == 0
    ensures Sum(Sum(c, c), 1) != 0
  {
    OneMoreThanDouble(c);
  }

  lemma {:induction false} CountIsNotZero(n: nat)
    requires 0 < n < 0x1_0000_0000_0000_0000
    ensures Counted(n) != 0
  {
    HalfTheRange();
    assert Less(Counted(n / 2), 0x8000_0000_0000_0000);
    HalfCount(n);
    DoublesVanish(Counted(n / 2));
    hide Counted, Sum, Less, Below;
    if n % 2 == 0 {
      CountIsNotZero(n / 2);
    }
  }

  lemma SumMoves(a: bv64, b: bv64)
    requires b != 0
    ensures Sum(a, b) != a
  {
  }

  lemma CountsDiffer(m: nat, n: nat)
    requires m < n < 0x1_0000_0000_0000_0000
    ensures Counted(m) != Counted(n)
  {
    hide Counted, Sum;
    CountIsNotZero(n - m);
    CountsAdd(m, n - m);
    SumMoves(Counted(m), Counted(n - m));
  }

  /** From any seed, the first 2^64 draws give different outputs. */
  lemma OutputsNeverRepeat(seed: bv64, m: nat, n: nat)
    requires m < n < 0x1_0000_0000_0000_0000
    ensures Mixed(StateAfter(seed, m)) != Mixed(StateAfter(seed, n))
  {
    hide Mixed, Unmixed, Moved, Distance, Steps, StepCount, StateAfter, Counted;
    CountsDiffer(m, n);
    StateIsCounted(seed, m);
    StateIsCounted(seed, n);
    MixingIsUndone(StateAfter(seed, m));
    MixingIsUndone(StateAfter(seed, n));
    var i, j := Counted(m), Counted(n);
    DistanceOfMoved(seed, Steps(i));
    DistanceOfMoved(seed, Steps(j));
    StepsAreCounted(i);
    StepsAreCounted(j);
  }
}
