/**
  The records of the paired benchmark's append-only log, and the checks that a
  record has to pass. Both the runner, which appends records, and the resume
  validator, which reads them back, are built on these.
 */
module BenchLog {
  import opened Wrappers

  datatype Side = Baseline | Candidate
  datatype Order = AB | BA
  datatype Phase = Calibration | Warmup | Measure
  datatype Cell = Cell(scenario: string, batch: int, byteSize: int)

  type Route = map<string, string>
  datatype Routes = Routes(baseline: Route, candidate: Route)

  /** Everything the metadata record pins down. */
  datatype Options = Options(
    baselineBinary: string, baselineSha: string, candidateBinary: string, candidateSha: string,
    scenarios: seq<string>, batches: seq<int>, byteSizes: seq<int>,
    pairs: int, warmupPairs: int, minimumNs: int, targetNs: int,
    routes: Routes, sameBinary: bool)

  datatype ArmResult = ArmResult(
    schema: string, status: string, scenario: string, batch: int, bytesPerHaystack: int, totalBytes: int,
    iterations: int, elapsedNs: int, matchesPerBatch: int, inputDigest: string, resultDigest: string, route: string)

  /** What a process printed: one JSON value, which may or may not have the shape of a result, or garbage. */
  datatype Payload = Parsed(result: ArmResult) | Misshapen(text: string)
  datatype Printed = Garbled | Value(payload: Payload)

  datatype Pair = Pair(baseline: ArmResult, candidate: ArmResult)
  datatype Measured = Measured(order: Order, arms: Pair)

  /** Place of an invocation in the plan of a run. */
  datatype Slot = Slot(phase: Phase, ordinal: nat, pair: Option<nat>, order: Order, cell: Cell, iterations: int)

  datatype Reason = ArmFailed | PairMismatch | IterationOverflow | CalibrationExhausted

  datatype Event =
    | Metadata(options: Options, routeEvidence: bool)
    | Invocation(slot: Slot, side: Side, returncode: int, wallNs: int, stdoutSha: string, stderrSha: string,
                 stderr: string, payload: Payload, validated: bool)
    | RawInvocation(slot: Slot, side: Side, returncode: int, wallNs: int, stdout: string, stderr: string)
    | Calibrated(cell: Cell, iterations: int)
    | PairedSummary(summary: string)
    | AggregateSummary(summary: string)
    | Error(reason: Reason)
    | Foreign(text: string)

  /**
    Deterministic functions that both programs share and that are not
    interpreted here: hashing, hexadecimal parsing, route parsing, JSON decoding
    of a process's output, the rounded-up quotient target/fastest, summaries.
   */
  datatype Env = Env(
    sha: string -> string,
    isHex: string -> bool,
    routeFields: string -> Option<Route>,
    decode: string -> Printed,
    ceilRatio: (int, int) -> int,
    summarize: (Cell, seq<Measured>) -> string,
    aggregate: (seq<string>, int) -> string)

  datatype Config = Config(options: Options, cells: seq<Cell>, env: Env)

  /** Outcome of one process, chosen by the machine. */
  datatype Outcome = Outcome(returncode: int, wallNs: int, stdout: string, stderr: string)

  type Oracle = nat -> Outcome

  const SCHEMA := "fre-public-direct-exists-batch-v1"
  const MAX_CALIBRATION_PAIRS: int := 16
  const MAX_MULTIPLIER: int := 1_000_000
  const MAX_ITERATIONS: int := 0x7FFF_FFFF_FFFF_FFFF

  function OrderOf(cell: nat, ordinal: nat): Order {
    if (cell + ordinal) % 2 == 0 then AB else BA
  }

  /** The side run first, or second, in an order. */
  function FirstSide(order: Order): Side {
    if order.AB? then Baseline else Candidate
  }

  function SecondSide(order: Order): Side {
    if order.AB? then Candidate else Baseline
  }

  function Joined(order: Order, first: ArmResult, second: ArmResult): Pair {
    if order.AB? then Pair(first, second) else Pair(second, first)
  }

  function RouteOf(routes: Routes, side: Side): Route {
    if side.Baseline? then routes.baseline else routes.candidate
  }

  predicate ValidDigest(env: Env, digest: string) {
    |digest| == 16 && env.isHex(digest)
  }

  predicate ValidSha(env: Env, sha: string) {
    && |sha| == 64
    && (forall i :: 0 <= i < |sha| ==> !('A' <= sha[i] <= 'Z'))
    && env.isHex(sha)
  }

  predicate ValidRoute(env: Env, expected: Route, description: string) {
    && env.routeFields(description).Some?
    && forall field :: field in expected ==>
         field in env.routeFields(description).value && env.routeFields(description).value[field] == expected[field]
  }

  predicate ValidResult(cfg: Config, slot: Slot, side: Side, r: ArmResult) {
    && r.schema == SCHEMA
    && r.status == "ok"
    && r.scenario == slot.cell.scenario
    && r.batch == slot.cell.batch
    && r.bytesPerHaystack == slot.cell.byteSize
    && r.totalBytes == slot.cell.batch * slot.cell.byteSize
    && r.iterations == slot.iterations
    && r.matchesPerBatch == (if slot.cell.scenario == "early" || slot.cell.scenario == "late" then slot.cell.batch else 0)
    && r.elapsedNs > 0
    && ValidDigest(cfg.env, r.inputDigest) && ValidDigest(cfg.env, r.resultDigest)
    && ValidRoute(cfg.env, RouteOf(cfg.options.routes, side), r.route)
  }

  /** Route fields in which the two arms may differ. */
  function AllowedDifferences(routes: Routes): set<string> {
    {"api", "bulk"}
    + (set f | f in routes.baseline && (f !in routes.candidate || routes.candidate[f] != routes.baseline[f]))
    + (set f | f in routes.candidate && f !in routes.baseline)
  }

  predicate ValidPair(cfg: Config, p: Pair) {
    var b, c := cfg.env.routeFields(p.baseline.route), cfg.env.routeFields(p.candidate.route);
    var allowed := AllowedDifferences(cfg.options.routes);
    && p.baseline.inputDigest == p.candidate.inputDigest
    && p.baseline.resultDigest == p.candidate.resultDigest
    && p.baseline.matchesPerBatch == p.candidate.matchesPerBatch
    && b.Some? && c.Some?
    && b.value - allowed == c.value - allowed
  }

  predicate ValidInvocation(cfg: Config, slot: Slot, side: Side, e: Event) {
    && e.Invocation?
    && e.slot == slot && e.side == side && e.returncode == 0 && e.validated
    && e.wallNs > 0
    && ValidSha(cfg.env, e.stdoutSha) && ValidSha(cfg.env, e.stderrSha)
    && e.stderrSha == cfg.env.sha(e.stderr)
    && e.payload.Parsed? && ValidResult(cfg, slot, side, e.payload.result)
  }

  /** Validation of the first record: the current shape, or the older one without route evidence. */
  predicate ValidMetadata(cfg: Config, e: Event) {
    && e.Metadata? && e.options == cfg.options
    && (e.routeEvidence || !cfg.options.sameBinary)
  }

  function Fastest(p: Pair): int {
    if p.candidate.elapsedNs < p.baseline.elapsedNs then p.candidate.elapsedNs else p.baseline.elapsedNs
  }

  function Scaled(cfg: Config, iterations: int, fastest: int): int {
    var ratio := cfg.env.ceilRatio(cfg.options.targetNs, fastest);
    var multiplier := if ratio > 2 then ratio else 2;
    iterations * (if multiplier < MAX_MULTIPLIER then multiplier else MAX_MULTIPLIER)
  }

  predicate Distinct<T(==)>(s: seq<T>) {
    forall i, j :: 0 <= i < j < |s| ==> s[i] != s[j]
  }

  // ----- Progress -----

  datatype Arm = Arm(side: Side, result: ArmResult)

  /** How far a run has come in the current cell, or beyond the last one. */
  datatype Stage =
    | Calibrating(iterations: int, ordinal: nat, partial: Option<Arm>)
    | RecordCalibrated(iterations: int, ordinal: nat)
    | Warming(iterations: int, done: nat, partial: Option<Arm>)
    | Measuring(iterations: int, measured: seq<Measured>, partial: Option<Arm>)
    | Summarizing(iterations: int, measured: seq<Measured>)
    | Aggregating
    | Complete(aggregate: string)

  /** The summaries of the finished cells, and the stage; the current cell is the one after the finished ones. */
  datatype Progress = Progress(summaries: seq<string>, stage: Stage)

  function CellIndex(p: Progress): nat {
    |p.summaries|
  }

  function BeginCell(cfg: Config, summaries: seq<string>): Progress {
    Progress(summaries, if |summaries| < |cfg.cells| then Calibrating(1, 0, None) else Aggregating)
  }

  function BeginMeasuring(cfg: Config, iterations: int): Stage {
    if 0 < cfg.options.pairs then Measuring(iterations, [], None) else Summarizing(iterations, [])
  }

  function BeginWarming(cfg: Config, iterations: int): Stage {
    if 0 < cfg.options.warmupPairs then Warming(iterations, 0, None) else BeginMeasuring(cfg, iterations)
  }

  predicate PartialFits(order: Order, partial: Option<Arm>) {
    partial.Some? ==> partial.value.side == FirstSide(order)
  }

  predicate InRange(cfg: Config, p: Progress) {
    var c := CellIndex(p);
    match p.stage
    case Calibrating(it, k, partial) =>
      c < |cfg.cells| && k <= MAX_CALIBRATION_PAIRS && PartialFits(OrderOf(c, k), partial)
      && (k == MAX_CALIBRATION_PAIRS ==> partial.None?)
    case RecordCalibrated(_, k) => c < |cfg.cells| && k < MAX_CALIBRATION_PAIRS
    case Warming(_, k, partial) => c < |cfg.cells| && k < cfg.options.warmupPairs && PartialFits(OrderOf(c, k), partial)
    case Measuring(_, ms, partial) =>
      c < |cfg.cells| && |ms| < cfg.options.pairs && PartialFits(OrderOf(c, |ms|), partial)
    case Summarizing(_, ms) => c < |cfg.cells| && cfg.options.pairs <= |ms|
    case Aggregating => c == |cfg.cells|
    case Complete(_) => c == |cfg.cells|
  }

  /** The invocation slot a stage is waiting for, if it is waiting for an arm. */
  function SlotOf(cfg: Config, p: Progress): Option<Slot>
    requires InRange(cfg, p)
  {
    var c := CellIndex(p);
    match p.stage
    case Calibrating(it, k, _) =>
      if k < MAX_CALIBRATION_PAIRS then Some(Slot(Calibration, k, None, OrderOf(c, k), cfg.cells[c], it)) else None
    case Warming(it, k, _) => Some(Slot(Warmup, k, None, OrderOf(c, k), cfg.cells[c], it))
    case Measuring(it, ms, _) => Some(Slot(Measure, |ms|, Some(|ms|), OrderOf(c, |ms|), cfg.cells[c], it))
    case _ => None
  }

  function PartialOf(stage: Stage): Option<Arm> {
    match stage
    case Calibrating(_, _, partial) => partial
    case Warming(_, _, partial) => partial
    case Measuring(_, _, partial) => partial
    case _ => None
  }

  function WithPartial(stage: Stage, arm: Arm): Stage {
    match stage
    case Calibrating(it, k, _) => Calibrating(it, k, Some(arm))
    case Warming(it, k, _) => Warming(it, k, Some(arm))
    case Measuring(it, ms, _) => Measuring(it, ms, Some(arm))
    case other => other
  }

  /** The stage after a whole pair; none when the next iteration count leaves the signed 64-bit range. */
  function AfterPair(cfg: Config, p: Progress, pair: Pair): Option<Stage> {
    match p.stage
    case Calibrating(it, k, _) =>
      if Fastest(pair) >= cfg.options.minimumNs then Some(RecordCalibrated(it, k))
      else if Scaled(cfg, it, Fastest(pair)) > MAX_ITERATIONS then None
      else Some(Calibrating(Scaled(cfg, it, Fastest(pair)), k + 1, None))
    case Warming(it, k, _) =>
      Some(if k + 1 < cfg.options.warmupPairs then Warming(it, k + 1, None) else BeginMeasuring(cfg, it))
    case Measuring(it, ms, _) =>
      var more := ms + [Measured(OrderOf(CellIndex(p), |ms|), pair)];
      Some(if |more| < cfg.options.pairs then Measuring(it, more, None) else Summarizing(it, more))
    case other => Some(other)
  }

  /** The record a stage owes that is not an invocation, and the progress once it is written. */
  function Owed(cfg: Config, p: Progress): Option<(Event, Progress)>
    requires InRange(cfg, p)
  {
    var c := CellIndex(p);
    match p.stage
    case RecordCalibrated(it, _) => Some((Calibrated(cfg.cells[c], it), p.(stage := BeginWarming(cfg, it))))
    case Summarizing(it, ms) =>
      var summary := cfg.env.summarize(cfg.cells[c], ms);
      Some((PairedSummary(summary), BeginCell(cfg, p.summaries + [summary])))
    case Aggregating =>
      var summary := cfg.env.aggregate(p.summaries, cfg.options.pairs);
      Some((AggregateSummary(summary), p.(stage := Complete(summary))))
    case _ => None
  }

  /** Progress once the awaited arm is in: none if its pair does not agree or overflows. */
  function AddArm(cfg: Config, p: Progress, r: ArmResult): (q: Option<Progress>)
    requires InRange(cfg, p) && SlotOf(cfg, p).Some?
  {
    var order := SlotOf(cfg, p).value.order;
    var partial := PartialOf(p.stage);
    if partial.None? then Some(p.(stage := WithPartial(p.stage, Arm(FirstSide(order), r))))
    else
      var pair := Joined(order, partial.value.result, r);
      if !ValidPair(cfg, pair) || AfterPair(cfg, p, pair).None? then None
      else Some(p.(stage := AfterPair(cfg, p, pair).value))
  }

  function NextSide(cfg: Config, p: Progress): Side
    requires InRange(cfg, p) && SlotOf(cfg, p).Some?
  {
    var order := SlotOf(cfg, p).value.order;
    if PartialOf(p.stage).None? then FirstSide(order) else SecondSide(order)
  }

  lemma StaysInRange(cfg: Config, p: Progress)
    requires InRange(cfg, p)
    ensures forall r :: SlotOf(cfg, p).Some? && AddArm(cfg, p, r).Some? ==> InRange(cfg, AddArm(cfg, p, r).value)
    ensures Owed(cfg, p).Some? ==> InRange(cfg, Owed(cfg, p).value.1)
  {
    hide ValidPair, Scaled;
  }

  /** Measures by which every accepted record brings a run closer to its end. */
  function CellsLeft(cfg: Config, p: Progress): nat
    requires InRange(cfg, p)
  {
    |cfg.cells| - CellIndex(p)
  }

  function StagesLeft(p: Progress): nat {
    match p.stage
    case Calibrating(_, _, _) => 6
    case RecordCalibrated(_, _) => 5
    case Warming(_, _, _) => 4
    case Measuring(_, _, _) => 3
    case Summarizing(_, _) => 2
    case Aggregating => 1
    case Complete(_) => 0
  }

  function PairsLeft(cfg: Config, p: Progress): nat
    requires InRange(cfg, p)
  {
    match p.stage
    case Calibrating(_, k, _) => MAX_CALIBRATION_PAIRS - k
    case Warming(_, k, _) => cfg.options.warmupPairs - k
    case Measuring(_, ms, _) => cfg.options.pairs - |ms|
    case _ => 0
  }

  function ArmsLeft(p: Progress): nat {
    if PartialOf(p.stage).None? then 2 else 1
  }

  predicate Closer(cfg: Config, q: Progress, p: Progress)
    requires InRange(cfg, p) && InRange(cfg, q)
  {
    || CellsLeft(cfg, q) < CellsLeft(cfg, p)
    || (CellsLeft(cfg, q) == CellsLeft(cfg, p) &&
        (|| StagesLeft(q) < StagesLeft(p)
         || (StagesLeft(q) == StagesLeft(p) &&
             (|| PairsLeft(cfg, q) < PairsLeft(cfg, p)
              || (PairsLeft(cfg, q) == PairsLeft(cfg, p) && ArmsLeft(q) < ArmsLeft(p))))))
  }

  lemma GetsCloser(cfg: Config, p: Progress)
    requires InRange(cfg, p)
    ensures forall r :: SlotOf(cfg, p).Some? && AddArm(cfg, p, r).Some? ==>
              InRange(cfg, AddArm(cfg, p, r).value) && Closer(cfg, AddArm(cfg, p, r).value, p)
    ensures Owed(cfg, p).Some? ==> InRange(cfg, Owed(cfg, p).value.1) && Closer(cfg, Owed(cfg, p).value.1, p)
  {
    hide ValidPair, Scaled;
    StaysInRange(cfg, p);
  }
}
