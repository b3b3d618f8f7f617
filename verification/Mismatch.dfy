/**
  A run in which both arms of a pair are in order but disagree. If it is cut off
  between the second arm and the error record, the log cannot be resumed.
 */
module Mismatch {
  import opened Wrappers
  import opened BenchLog
  import opened Resume
  import opened Runner
  import opened Crashes

  function Repeated(c: char, n: nat): (s: string)
    ensures |s| == n && forall i :: 0 <= i < n ==> s[i] == c
  {
    seq(n, _ => c)
  }

  const CELL: Cell := Cell("negative", 1, 64)

  /** The result a process prints; its text decides the result digest. */
  function Decoded(stdout: string): ArmResult {
    ArmResult(SCHEMA, "ok", "negative", 1, 64, 64, 1, 5, 0, Repeated('0', 16),
              if stdout == "" then Repeated('0', 16) else Repeated('1', 16), "")
  }

  function World(): Env {
    Env(_ => Repeated('0', 64), _ => true, _ => Some(map[]), stdout => Value(Parsed(Decoded(stdout))),
        (_, _) => 2, (_, _) => "", (_, _) => "")
  }

  function Setting(): Config {
    Config(Options("b", "b", "c", "c", ["negative"], [1], [64], 1, 0, 10, 10, Routes(map[], map[]), false), [CELL], World())
  }

  /** The first process prints nothing in its digest's place, all others something else. */
  function Arms(): Oracle {
    (n: nat) => Outcome(0, 1, if n == 1 then "" else "x", "")
  }

  lemma SettingIsSound()
    ensures Hashing(Setting()) && Distinct(Setting().cells)
  {
  }

  const SLOT: Slot := Slot(Calibration, 0, None, AB, CELL, 1)

  function Record(side: Side, stdout: string): Event {
    Invocation(SLOT, side, 0, 1, Repeated('0', 64), Repeated('0', 64), "", Parsed(Decoded(stdout)), true)
  }

  lemma FirstArm()
    ensures var p := Progress([], Calibrating(1, 0, None));
      var q := Progress([], Calibrating(1, 0, Some(Arm(Baseline, Decoded("")))));
      Start(Setting()) == p && InRange(Setting(), q) && Next(Setting(), p, Arms()(1)) == Emit(Record(Baseline, ""), q)
  {
    var p := Progress([], Calibrating(1, 0, None));
    assert SlotOf(Setting(), p) == Some(SLOT) && NextSide(Setting(), p) == Baseline;
    assert ValidResult(Setting(), SLOT, Baseline, Decoded(""));
  }

  lemma SecondArm()
    ensures var q := Progress([], Calibrating(1, 0, Some(Arm(Baseline, Decoded("")))));
      InRange(Setting(), q) && Next(Setting(), q, Arms()(2)) == Abort([Record(Candidate, "x"), Error(PairMismatch)])
  {
    var q := Progress([], Calibrating(1, 0, Some(Arm(Baseline, Decoded("")))));
    assert SlotOf(Setting(), q) == Some(SLOT) && NextSide(Setting(), q) == Candidate;
    assert ValidResult(Setting(), SLOT, Candidate, Decoded("x"));
    assert Decoded("").resultDigest[0] != Decoded("x").resultDigest[0];
    assert !ValidPair(Setting(), Pair(Decoded(""), Decoded("x")));
  }

  /** The log of that run; its first two records are resumed, its first three are not, although the third is a valid arm. */
  lemma ValidArmEndsResumption()
    ensures var cfg := Setting();
      var log := [MetadataOf(cfg), Record(Baseline, ""), Record(Candidate, "x"), Error(PairMismatch)];
      && Launch(cfg, Arms(), false, []) == log
      && ValidInvocation(cfg, SLOT, Candidate, log[2])
      && ReplayLog(cfg, log[..2]).Some? && ReplayLog(cfg, log[..3]) == None
  {
    hide Next, ValidInvocation, Replay, InRange, Hashing;
    var cfg, arm := Setting(), Arms();
    var p := Progress([], Calibrating(1, 0, None));
    var q := Progress([], Calibrating(1, 0, Some(Arm(Baseline, Decoded("")))));
    SettingIsSound();
    FirstArm();
    SecondArm();
    assert Rest(cfg, arm, q, 2) == [Record(Candidate, "x"), Error(PairMismatch)];
    assert Rest(cfg, arm, p, 1) == [Record(Baseline, "")] + Rest(cfg, arm, q, 2);
    hide Rest;
    ValidButRefused(cfg, q, arm(2), Record(Candidate, "x"), PairMismatch);
    RefusedExactly(cfg, arm, MetadataOf(cfg), 2);
    RefusedExactly(cfg, arm, MetadataOf(cfg), 3);
  }
}
