# Verified models of the fre regex engine

Dafny models of four parts of the repository, with proofs about every input or
every run. `dafny verify dfyconfig.toml` checks the project.

**Finite-anchor certifier** (`Hir`, `Meter`, `Facts`, `Words`, `Language`,
`Order`, `OrderExact`, `CensusExact`, `Consumable`, `ConsumableExact`, `Flatten`,
`Anchor`, `Materialize`, `Certify`, `CertifyExact`, `Disorder`, `CertifierRun`). The certifier takes a regex syntax tree and tries to show that
every match passes through one of finitely many anchor words. The tree has a
denotational semantics: match spans in a haystack, and languages of words. Each
step of the certifier is modelled twice, as a function that says what it
computes and what it costs, and as a metered method with the source's loops,
charges, exact-capacity pushes and error exits, proved to compute that function
at exactly that cost. On the functions the main theorems are proved: anchor
candidates miss nothing, exactly which expressions are certified, the census
equals the materialization it pays for, the words are exact, the anchor is
optimal, limits only refuse, bytes are conserved.

**Append-only benchmark log** (`BenchLog`, `Resume`, `Runner`, `Crashes`,
`LogShape`, `Mismatch`). The runner appends records; after a crash the validator rebuilds
the runner's progress from the surviving records and the runner goes on. The
validator is specified as a record-by-record replay, the runner as a step
function over an oracle of process outcomes; the source's nested loops are
methods proved against these two. The theorems say that any number of crashes
and resumptions change nothing, and that the validator accepts exactly what a
run may have written.

**Scalar search and UTF-8 decoding** (`ScalarSearch`, `Utf8`). A charged binary
search with a recurrence for its worst case, and decoders of the first and last
scalar of arbitrary bytes.

**Schedules and manifests** (`Schedules`, `Agreement`, `Analyzer`, `SplitMix`, `Shuffle`,
`Controller`, `Campaign`, `Manifest`). The controller builds a schedule by a seeded in-place shuffle and
collects results as they finish; the analyzer checks schedule and results on
its own. The set-manifest parser groups tab-separated rows.

## Findings

- A repetition of a multi-word child with a range of counts emits its words
  grouped by count (`crates/fre-aggregate/src/anchored_island.rs:1338-1346`),
  which is not backtracking order. `WordOrder.RepetitionOrderIsExact` says
  exactly when it is, for all words, `ExactOrder.OrderIsExact` for every
  expression and `Disorder.AnchorOrderIsExact` for every anchor;
  `Disorder.OnceOrTwiceIsOutOfOrder` is a family of certified expressions whose
  words are out of order.
- The analyzer calls a pair adjacent when two neighbours share a pair identifier
  (`gates/steady-state-generalization/analyze.py:119-124`); it never compares
  their points. `Schedules.AcceptedMayCrossPairs` is a schedule that passes with
  crossed pairs, `Campaign.CrossedPairsAreReported` a whole run over it, and
  `Schedules.WhenPairsStayTogether` says what identifiers have to be like to
  rule it out. Schedules from the controller never cross
  (`Controller.BuildSchedule`).
- A benchmark log that ends between an abort's last invocation record and its
  error record is refused on resume even when that invocation itself is fine
  (`scripts/benchmark-aot-direct-exists-batch.py:990-993` and `1118-1121`):
  `Crashes.RefusedExactly`, `Crashes.ValidButRefused`, and a concrete run in
  `Mismatch.ValidArmEndsResumption`. A log that ends after sixteen calibration
  pairs that all fell short is accepted, and the resumption then writes the
  error.
- The runner records the duration of a process without looking at it, and the
  validator demands a positive one
  (`scripts/benchmark-aot-direct-exists-batch.py:923-925`): a log with an
  invocation that took no time is never resumed, which is the only other reason
  for a refusal (`Crashes.RefusedExactly`).
- The consumable bytes are exact for expressions without empty classes and
  without repetitions that cannot repeat; with one of these they may hold a byte
  that no word has (`crates/fre-aggregate/src/anchored_island.rs:1536-1549`):
  `ExactConsuming.BytesAreExact` and `ExactConsuming.EmptyClassKeepsBytes`. The
  certifier then refuses more, and a delimiter is still in no match.
- The validator's scan for error records
  (`scripts/benchmark-aot-direct-exists-batch.py:1047-1051`) is redundant:
  `Resume.ErrorsAreRefused`.
- The saturating arithmetic of the comparison bound
  (`crates/fre-aggregate/src/program.rs:276-300`) never saturates:
  `ScalarSearch.BoundIsWorst`.

## Modelling decisions

- Sizes in memory are those of a 64-bit target: 8 bytes for a reference, 64 for
  a branch slot, 65 for a word. `usize` arithmetic is checked against 2^64 - 1.
- Whether the allocator succeeds is left open: an allocation may fail at any
  time, and the contracts say what holds then.
- A word is a byte sequence; that it fits the inline buffer of 64 bytes is
  proved wherever the source relies on it.
- The source's two concatenation loops, over parts and over the children of a
  concatenation, do the same and are one method, `Materializing.MaterializeParts`.
- A log record is modelled after decoding: a record with other keys or types
  than the expected ones is `Foreign`, or an invocation with a `Misshapen`
  payload. Error records carry a reason instead of a message.
- Hashing, hexadecimal parsing, route parsing, JSON decoding of process output,
  the rounded quotient target/fastest and the summaries are functions that the
  runner and the validator share and that are not interpreted
  (`BenchLog.Env`).
- Outcomes of processes come from an oracle indexed by log position. Theorems
  about acceptance assume that hashes look like hashes (`Crashes.Hashing`);
  theorems about what crashes leave do not.
- The analyzer's report is any function of the schedule and of the results in
  schedule order. Results arrive in any permutation of the dispatched pairs.

## Model

| member | source | states |
|---|---|---|
| `Certifying.AnchorsMissNothing` | crates/fre-aggregate/src/anchored_island.rs:284-427 | If an expression has a certificate, then in every haystack every match span is nonempty, holds no delimiter, and for some branch splits into prefix, anchor and suffix, each matched by its part of the branch; the anchor, with ASCII letters lowered, is one of the branch's words and has 2 to 64 bytes. |
| `ExactCertifying.CertifiedExactly` | crates/fre-aggregate/src/anchored_island.rs:284-362 | For counts the right way round: a certificate is given if and only if the expression has no assertion, Unicode class or empty alternation; the empty string is not in its language; some byte is in none of its literals and classes; and, among its flattened parts, there is no alternation and some segment is eligible, or the first alternation has 2 to 8 alternatives and each, put in its place, leaves an eligible segment. |
| `ExactCertifying.ProperCertifiedExactly` | crates/fre-aggregate/src/anchored_island.rs:284-362 | The same in terms of the language alone, for expressions without empty classes and idle repetitions: some byte is in none of its words. |
| `ExactCertifying.CertificateBranches` | crates/fre-aggregate/src/anchored_island.rs:310-362 | A certificate has one branch over the flattened parts, or one for each alternative of the first alternation in its place; each has an eligible anchor than which no eligible segment is wider, or as wide with fewer words. |
| `ExactCertifying.CertificateDelimiters` | crates/fre-aggregate/src/anchored_island.rs:288-300 | The delimiters of a certificate are exactly the bytes in no literal and no class; for a proper expression, exactly the bytes in none of its words. |
| `Certifying.SingleIsCertified` | crates/fre-aggregate/src/anchored_island.rs:284-362 | An expression of one part that is wide enough is its own anchor: one branch, whose words are all its words. |
| `Certifying.LiteralsAreCertified` | crates/fre-aggregate/src/anchored_island.rs:284-362 | Every ASCII literal of 2 to 64 bytes is certified, with itself, lowered, as the only word. |
| `Certifying.WordsAreAnchored` | crates/fre-aggregate/src/anchored_island.rs:284-427 | The same for every word of the expression's language, independently of a haystack. |
| `Certifying.AnchorWordsAreExact` | crates/fre-aggregate/src/anchored_island.rs:961-1025 | The words of a branch are exactly the lowered image of the language of its anchor segment: none missing, none invented; each has 2 to 64 bytes. |
| `Certifying.SegmentCensus` | crates/fre-aggregate/src/anchored_island.rs:1004-1018 | The census of the chosen segment is the exact count, total, least and greatest length of the words the branch keeps. |
| `Disorder.AnchorOrderIsExact` | crates/fre-aggregate/src/anchored_island.rs:1216-1267 | The words of a branch are in leftmost-first backtracking order if and only if every part of its anchor is ordered: each repetition that repeats at all is optional, exact, of one word or of empty words. |
| `Certifying.MatchTakesABranch` | crates/fre-aggregate/src/anchored_island.rs:310-362 | Distributing the root alternation loses no word: each word of the expression is a word of some planned branch. |
| `Hir.SpanIsLanguage` | crates/fre-aggregate/src/anchored_island.rs:1070-1187 | For expressions without assertions, matching a span of a haystack is the same as the slice being in the language, so the language semantics stands for the matcher. |
| `Words.CensusIsExact` | crates/fre-aggregate/src/anchored_island.rs:1070-1187 | Whenever the census of an expression succeeds, it describes the words the expression is materialized into. |
| `Words.ConcatCensusIsExact` | crates/fre-aggregate/src/anchored_island.rs:1104-1116 | Folding the census over a concatenation describes the cross product of the parts' words. |
| `Words.ListFactsMeaning` | crates/fre-aggregate/src/anchored_island.rs:1464-1483 | What describing means: count and total are those of the list, the least and greatest length bound every word and are attained. |
| `Words.FactsOfCross` | crates/fre-aggregate/src/anchored_island.rs:1189-1208 | The arithmetic of combining two censuses is exact for the cross product of two word lists. |
| `AnchorLanguage.WordsAreComplete` | crates/fre-aggregate/src/anchored_island.rs:1269-1354 | Every word of the language of an expression with a census is among its materialized words, lowered. |
| `AnchorLanguage.WordsAreSound` | crates/fre-aggregate/src/anchored_island.rs:1269-1354 | Every materialized word is the lowered image of some word of the language. |
| `AnchorLanguage.ClassWords` | crates/fre-aggregate/src/anchored_island.rs:1485-1500 | The words of a byte class with a census are exactly its folded members, one byte each. |
| `Hir.FoldIsCaseEquality` | crates/fre-aggregate/src/anchored_island.rs:1485-1500 | Bytes are folded alike if and only if they are the same or the two forms of one ASCII letter. |
| `ExactOrder.OrderIsExact` | crates/fre-aggregate/src/anchored_island.rs:1269-1354 | For every expression with a census: the materialized words equal the list in backtracking preference order if and only if the expression is ordered; in any case both lists have as many words and bytes. |
| `ExactOrder.RepetitionCancels` | crates/fre-aggregate/src/anchored_island.rs:1338-1346 | If a grouped repetition of one list agrees with the backtracking repetition of another list of the same size, the lists are the same. |
| `ExactOrder.CrossCancels` | crates/fre-aggregate/src/anchored_island.rs:1216-1267 | Equal products of nonempty lists of the same sizes have equal factors. |
| `WordOrder.OrderIsBacktracking` | crates/fre-aggregate/src/anchored_island.rs:1269-1354 | Every ordered expression, also one without a census, is materialized in backtracking order. |
| `WordOrder.RepetitionOrderIsExact` | crates/fre-aggregate/src/anchored_island.rs:1338-1346 | For any child words, counts and greediness: grouping a repetition's words by count gives the backtracking order if and only if the counts are exact or at most one, there is at most one word, or all words are empty. |
| `WordOrder.ClassRepetitionOrder` | crates/fre-aggregate/src/anchored_island.rs:1338-1346 | For a repeated byte class this depends only on the counts and the number of folded members. |
| `WordOrder.BacktrackingIsAsLong` | crates/fre-aggregate/src/anchored_island.rs:1338-1346 | Grouping by count neither loses nor adds a place, for any words. |
| `Disorder.CertifiedRepetitionOrder` | crates/fre-aggregate/src/anchored_island.rs:1338-1346 | A repetition that is certified as one part keeps its words in backtracking order if and only if it is ordered. |
| `Disorder.OnceOrTwiceIsOutOfOrder` | crates/fre-aggregate/src/anchored_island.rs:1338-1346 | For any two ASCII words of 2 to 32 bytes, one or two uses of either, greedy or lazy, the repetition is certified and its words are not in backtracking order. |
| `Census.FactsSane` | crates/fre-aggregate/src/anchored_island.rs:1070-1187 | A successful census is within the word, byte and length limits and internally consistent, so no later arithmetic overflows. |
| `ExactCensus.CensusSucceedsExactly` | crates/fre-aggregate/src/anchored_island.rs:1070-1187 | A census succeeds if and only if literals are ASCII of at most 64 bytes, classes are ASCII and not empty, repetitions have counts in order up to 64, there is no empty alternation, assertion or Unicode class, and the words of every concatenation, alternation and repetition are at most 4096, of at most 64 bytes each and 2^20 together. |
| `ExactCensus.EligibleExactly` | crates/fre-aggregate/src/anchored_island.rs:1027-1064 | A segment can serve as anchor if and only if it is not empty, its concatenation has a census in that sense, and each of its words has at least two bytes. |
| `Census.LanguageFacts` | crates/fre-aggregate/src/anchored_island.rs:1070-1187 | The recursive census computes the specified facts, charges exactly the specified work, and stops with a refusal exactly when that work exceeds the budget. |
| `Census.CombineFacts` | crates/fre-aggregate/src/anchored_island.rs:1189-1208 | Combining two censuses gives the product, or nothing when a limit is passed; checked arithmetic never fails on consistent facts. |
| `Census.NormalizedClass` | crates/fre-aggregate/src/anchored_island.rs:1485-1500 | Computes the folded membership table of a class, charging for each member; a non-ASCII member clears the class. |
| `Materializing.MaterializeHir` | crates/fre-aggregate/src/anchored_island.rs:1269-1354 | Given the census as its facts, materialization yields exactly the specified words in an exactly filled vector, pays exactly its cost, and never reports an internal invariant. |
| `Materializing.MaterializeParts` | crates/fre-aggregate/src/anchored_island.rs:1216-1267 | The same for a sequence of parts: the words are the cross product in order. |
| `Materializing.CrossStep` | crates/fre-aggregate/src/anchored_island.rs:1385-1436 | One concatenation step: the product of two lists replaces both, their bytes are released, the pre-paid census agrees. |
| `Materializing.EmitPower` | crates/fre-aggregate/src/anchored_island.rs:1356-1383 | Appends the prefix followed by each n-fold product of the child words; every push fits the exact capacity. |
| `Materializing.MaterializeNet` | crates/fre-aggregate/src/anchored_island.rs:1269-1354 | After materializing, exactly the bytes of the resulting words stay live: every intermediate vector has been released. |
| `Materializing.WordsFacts` | crates/fre-aggregate/src/anchored_island.rs:1464-1483 | Recomputes the facts of a list of words, charging for each byte. |
| `Materializing.ReleaseWords` | crates/fre-aggregate/src/anchored_island.rs:1457-1462 | Gives back exactly the bytes of a word vector. |
| `Consuming.ConsumableIsSound` | crates/fre-aggregate/src/anchored_island.rs:1502-1577 | No word of the expression uses a byte outside the computed set, and only a nullable expression has the empty word. |
| `Consuming.PlainIsConsumable` | crates/fre-aggregate/src/anchored_island.rs:1502-1577 | The analysis succeeds only on expressions without Unicode classes and assertions, so a certified expression has neither and its matches do not depend on what surrounds them. |
| `Consuming.ConsumableFacts` | crates/fre-aggregate/src/anchored_island.rs:1502-1577 | The metered analysis computes that set and nullability, charging exactly the specified work. |
| `ExactConsuming.AnswersAreExact` | crates/fre-aggregate/src/anchored_island.rs:1502-1577 | The analysis answers if and only if the expression has no assertion, Unicode class or alternation without alternatives. |
| `ExactConsuming.NullableIsExact` | crates/fre-aggregate/src/anchored_island.rs:1502-1577 | With counts the right way round, nullable if and only if the empty word is in the language. |
| `ExactConsuming.BytesAreExact` | crates/fre-aggregate/src/anchored_island.rs:1502-1577 | Without empty classes and idle repetitions, a byte is in the set if and only if some word of the language holds it. |
| `ExactConsuming.BytesAreWritten` | crates/fre-aggregate/src/anchored_island.rs:1502-1577 | For every answered expression, a byte is in the set if and only if it is in some literal or class. |
| `ExactConsuming.EmptyClassKeepsBytes` | crates/fre-aggregate/src/anchored_island.rs:1536-1549 | With an empty class in a concatenation the set is larger than the language: the byte of the other part stays, and there is no word. |
| `Flattening.FlattenKeepsLanguage` | crates/fre-aggregate/src/anchored_island.rs:1594-1610 | Flattening captures and nested concatenations keeps the language, in both directions. |
| `ExactCertifying.FlattenIsFlat` | crates/fre-aggregate/src/anchored_island.rs:1594-1610 | No flattened part is a capture or a concatenation. |
| `Flattening.DistributeAlternation` | crates/fre-aggregate/src/anchored_island.rs:333-362 | A word that passes through an alternation part passes through the parts of one alternative in its place. |
| `Flattening.FlattenedCount` | crates/fre-aggregate/src/anchored_island.rs:1579-1592 | Counts exactly the parts that flattening will produce. |
| `Flattening.FlattenInto` | crates/fre-aggregate/src/anchored_island.rs:1594-1610 | Appends exactly the flattened parts, within the capacity counted before. |
| `Anchoring.BestAnchorIsOptimal` | crates/fre-aggregate/src/anchored_island.rs:1027-1064 | The chosen segment is eligible; no contiguous eligible segment has a greater least width, or the same width with fewer words; ties go to the first in scan order; none is chosen only when no segment is eligible. |
| `Anchoring.LimitsAreMonotone` | crates/fre-aggregate/src/anchored_island.rs:1189-1214 | A segment within the limits has every shorter segment with the same start within them. |
| `Anchoring.BreakLosesNothing` | crates/fre-aggregate/src/anchored_island.rs:1034-1042 | Stopping the scan at the first part that is infinite or passes a limit skips no eligible segment. |
| `Anchoring.FindBestAnchor` | crates/fre-aggregate/src/anchored_island.rs:1027-1064 | The two nested loops compute the optimum and charge exactly the specified work. |
| `Metering.FitsThen` | crates/fre-aggregate/src/anchored_island.rs:204-258 | Costs compose: a sequence of two computations fits a meter exactly when each fits in its turn, and leaves the same state. |
| `Metering.CompileBudget.Charge` | crates/fre-aggregate/src/compile.rs:5533-5538 | Work is added exactly when the sum stays within the limit; otherwise a refusal and no change. |
| `Metering.CompileBudget.AcquireChecked` | crates/fre-aggregate/src/compile.rs:5802-5827 | Bytes are added to both counters exactly when both sums stay within the limit; otherwise a refusal and no change. |
| `Metering.CompileBudget.ReleaseBytes` | crates/fre-aggregate/src/compile.rs:5887-5903 | Bytes are taken from both counters exactly when both cover them. |
| `Metering.Meter.Charge` | crates/fre-aggregate/src/anchored_island.rs:215-224 | Meter and budget are charged together, or the budget refuses. |
| `Metering.Meter.Acquire` | crates/fre-aggregate/src/anchored_island.rs:226-238 | Scratch, its peak and the budget grow together exactly when the scratch and program limits allow. |
| `Metering.Meter.Release` | crates/fre-aggregate/src/anchored_island.rs:240-250 | Releases from meter and budget together; fails only on more than is held. |
| `Metering.Meter.ReleaseAll` | crates/fre-aggregate/src/anchored_island.rs:252-257 | Returns everything the transaction holds to the budget; never fails. |
| `Metering.NewExactVec` | crates/fre-aggregate/src/anchored_island.rs:1612-1629 | An exact allocation charges two plus its count, acquires its bytes, and fails otherwise only in the allocator. |
| `CertifierRun.CollectParts` | crates/fre-aggregate/src/anchored_island.rs:967-1003 | Counts, allocates and fills the parts of a branch; the recount always agrees. |
| `CertifierRun.BuildBranch` | crates/fre-aggregate/src/anchored_island.rs:961-1025 | Builds the branch of the best anchor, or none; the word census and the look at each word never disagree; exactly the branch's bytes are kept. |
| `CertifierRun.FindPlan` | crates/fre-aggregate/src/anchored_island.rs:310-325 | Finds the first root alternation; refuses one with fewer than 2 or more than 8 alternatives. |
| `CertifierRun.BuildAll` | crates/fre-aggregate/src/anchored_island.rs:333-362 | Builds every branch in order, or stops at the first without an anchor; what is held is what the branches keep. |
| `CertifierRun.TallyBranches` | crates/fre-aggregate/src/anchored_island.rs:366-408 | The retained-byte census is the sum of the slots, parts and words of all branches; pattern counts and bytes are those of the words. |
| `CertifierRun.CertifyInner` | crates/fre-aggregate/src/anchored_island.rs:284-427 | Computes the specified certificate with its accounting; the retained census equals the live scratch; the internal-invariant exits are never taken. |
| `CertifierRun.Certify` | crates/fre-aggregate/src/anchored_island.rs:260-279 | Limits only refuse: success gives the unlimited certificate and happens only if the cost fits; failure is an allocator failure, or a refusal when the cost does not fit. Live bytes grow by exactly the retained bytes of a certificate, and by nothing on every other path. |
| `CertifierRun.ReleaseCertificate` | crates/fre-aggregate/src/anchored_island.rs:112-116 | Dropping a certificate takes exactly its retained bytes off the budget. |
| `CertifierRun.CertifyThenRelease` | crates/fre-aggregate/src/anchored_island.rs:112-116 | Certifying and then releasing restores the live bytes on every path, without an accounting underflow. |
| `Crashes.CrashesChangeNothing` | scripts/benchmark-aot-direct-exists-batch.py:1330-1497 | From any record prefix of a run (also one begun by the older metadata record), through any number of launches with their own process outcomes, each cut off at any record: what is left is a record prefix of the one undisturbed run with the outcomes on record, and all of it once the log is finished. |
| `Crashes.HistoryIsThePrefixOfARun` | scripts/benchmark-aot-direct-exists-batch.py:1330-1497 | With one set of outcomes, any launches from nothing leave a prefix of the undisturbed log, and exactly that log when finished. |
| `Crashes.ResumingFinishes` | scripts/benchmark-aot-direct-exists-batch.py:1330-1497 | However a run was cut up before, each launch with its own outcomes and the log begun by either metadata record: if the run with the outcomes on record and those of one more launch completes, resuming with that launch leaves exactly its whole log, or the log as it is if an invocation on record took no time. |
| `Crashes.RefusedExactly` | scripts/benchmark-aot-direct-exists-batch.py:1026-1227 | A record prefix of a run's log is refused if and only if one of its invocations took no time, or the run ended in an error and the prefix reaches the error record or the invocation right before it; exhausted calibration has no such invocation. |
| `Crashes.ValidButRefused` | scripts/benchmark-aot-direct-exists-batch.py:990-993 | An arm is refused when it completes a disagreeing pair or pushes the iteration count out of range, although its record passes every check if it took any time. |
| `Mismatch.ValidArmEndsResumption` | scripts/benchmark-aot-direct-exists-batch.py:990-993 | A concrete run of four records: cut off after two it is resumed, after three it is refused, although the third record is a valid arm. |
| `Crashes.LogsOnlyGrow` | scripts/benchmark-aot-direct-exists-batch.py:148-186 | Every earlier log is a prefix of every later one. |
| `Crashes.PrefixesAreAccepted` | scripts/benchmark-aot-direct-exists-batch.py:1026-1227 | Every nonempty record prefix of a completing run's log, begun by either metadata record, is accepted if and only if none of its invocations took no time, and the progress returned is the runner's own: same cell, phase, iterations, ordinal, measured pairs and partial arm. |
| `Crashes.PrefixIsProgress` | scripts/benchmark-aot-direct-exists-batch.py:1026-1227 | For every run, also an aborting one, the validator's answer on each record prefix is the runner's own progress, and a refusal once the run has begun to abort or an invocation took no time. |
| `Crashes.CompletedRunIsFinished` | scripts/benchmark-aot-direct-exists-batch.py:1204-1227 | The log of a completing run is accepted as finished if and only if no invocation took no time. |
| `Crashes.RunsToTheEnd` | scripts/benchmark-aot-direct-exists-batch.py:1386-1507 | Every run terminates with its progress complete or with an error record as its last record. |
| `Crashes.AcceptanceIsExact` | scripts/benchmark-aot-direct-exists-batch.py:1026-1227 | The validator accepts a log if and only if some run may have written it before aborting with every invocation taking some time, provided each recorded output hash has an output behind it. |
| `Crashes.ReplayContinues` | scripts/benchmark-aot-direct-exists-batch.py:1356-1384 | What a run writes after accepted records is what a resumption writes from the progress they stand for. |
| `Crashes.RestIsLocal` | scripts/benchmark-aot-direct-exists-batch.py:365-457 | Each record depends only on the outcome of its own process and on earlier records. |
| `Runner.Next` | scripts/benchmark-aot-direct-exists-batch.py:496-586 | Each step emits one record or aborts; every emitted record brings the run strictly closer to its end. |
| `Runner.Runner.Invoke` | scripts/benchmark-aot-direct-exists-batch.py:365-457 | Appends the record of one process, valid or failed, and reports failure exactly when the run has to end there. |
| `Runner.Runner.RunPair` | scripts/benchmark-aot-direct-exists-batch.py:496-540 | Runs the missing arms in the predetermined order, reusing a recorded first arm; fails exactly where the specified run aborts. |
| `Runner.Runner.Calibrate` | scripts/benchmark-aot-direct-exists-batch.py:543-586 | At most 16 pairs with growing counts until both arms reach the minimum; overflow and exhaustion end the run as specified. |
| `Runner.Runner.RunCell` | scripts/benchmark-aot-direct-exists-batch.py:1387-1486 | From any stage of a cell, appends what the specified run writes up to and including the cell's summary. |
| `Runner.Runner.Run` | scripts/benchmark-aot-direct-exists-batch.py:1386-1500 | Carries any progress to the aggregate or to one last error record; the log becomes exactly the specified one. |
| `Runner.Runner.Launched` | scripts/benchmark-aot-direct-exists-batch.py:1262-1507 | One launch, fresh or resuming, leaves exactly the specified log; a refused launch leaves it untouched; status 0 means the log ends with its aggregate. |
| `Resume.ValidateResumeEvents` | scripts/benchmark-aot-direct-exists-batch.py:1026-1227 | The nested loops compute the record-by-record replay of the log; the up-front search for error records refuses nothing that replay would accept. |
| `Resume.ConsumeLoggedPair` | scripts/benchmark-aot-direct-exists-batch.py:949-993 | Reads a pair: refused, only its first arm at the end of the log, or both arms valid and in agreement, as replay has it. |
| `Resume.ReadCalibration` | scripts/benchmark-aot-direct-exists-batch.py:1055-1122 | Rebuilds iteration count and ordinal from the calibration pairs, refusing overflow and a seventeenth pair. |
| `Resume.ReadWarmups` | scripts/benchmark-aot-direct-exists-batch.py:1124-1157 | Rebuilds the number of warm-up pairs and a partial arm. |
| `Resume.ReadMeasures` | scripts/benchmark-aot-direct-exists-batch.py:1159-1193 | Rebuilds the measured pairs with their orders and a partial arm. |
| `Resume.ErrorsAreRefused` | scripts/benchmark-aot-direct-exists-batch.py:1047-1051 | A log with an error record anywhere after the first record is refused by replay itself. |
| `Resume.MetadataIsExact` | scripts/benchmark-aot-direct-exists-batch.py:1230-1252 | A first record is accepted if and only if it is the metadata of these very options, with route evidence, or without it unless one binary is compared with itself. |
| `LogShape.FinishedLogIsShaped` | scripts/benchmark-aot-direct-exists-batch.py:1055-1227 | Every log accepted as finished is its metadata, the records of every cell in order, and the aggregate; each cell has 1 to 16 calibration pairs, one calibrated record, exactly the configured warm-up and measured pairs, and the summary of those measured pairs. |
| `LogShape.TakeCalibration` | scripts/benchmark-aot-direct-exists-batch.py:1055-1122 | Every calibration pair but the last falls short of the minimum, the last reaches it, and each count follows from the pair before. |
| `LogShape.CountsDouble` | scripts/benchmark-aot-direct-exists-batch.py:559-586 | Calibration counts at least double from pair to pair and stay within the signed 64-bit range. |
| `LogShape.CountsFollowTheTarget` | scripts/benchmark-aot-direct-exists-batch.py:579-586 | In every cell of a finished log: with r the quotient of target and faster time of a calibration pair, the next count is r times as large for r from 2 to a million, twice as large below and a million times above. |
| `LogShape.CountsAimAtTheTarget` | scripts/benchmark-aot-direct-exists-batch.py:579-586 | If that quotient is rounded up and not capped, the next count at the measured speed reaches the target. |
| `LogShape.SettledCountIsFirst` | scripts/benchmark-aot-direct-exists-batch.py:572-586 | In every cell of a finished log, the count used for warm-up and measurement is the first calibration count at which both arms take the minimum time. |
| `LogShape.MeasurementsAreOnRecord` | scripts/benchmark-aot-direct-exists-batch.py:1159-1214 | The measurements behind each summary of a finished log are found in it pair by pair: at the planned positions, in the order that cell and pair number demand, each result under the side that produced it. |
| `LogShape.OrdersBalance` | scripts/benchmark-aot-direct-exists-batch.py:1159-1192 | Pairs alternate AB and BA: the order that goes first leads by one or by nothing. |
| `LogShape.PairIsTakenExactly` | scripts/benchmark-aot-direct-exists-batch.py:460-493 | A pair is taken if and only if both digests and the match counts are equal, both routes can be read, and they agree in every field but `api`, `bulk` and those expected to differ. |
| `LogShape.PairsAgree` | scripts/benchmark-aot-direct-exists-batch.py:460-493 | The arms of every pair in a finished log agree in this sense. |
| `LogShape.ArmIsTakenExactly` | scripts/benchmark-aot-direct-exists-batch.py:883-946 | A record is taken for an arm if and only if slot, side, exit status, duration, digests and every field of the result are as they have to be. |
| `LogShape.ArmsAreProper` | scripts/benchmark-aot-direct-exists-batch.py:289-340 | Both arms of every pair in a finished log ran the cell they were to run, and everything in their records is in order. |
| `ScalarSearch.ContainsWith` | crates/fre-aggregate/src/program.rs:169-193 | For sorted disjoint ranges, true exactly on members; the charge is called exactly once before each comparison, never more often than the bound, and its first error is passed on at once. |
| `ScalarSearch.BoundIsExact` | crates/fre-aggregate/src/program.rs:276-300 | For every nonempty list no scalar costs more comparisons than the bound, and some member costs exactly the bound. |
| `ScalarSearch.BoundIsWorst` | crates/fre-aggregate/src/program.rs:276-300 | The logarithmic recurrence over (n, n-1) equals the worst case of the search tree for every length; saturation never happens. |
| `ScalarSearch.WorstIsReached` | crates/fre-aggregate/src/program.rs:276-300 | In every nonempty interval of ranges some member costs the interval's worst case. |
| `Utf8.DecodeFirstIsExact` | crates/fre-aggregate/src/program.rs:853-865 | On arbitrary bytes, c is decoded at the front if and only if c is a scalar value and its UTF-8 encoding (section 3 of RFC 3629) is a prefix. |
| `Utf8.DecodeLastScalar` | crates/fre-aggregate/src/program.rs:867-876 | On arbitrary bytes, c is decoded at the end if and only if its encoding is a suffix. |
| `Utf8.EncodeIsChar` | crates/fre-aggregate/src/program.rs:853-865 | Every encoding is a well-formed character of the grammar in section 4 of RFC 3629 and decodes to its scalar. |
| `Utf8.CharIsEncoded` | crates/fre-aggregate/src/program.rs:853-865 | Every well-formed character is the encoding of the scalar it decodes to. |
| `Schedules.AcceptedIsABijection` | gates/steady-state-generalization/analyze.py:269-373 | If the checks pass, tasks correspond one-to-one with point, repetition and engine: injective, onto and in range, by pigeonhole from the counts. |
| `Schedules.FirstTasksAlternate` | gates/steady-state-generalization/analyze.py:287-333 | If the checks pass, each point and repetition has exactly one first task, and its engine differs from that of the previous repetition. |
| `Schedules.AcceptedMayCrossPairs` | gates/steady-state-generalization/analyze.py:119-132 | A concrete schedule over a steady and a session-setup point passes every schedule check although an adjacent pair runs the two different points. |
| `Campaign.CrossedPairsAreReported` | gates/steady-state-generalization/analyze.py:119-132 | A whole run over that schedule passes every modelled check of the analyzer and is reported on. |
| `Schedules.WhenPairsStayTogether` | gates/steady-state-generalization/analyze.py:119-124 | For every accepted schedule: each pair identifier names one point and repetition if and only if adjacent pairs stay on one point and repetition and no two pairs share an identifier. |
| `Analyzer.VerifyScheduleShape` | gates/steady-state-generalization/analyze.py:103-132 | The loops decide exactly the shape: canonical indices, distinct identifiers, adjacent AB/BA pairs with order markers. |
| `Analyzer.VerifyAgainstCatalog` | gates/steady-state-generalization/analyze.py:271-333 | The loops and the orientation table decide exactly the cross-product and alternation checks. |
| `Analyzer.VerifyPairs` | gates/steady-state-generalization/analyze.py:362-373 | Grouping decides exactly whether every point and repetition has both engines and the groups are as many as they should be. |
| `Analyzer.AuthenticateResults` | gates/steady-state-generalization/analyze.py:344-360 | Succeeds exactly when every task has one authentic record and there are no others; returns the results in schedule order. |
| `Analyzer.AnalyzeRun` | gates/steady-state-generalization/analyze.py:269-456 | The checks together, with positive iterations and both lanes present, give the specified report or none. |
| `Analyzer.ReportedExactly` | gates/steady-state-generalization/analyze.py:269-456 | Over an accepted schedule: a report is given if and only if the counts are those of a campaign without failures, there are as many records as tasks, every task has its record, the results agree, iterations are positive and both lanes are present; it is the report on those results. |
| `Analyzer.ReportMeansAgreement` | gates/steady-state-generalization/analyze.py:362-407 | If there is a report: all results of one point and repetition agree in meaning, on the steady lane also in checksum, and all results of one point and engine agree in meaning, checksum and plan. |
| `Analyzer.DisagreementIsRefused` | gates/steady-state-generalization/analyze.py:374-381 | Results of one point and repetition that differ in meaning, or on the steady lane in checksum, leave no report. |
| `Agreement.VerifyAgreement` | gates/steady-state-generalization/analyze.py:362-407 | The loops over the table of pairs decide exactly that agreement. |
| `Agreement.EnginesAgree` | gates/steady-state-generalization/analyze.py:374-381 | The loop over points and repetitions decides whether both engines agree on each. |
| `Agreement.RepetitionsAgree` | gates/steady-state-generalization/analyze.py:383-405 | One engine over the repetitions of a point: each of three fields has one value. |
| `Analyzer.ResultsAreABijection` | gates/steady-state-generalization/analyze.py:344-360 | Accepted records correspond one-to-one with the tasks: each task has an authentic record, each record a task, no identifier repeats. |
| `Analyzer.OrderDoesNotMatter` | gates/steady-state-generalization/analyze.py:346-451 | Any permutation of the result records gives the same analysis. |
| `Controller.BuildSchedule` | gates/steady-state-generalization/controller.py:147-218 | For any catalog, positive repetition count and seed: the schedule is the flattened seeded shuffle of all blocks, passes all the analyzer's schedule checks, and keeps adjacent pairs on one point and repetition. |
| `Controller.TasksAreDrawn` | gates/steady-state-generalization/controller.py:157-200 | Every task of the built schedule has its place and its point of the catalog; which engine starts a pair is the parity of the output drawn for the point, flipped at odd repetitions. |
| `Controller.BuiltIsAccepted` | gates/steady-state-generalization/controller.py:147-218 | Every arrangement of a full deck of blocks passes shape, cross-product, alternation and both-engine checks. |
| `Controller.DeckFromIsFull` | gates/steady-state-generalization/controller.py:155-189 | Before and after the shuffle there is exactly one block per point and repetition, with the drawn orientation flipped at odd repetitions. |
| `Shuffling.ShuffleIsPermutation` | gates/steady-state-generalization/controller.py:64-67 | The shuffle is a permutation for every generator state. |
| `Shuffling.ShuffledIsDealt` | gates/steady-state-generalization/controller.py:64-67 | The shuffle is the dealing by the generator's draws, one for each place but the first, and moves the generator by as many steps. |
| `Shuffling.DrawsAreOutputs` | gates/steady-state-generalization/controller.py:57-67 | Draw k is output k + 1 of the generator, modulo the number of places left. |
| `Shuffling.DrawnIsPlaced` | gates/steady-state-generalization/controller.py:64-67 | For any draws, the last place ends up with the element that stood at the drawn place. |
| `Shuffling.OutputIsPlaced` | gates/steady-state-generalization/controller.py:64-67 | The same for the generator: the last place takes the element at the next output modulo the number of places. |
| `Shuffling.EveryPermutationIsDealt` | gates/steady-state-generalization/controller.py:64-67 | Every permutation of any list is reached by some draws. |
| `Shuffling.DrawsAreDetermined` | gates/steady-state-generalization/controller.py:64-67 | For different elements only one list of draws reaches an order, so dealing is a bijection between draws and orders. |
| `Controller.SplitMix64.Next` | gates/steady-state-generalization/controller.py:57-62 | Moves the 64-bit state by one step with wrap-around; the output determines the new state, which undoing the mixing gives back. |
| `SplitMix.MixingIsUndone` | gates/steady-state-generalization/controller.py:60-62 | The mixing is invertible: folds and odd factors are undone one by one. |
| `SplitMix.StateIsCounted` | gates/steady-state-generalization/controller.py:57-58 | The state after n draws is the seed moved by n steps, counted in 64 bits. |
| `SplitMix.OutputsNeverRepeat` | gates/steady-state-generalization/controller.py:57-62 | From any seed, the outputs of the first 2^64 draws are all different. |
| `SplitMix.KnownOutputs` | gates/steady-state-generalization/controller.py:57-62 | The first two outputs from seed 0. |
| `Controller.SplitMix64.Shuffle` | gates/steady-state-generalization/controller.py:64-67 | The in-place swaps compute the specified shuffle and leave the generator in the specified state. |
| `Controller.TaskIdIsInjective` | gates/steady-state-generalization/controller.py:162-169 | Task identifiers determine point, repetition and engine, also past the padded width. |
| `Controller.PaddedIsWorth` | gates/steady-state-generalization/controller.py:162 | Zero-padded decimal digits are worth the number they were made from. |
| `Campaign.RunCampaign` | gates/steady-state-generalization/controller.py:431-463 | For every order in which pairs finish: refused if and only if some pair lacks an engine; otherwise recorded counts add up to the number of tasks, and the campaign is complete exactly when every task succeeded. |
| `Campaign.BuildRunAnalyze` | gates/steady-state-generalization/controller.py:388-463 | From catalog to report: for any catalog with positive iterations and both lanes, positive repetitions, seed and completion order, an honest and consistent execution of the built schedule ends in a report on every task's own result. |
| `Campaign.HonestCampaignIsAnalyzed` | gates/steady-state-generalization/analyze.py:344-456 | The same for any accepted schedule. |
| `Campaign.AnyOrderSameAnalysis` | gates/steady-state-generalization/controller.py:434-461 | Any two completion orders of the same campaign are analyzed alike. |
| `Campaign.HonestCampaignIsAnswered` | gates/steady-state-generalization/analyze.py:155-189 | When every task reports itself truthfully, the analyzer reads back each task's own report, whatever finished first. |
| `Manifest.ParseExact64Sets` | tools/ripgrep-aot-thin/build_support.rs:217-295 | Parsing is exact: the result is a list of sets if and only if the text has no CR, its data lines are in order the rows of those sets, identifiers are valid and distinct, and each set has 2 to 64 rows. |
| `Manifest.ParseIsExact` | tools/ripgrep-aot-thin/build_support.rs:217-302 | The same for the line-by-line specification of the parser. |
| `Manifest.GroupIsExact` | tools/ripgrep-aot-thin/build_support.rs:198-295 | Rows group into sets exactly when the sets are well-formed and their rows, in order, are those rows. |
| `Manifest.ParseLineIsExact` | tools/ripgrep-aot-thin/build_support.rs:231-254 | A line gives a row exactly when it is that row's four columns with a valid identifier; further tabs belong to the source. |
| `Manifest.RenderParsesBack` | tools/ripgrep-aot-thin/build_support.rs:198-302 | Any sets with CR- and LF-free sources, tabs and duplicates included, once rendered, parse back to themselves if and only if there are some, each has 2 to 64 sources, and their identifiers are different, not empty, and of ASCII letters, digits and underscores. |
| `Manifest.NotesAreIgnored` | tools/ripgrep-aot-thin/build_support.rs:217-230 | Empty lines and lines that start with a hash sign can be put before, between and after the lines of any text without changing the result. |

## Left out

- The URL certifier and its shape checks: a fixed structural checklist for one grammar.
- The 64-bit words of `ByteSet`: the certifier's byte sets are sets of bytes here, with the source's charge of four per set operation.
- Construction receipts, byte peaks of the whole compilation and other counters of the compile budget: only its work and live-byte counters with their limits are modelled.
- Unicode classes and assertions are part of the syntax tree and refused by the certifier; what an assertion means is a parameter of the semantics.
- Lazy sweep, candidate and operation modules, kernel plans and Unicode word tables: not part of this model.
- Files, `O_EXCL`, `O_APPEND`, file identities, partial records, clocks and subprocesses: records are written whole; a crash before the first record is the same as no log, although the script then finds an empty file and refuses it.
- Metadata fields that are constant text, the check of binaries before a run, and the building of the cell list from scenarios, batches and sizes: the list of cells is a parameter.
- Geometric means, bootstrap intervals, medians and percentiles: floating point; summaries stay uninterpreted.
- That a time divided by iterations is a finite floating-point number: the analyzer's check is modelled as positive iterations.
- Checksums between catalog, schedule, run and completion files, fixed flags such as `no_affinity`, and the analyzer's grouped summaries: equality checks and floating point.
- The validation of the catalog and the command lines of the controller: the schedule theorems hold for any catalog.
- The pattern manifest and the registry and binding generators of the build scripts: simpler than the set manifest, or text emission.
- Error messages and line numbers of the manifest parser: a refusal carries no text.
- ScalarSearch.ContainsWith: ranges are sorted, disjoint and nonempty, as the construction from a Unicode class delivers them; the construction is not modelled.
