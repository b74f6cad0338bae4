# Grading decisions of the speed-demon worker

This project models the decision logic of the grading worker in
`grader/grader.js`, with the I/O taken out. The worker takes a submission
through four steps:

1. It downloads and compiles the submission. A failure in either step ends the
   job with a compile-error record.
2. It runs the submission against each test in turn, and the first test that
   fails ends the job.
3. It stores the job's record under the job key.
4. For a successful job, it updates the best-time leaderboard of the
   submitter's display name.

The model is a set of pure functions over immutable data:

- `Text`: joining output chunks, the single-pass `<error>` removal
  (`replace(/<error>/g, "")`), and the truncation of crash output to 50 chunks
  of 90 characters.
- `Results`: the stored record `{success, results, compileError?,
  runtimeError?, time?}`. The per-test `results` object is an association list
  in insertion order, with JavaScript assignment semantics (`Put`). The total
  time is the left fold `Object.values(..).reduce` does.
- `Runner`: the per-test loop of `runTestCase`. It is a state machine that
  goes from running test `i` to running test `i + 1`, or ends in a record. The
  input for each test is one `Observation`:
  - whether awaiting the process exit resolved or rejected;
  - the output chunks;
  - the elapsed milliseconds;
  - whether the watchdog had fired.

  `Passes`, `PassedPrefix` and `FirstFailureAt` describe a run independently
  of the loop, and the lemmas tie the two together.
- `Pipeline`: `processTestCase`'s download and compile failure branches and
  `error`. `Build` is the observed outcome of the stages before the tests.
- `Store`: `complete`. It acts on three maps: records by job key, display name
  by secret, and best time by display name. A name the secret does not resolve
  to is `None`, which stands for the `null` the code writes.
- `Scenarios`: whole jobs (`Process` = grade, then complete), with four
  end-to-end cases and a leaderboard example.

The allotment `totalTimeout` is an input, because it is computed by
`getExecutionTimeAllotment` in `grader/utils`, which is not part of this model.
`MaxTotalExecution` is the 120000 ms of `constants.js:31`.

Points where the code does less than its own comments or the obvious
reading suggest:

- The comment at grader/grader.js:164-165 says crash output is truncated in
  both the number of lines and the length of each line. The code applies three
  different treatments to failure output:
  - Crash output is cut to 50 *chunks* of 90 characters, and the marker is not
    removed. Every line stays within 90 characters (`Text.CrashText`).
    A chunk may hold many lines, so the line count is not bounded by 50.
  - Wrong output that holds the marker has the marker removed and is not
    truncated at all (`Runner.WrongOutputNotTruncated`).
  - Compiler output has the marker removed and is not truncated.
- The removal is a single pass. Its result can still hold the marker
  (`Text.StrippedTextMayHoldTag`).
- When the secret has no registered name, the code does not refuse the
  write: it still writes the `null` name into the secret map and the
  leaderboard. The model writes `None` (`Store.CompleteSuccessUnnamed`), and the
  `None` score is overwritten, not minimised. Best times never get worse only
  for resolved names (`Store.BestTimesNeverRegress`).

## Model

| member | source | states |
|---|---|---|
| `Text.StripTagKeepsTagFree` | grader/grader.js:182-186 | output without the `<error>` marker passes through the removal unchanged |
| `Text.StripTagShortens` | grader/grader.js:182-184 | output holding the marker loses at least one whole occurrence of it |
| `Text.StripTagIdentityIff` | grader/grader.js:182-184 | the removal changes the text if and only if the text holds the marker |
| `Text.StripTagSplice` | grader/grader.js:184 | a marker between two texts is always removed, and each side is stripped as if alone |
| `Text.StripTagUndoesJoin` | grader/grader.js:104-106 | round trip: marker-free pieces joined around markers strip back to the pieces run together |
| `Text.StrippedTextMayHoldTag` | grader/grader.js:184 | the single pass can splice a new marker: `<err<error>or>` strips to `<error>` |
| `Text.TruncateChunks` | grader/grader.js:166-169 | keeps the first min(n, 50) chunks, each cut to a prefix of min(len, 90) characters |
| `Text.CrashText` | grader/grader.js:166-170 | the crash message is at most 50 * 90 + 49 characters, and no newline-free stretch of it exceeds 90 characters |
| `Text.Join` | grader/grader.js:170 | `join(sep)` starts with the first piece and is empty for no pieces; its length is fixed by `Text.JoinTotalLength` |
| `Text.JoinTotalLength` | grader/grader.js:170 | a join's length is the pieces' total length plus one separator between each pair of neighbours |
| `Text.Concat` | grader/grader.js:105 | `join("")` starts with the first piece and its length is the pieces' total length; `Text.ConcatAppend` fixes its contents |
| `Text.ConcatAppend` | grader/grader.js:175 | running pieces together splits over any split of the pieces: `Concat(a + b) == Concat(a) + Concat(b)`, so the result is exactly the pieces' characters in order |
| `Text.StripTag` | grader/grader.js:184 | `replace(/<error>/g, "")` never lengthens the text; with `Text.StripTagKeepsTagFree` (marker-free text is kept) and `Text.StripTagSplice` (each marker is cut out, both sides stripped alone) it is pinned down without reference to its definition |
| `Text.CrashTextKeepsShortChunk` | grader/grader.js:166-170 | crash output is not stripped: a short chunk, marker or not, is recorded verbatim |
| `Results.Put` | grader/grader.js:152 | assigning a test's entry: that key reads the new value, other keys are unchanged, and a new key is appended |
| `Results.SumTimes` | grader/grader.js:197-200 | the `reduce` total is at least every entry's time and is zero when every entry is `false` |
| `Results.Finalize` | grader/grader.js:196-201 | a successful record gains `time` equal to the sum of its entries; a failed record is stored unchanged and has no time |
| `Runner.QueueAdvice` | grader/grader.js:156-159 | the advice starts on a new line and closes with the sentence suggesting a later submission |
| `Runner.TimeoutMessage` | grader/grader.js:153-160 | begins with "Time Limit Exceeded."; it is exactly that text when the allotment is at least the 120000 ms maximum |
| `Runner.Classify` | grader/grader.js:143-189 | a test yields its elapsed time exactly when it exited cleanly, before the watchdog, with matching output |
| `Runner.RunFrom` | grader/grader.js:130-190 | every key recorded before step `i` is still recorded, no compile error or time is set, and success holds exactly when no runtime error is set |
| `Runner.RunTests` | grader/grader.js:118-193 | the run's record has no compile error or time, and succeeds exactly when it has no runtime error |
| `Runner.RunTestCases` | grader/grader.js:118-193 | the `for` loop with early return computes the same record as the state machine |
| `Runner.RunFromSpec` | grader/grader.js:130-191 | from any point where the earlier tests passed: success iff all pass; the first failure fixes the entries and the message |
| `Runner.SuccessIffAllPass` | grader/grader.js:177-179 | `success` holds exactly when every test passes; then every test is recorded, in order, with its measured time |
| `Runner.EarlyExit` | grader/grader.js:130-189 | at the first failure `i`: entries hold the earlier tests' times, then `false` for `i`, nothing for later tests, and `i`'s message |
| `Runner.NoLaterTestAttempted` | grader/grader.js:172-188 | after a failing test, the later tests' observations do not affect the record |
| `Runner.SuccessTime` | grader/grader.js:196-201 | on success the stored `time` is the sum of all tests' measured times |
| `Runner.TimeoutOverride` | grader/grader.js:146-160 | a test seen after the watchdog fired fails with the timeout message even if it exited cleanly; the advice is appended iff the allotment is below the maximum |
| `Runner.CrashTruncated` | grader/grader.js:164-170 | an unclean exit before the deadline records at most 50 chunk prefixes of at most 90 characters, joined with newlines, bounded in length and line width |
| `Runner.WrongOutput` | grader/grader.js:180-187 | a clean, mismatching output records the stripped output (strictly shorter) when it holds the marker, and "Wrong Answer" otherwise |
| `Runner.WrongOutputNotTruncated` | grader/grader.js:182-184 | output of the form marker + marker-free text is recorded as that text, however long |
| `Runner.WatchdogEndsRun` | grader/grader.js:143-160 | a job whose watchdog fired during some test never succeeds; if the earlier tests passed, its error is the timeout message |
| `Pipeline.ErrorResult` | grader/grader.js:113-116 | a failed record with no entries and the given compile error |
| `Pipeline.Grade` | grader/grader.js:69-110 | a download failure records "Download Error", a compile failure records the stripped compiler output, both with no entries; only a compiled job runs tests |
| `Pipeline.PreRunFailureRunsNoTest` | grader/grader.js:91-108 | a job failing before its tests gets the same record whatever the tests, observations and allotment |
| `Pipeline.CompileErrorKeepsText` | grader/grader.js:102-107 | compiler output is kept whole, not truncated: marker-free pieces joined around markers come back run together |
| `Store.ResolveName` | grader/grader.js:210 | the `hget` answer: a name only when the secret is registered with that name, `None` for an unregistered secret |
| `Store.NewBest` | grader/grader.js:213-221 | with a resolved name and an earlier score, the lower of that score and the new time (ties keep the earlier score); otherwise the new time |
| `Store.Complete` | grader/grader.js:195-230 | the record is overwritten at the job key only; a failure leaves names and leaderboard alone; registered names and named best times never get worse |
| `Store.CompleteSuccessNamed` | grader/grader.js:208-227 | for a resolved name, the score becomes min(prior, time), or time if there was none; other scores and the name map are unchanged |
| `Store.CompleteSuccessUnnamed` | grader/grader.js:210-227 | for an unresolved secret, `None` is registered and the `None` score is overwritten with the time |
| `Store.BestTimesNeverRegress` | grader/grader.js:213-227 | over any history of jobs, a named best time never increases and a registered name never changes |
| `Store.LastRecordWins` | grader/grader.js:204-206 | the stored record for a key is the last one completed for that key |
| `Store.CompleteAll` | grader/grader.js:44-54 | the worker completes queued jobs one at a time: every completed job leaves a record under its key, earlier keys stay, and no other key appears |
| `Scenarios.Process` | grader/grader.js:57-111 | every job leaves a record under its key, and only a compiled job can succeed |
| `Scenarios.AllTestsPass` | grader/grader.js:177-201 | two passing tests store `{success: true, results: {a: t1, b: t2}, time: t1 + t2}` |
| `Scenarios.FirstTestTimesOut` | grader/grader.js:146-160 | a timeout on the first of two tests under a 1000 ms allotment stores `{a: false}` with the timeout message and the advice |
| `Scenarios.CompileFails` | grader/grader.js:102-116 | a compile failure stores no entries and the stripped compiler output |
| `Scenarios.SecondTestWrong` | grader/grader.js:177-188 | a marker-free wrong output on test 2 of 3 stores `{a: t1, b: false}` and "Wrong Answer" |
| `Scenarios.LeaderboardKeepsBest` | grader/grader.js:213-221 | a slower run keeps the recorded best time, a faster one replaces it |

## Left out

- The Redis client, the pub/sub wait and the retry after losing the `lpop` race (`listen`, `messagePromise`, grader/grader.js:12-63). These are I/O and blocking waits. The model handles one dequeued job at a time, and `Store.CompleteAll` is a sequence of such jobs.
- The `wget`, `unzip`, `mkdir` and `docker` processes (grader/grader.js:71-101, 131-141). Their outcomes enter the model as a `Build` value and one `Observation` per test. `getDockerCommand` and `getExecutionTimeAllotment` in `grader/utils` are not part of this model, so the allotment is the `totalTimeout` parameter.
- The `setTimeout` watchdog and `Date.now`. These are concurrency and wall-clock time. Each test carries its observed `timedOut` flag and its elapsed milliseconds. Each test's decision reads only its own flag, so no proof needs the flag to be monotone.
- The comparison of output with expected output. In the code it is loose equality against a `Number` parsed from the `.out` file, which involves coercion and float parsing. It is the uninterpreted `Matcher` parameter.
- `parseFloat` on leaderboard scores. Scores and times are naturals.
- Runner.QueueAdvice: the allotment is taken to be a whole number of milliseconds (`nat`). In the code it is a JavaScript number from `getExecutionTimeAllotment`, and nothing makes it whole. The advice prints `totalTimeout / 1000` at full precision, so a fractional allotment cannot be represented. For a whole allotment, `SecondsText` writes the exact decimal value, without checking it against JavaScript's number-to-string conversion.
- Text.TruncateChunks: counts characters as Unicode scalar values (Dafny's `char`), not UTF-16 code units as `substring(0, 90)` does. A chunk of 60 characters outside the Basic Multilingual Plane, such as emoji, is 120 code units. The code keeps 45 of them and the model keeps all 60. The same applies to the 90-character width in `Text.CrashText` and to the lengths in `Text.StripTag`'s lemmas.
- node_redis turns a `null` argument into a string when it is stored. The model does not; a stored `None` reads back as `None`.
- A failure to construct the compile command before the process exists. In that case the catch block reads output from an undefined process and throws out of the worker. The code that could fail lives in `grader/utils`.
- The store writes run in parallel (`Promise.all`), including the `zrem` and `zadd` pair. The model applies them as one atomic update.
- Test-corpus loading in `constants.js` (directory and file I/O), JSON serialization and logging.
- Runner.SuccessIffAllPass: requires the test names to be distinct, as `Object.keys` guarantees; with repeated names an assignment would overwrite an earlier entry.
- Runner.EarlyExit: requires the test names to be distinct, as `Object.keys` guarantees; with repeated names an assignment would overwrite an earlier entry.
- Runner.RunFromSpec: requires the test names to be distinct, as `Object.keys` guarantees; with repeated names an assignment would overwrite an earlier entry.
- Runner.SuccessTime: requires the test names to be distinct, as `Object.keys` guarantees; with repeated names an assignment would overwrite an earlier entry.
- Runner.WatchdogEndsRun: requires the test names to be distinct, as `Object.keys` guarantees; with repeated names an assignment would overwrite an earlier entry.
- Runner.RunFrom: its contract says only that recorded keys are kept; the full description of the record is in `Runner.RunFromSpec`.
