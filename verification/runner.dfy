/** The per-test loop of `runTestCase`: tests run in order, each passing
    test records its time, and the first test that crashes, times out or
    prints the wrong output ends the run. */
module Runner {
  import opened Options
  import opened Text
  import opened Results

  /** What the worker saw of one test's process: whether awaiting its exit
      resolved (a clean exit) or rejected, its output chunks, the
      milliseconds between launch and exit, and whether the job's watchdog
      had fired by the time the exit was seen. */
  datatype Observation = Observation(
    exitedCleanly: bool,
    output: seq<string>,
    elapsedMs: nat,
    timedOut: bool)

  /** Whether a test's output is the expected output for that test. The
      comparison itself (a loose equality against a parsed number) is not
      modelled. */
  type Matcher = (string, string) -> bool

  /** The largest total allotment; a smaller one earns the queue advice. */
  const MaxTotalExecution: nat := 120000

  const TimeLimitExceeded: string := "Time Limit Exceeded."
  const WrongAnswer: string := "Wrong Answer"

  function DigitChar(d: nat): char
    requires d < 10
  {
    "0123456789"[d]
  }

  function NatText(n: nat): string
    decreases n
  {
    if n < 10 then [DigitChar(n)] else NatText(n / 10) + [DigitChar(n % 10)]
  }

  /** `totalTimeout / 1000` as decimal text, without trailing zeros. */
  function SecondsText(ms: nat): string
  {
    var whole, frac := NatText(ms / 1000), ms % 1000;
    if frac == 0 then whole
    else if frac % 100 == 0 then whole + "." + [DigitChar(frac / 100)]
    else if frac % 10 == 0 then whole + "." + [DigitChar(frac / 100), DigitChar(frac / 10 % 10)]
    else whole + "." + [DigitChar(frac / 100), DigitChar(frac / 10 % 10), DigitChar(frac % 10)]
  }

  /** The sentence the advice closes with. */
  const RetryAdvice: string :=
    "If you need more time, try submitting when there are fewer submissions in the queue."

  /** The advice appended when the job was given less than the largest
      allotment because of the queue's length: it starts on a new line and
      closes with the retry sentence. */
  function QueueAdvice(totalTimeout: nat): (a: string)
    ensures |a| > |RetryAdvice| && a[0] == '\n'
    ensures a[|a| - |RetryAdvice|..] == RetryAdvice
  {
    var head := "\nYour submission was given a " + SecondsText(totalTimeout)
      + "s to finish all test cases, based on the size of the current queue.\n";
    assert (head + RetryAdvice)[|head|..] == RetryAdvice;
    head + RetryAdvice
  }

  /** The runtime error of a timed-out test. */
  function TimeoutMessage(totalTimeout: nat): (m: string)
    ensures TimeLimitExceeded <= m
    ensures m == TimeLimitExceeded <==> totalTimeout >= MaxTotalExecution
  {
    if totalTimeout < MaxTotalExecution then TimeLimitExceeded + QueueAdvice(totalTimeout)
    else TimeLimitExceeded
  }

  /** A test passes when its process exited cleanly, before the watchdog
      fired, with the expected output. */
  predicate Passes(name: string, o: Observation, matches: Matcher)
  {
    o.exitedCleanly && !o.timedOut && matches(name, Concat(o.output))
  }

  datatype Verdict = Pass(ms: nat) | Fail(message: string)

  /** The decision taken once a test's process exit is seen. A rejected exit
      and a clean exit after the watchdog fired both land in the failure
      branch, where the watchdog flag decides between the timeout message
      and the truncated crash output. A clean, in-time exit is compared
      with the expected output; a mismatch records the output with the
      marker removed when the output holds the marker, and "Wrong Answer"
      otherwise. */
  function Classify(name: string, o: Observation, matches: Matcher, totalTimeout: nat): (v: Verdict)
    ensures v.Pass? <==> Passes(name, o, matches)
    ensures v.Pass? ==> v.ms == o.elapsedMs
  {
    if !o.exitedCleanly || o.timedOut then
      if o.timedOut then Fail(TimeoutMessage(totalTimeout))
      else Fail(CrashText(o.output))
    else
      var out := Concat(o.output);
      if matches(name, out) then Pass(o.elapsedMs)
      else if Contains(out, Tag) then Fail(StripTag(out))
      else Fail(WrongAnswer)
  }

  /** The state machine: running test `i` with the record `acc` built so far. */
  function RunFrom(names: seq<string>, obs: seq<Observation>, matches: Matcher,
                   totalTimeout: nat, i: nat, acc: Fields): (r: JobResult)
    requires |obs| == |names| && i <= |names|
    ensures forall k :: Lookup(acc, k).Some? ==> Lookup(r.results, k).Some?
    ensures r.compileError.None? && r.time.None?
    ensures r.success <==> r.runtimeError.None?
    decreases |names| - i
  {
    if i == |names| then JobResult(true, acc, None, None, None)
    else match Classify(names[i], obs[i], matches, totalTimeout)
      case Pass(ms) =>
        RunFrom(names, obs, matches, totalTimeout, i + 1, Put(acc, names[i], Time(ms)))
      case Fail(message) =>
        JobResult(false, Put(acc, names[i], Failed), None, Some(message), None)
  }

  /** `runTestCase`: the whole run, before `complete` adds the total time. */
  function RunTests(names: seq<string>, obs: seq<Observation>, matches: Matcher,
                    totalTimeout: nat): (r: JobResult)
    requires |obs| == |names|
    ensures r.compileError.None? && r.time.None?
    ensures r.success <==> r.runtimeError.None?
  {
    RunFrom(names, obs, matches, totalTimeout, 0, [])
  }

  /** The loop of `runTestCase` as written: a `for` over the test names
      with an early return on the first failing test. */
  method RunTestCases(names: seq<string>, obs: seq<Observation>, matches: Matcher,
                      totalTimeout: nat) returns (r: JobResult)
    requires |obs| == |names|
    ensures r == RunTests(names, obs, matches, totalTimeout)
  {
    var results: Fields := [];
    var i := 0;
    while i < |names|
      invariant 0 <= i <= |names|
      invariant RunFrom(names, obs, matches, totalTimeout, i, results)
                == RunTests(names, obs, matches, totalTimeout)
    {
      var verdict := Classify(names[i], obs[i], matches, totalTimeout);
      if verdict.Fail? {
        results := Put(results, names[i], Failed);
        return JobResult(false, results, None, Some(verdict.message), None);
      }
      results := Put(results, names[i], Time(verdict.ms));
      i := i + 1;
    }
    r := JobResult(true, results, None, None, None);
  }

  // ---------------------------------------------------------------------
  // Reference description of a run
  // ---------------------------------------------------------------------

  /** Test names come from `Object.keys`, so no name repeats. */
  predicate Distinct(names: seq<string>)
  {
    forall i, j :: 0 <= i < j < |names| ==> names[i] != names[j]
  }

  /** The record after the first `n` tests passed: each name with its time. */
  function PassedPrefix(names: seq<string>, obs: seq<Observation>, n: nat): Fields
    requires n <= |names| && n <= |obs|
  {
    seq(n, k requires 0 <= k < n => (names[k], Time(obs[k].elapsedMs)))
  }

  predicate AllPass(names: seq<string>, obs: seq<Observation>, matches: Matcher)
    requires |obs| == |names|
  {
    forall k :: 0 <= k < |names| ==> Passes(names[k], obs[k], matches)
  }

  /** Test `i` is the first one that does not pass. */
  predicate FirstFailureAt(names: seq<string>, obs: seq<Observation>, matches: Matcher, i: nat)
    requires |obs| == |names|
  {
    && i < |names|
    && !Passes(names[i], obs[i], matches)
    && forall k :: 0 <= k < i ==> Passes(names[k], obs[k], matches)
  }

  /** Sum of the measured times of the first `n` tests, in order. */
  function SumElapsed(obs: seq<Observation>, n: nat): nat
    requires n <= |obs|
  {
    if n == 0 then 0 else SumElapsed(obs, n - 1) + obs[n - 1].elapsedMs
  }

  lemma PutExtendsPassedPrefix(names: seq<string>, obs: seq<Observation>, i: nat, e: Entry)
    requires Distinct(names) && |obs| == |names| && i < |names|
    ensures Put(PassedPrefix(names, obs, i), names[i], e)
            == PassedPrefix(names, obs, i) + [(names[i], e)]
  {
    LookupAbsent(PassedPrefix(names, obs, i), names[i]);
  }

  /** The run from test `i`, once tests `0..i` have passed, against the
      reference description. */
  lemma {:induction false} RunFromSpec(names: seq<string>, obs: seq<Observation>,
                                       matches: Matcher, totalTimeout: nat, i: nat)
    requires Distinct(names) && |obs| == |names| && i <= |names|
    requires forall k :: 0 <= k < i ==> Passes(names[k], obs[k], matches)
    ensures var r := RunFrom(names, obs, matches, totalTimeout, i, PassedPrefix(names, obs, i));
      && (r.success <==> AllPass(names, obs, matches))
      && (r.success ==> r.results == PassedPrefix(names, obs, |names|))
      && forall j :: i <= j && FirstFailureAt(names, obs, matches, j) ==>
           && r.results == PassedPrefix(names, obs, j) + [(names[j], Failed)]
           && r.runtimeError == Some(Classify(names[j], obs[j], matches, totalTimeout).message)
    decreases |names| - i
  {
    if i == |names| {
      assert PassedPrefix(names, obs, i) == PassedPrefix(names, obs, |names|);
    } else {
      var acc := PassedPrefix(names, obs, i);
      var r := RunFrom(names, obs, matches, totalTimeout, i, acc);
      match Classify(names[i], obs[i], matches, totalTimeout)
      case Pass(ms) =>
        PutExtendsPassedPrefix(names, obs, i, Time(ms));
        assert acc + [(names[i], Time(ms))] == PassedPrefix(names, obs, i + 1);
        assert r == RunFrom(names, obs, matches, totalTimeout, i + 1, PassedPrefix(names, obs, i + 1));
        RunFromSpec(names, obs, matches, totalTimeout, i + 1);
        forall j | i <= j && FirstFailureAt(names, obs, matches, j)
          ensures i + 1 <= j
        {
        }
      case Fail(message) =>
        PutExtendsPassedPrefix(names, obs, i, Failed);
        assert r == JobResult(false, acc + [(names[i], Failed)], None, Some(message), None);
        assert !AllPass(names, obs, matches);
        forall j | i <= j && FirstFailureAt(names, obs, matches, j)
          ensures j == i
        {
        }
    }
  }

  /** The job succeeds exactly when every test passes, and then the record
      holds every test, in order, with its measured time. */
  lemma SuccessIffAllPass(names: seq<string>, obs: seq<Observation>,
                          matches: Matcher, totalTimeout: nat)
    requires Distinct(names) && |obs| == |names|
    ensures var r := RunTests(names, obs, matches, totalTimeout);
      && (r.success <==> AllPass(names, obs, matches))
      && (r.success ==> r.results == PassedPrefix(names, obs, |names|))
  {
    assert PassedPrefix(names, obs, 0) == [];
    RunFromSpec(names, obs, matches, totalTimeout, 0);
  }

  /** Early exit: when test `i` is the first to fail, the record holds the
      times of the tests before it, `false` for it, nothing for any later
      test, and the failure's message. */
  lemma EarlyExit(names: seq<string>, obs: seq<Observation>,
                  matches: Matcher, totalTimeout: nat, i: nat)
    requires Distinct(names) && |obs| == |names|
    requires FirstFailureAt(names, obs, matches, i)
    ensures var r := RunTests(names, obs, matches, totalTimeout);
      && !r.success
      && r.results == PassedPrefix(names, obs, i) + [(names[i], Failed)]
      && r.runtimeError == Some(Classify(names[i], obs[i], matches, totalTimeout).message)
      && forall k :: i < k < |names| ==> Lookup(r.results, names[k]).None?
  {
    assert PassedPrefix(names, obs, 0) == [];
    RunFromSpec(names, obs, matches, totalTimeout, 0);
    LaterNamesAbsent(names, obs, i);
  }

  lemma LaterNamesAbsent(names: seq<string>, obs: seq<Observation>, i: nat)
    requires Distinct(names) && |obs| == |names| && i < |names|
    ensures forall k :: i < k < |names| ==>
              Lookup(PassedPrefix(names, obs, i) + [(names[i], Failed)], names[k]).None?
  {
    var f := PassedPrefix(names, obs, i) + [(names[i], Failed)];
    forall k | i < k < |names|
      ensures Lookup(f, names[k]).None?
    {
      forall j | 0 <= j < |f|
        ensures f[j].0 != names[k]
      {
        assert f[j].0 == names[j];
      }
      LookupAbsent(f, names[k]);
    }
  }

  lemma {:induction false} RunFromIgnoresLaterObservations(
    names: seq<string>, obs: seq<Observation>, obs': seq<Observation>,
    matches: Matcher, totalTimeout: nat, i: nat, j: nat, acc: Fields)
    requires |obs| == |names| && |obs'| == |names|
    requires j <= i < |names| && !Passes(names[i], obs[i], matches)
    requires obs[..i + 1] == obs'[..i + 1]
    ensures RunFrom(names, obs, matches, totalTimeout, j, acc)
            == RunFrom(names, obs', matches, totalTimeout, j, acc)
    decreases i - j
  {
    assert obs[j] == obs[..i + 1][j] == obs'[..i + 1][j] == obs'[j];
    match Classify(names[j], obs[j], matches, totalTimeout)
    case Pass(ms) =>
      RunFromIgnoresLaterObservations(names, obs, obs', matches, totalTimeout,
                                      i, j + 1, Put(acc, names[j], Time(ms)));
    case Fail(_) =>
  }

  /** No test after a failing one is attempted: what later tests would have
      done has no bearing on the result. */
  lemma NoLaterTestAttempted(names: seq<string>, obs: seq<Observation>, obs': seq<Observation>,
                             matches: Matcher, totalTimeout: nat, i: nat)
    requires |obs| == |names| && |obs'| == |names|
    requires i < |names| && !Passes(names[i], obs[i], matches)
    requires obs[..i + 1] == obs'[..i + 1]
    ensures RunTests(names, obs, matches, totalTimeout) == RunTests(names, obs', matches, totalTimeout)
  {
    RunFromIgnoresLaterObservations(names, obs, obs', matches, totalTimeout, i, 0, []);
  }

  lemma {:induction false} SumPassedPrefix(names: seq<string>, obs: seq<Observation>, n: nat)
    requires n <= |names| && |obs| == |names|
    ensures SumTimes(PassedPrefix(names, obs, n)) == SumElapsed(obs, n)
  {
    if n > 0 {
      assert PassedPrefix(names, obs, n)[..n - 1] == PassedPrefix(names, obs, n - 1);
      SumPassedPrefix(names, obs, n - 1);
    }
  }

  /** On success the total time `complete` stores is the sum of every
      test's measured time. */
  lemma SuccessTime(names: seq<string>, obs: seq<Observation>,
                    matches: Matcher, totalTimeout: nat)
    requires Distinct(names) && |obs| == |names| && AllPass(names, obs, matches)
    ensures Finalize(RunTests(names, obs, matches, totalTimeout)).time == Some(SumElapsed(obs, |names|))
  {
    SuccessIffAllPass(names, obs, matches, totalTimeout);
    SumPassedPrefix(names, obs, |names|);
  }

  // ---------------------------------------------------------------------
  // The failure messages
  // ---------------------------------------------------------------------

  /** Timeout override: once the watchdog has fired, the test fails with the
      timeout message even when its process exited cleanly with the
      expected output; the queue advice is appended exactly when the
      allotment was below the largest one. */
  lemma TimeoutOverride(name: string, o: Observation, matches: Matcher, totalTimeout: nat)
    requires o.timedOut
    ensures var v := Classify(name, o, matches, totalTimeout);
      && v.Fail?
      && TimeLimitExceeded <= v.message
      && (v.message == TimeLimitExceeded + QueueAdvice(totalTimeout) <==> totalTimeout < MaxTotalExecution)
      && (v.message == TimeLimitExceeded <==> totalTimeout >= MaxTotalExecution)
  {
  }

  /** Crash truncation: a test whose process exits uncleanly before the
      watchdog fires records the first 50 output chunks, each cut to a
      prefix of at most 90 characters, joined with newlines. */
  lemma CrashTruncated(name: string, o: Observation, matches: Matcher, totalTimeout: nat)
    requires !o.exitedCleanly && !o.timedOut
    ensures var v := Classify(name, o, matches, totalTimeout);
      && v.Fail?
      && (exists lines ::
            && v.message == Join(lines, "\n")
            && |lines| == Min(|o.output|, MaxCrashChunks)
            && forall k :: 0 <= k < |lines| ==>
                 lines[k] <= o.output[k] && |lines[k]| == Min(|o.output[k]|, MaxChunkWidth))
      && |v.message| <= MaxCrashChunks * MaxChunkWidth + MaxCrashChunks - 1
      && LinesAtMost(v.message, MaxChunkWidth)
  {
    var lines := TruncateChunks(o.output);
    assert Classify(name, o, matches, totalTimeout).message == Join(lines, "\n");
  }

  /** Wrong output: output holding the marker is recorded with every
      occurrence the single pass meets removed, strictly shorter than the
      output but not truncated; other output records "Wrong Answer". */
  lemma WrongOutput(name: string, o: Observation, matches: Matcher, totalTimeout: nat)
    requires o.exitedCleanly && !o.timedOut && !matches(name, Concat(o.output))
    ensures var v := Classify(name, o, matches, totalTimeout);
      var out := Concat(o.output);
      && v.Fail?
      && (Contains(out, Tag) ==> v.message == StripTag(out) && |v.message| + |Tag| <= |out|)
      && (!Contains(out, Tag) ==> v.message == WrongAnswer)
  {
    if Contains(Concat(o.output), Tag) {
      StripTagShortens(Concat(o.output));
    }
  }

  /** The wrong-output path bounds nothing: a marker followed by any
      marker-free text, however long, is recorded as that text. */
  lemma WrongOutputNotTruncated(name: string, o: Observation, matches: Matcher,
                                totalTimeout: nat, body: string)
    requires o.exitedCleanly && !o.timedOut && o.output == [Tag + body]
    requires !matches(name, Tag + body) && !Contains(body, Tag)
    ensures Classify(name, o, matches, totalTimeout) == Fail(body)
  {
    assert Concat(o.output) == Tag + body;
    assert OccursAt(Tag + body, Tag, 0);
    assert (Tag + body)[|Tag|..] == body;
    StripTagKeepsTagFree(body);
  }

  /** A job during whose test `j` the watchdog fired never succeeds; when
      every earlier test passed, its error is the timeout message. */
  lemma WatchdogEndsRun(names: seq<string>, obs: seq<Observation>,
                        matches: Matcher, totalTimeout: nat, j: nat)
    requires Distinct(names) && |obs| == |names|
    requires j < |names| && obs[j].timedOut
    ensures !RunTests(names, obs, matches, totalTimeout).success
    ensures (forall k :: 0 <= k < j ==> Passes(names[k], obs[k], matches)) ==>
              RunTests(names, obs, matches, totalTimeout).runtimeError == Some(TimeoutMessage(totalTimeout))
  {
    SuccessIffAllPass(names, obs, matches, totalTimeout);
    if forall k :: 0 <= k < j ==> Passes(names[k], obs[k], matches) {
      EarlyExit(names, obs, matches, totalTimeout, j);
    }
  }
}
