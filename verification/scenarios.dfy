/** Whole jobs, from the stages' observations to the stored record. */
module Scenarios {
  import opened Options
  import opened Text
  import opened Results
  import opened Runner
  import opened Pipeline
  import opened Store

  /** The stored record of a job: grade it, then complete it. */
  function Process(s: Store, job: Job, build: Build, names: seq<string>, obs: seq<Observation>,
                   matches: Matcher, totalTimeout: nat): (s': Store)
    requires |obs| == |names|
    ensures job.key in s'.results
    ensures s'.results[job.key].success ==> build.Compiled?
  {
    Complete(s, job, Grade(build, names, obs, matches, totalTimeout))
  }

  /** Two tests, both passing: success, both times in order, and their sum. */
  lemma AllTestsPass(s: Store, job: Job, outA: seq<string>, outB: seq<string>,
                     t1: nat, t2: nat, matches: Matcher, totalTimeout: nat)
    requires matches("a", Concat(outA)) && matches("b", Concat(outB))
    ensures var obs := [Observation(true, outA, t1, false), Observation(true, outB, t2, false)];
      Process(s, job, Compiled, ["a", "b"], obs, matches, totalTimeout).results[job.key]
      == JobResult(true, [("a", Time(t1)), ("b", Time(t2))], None, None, Some(t1 + t2))
  {
    var names := ["a", "b"];
    var obs := [Observation(true, outA, t1, false), Observation(true, outB, t2, false)];
    assert Distinct(names);
    assert AllPass(names, obs, matches);
    SuccessIffAllPass(names, obs, matches, totalTimeout);
    SuccessTime(names, obs, matches, totalTimeout);
    assert SumElapsed(obs, 1) == t1;
    assert SumElapsed(obs, 2) == t1 + t2;
    assert PassedPrefix(names, obs, 2) == [("a", Time(t1)), ("b", Time(t2))];
    var r := RunTests(names, obs, matches, totalTimeout);
    assert Finalize(r) == JobResult(true, [("a", Time(t1)), ("b", Time(t2))], None, None, Some(t1 + t2));
  }

  /** The first of two tests times out under a one-second allotment: only
      that test is recorded, as `false`, with the timeout message and the
      queue advice, whatever the second test would have done. */
  lemma FirstTestTimesOut(s: Store, job: Job, first: Observation, second: Observation,
                          matches: Matcher)
    requires first.timedOut
    ensures Process(s, job, Compiled, ["a", "b"], [first, second], matches, 1000).results[job.key]
      == JobResult(false, [("a", Failed)], None,
                   Some(TimeLimitExceeded + QueueAdvice(1000)), None)
  {
    var names, obs := ["a", "b"], [first, second];
    assert FirstFailureAt(names, obs, matches, 0);
    EarlyExit(names, obs, matches, 1000, 0);
    assert PassedPrefix(names, obs, 0) == [];
  }

  /** A compile failure stores the marker-stripped compiler output and no
      per-test entries. */
  lemma CompileFails(s: Store, job: Job, compilerOutput: seq<string>,
                     names: seq<string>, obs: seq<Observation>, matches: Matcher,
                     totalTimeout: nat)
    requires |obs| == |names|
    ensures Process(s, job, CompileFailed(compilerOutput), names, obs, matches, totalTimeout)
      .results[job.key]
      == JobResult(false, [], Some(StripTag(Concat(compilerOutput))), None, None)
  {
  }

  /** The second of three tests prints output that is wrong and holds no
      marker: the first test's time, `false` for the second, nothing for
      the third, and "Wrong Answer". */
  lemma SecondTestWrong(s: Store, job: Job, first: Observation, second: Observation,
                        third: Observation, matches: Matcher, totalTimeout: nat)
    requires Passes("a", first, matches)
    requires second.exitedCleanly && !second.timedOut
    requires !matches("b", Concat(second.output)) && !Contains(Concat(second.output), Tag)
    ensures Process(s, job, Compiled, ["a", "b", "c"], [first, second, third], matches, totalTimeout)
      .results[job.key]
      == JobResult(false, [("a", Time(first.elapsedMs)), ("b", Failed)], None, Some(WrongAnswer), None)
  {
    var names, obs := ["a", "b", "c"], [first, second, third];
    assert FirstFailureAt(names, obs, matches, 1);
    EarlyExit(names, obs, matches, totalTimeout, 1);
    assert PassedPrefix(names, obs, 1) == [("a", Time(first.elapsedMs))];
  }

  /** A slower successful run after a faster one under the same name leaves
      the best time alone; a faster one replaces it. */
  lemma LeaderboardKeepsBest(s: Store, job: Job, r: JobResult, n: string)
    requires r.success && ResolveName(s.secretNames, job.secret) == Some(n)
    requires Some(n) in s.leaderboard
    ensures var best := Complete(s, job, r).leaderboard[Some(n)];
      && (SumTimes(r.results) >= s.leaderboard[Some(n)] ==> best == s.leaderboard[Some(n)])
      && (SumTimes(r.results) < s.leaderboard[Some(n)] ==> best == SumTimes(r.results))
  {
    CompleteSuccessNamed(s, job, r, n);
  }
}
