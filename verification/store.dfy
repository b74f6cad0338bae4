/** `complete`: storing a job's record and, for a successful job, updating
    the best-time leaderboard. The store is three maps: records by job key,
    display name by secret, and best time by display name. A name that the
    secret does not resolve to is `None` (the `null` the code still
    writes). */
module Store {
  import opened Options
  import opened Results
  import Pipeline
  import Text

  datatype Store = Store(
    results: map<string, JobResult>,
    secretNames: map<string, Option<string>>,
    leaderboard: map<Option<string>, nat>)

  /** `hget(secretsNamesKey, secret)`: absent and stored `null` both read as `None`. */
  function ResolveName(secretNames: map<string, Option<string>>, secret: string): (name: Option<string>)
    ensures name.Some? ==> secret in secretNames && secretNames[secret] == name
    ensures secret in secretNames && secretNames[secret].Some? ==> name == secretNames[secret]
    ensures secret !in secretNames ==> name == None
  {
    if secret in secretNames then secretNames[secret] else None
  }

  /** The score a successful run leaves on the leaderboard for `name`: with
      a resolved name and an earlier score, the earlier score unless the new
      time is strictly lower; otherwise the new time. */
  function NewBest(leaderboard: map<Option<string>, nat>, name: Option<string>, time: nat): (b: nat)
    ensures name.Some? && name in leaderboard ==>
              b <= leaderboard[name] && b <= time && (b == time || b == leaderboard[name])
    ensures !(name.Some? && name in leaderboard) ==> b == time
  {
    if name.Some? && name in leaderboard then
      var prior := leaderboard[name];
      if time < prior then time else prior
    else time
  }

  function Complete(s: Store, job: Pipeline.Job, r: JobResult): (s': Store)
    ensures s'.results.Keys == s.results.Keys + {job.key}
    ensures s'.results[job.key] == Finalize(r)
    ensures forall k :: k in s.results && k != job.key ==> s'.results[k] == s.results[k]
    ensures !r.success ==> s'.secretNames == s.secretNames && s'.leaderboard == s.leaderboard
    ensures forall sec :: sec in s.secretNames && s.secretNames[sec].Some? ==>
              sec in s'.secretNames && s'.secretNames[sec] == s.secretNames[sec]
    ensures forall n :: n in s.leaderboard && n.Some? ==>
              n in s'.leaderboard && s'.leaderboard[n] <= s.leaderboard[n]
  {
    var record := Finalize(r);
    var results := s.results[job.key := record];
    if !record.success then s.(results := results)
    else
      var name := ResolveName(s.secretNames, job.secret);
      var time := record.time.value;
      Store(results,
            s.secretNames[job.secret := name],
            s.leaderboard[name := NewBest(s.leaderboard, name, time)])
  }

  /** The leaderboard after a successful job whose secret resolves to a
      name: that name's score becomes the lower of its earlier score and
      the job's total time (the total time alone if it had none); no other
      score and no registered name changes. */
  lemma CompleteSuccessNamed(s: Store, job: Pipeline.Job, r: JobResult, n: string)
    requires r.success && ResolveName(s.secretNames, job.secret) == Some(n)
    ensures var s' := Complete(s, job, r);
      var t := SumTimes(r.results);
      && s'.secretNames == s.secretNames
      && s'.leaderboard.Keys == s.leaderboard.Keys + {Some(n)}
      && (Some(n) in s.leaderboard ==> s'.leaderboard[Some(n)] == Text.Min(s.leaderboard[Some(n)], t))
      && (Some(n) !in s.leaderboard ==> s'.leaderboard[Some(n)] == t)
      && forall m :: m in s.leaderboard && m != Some(n) ==> s'.leaderboard[m] == s.leaderboard[m]
  {
    var s' := Complete(s, job, r);
    assert job.secret in s.secretNames;
    assert s'.secretNames == s.secretNames;
  }

  /** The unresolved case as written: a successful job whose secret has no
      name registers `None` for the secret and sets the `None` score to the
      job's time, even when that is worse than the score already there. */
  lemma CompleteSuccessUnnamed(s: Store, job: Pipeline.Job, r: JobResult)
    requires r.success && ResolveName(s.secretNames, job.secret) == None
    ensures var s' := Complete(s, job, r);
      && s'.secretNames == s.secretNames[job.secret := None]
      && s'.leaderboard == s.leaderboard[None := SumTimes(r.results)]
  {
  }

  /** The worker handles jobs one at a time: a history of completions. */
  function CompleteAll(s: Store, history: seq<(Pipeline.Job, JobResult)>): (s': Store)
    ensures s.results.Keys <= s'.results.Keys
    ensures forall j :: 0 <= j < |history| ==> history[j].0.key in s'.results
    ensures s'.results.Keys <= s.results.Keys + set j | 0 <= j < |history| :: history[j].0.key
    decreases |history|
  {
    if |history| == 0 then s
    else
      var init := history[..|history| - 1];
      var prev := CompleteAll(s, init);
      var last := history[|history| - 1];
      ghost var keys := set j | 0 <= j < |history| :: history[j].0.key;
      assert forall j :: 0 <= j < |init| ==> init[j] == history[j];
      assert (set j | 0 <= j < |init| :: init[j].0.key) + {last.0.key} <= keys;
      Complete(prev, last.0, last.1)
  }

  /** Over any history of jobs, a named best time never gets worse and a
      registered name never changes. */
  lemma {:induction false} BestTimesNeverRegress(s: Store, history: seq<(Pipeline.Job, JobResult)>)
    ensures var s' := CompleteAll(s, history);
      && (forall n :: n in s.leaderboard && n.Some? ==>
            n in s'.leaderboard && s'.leaderboard[n] <= s.leaderboard[n])
      && (forall sec :: sec in s.secretNames && s.secretNames[sec].Some? ==>
            sec in s'.secretNames && s'.secretNames[sec] == s.secretNames[sec])
    decreases |history|
  {
    if |history| > 0 {
      BestTimesNeverRegress(s, history[..|history| - 1]);
    }
  }

  /** The last record stored for a key is the one kept: records are
      overwritten, never merged. */
  lemma {:induction false} LastRecordWins(s: Store, history: seq<(Pipeline.Job, JobResult)>, i: nat)
    requires i < |history|
    requires forall j :: i < j < |history| ==> history[j].0.key != history[i].0.key
    ensures var s' := CompleteAll(s, history);
      history[i].0.key in s'.results && s'.results[history[i].0.key] == Finalize(history[i].1)
    decreases |history|
  {
    if i < |history| - 1 {
      LastRecordWins(s, history[..|history| - 1], i);
    }
  }
}
