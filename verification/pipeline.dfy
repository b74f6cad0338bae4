/** `processTestCase` with its I/O taken out: acquiring the submission,
    compiling it, and running the tests, where either of the first two
    stages can end the job with a compile-error record. */
module Pipeline {
  import opened Options
  import opened Text
  import opened Results
  import Runner

  /** How the submission was uploaded. It only selects the download
      commands, which are not modelled. */
  datatype Kind = Zip | SingleFile

  /** A dequeued job descriptor. */
  datatype Job = Job(key: string, kind: Kind, classname: string, secret: string, name: string)

  /** What the worker saw of the stages before the tests: a download or
      unpack command failed, the compiler failed with the given output
      chunks, or the submission compiled. */
  datatype Build = DownloadFailed | CompileFailed(compilerOutput: seq<string>) | Compiled

  const DownloadError: string := "Download Error"

  /** `error(filedata, err)`: the record of a job that never reached its tests. */
  function ErrorResult(err: string): (r: JobResult)
    ensures !r.success && r.results == [] && r.compileError == Some(err)
    ensures r.runtimeError.None? && r.time.None?
  {
    JobResult(false, [], Some(err), None, None)
  }

  /** The record a job produces, before `complete` adds its total time.
      `totalTimeout` is the allotment the queue length earned the job. */
  function Grade(build: Build, names: seq<string>, obs: seq<Runner.Observation>,
                 matches: Runner.Matcher, totalTimeout: nat): (r: JobResult)
    requires |obs| == |names|
    ensures r.compileError.Some? <==> !build.Compiled?
    ensures !build.Compiled? ==> !r.success && r.results == [] && r.runtimeError.None?
    ensures build.DownloadFailed? ==> r.compileError == Some(DownloadError)
    ensures build.CompileFailed? ==> r.compileError == Some(StripTag(Concat(build.compilerOutput)))
    ensures r.time.None?
  {
    match build
    case DownloadFailed => ErrorResult(DownloadError)
    case CompileFailed(output) => ErrorResult(StripTag(Concat(output)))
    case Compiled => Runner.RunTests(names, obs, matches, totalTimeout)
  }

  /** A job that fails before its tests runs none of them: the record does
      not depend on the tests, their observations or the allotment. */
  lemma PreRunFailureRunsNoTest(build: Build,
                                names: seq<string>, obs: seq<Runner.Observation>,
                                names': seq<string>, obs': seq<Runner.Observation>,
                                matches: Runner.Matcher, matches': Runner.Matcher,
                                totalTimeout: nat, totalTimeout': nat)
    requires |obs| == |names| && |obs'| == |names'|
    requires !build.Compiled?
    ensures Grade(build, names, obs, matches, totalTimeout)
            == Grade(build, names', obs', matches', totalTimeout')
  {
  }

  /** Compiler output is recorded whole, not truncated: output whose chunks
      are free of the marker, joined around markers, comes back as the
      chunks run together. */
  lemma CompileErrorKeepsText(pieces: seq<string>, names: seq<string>,
                              obs: seq<Runner.Observation>, matches: Runner.Matcher,
                              totalTimeout: nat)
    requires |obs| == |names|
    requires forall k :: 0 <= k < |pieces| ==> !Contains(pieces[k], Tag)
    ensures Grade(CompileFailed([Join(pieces, Tag)]), names, obs, matches, totalTimeout).compileError
            == Some(Concat(pieces))
  {
    assert Concat([Join(pieces, Tag)]) == Join(pieces, Tag);
    StripTagUndoesJoin(pieces);
  }
}
