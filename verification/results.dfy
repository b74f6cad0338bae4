/** The job result record the worker builds and stores. The per-test
    `results` object is a JavaScript object keyed by test name; it is
    modelled as an association list in insertion order. */
module Results {
  import opened Options

  /** A per-test entry: the measured run time, or `false` for the test that
      ended the run. */
  datatype Entry = Time(ms: nat) | Failed

  type Fields = seq<(string, Entry)>

  /** The stored record: `{success, results, compileError?, runtimeError?, time?}`. */
  datatype JobResult = JobResult(
    success: bool,
    results: Fields,
    compileError: Option<string>,
    runtimeError: Option<string>,
    time: Option<nat>)

  /** Reading `obj[k]`. */
  function Lookup(f: Fields, k: string): Option<Entry>
    decreases |f|
  {
    if |f| == 0 then None
    else if f[0].0 == k then Some(f[0].1)
    else Lookup(f[1..], k)
  }

  /** Assigning `obj[k] = v`: an existing key keeps its place and takes the
      new value; a new key goes at the end. */
  function Put(f: Fields, k: string, v: Entry): (r: Fields)
    ensures Lookup(r, k) == Some(v)
    ensures forall k' :: k' != k ==> Lookup(r, k') == Lookup(f, k')
    ensures Lookup(f, k).None? ==> r == f + [(k, v)]
    decreases |f|
  {
    if |f| == 0 then [(k, v)]
    else if f[0].0 == k then
      assert ([(k, v)] + f[1..])[1..] == f[1..];
      [(k, v)] + f[1..]
    else
      var rest := Put(f[1..], k, v);
      assert ([f[0]] + rest)[1..] == rest;
      assert Lookup(f, k).None? ==> [f[0]] + (f[1..] + [(k, v)]) == f + [(k, v)];
      [f[0]] + rest
  }

  /** A key that no pair carries reads as absent. */
  lemma {:induction false} LookupAbsent(f: Fields, k: string)
    requires forall j :: 0 <= j < |f| ==> f[j].0 != k
    ensures Lookup(f, k) == None
    decreases |f|
  {
    if |f| > 0 {
      LookupAbsent(f[1..], k);
    }
  }

  /** The value an entry adds to the total: in JavaScript `acc + false` is
      `acc`. */
  function EntryValue(e: Entry): nat
  {
    match e
    case Time(ms) => ms
    case Failed => 0
  }

  /** `Object.values(obj).reduce((acc, value) => acc + value, 0)`, a left fold. */
  function SumTimes(f: Fields): (total: nat)
    ensures forall k :: 0 <= k < |f| ==> EntryValue(f[k].1) <= total
    ensures (forall k :: 0 <= k < |f| ==> f[k].1 == Failed) ==> total == 0
    decreases |f|
  {
    if |f| == 0 then 0
    else SumTimes(f[..|f| - 1]) + EntryValue(f[|f| - 1].1)
  }

  /** The first step of `complete`: a successful record gains `time`, the
      sum of its per-test times; a failed record is stored as it is. */
  function Finalize(r: JobResult): (c: JobResult)
    ensures c.success == r.success && c.results == r.results
    ensures c.compileError == r.compileError && c.runtimeError == r.runtimeError
    ensures c.time.Some? <==> r.success || r.time.Some?
    ensures r.success ==> c.time == Some(SumTimes(r.results))
    ensures !r.success ==> c == r
  {
    if r.success then r.(time := Some(SumTimes(r.results))) else r
  }
}
