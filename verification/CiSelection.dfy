/**
  Which CI work a pull request still has to do (scripts/testing/ci-selection.ts): a fold over the
  earlier runs, from the newest full attempt on, that drops only work already proven. Commits are
  opaque, and git answers through `ancestor`, `diff` and `sameConfiguration`.
*/
module CiSelection {
  import opened Options
  import opened Sorting

  type Commit = string
  type TestFile = string

  // ---------------------------------------------------------------- jobs and areas

  datatype Platform = MacOs | Windows
  datatype NativePlatform = Ubuntu | On(platform: Platform)

  /** A job name without the prefix of a reusable workflow, provenance removed. */
  datatype Name =
    | Detect | Static | SelectedAcceptance | FullAcceptance
    | Coverage | Shard(os: Platform, shard: nat) | Consumer(k: nat) | Native(on: NativePlatform) | Website
    | AffectedLinux | Affected(os: Platform)
    | Other(text: string)

  datatype Conclusion = Success | Skipped | Failure | Cancelled | TimedOut | AnotherConclusion | Unfinished

  /** `nested` for a job of a reusable workflow; `websiteProof` when its name records a website request. */
  datatype Job = Job(name: Name, nested: bool, conclusion: Conclusion, websiteProof: bool)

  /** `provenance` when repository, pull request, base and head of the run are those of the event. */
  datatype Run = Run(id: nat, head: Commit, provenance: bool, conclusion: Conclusion, jobs: seq<Job>)

  const SHARDS := 3
  const CONSUMERS := 12

  const ShardAreas: seq<Name> :=
    [Shard(MacOs, 0), Shard(MacOs, 1), Shard(MacOs, 2), Shard(Windows, 0), Shard(Windows, 1), Shard(Windows, 2)]
  const NativeAreas: seq<Name> := [Native(Ubuntu), Native(On(MacOs)), Native(On(Windows))]

  function ConsumerAreas(): seq<Name> {
    seq(CONSUMERS, i requires 0 <= i < CONSUMERS => Consumer(i))
  }

  /** qualificationNames. */
  function QualificationNames(): seq<Name> {
    [Coverage] + ShardAreas + ConsumerAreas() + NativeAreas
  }

  predicate IsArea(name: Name) {
    name in QualificationNames()
  }

  predicate Known(name: Name) {
    IsArea(name) || name == Website
  }

  predicate IsAffected(name: Name) {
    name.AffectedLinux? || name.Affected?
  }

  function Matching(jobs: seq<Job>, name: Name): seq<Job> {
    if jobs == [] then []
    else (if jobs[0].name == name then [jobs[0]] else []) + Matching(jobs[1..], name)
  }

  /** hasSuccessfulJob. */
  predicate HasSuccess(run: Run, name: Name) {
    var matches := Matching(run.jobs, name);
    |matches| == 1 && matches[0].conclusion == Success
  }

  /** fullAttempt. */
  predicate FullAttempt(run: Run, sameConfiguration: bool) {
    && run.conclusion != Unfinished
    && (|| (&& sameConfiguration
            && |Matching(run.jobs, FullAcceptance)| == 1
            && exists job :: job in run.jobs && job.name == FullAcceptance && !job.nested
                             && job.conclusion in {Success, Failure, Cancelled, TimedOut})
        || forall name :: name in QualificationNames() ==> |Matching(run.jobs, name)| == 1)
  }

  // ---------------------------------------------------------------- the scope of a change

  datatype File =
    | Pinned(path: string)         // a test of the selection itself
    | TestPath(test: TestFile)
    | OrdinarySource(path: string)
    | Documentation(path: string)
    | AnyOther(path: string)

  datatype Scope = Scope(tests: set<TestFile>, allTests: bool)

  /** scope: None when the change needs full qualification. */
  function ScopeOf(files: seq<File>, available: set<TestFile>): Option<Scope> {
    if available == {} then None
    else
      match ScopeFrom(files, available, Scope({}, false))
      case None => None
      case Some(s) => if s.allTests || s.tests != {} then Some(s) else None
  }

  function ScopeFrom(files: seq<File>, available: set<TestFile>, s: Scope): Option<Scope> {
    if files == [] then Some(s)
    else
      match files[0]
      case TestPath(test) =>
        if test in available then ScopeFrom(files[1..], available, s.(tests := s.tests + {test})) else None
      case OrdinarySource(_) => ScopeFrom(files[1..], available, s.(allTests := true))
      case _ => None
  }

  // ---------------------------------------------------------------- one run

  datatype Env = Env(
    head: Commit, base: Commit, available: set<TestFile>,
    ancestor: (Commit, Commit) -> bool, diff: (Commit, Commit) -> seq<File>, sameConfiguration: Commit -> bool,
    historyComplete: bool)

  datatype State = State(checkpoint: Commit, pending: set<Name>, tests: set<TestFile>)

  datatype Reason =
    | InvalidEvent | DuplicateHistory | BadHistory | NoBaseline | UnknownBaselineFailure | Rebased
    | IncompleteScope | FailedScope | UnknownFailure | SharedPaths

  /** Either the fold goes on, or full qualification is required. */
  datatype Outcome = Continue(state: State) | Full(reason: Reason, website: bool)

  function Delta(env: Env, s: State, run: Run): Option<Scope> {
    ScopeOf(env.diff(s.checkpoint, run.head), env.available)
  }

  predicate RunsAllTests(delta: Option<Scope>) {
    delta.Some? && delta.value.allTests
  }

  predicate ShardsPending(os: Platform, pending: set<Name>) {
    exists k :: 0 <= k < SHARDS && Shard(os, k) in pending
  }

  function PlatformJobs(os: Platform, allTests: bool, pending: set<Name>): seq<Name> {
    if allTests || ShardsPending(os, pending) then [Shard(os, 0), Shard(os, 1), Shard(os, 2)] else [Affected(os)]
  }

  function Those(names: seq<Name>, pending: set<Name>): seq<Name> {
    if names == [] then []
    else (if names[0] in pending then [names[0]] else []) + Those(names[1..], pending)
  }

  /** The jobs a run had to do for the work that was pending when it started. */
  function Required(delta: Option<Scope>, pending: set<Name>): seq<Name> {
    [Detect, Static, SelectedAcceptance, if RunsAllTests(delta) || Coverage in pending then Coverage else AffectedLinux]
    + PlatformJobs(MacOs, RunsAllTests(delta), pending)
    + PlatformJobs(Windows, RunsAllTests(delta), pending)
    + Those(ConsumerAreas(), pending)
    + Those(NativeAreas, pending)
    + (if Website in pending then [Website] else [])
  }

  predicate Covered(env: Env, s: State, run: Run) {
    && Delta(env, s, run).Some?
    && run.conclusion == Success
    && env.sameConfiguration(run.head)
    && forall name :: name in Required(Delta(env, s, run), s.pending) ==> HasSuccess(run, name)
  }

  /** Required work without exactly one success stays pending. */
  function KeepMissing(names: seq<Name>, run: Run, delta: Option<Scope>, s: State): Outcome
    decreases |names|
  {
    if names == [] then Continue(s)
    else if HasSuccess(run, names[0]) then KeepMissing(names[1..], run, delta, s)
    else if Known(names[0]) then KeepMissing(names[1..], run, delta, s.(pending := s.pending + {names[0]}))
    else if IsAffected(names[0]) then
      if delta.None? then Full(IncompleteScope, false)
      else KeepMissing(names[1..], run, delta, s.(tests := s.tests + delta.value.tests))
    else KeepMissing(names[1..], run, delta, s)
  }

  /** What one job changes. */
  function CountJob(job: Job, delta: Option<Scope>, covered: bool, s: State): Outcome {
    if job.conclusion == Success then
      Continue(if Known(job.name) && covered then s.(pending := s.pending - {job.name}) else s)
    else if job.conclusion == Skipped then Continue(s)
    else if Known(job.name) then Continue(s.(pending := s.pending + {job.name}))
    else if IsAffected(job.name) && !job.nested then
      if delta.None? then Full(FailedScope, false) else Continue(s.(tests := s.tests + delta.value.tests))
    else if job.name in {Detect, Static, SelectedAcceptance, FullAcceptance} && !job.nested then Continue(s)
    else Full(UnknownFailure, true)
  }

  function CountJobs(jobs: seq<Job>, delta: Option<Scope>, covered: bool, s: State): Outcome
    decreases |jobs|
  {
    if jobs == [] then Continue(s)
    else
      match CountJob(jobs[0], delta, covered, s)
      case Full(reason, website) => Full(reason, website)
      case Continue(next) => CountJobs(jobs[1..], delta, covered, next)
  }

  function Step(env: Env, s: State, run: Run): Outcome {
    if !env.ancestor(s.checkpoint, run.head) then Full(Rebased, false)
    else
      var delta := Delta(env, s, run);
      var covered := Covered(env, s, run);
      match KeepMissing(Required(delta, s.pending), run, delta, s)
      case Full(reason, website) => Full(reason, website)
      case Continue(kept) =>
        match CountJobs(run.jobs, delta, covered, kept)
        case Full(reason, website) => Full(reason, website)
        case Continue(next) => Continue(if covered then State(run.head, next.pending, {}) else next)
  }

  /** The fold over the runs after the baseline, oldest first. */
  function After(env: Env, start: State, runs: seq<Run>): Outcome
    decreases |runs|
  {
    if runs == [] then Continue(start)
    else
      match After(env, start, runs[..|runs| - 1])
      case Full(reason, website) => Full(reason, website)
      case Continue(s) => Step(env, s, runs[|runs| - 1])
  }

  // ---------------------------------------------------------------- the baseline and the answer

  predicate RequestsWebsite(run: Run) {
    || (exists job :: job in run.jobs && job.websiteProof)
    || (exists job :: job in run.jobs && job.name == Website && !job.nested && job.conclusion != Skipped)
  }

  function Start(baseline: Run): State {
    State(
      baseline.head,
      (set name | name in QualificationNames() && !HasSuccess(baseline, name))
      + (if RequestsWebsite(baseline) && !HasSuccess(baseline, Website) then {Website} else {}),
      {})
  }

  predicate UnknownFailureIn(baseline: Run) {
    exists job :: job in baseline.jobs && job.conclusion !in {Success, Skipped} && !Known(job.name)
                  && !(job.name in {Detect, Static, FullAcceptance} && !job.nested)
  }

  predicate NewerFirst(a: Run, b: Run) {
    a.id >= b.id
  }

  /** The runs newer than the baseline, oldest first. */
  function Newer(history: seq<Run>, id: nat): seq<Run> {
    if history == [] then []
    else Newer(history[1..], id) + (if history[0].id > id then [history[0]] else [])
  }

  /** The newest full attempt. */
  function Baseline(env: Env, history: seq<Run>): Option<Run> {
    if history == [] then None
    else if FullAttempt(history[0], env.sameConfiguration(history[0].head)) then Some(history[0])
    else Baseline(env, history[1..])
  }

  predicate DocumentationOnly(files: seq<File>) {
    files != [] && forall f :: f in files ==> f.Documentation?
  }

  predicate OnlyDocumentation(env: Env, history: seq<Run>) {
    && env.historyComplete
    && DocumentationOnly(env.diff(env.base, env.head))
    && forall run :: run in history ==>
         && DocumentationOnly(env.diff(env.base, run.head))
         && run.conclusion == Success
         && forall job :: job in run.jobs ==> job.conclusion in {Success, Skipped}
  }

  datatype Selection =
    | NoPackage
    | FullQualification(reason: Reason, website: bool)
    | Incremental(
        tests: set<TestFile>, coverage: bool, website: bool, shards: set<Platform>,
        consumers: seq<Name>, native: seq<Name>)

  function Answer(env: Env, s: State): Selection {
    match ScopeOf(env.diff(s.checkpoint, env.head), env.available)
    case None => FullQualification(SharedPaths, Website in s.pending)
    case Some(scope) =>
      Incremental(
        scope.tests + s.tests,
        scope.allTests || Coverage in s.pending,
        Website in s.pending,
        (set os | os in {MacOs, Windows} && (scope.allTests || ShardsPending(os, s.pending))),
        Those(ConsumerAreas(), s.pending),
        Those(NativeAreas, s.pending))
  }

  function FromBaseline(env: Env, history: seq<Run>, baseline: Run): Selection {
    if UnknownFailureIn(baseline) then FullQualification(UnknownBaselineFailure, true)
    else
      match After(env, Start(baseline), Newer(history, baseline.id))
      case Full(reason, website) => FullQualification(reason, website)
      case Continue(s) => Answer(env, s)
  }

  /** selectCi; `event` tells whether the event itself is well formed. */
  function Select(env: Env, event: bool, input: seq<Run>): Selection {
    if !event then FullQualification(InvalidEvent, false)
    else
      var history := SortBy(NewerFirst, input);
      if |set run | run in history :: run.id| != |history| then FullQualification(DuplicateHistory, false)
      else if exists run :: run in history && !(run.provenance && env.ancestor(run.head, env.head) && run.jobs != [])
      then FullQualification(BadHistory, false)
      else if OnlyDocumentation(env, history) then NoPackage
      else
        match Baseline(env, history)
        case None => FullQualification(NoBaseline, !(env.historyComplete && history == []))
        case Some(baseline) => FromBaseline(env, history, baseline)
  }

  /** The areas an incremental selection schedules. */
  predicate Schedules(s: Selection, area: Name)
    requires s.Incremental?
  {
    match area
    case Coverage => s.coverage
    case Shard(os, _) => os in s.shards
    case Website => s.website
    case _ => area in s.consumers || area in s.native
  }

  // ---------------------------------------------------------------- what one run leaves pending

  predicate FailedIn(run: Run, area: Name) {
    exists job :: job in run.jobs && job.name == area && job.conclusion !in {Success, Skipped}
  }

  predicate SucceededIn(run: Run, area: Name) {
    exists job :: job in run.jobs && job.name == area && job.conclusion == Success
  }

  /** In every area, a job that did not succeed is not followed by one that did. */
  predicate FailuresStand(run: Run) {
    forall i, j ::
      (0 <= i < j < |run.jobs| && run.jobs[i].name == run.jobs[j].name && Known(run.jobs[i].name)
       && run.jobs[i].conclusion !in {Success, Skipped}) ==> run.jobs[j].conclusion != Success
  }

  /** The area was required of the run without exactly one success. */
  predicate Missed(env: Env, s: State, run: Run, area: Name) {
    area in Required(Delta(env, s, run), s.pending) && !HasSuccess(run, area)
  }

  lemma {:induction false} MissingKept(names: seq<Name>, run: Run, delta: Option<Scope>, s: State, area: Name)
    requires KeepMissing(names, run, delta, s).Continue? && Known(area)
    ensures area in KeepMissing(names, run, delta, s).state.pending
       <==> area in s.pending || (area in names && !HasSuccess(run, area))
    ensures KeepMissing(names, run, delta, s).state.checkpoint == s.checkpoint
    decreases |names|
  {
    if names != [] {
      assert area in names <==> area == names[0] || area in names[1..];
      var next :=
        if HasSuccess(run, names[0]) then s
        else if Known(names[0]) then s.(pending := s.pending + {names[0]})
        else if IsAffected(names[0]) then s.(tests := s.tests + delta.value.tests)
        else s;
      assert KeepMissing(names, run, delta, s) == KeepMissing(names[1..], run, delta, next);
      MissingKept(names[1..], run, delta, next, area);
    }
  }

  /** How the last job of an area that was not skipped ended. */
  function LastRan(jobs: seq<Job>, area: Name): Option<Conclusion>
    decreases |jobs|
  {
    if jobs == [] then None
    else if LastRan(jobs[1..], area).Some? then LastRan(jobs[1..], area)
    else if jobs[0].name == area && jobs[0].conclusion != Skipped then Some(jobs[0].conclusion)
    else None
  }

  predicate LastSucceeds(jobs: seq<Job>, area: Name) {
    LastRan(jobs, area) == Some(Success)
  }

  lemma {:induction false} LastRanIsLast(jobs: seq<Job>, area: Name) returns (j: nat)
    requires LastRan(jobs, area).Some?
    ensures j < |jobs| && jobs[j].name == area && Some(jobs[j].conclusion) == LastRan(jobs, area) != Some(Skipped)
    ensures forall k :: j < k < |jobs| && jobs[k].name == area ==> jobs[k].conclusion == Skipped
    decreases |jobs|
  {
    if LastRan(jobs[1..], area).Some? {
      j := LastRanIsLast(jobs[1..], area);
      j := j + 1;
      assert forall k :: j < k < |jobs| ==> jobs[k] == jobs[1..][k - 1];
    } else {
      j := 0;
      NothingRan(jobs[1..], area);
      assert forall k :: 0 < k < |jobs| ==> jobs[k] == jobs[1..][k - 1];
    }
  }

  lemma {:induction false} NothingRan(jobs: seq<Job>, area: Name)
    requires LastRan(jobs, area).None?
    ensures forall k :: 0 <= k < |jobs| && jobs[k].name == area ==> jobs[k].conclusion == Skipped
    decreases |jobs|
  {
    if jobs != [] {
      NothingRan(jobs[1..], area);
      assert forall k :: 0 < k < |jobs| ==> jobs[k] == jobs[1..][k - 1];
    }
  }

  predicate SomeFails(jobs: seq<Job>, area: Name) {
    exists j :: 0 <= j < |jobs| && jobs[j].name == area && jobs[j].conclusion !in {Success, Skipped}
  }

  lemma {:induction false} JobsCounted(jobs: seq<Job>, delta: Option<Scope>, covered: bool, s: State, area: Name)
    requires CountJobs(jobs, delta, covered, s).Continue? && Known(area)
    ensures area in CountJobs(jobs, delta, covered, s).state.pending
       <==> !(covered && LastSucceeds(jobs, area)) && (area in s.pending || SomeFails(jobs, area))
    ensures CountJobs(jobs, delta, covered, s).state.checkpoint == s.checkpoint
    decreases |jobs|
  {
    if jobs != [] {
      var job, rest := jobs[0], jobs[1..];
      var next := CountJob(job, delta, covered, s).state;
      JobsCounted(rest, delta, covered, next, area);
      SomeFailsNext(jobs, area);
      LastSucceedsNext(jobs, area);
    }
  }

  lemma SomeFailsNext(jobs: seq<Job>, area: Name)
    requires jobs != []
    ensures SomeFails(jobs, area)
       <==> (jobs[0].name == area && jobs[0].conclusion !in {Success, Skipped}) || SomeFails(jobs[1..], area)
  {
    if SomeFails(jobs[1..], area) {
      var j :| 0 <= j < |jobs[1..]| && jobs[1..][j].name == area && jobs[1..][j].conclusion !in {Success, Skipped};
      assert jobs[j + 1].name == area;
    }
    if SomeFails(jobs, area) {
      var j :| 0 <= j < |jobs| && jobs[j].name == area && jobs[j].conclusion !in {Success, Skipped};
      if j > 0 { assert jobs[1..][j - 1] == jobs[j]; }
    }
  }

  lemma LastSucceedsNext(jobs: seq<Job>, area: Name)
    requires jobs != []
    ensures LastSucceeds(jobs, area)
       <==> || LastSucceeds(jobs[1..], area)
            || (jobs[0].name == area && jobs[0].conclusion == Success && !SomeFails(jobs[1..], area))
  {
    if LastRan(jobs[1..], area).Some? {
      var j := LastRanIsLast(jobs[1..], area);
    } else {
      NothingRan(jobs[1..], area);
    }
  }

  /** What is pending after a run that does not force full qualification. */
  lemma PendingAfterRun(env: Env, s: State, run: Run, area: Name)
    requires Step(env, s, run).Continue? && Known(area)
    ensures area in Step(env, s, run).state.pending
       <==> && !(Covered(env, s, run) && LastSucceeds(run.jobs, area))
            && (area in s.pending || Missed(env, s, run, area) || FailedIn(run, area))
  {
    var delta := Delta(env, s, run);
    MissingKept(Required(delta, s.pending), run, delta, s, area);
    var kept := KeepMissing(Required(delta, s.pending), run, delta, s).state;
    JobsCounted(run.jobs, delta, Covered(env, s, run), kept, area);
  }

  /**
    A run never drops work that failed in it, exactly when it does not advance the checkpoint with a
    success after a failure of the same area.
  */
  lemma FailuresStayPending(env: Env, s: State, run: Run)
    requires Step(env, s, run).Continue?
    ensures (forall area :: Known(area) && FailedIn(run, area) ==> area in Step(env, s, run).state.pending)
       <==> (Covered(env, s, run) ==>
               forall area :: Known(area) && FailedIn(run, area) ==> !LastSucceeds(run.jobs, area))
  {
    forall area | Known(area) && FailedIn(run, area)
      ensures area in Step(env, s, run).state.pending <==> !(Covered(env, s, run) && LastSucceeds(run.jobs, area))
    {
      PendingAfterRun(env, s, run, area);
    }
  }

  lemma StandingFailure(run: Run, area: Name)
    requires FailuresStand(run) && Known(area) && FailedIn(run, area)
    ensures !LastSucceeds(run.jobs, area)
  {
    var job :| job in run.jobs && job.name == area && job.conclusion !in {Success, Skipped};
    var i :| 0 <= i < |run.jobs| && run.jobs[i] == job;
    if LastRan(run.jobs, area).Some? {
      var j := LastRanIsLast(run.jobs, area);
      assert i <= j;
      assert i < j ==> run.jobs[j].conclusion != Success;
    }
  }

  // ---------------------------------------------------------------- the whole fold

  /** The run advances the checkpoint and proves the area. */
  predicate ProvedBy(env: Env, s: State, run: Run, area: Name) {
    Covered(env, s, run) && LastSucceeds(run.jobs, area)
  }

  /** Since the state s, the run neither failed the area nor left it undone when it was required. */
  predicate Held(env: Env, s: State, run: Run, area: Name) {
    !FailedIn(run, area) && !Missed(env, s, run, area)
  }

  predicate Continues(env: Env, start: State, runs: seq<Run>) {
    forall k :: 0 <= k <= |runs| ==> After(env, start, runs[..k]).Continue?
  }

  /** The state before the k-th run. */
  function Before(env: Env, start: State, runs: seq<Run>, k: nat): State
    requires k <= |runs| && Continues(env, start, runs)
  {
    After(env, start, runs[..k]).state
  }

  lemma {:induction false} FullIsFinal(env: Env, start: State, runs: seq<Run>)
    requires After(env, start, runs).Continue?
    ensures Continues(env, start, runs)
    decreases |runs|
  {
    hide Step;
    assert runs[..|runs|] == runs;
    if runs != [] {
      var n := |runs| - 1;
      FullIsFinal(env, start, runs[..n]);
      forall k | 0 <= k <= |runs| ensures After(env, start, runs[..k]).Continue? {
        if k <= n { assert runs[..n][..k] == runs[..k]; }
      }
    }
  }

  lemma NextState(env: Env, start: State, runs: seq<Run>, k: nat)
    requires Continues(env, start, runs) && k < |runs|
    ensures Step(env, Before(env, start, runs, k), runs[k]) == Continue(Before(env, start, runs, k + 1))
  {
    var prefix := runs[..k + 1];
    assert prefix[..k] == runs[..k] && prefix[k] == runs[k];
    assert After(env, start, prefix).Continue?;
  }

  /**
    The area was not pending at the start (j is 0) or the run before the j-th proved it, and every
    run from the j-th on held it.
  */
  ghost predicate ProvenAt(env: Env, start: State, runs: seq<Run>, area: Name, n: nat, j: nat)
    requires j <= n <= |runs| && Continues(env, start, runs)
  {
    && (if j == 0 then area !in start.pending
        else ProvedBy(env, Before(env, start, runs, j - 1), runs[j - 1], area))
    && forall k: nat :: j <= k < n ==> Held(env, Before(env, start, runs, k), runs[k], area)
  }

  ghost predicate Proven(env: Env, start: State, runs: seq<Run>, area: Name, n: nat)
    requires n <= |runs| && Continues(env, start, runs)
  {
    exists j: nat :: j <= n && ProvenAt(env, start, runs, area, n, j)
  }

  lemma ProvenNext(env: Env, start: State, runs: seq<Run>, area: Name, n: nat)
    requires n < |runs| && Continues(env, start, runs)
    ensures Proven(env, start, runs, area, n + 1)
       <==> || ProvedBy(env, Before(env, start, runs, n), runs[n], area)
            || (Proven(env, start, runs, area, n) && Held(env, Before(env, start, runs, n), runs[n], area))
  {
    hide Before, ProvedBy, Held, Continues;
    if ProvedBy(env, Before(env, start, runs, n), runs[n], area) {
      assert ProvenAt(env, start, runs, area, n + 1, n + 1);
    }
    if Proven(env, start, runs, area, n) && Held(env, Before(env, start, runs, n), runs[n], area) {
      var j: nat :| j <= n && ProvenAt(env, start, runs, area, n, j);
      assert ProvenAt(env, start, runs, area, n + 1, j);
    }
    if Proven(env, start, runs, area, n + 1) {
      var j: nat :| j <= n + 1 && ProvenAt(env, start, runs, area, n + 1, j);
      if j <= n { assert ProvenAt(env, start, runs, area, n, j); }
    }
  }

  lemma HeldOrProved(env: Env, s: State, run: Run, area: Name)
    ensures ProvedBy(env, s, run, area) <==> Covered(env, s, run) && LastSucceeds(run.jobs, area)
    ensures Held(env, s, run, area) <==> !FailedIn(run, area) && !Missed(env, s, run, area)
  {
  }

  lemma NothingProvenYet(env: Env, start: State, runs: seq<Run>, area: Name)
    requires Continues(env, start, runs)
    ensures area in Before(env, start, runs, 0).pending <==> !Proven(env, start, runs, area, 0)
  {
    hide Step, QualificationNames;
    assert runs[..0] == [];
    assert area !in start.pending ==> ProvenAt(env, start, runs, area, 0, 0);
  }

  /** Exactly the areas that are not proven are pending. */
  lemma {:induction false} PendingIsUnproven(env: Env, start: State, runs: seq<Run>, area: Name, n: nat)
    requires n <= |runs| && Continues(env, start, runs) && Known(area)
    ensures area in Before(env, start, runs, n).pending <==> !Proven(env, start, runs, area, n)
  {
    if n == 0 {
      NothingProvenYet(env, start, runs, area);
    } else {
      hide Step, Covered, Before, Proven, ProvedBy, Held, Continues;
      PendingIsUnproven(env, start, runs, area, n - 1);
      NextState(env, start, runs, n - 1);
      HeldOrProved(env, Before(env, start, runs, n - 1), runs[n - 1], area);
      PendingAfterRun(env, Before(env, start, runs, n - 1), runs[n - 1], area);
      ProvenNext(env, start, runs, area, n - 1);
    }
  }

  // ---------------------------------------------------------------- affected tests

  /** An affected-tests job was required without exactly one success, or failed. */
  predicate AffectedUnproven(env: Env, s: State, run: Run) {
    || (exists name :: name in Required(Delta(env, s, run), s.pending) && IsAffected(name) && !HasSuccess(run, name))
    || (exists job :: job in run.jobs && IsAffected(job.name) && !job.nested && job.conclusion !in {Success, Skipped})
  }

  predicate LeavesUnproven(env: Env, s: State, run: Run, test: TestFile) {
    AffectedUnproven(env, s, run) && Delta(env, s, run).Some? && test in Delta(env, s, run).value.tests
  }

  lemma {:induction false} MissingTests(names: seq<Name>, run: Run, delta: Option<Scope>, s: State)
    requires KeepMissing(names, run, delta, s).Continue?
    ensures var missed := exists name :: name in names && IsAffected(name) && !HasSuccess(run, name);
            && (missed ==> delta.Some?)
            && KeepMissing(names, run, delta, s).state.tests
               == s.tests + (if missed then delta.value.tests else {})
    decreases |names|
  {
    if names != [] {
      var first := names[0];
      var next :=
        if HasSuccess(run, first) then s
        else if Known(first) then s.(pending := s.pending + {first})
        else if IsAffected(first) then s.(tests := s.tests + delta.value.tests)
        else s;
      assert KeepMissing(names, run, delta, s) == KeepMissing(names[1..], run, delta, next);
      MissingTests(names[1..], run, delta, next);
      assert IsAffected(first) ==> !Known(first);
      assert forall name :: name in names <==> name == first || name in names[1..];
    }
  }

  lemma {:induction false} CountedTests(jobs: seq<Job>, delta: Option<Scope>, covered: bool, s: State)
    requires CountJobs(jobs, delta, covered, s).Continue?
    ensures var failed := exists job :: job in jobs && IsAffected(job.name) && !job.nested
                                        && job.conclusion !in {Success, Skipped};
            && (failed ==> delta.Some?)
            && CountJobs(jobs, delta, covered, s).state.tests == s.tests + (if failed then delta.value.tests else {})
    decreases |jobs|
  {
    if jobs != [] {
      var job := jobs[0];
      CountedTests(jobs[1..], delta, covered, CountJob(job, delta, covered, s).state);
      assert IsAffected(job.name) ==> !Known(job.name);
      assert forall other :: other in jobs <==> other == job || other in jobs[1..];
    }
  }

  lemma TestsAfterRun(env: Env, s: State, run: Run, test: TestFile)
    requires Step(env, s, run).Continue?
    ensures test in Step(env, s, run).state.tests
       <==> !Covered(env, s, run) && (test in s.tests || LeavesUnproven(env, s, run, test))
    ensures Step(env, s, run).state.checkpoint == if Covered(env, s, run) then run.head else s.checkpoint
  {
    var delta := Delta(env, s, run);
    var required := Required(delta, s.pending);
    MissingTests(required, run, delta, s);
    var kept := KeepMissing(required, run, delta, s).state;
    CountedTests(run.jobs, delta, Covered(env, s, run), kept);
    MissingKept(required, run, delta, s, Coverage);
    JobsCounted(run.jobs, delta, Covered(env, s, run), kept, Coverage);
  }

  /** A run left the test unproven, and no run from that one on advanced the checkpoint. */
  ghost predicate Outstanding(env: Env, start: State, runs: seq<Run>, test: TestFile, n: nat)
    requires n <= |runs| && Continues(env, start, runs)
  {
    exists k: nat :: k < n && LeftAt(env, start, runs, test, n, k)
  }

  ghost predicate LeftAt(env: Env, start: State, runs: seq<Run>, test: TestFile, n: nat, k: nat)
    requires k < n <= |runs| && Continues(env, start, runs)
  {
    && LeavesUnproven(env, Before(env, start, runs, k), runs[k], test)
    && forall m: nat :: k <= m < n ==> !Covered(env, Before(env, start, runs, m), runs[m])
  }

  lemma OutstandingNext(env: Env, start: State, runs: seq<Run>, test: TestFile, n: nat)
    requires n < |runs| && Continues(env, start, runs)
    ensures Outstanding(env, start, runs, test, n + 1)
       <==> && !Covered(env, Before(env, start, runs, n), runs[n])
            && (|| Outstanding(env, start, runs, test, n)
                || LeavesUnproven(env, Before(env, start, runs, n), runs[n], test))
  {
    hide Before, LeavesUnproven, Covered, Continues;
    var s := Before(env, start, runs, n);
    if !Covered(env, s, runs[n]) && LeavesUnproven(env, s, runs[n], test) {
      assert LeftAt(env, start, runs, test, n + 1, n);
    }
    if !Covered(env, s, runs[n]) && Outstanding(env, start, runs, test, n) {
      var k: nat :| k < n && LeftAt(env, start, runs, test, n, k);
      assert LeftAt(env, start, runs, test, n + 1, k);
    }
    if Outstanding(env, start, runs, test, n + 1) {
      var k: nat :| k < n + 1 && LeftAt(env, start, runs, test, n + 1, k);
      if k < n { assert LeftAt(env, start, runs, test, n, k); }
    }
  }

  /** Exactly the tests left unproven since the last checkpoint are kept for reselection. */
  lemma {:induction false} TestsAreOutstanding(env: Env, start: State, runs: seq<Run>, test: TestFile, n: nat)
    requires n <= |runs| && Continues(env, start, runs) && start.tests == {}
    ensures test in Before(env, start, runs, n).tests <==> Outstanding(env, start, runs, test, n)
  {
    if n == 0 {
      assert runs[..0] == [];
    } else {
      TestsAreOutstanding(env, start, runs, test, n - 1);
      NextState(env, start, runs, n - 1);
      TestsAfterRun(env, Before(env, start, runs, n - 1), runs[n - 1], test);
      OutstandingNext(env, start, runs, test, n - 1);
    }
  }

  // ---------------------------------------------------------------- what a selection may omit

  lemma {:induction false} ThoseAre(names: seq<Name>, pending: set<Name>, name: Name)
    ensures name in Those(names, pending) <==> name in names && name in pending
  {
    if names != [] { ThoseAre(names[1..], pending, name); }
  }

  lemma PendingIsScheduled(env: Env, s: State, area: Name)
    requires Answer(env, s).Incremental? && Known(area) && area in s.pending
    ensures Schedules(Answer(env, s), area)
  {
    ThoseAre(ConsumerAreas(), s.pending, area);
    ThoseAre(NativeAreas, s.pending, area);
    match area
    case Shard(os, k) => assert k < SHARDS;
    case _ =>
  }

  /**
    The area succeeded in the baseline (or, for the website, was never requested there) when j is 0,
    and otherwise in the run before the j-th, which advanced the checkpoint; every run from the j-th
    on neither failed it nor left it undone when it was required.
  */
  ghost predicate SettledSince(env: Env, baseline: Run, runs: seq<Run>, area: Name, j: nat)
    requires j <= |runs| && Continues(env, Start(baseline), runs)
  {
    && (if j == 0 then HasSuccess(baseline, area) || (area == Website && !RequestsWebsite(baseline))
        else && Covered(env, Before(env, Start(baseline), runs, j - 1), runs[j - 1])
             && SucceededIn(runs[j - 1], area) && !FailedIn(runs[j - 1], area))
    && forall k: nat :: j <= k < |runs| ==>
         !FailedIn(runs[k], area) && !Missed(env, Before(env, Start(baseline), runs, k), runs[k], area)
  }

  lemma ProvenIsSettled(env: Env, baseline: Run, runs: seq<Run>, area: Name, j: nat)
    requires j <= |runs| && Continues(env, Start(baseline), runs) && Known(area)
    requires ProvenAt(env, Start(baseline), runs, area, |runs|, j)
    requires forall run :: run in runs ==> FailuresStand(run)
    ensures SettledSince(env, baseline, runs, area, j)
  {
    if j > 0 {
      var run := runs[j - 1];
      assert run in runs;
      if FailedIn(run, area) { StandingFailure(run, area); }
      var i := LastRanIsLast(run.jobs, area);
      assert run.jobs[i] in run.jobs;
    }
    hide Before, Continues, Covered, Missed, FailedIn;
    assert forall k: nat :: j <= k < |runs| ==> Held(env, Before(env, Start(baseline), runs, k), runs[k], area);
  }

  /** An incremental selection omits an area only if the area is settled since some run. */
  lemma OmittedIsSettled(env: Env, baseline: Run, runs: seq<Run>, s: State, area: Name)
    requires After(env, Start(baseline), runs) == Continue(s)
    requires Answer(env, s).Incremental? && Known(area) && !Schedules(Answer(env, s), area)
    requires forall run :: run in runs ==> FailuresStand(run)
    ensures Continues(env, Start(baseline), runs)
    ensures exists j: nat :: j <= |runs| && SettledSince(env, baseline, runs, area, j)
  {
    var start := Start(baseline);
    FullIsFinal(env, start, runs);
    assert runs[..|runs|] == runs;
    if area in s.pending { PendingIsScheduled(env, s, area); }
    PendingIsUnproven(env, start, runs, area, |runs|);
    var j: nat :| j <= |runs| && ProvenAt(env, start, runs, area, |runs|, j);
    ProvenIsSettled(env, baseline, runs, area, j);
  }

  /** Tests left unproven since the last checkpoint are always selected again. */
  lemma UnprovenIsReselected(env: Env, baseline: Run, runs: seq<Run>, s: State, test: TestFile)
    requires After(env, Start(baseline), runs) == Continue(s) && Answer(env, s).Incremental?
    ensures Continues(env, Start(baseline), runs)
    ensures Outstanding(env, Start(baseline), runs, test, |runs|) ==> test in Answer(env, s).tests
  {
    FullIsFinal(env, Start(baseline), runs);
    assert runs[..|runs|] == runs;
    TestsAreOutstanding(env, Start(baseline), runs, test, |runs|);
  }

  // ---------------------------------------------------------------- the baseline and the runs after it

  lemma {:induction false} NewerAre(history: seq<Run>, id: nat)
    ensures forall run :: run in Newer(history, id) <==> run in history && run.id > id
    decreases |history|
  {
    if history != [] {
      NewerAre(history[1..], id);
      assert forall run :: run in history <==> run == history[0] || run in history[1..];
    }
  }

  ghost predicate OldestFirst(runs: seq<Run>) {
    forall i, j :: 0 <= i < j < |runs| ==> runs[i].id <= runs[j].id
  }

  lemma {:induction false} NewerOldestFirst(history: seq<Run>, id: nat)
    requires Sorted(NewerFirst, history)
    ensures OldestFirst(Newer(history, id))
    decreases |history|
  {
    if history != [] {
      var rest := history[1..];
      assert Sorted(NewerFirst, rest);
      NewerOldestFirst(rest, id);
      NewerAre(rest, id);
      var runs := Newer(rest, id);
      forall i | 0 <= i < |runs| ensures runs[i].id <= history[0].id {
        assert runs[i] in rest;
        var k :| 0 <= k < |rest| && rest[k] == runs[i];
        assert NewerFirst(history[0], history[k + 1]);
      }
    }
  }

  lemma {:induction false} BaselineIsNewest(env: Env, history: seq<Run>)
    requires Sorted(NewerFirst, history) && Baseline(env, history).Some?
    ensures var baseline := Baseline(env, history).value;
            && baseline in history && FullAttempt(baseline, env.sameConfiguration(baseline.head))
            && forall run :: run in history && run.id > baseline.id ==>
                 !FullAttempt(run, env.sameConfiguration(run.head))
    decreases |history|
  {
    if FullAttempt(history[0], env.sameConfiguration(history[0].head)) {
      forall run | run in history ensures run.id <= history[0].id {
        var k :| 0 <= k < |history| && history[k] == run;
        if k > 0 { assert NewerFirst(history[0], history[k]); }
      }
    } else {
      assert Sorted(NewerFirst, history[1..]);
      BaselineIsNewest(env, history[1..]);
    }
  }

  /** The runs after the newest full attempt, oldest first, and where the fold over them ends. */
  ghost predicate FoldedFrom(env: Env, input: seq<Run>, baseline: Run, runs: seq<Run>, s: State) {
    && baseline in input && FullAttempt(baseline, env.sameConfiguration(baseline.head))
    && (forall run :: run in runs <==> run in input && run.id > baseline.id)
    && (forall run :: run in runs ==> !FullAttempt(run, env.sameConfiguration(run.head)))
    && OldestFirst(runs)
    && After(env, Start(baseline), runs) == Continue(s)
  }

  lemma SelectionFromBaseline(env: Env, event: bool, input: seq<Run>)
    requires Select(env, event, input).Incremental?
    ensures var history := SortBy(NewerFirst, input);
            Baseline(env, history).Some?
            && Select(env, event, input) == FromBaseline(env, history, Baseline(env, history).value)
  {
    hide FromBaseline, Baseline, SortBy, OnlyDocumentation;
  }

  lemma SortedHistory(input: seq<Run>)
    ensures Sorted(NewerFirst, SortBy(NewerFirst, input))
    ensures forall run :: run in SortBy(NewerFirst, input) <==> run in input
  {
    var history := SortBy(NewerFirst, input);
    SortSorts(NewerFirst, input);
    SortKeepsElements(NewerFirst, input);
    hide SortBy;
    forall run ensures run in history <==> run in input {
      assert run in multiset(history) <==> run in multiset(input);
    }
  }

  lemma SelectionFolds(env: Env, event: bool, input: seq<Run>) returns (baseline: Run, runs: seq<Run>, s: State)
    requires Select(env, event, input).Incremental?
    ensures FoldedFrom(env, input, baseline, runs, s) && Select(env, event, input) == Answer(env, s)
  {
    hide Select, After, Answer, Start, Newer, Baseline, UnknownFailureIn, FullAttempt, SortBy, Sorted;
    var history := SortBy(NewerFirst, input);
    SelectionFromBaseline(env, event, input);
    SortedHistory(input);
    baseline := Baseline(env, history).value;
    BaselineIsNewest(env, history);
    runs := Newer(history, baseline.id);
    NewerAre(history, baseline.id);
    NewerOldestFirst(history, baseline.id);
    s := After(env, Start(baseline), runs).state;
  }

  /**
    Over every history in which no run follows the failure of an area with a success of it, an
    incremental selection omits an area only if it is settled since the newest full attempt or a
    later run, and it reselects every affected test left unproven since the last checkpoint.
  */
  lemma SelectionOmitsOnlySettledWork(env: Env, event: bool, input: seq<Run>, area: Name, test: TestFile)
    returns (baseline: Run, runs: seq<Run>, s: State)
    requires Select(env, event, input).Incremental? && Known(area)
    requires forall run :: run in input ==> FailuresStand(run)
    ensures FoldedFrom(env, input, baseline, runs, s) && Continues(env, Start(baseline), runs)
    ensures Schedules(Select(env, event, input), area)
         || exists j: nat :: j <= |runs| && SettledSince(env, baseline, runs, area, j)
    ensures Outstanding(env, Start(baseline), runs, test, |runs|) ==> test in Select(env, event, input).tests
  {
    baseline, runs, s := SelectionFolds(env, event, input);
    hide Select, After, Answer, Start, Schedules, Outstanding, SettledSince, Continues;
    UnprovenIsReselected(env, baseline, runs, s, test);
    if !Schedules(Select(env, event, input), area) {
      OmittedIsSettled(env, baseline, runs, s, area);
    }
  }

  predicate UniqueNames(run: Run) {
    forall i, j :: 0 <= i < j < |run.jobs| ==> run.jobs[i].name != run.jobs[j].name
  }

  lemma UniqueNamesStand(run: Run)
    requires UniqueNames(run)
    ensures FailuresStand(run)
  {
  }

  /** The same for every history in which no run has two jobs of one name. */
  lemma UniqueNamesOmitOnlySettledWork(env: Env, event: bool, input: seq<Run>, area: Name, test: TestFile)
    returns (baseline: Run, runs: seq<Run>, s: State)
    requires Select(env, event, input).Incremental? && Known(area)
    requires forall run :: run in input ==> UniqueNames(run)
    ensures FoldedFrom(env, input, baseline, runs, s) && Continues(env, Start(baseline), runs)
    ensures Schedules(Select(env, event, input), area)
         || exists j: nat :: j <= |runs| && SettledSince(env, baseline, runs, area, j)
    ensures Outstanding(env, Start(baseline), runs, test, |runs|) ==> test in Select(env, event, input).tests
  {
    hide Select, After, Answer, Start, Schedules, Outstanding, SettledSince, Continues, UniqueNames, FailuresStand;
    forall run | run in input ensures FailuresStand(run) {
      UniqueNamesStand(run);
    }
    baseline, runs, s := SelectionOmitsOnlySettledWork(env, event, input, area, test);
  }

  // ---------------------------------------------------------------- a failure that is dropped

  lemma {:induction false} ThoseOfNone(names: seq<Name>)
    ensures Those(names, {}) == []
  {
    if names != [] { ThoseOfNone(names[1..]); }
  }

  function Done(name: Name): Job {
    Job(name, false, Success, false)
  }

  lemma {:induction false} MatchingOne(jobs: seq<Job>, i: nat)
    requires i < |jobs| && forall j :: 0 <= j < |jobs| && j != i ==> jobs[j].name != jobs[i].name
    ensures Matching(jobs, jobs[i].name) == [jobs[i]]
  {
    if i > 0 {
      assert jobs[1..][i - 1] == jobs[i];
      MatchingOne(jobs[1..], i - 1);
    } else {
      MatchingNone(jobs[1..], jobs[0].name);
    }
  }

  lemma {:induction false} MatchingNone(jobs: seq<Job>, name: Name)
    requires forall j :: 0 <= j < |jobs| ==> jobs[j].name != name
    ensures Matching(jobs, name) == []
  {
    if jobs != [] { MatchingNone(jobs[1..], name); }
  }

  /** What a run has to do for a changed test when nothing is pending. */
  const Usual: seq<Name> :=
    [Detect, Static, SelectedAcceptance, AffectedLinux, Affected(MacOs), Affected(Windows)]

  /** A run that did all that, and then two website jobs, of which the first failed. */
  function TwiceWebsite(): Run {
    Run(2, "b", true, Success,
        seq(6, i requires 0 <= i < 6 => Done(Usual[i])) + [Job(Website, false, Failure, false), Done(Website)])
  }

  function OneTestChanged(): Env {
    Env("c", "a", {"t"}, (older, newer) => true, (older, newer) => [TestPath("t")], head => true, true)
  }

  lemma UsuallyRequired(delta: Option<Scope>)
    requires !RunsAllTests(delta)
    ensures Required(delta, {}) == Usual
  {
    hide ConsumerAreas;
    ThoseOfNone(ConsumerAreas());
    ThoseOfNone(NativeAreas);
  }

  lemma OneTestScope()
    ensures ScopeOf([TestPath("t")], {"t"}) == Some(Scope({"t"}, false))
  {
    var files := [TestPath("t")];
    var available: set<TestFile> := {"t"};
    assert files[1..] == [] && "t" in available && available != {};
    assert {} + {"t"} == available;
    assert ScopeFrom(files, available, Scope({}, false)) == ScopeFrom([], available, Scope(available, false));
  }

  lemma TwiceWebsiteDid(i: nat)
    requires i < 6
    ensures HasSuccess(TwiceWebsite(), Usual[i])
  {
    var jobs := TwiceWebsite().jobs;
    assert jobs[6].name == Website && jobs[7].name == Website;
    assert forall j :: 0 <= j < 6 ==> jobs[j] == Done(Usual[j]);
    MatchingOne(jobs, i);
  }

  lemma TwiceWebsiteCovers(s: State)
    requires s.pending == {}
    ensures Covered(OneTestChanged(), s, TwiceWebsite())
  {
    var env, run := OneTestChanged(), TwiceWebsite();
    assert env.diff(s.checkpoint, run.head) == [TestPath("t")] && env.available == {"t"};
    assert env.sameConfiguration(run.head) && run.conclusion == Success;
    hide TwiceWebsite, OneTestChanged, HasSuccess, Required, ScopeOf;
    OneTestScope();
    UsuallyRequired(Delta(env, s, run));
    forall name | name in Usual ensures HasSuccess(run, name) {
      var i :| 0 <= i < 6 && Usual[i] == name;
      TwiceWebsiteDid(i);
    }
  }

  lemma TwiceWebsiteLast()
    ensures LastSucceeds(TwiceWebsite().jobs, Website) && FailedIn(TwiceWebsite(), Website)
    ensures forall job :: job in TwiceWebsite().jobs ==> Known(job.name) || job.conclusion == Success
  {
    hide QualificationNames, IsArea;
    var jobs := TwiceWebsite().jobs;
    assert jobs[6] in jobs && jobs[6] == Job(Website, false, Failure, false);
    assert |jobs| == 8 && jobs[7] == Done(Website);
    forall job | job in jobs ensures Known(job.name) || job.conclusion == Success {
      var i :| 0 <= i < 8 && jobs[i] == job;
      if i < 6 { assert jobs[i] == Done(Usual[i]); }
    }
    hide TwiceWebsite;
    LastJobRan(jobs, Website);
  }

  lemma CoveredStepContinues(env: Env, s: State, run: Run)
    requires Covered(env, s, run) && env.ancestor(s.checkpoint, run.head)
    requires forall job :: job in run.jobs ==> Known(job.name) || job.conclusion == Success
    ensures Step(env, s, run).Continue?
  {
    var delta := Delta(env, s, run);
    KeepsNothing(Required(delta, s.pending), run, delta, s);
    AllCounted(run.jobs, delta, s);
  }

  /** Work that failed in a run can be dropped by it: a second job of the same area succeeds later. */
  lemma RepeatedNameDropsFailure(s: State)
    requires s == State("a", {}, {})
    ensures Step(OneTestChanged(), s, TwiceWebsite()).Continue?
    ensures Known(Website) && FailedIn(TwiceWebsite(), Website)
    ensures Website !in Step(OneTestChanged(), s, TwiceWebsite()).state.pending
  {
    var env, run := OneTestChanged(), TwiceWebsite();
    assert env.ancestor(s.checkpoint, run.head);
    hide OneTestChanged, TwiceWebsite, Step, Covered, LastSucceeds, FailedIn, Missed, QualificationNames;
    TwiceWebsiteCovers(s);
    TwiceWebsiteLast();
    CoveredStepContinues(env, s, run);
    PendingAfterRun(env, s, run, Website);
  }

  /** An earlier run in which everything succeeded, without a website. */
  function EverythingDone(): Run {
    Run(1, "a", true, Success, DoneJobs(QualificationNames()))
  }

  function DoneJobs(names: seq<Name>): (jobs: seq<Job>)
    ensures |jobs| == |names| && forall i :: 0 <= i < |names| ==> jobs[i] == Done(names[i])
  {
    seq(|names|, i requires 0 <= i < |names| => Done(names[i]))
  }

  lemma QualificationsDiffer(i: nat, j: nat)
    requires i < j < |QualificationNames()|
    ensures QualificationNames()[i] != QualificationNames()[j] && QualificationNames()[j] != Website
    ensures QualificationNames()[i] != Website
  {
    var names := QualificationNames();
    assert |names| == 22 && names[0] == Coverage;
    assert forall k :: 1 <= k < 7 ==> names[k] == ShardAreas[k - 1];
    assert forall k :: 7 <= k < 19 ==> names[k] == Consumer(k - 7);
    assert forall k :: 19 <= k < 22 ==> names[k] == NativeAreas[k - 19];
    assert forall a, b :: 0 <= a < b < 6 ==> ShardAreas[a] != ShardAreas[b];
    assert forall a, b :: 0 <= a < b < 3 ==> NativeAreas[a] != NativeAreas[b];
  }

  lemma EverythingSucceeded(i: nat)
    requires i < |QualificationNames()|
    ensures Matching(EverythingDone().jobs, QualificationNames()[i]) == [Done(QualificationNames()[i])]
    ensures QualificationNames()[i] != Website
  {
    var names, jobs := QualificationNames(), EverythingDone().jobs;
    hide QualificationNames;
    forall j | 0 <= j < |names| && j != i ensures names[j] != names[i] {
      if i < j { QualificationsDiffer(i, j); } else { QualificationsDiffer(j, i); }
    }
    MatchingOne(jobs, i);
    WebsiteIsNoQualification(i);
  }

  lemma WebsiteIsNoQualification(i: nat)
    requires i < |QualificationNames()|
    ensures QualificationNames()[i] != Website
  {
    assert |QualificationNames()| == 22;
    if i > 0 { QualificationsDiffer(0, i); } else { QualificationsDiffer(0, 1); }
  }

  lemma EverythingDoneStarts()
    ensures FullAttempt(EverythingDone(), true) && !UnknownFailureIn(EverythingDone())
    ensures Start(EverythingDone()) == State("a", {}, {})
  {
    var names, run := QualificationNames(), EverythingDone();
    hide QualificationNames;
    forall name | name in names ensures Matching(run.jobs, name) == [Done(name)] {
      var i :| 0 <= i < |names| && names[i] == name;
      EverythingSucceeded(i);
    }
    forall job | job in run.jobs ensures job.conclusion == Success && !job.websiteProof && job.name != Website {
      var i :| 0 <= i < |names| && run.jobs[i] == job;
      WebsiteIsNoQualification(i);
    }
    assert !RequestsWebsite(run);
  }

  lemma TwiceWebsiteIsNoAttempt()
    ensures !FullAttempt(TwiceWebsite(), true)
  {
    var jobs := TwiceWebsite().jobs;
    assert Coverage == QualificationNames()[0] && Coverage in QualificationNames();
    forall j | 0 <= j < |jobs| ensures jobs[j].name != Coverage && jobs[j].name != FullAcceptance {
      if j < 6 { assert jobs[j] == Done(Usual[j]); }
    }
    MatchingNone(jobs, Coverage);
    MatchingNone(jobs, FullAcceptance);
  }

  /** That history: everything done at first, then a run with a failed and a successful website job. */
  function TwiceHistory(): seq<Run> {
    [TwiceWebsite(), EverythingDone()]
  }

  lemma TwiceHistoryIsSorted()
    ensures SortBy(NewerFirst, TwiceHistory()) == TwiceHistory()
    ensures Newer(TwiceHistory(), 1) == [TwiceWebsite()]
  {
    var a, b := TwiceWebsite(), EverythingDone();
    assert a.id == 2 && b.id == 1;
    hide TwiceWebsite, EverythingDone;
    assert [a, b][..1] == [a] && [a, b][1..] == [b] && [b][1..] == [] && [b][..0] == [] && [a][..0] == [];
  }

  lemma TwiceBaseline()
    ensures Baseline(OneTestChanged(), TwiceHistory()) == Some(EverythingDone())
  {
    TwiceWebsiteIsNoAttempt();
    EverythingDoneStarts();
    var env, history := OneTestChanged(), TwiceHistory();
    assert history[1..] == [EverythingDone()];
    assert env.sameConfiguration("a") && env.sameConfiguration("b");
    hide FullAttempt;
  }

  /** Select reaches the search for the baseline. */
  ghost predicate Accepted(env: Env, history: seq<Run>) {
    && |set run | run in history :: run.id| == |history|
    && (forall run :: run in history ==> run.provenance && env.ancestor(run.head, env.head) && run.jobs != [])
    && !DocumentationOnly(env.diff(env.base, env.head))
  }

  lemma SelectsFrom(env: Env, input: seq<Run>, history: seq<Run>, baseline: Run)
    requires history == SortBy(NewerFirst, input) && Accepted(env, history)
    requires Baseline(env, history) == Some(baseline)
    ensures Select(env, true, input) == FromBaseline(env, history, baseline)
  {
    hide SortBy, Baseline, FromBaseline, DocumentationOnly;
  }

  lemma FromBaselineOne(env: Env, history: seq<Run>, baseline: Run, run: Run, s: State)
    requires !UnknownFailureIn(baseline) && Newer(history, baseline.id) == [run]
    requires Step(env, Start(baseline), run) == Continue(s)
    ensures FromBaseline(env, history, baseline) == Answer(env, s)
  {
    hide Step, Start, Answer, Newer, UnknownFailureIn;
    assert [run][..0] == [] && After(env, Start(baseline), []) == Continue(Start(baseline));
    assert After(env, Start(baseline), [run]) == Continue(s);
  }

  lemma AnswerForOneTest(s: State)
    ensures Answer(OneTestChanged(), s).Incremental?
    ensures Schedules(Answer(OneTestChanged(), s), Website) <==> Website in s.pending
  {
    var env := OneTestChanged();
    OneTestScope();
    assert env.diff(s.checkpoint, env.head) == [TestPath("t")] && env.available == {"t"};
    hide ScopeOf, Those, ConsumerAreas, OneTestChanged;
  }

  lemma TwiceIds()
    ensures (set run | run in TwiceHistory() :: run.id) == {1, 2}
  {
    var history := TwiceHistory();
    assert history[0].id == 2 && history[1].id == 1;
  }

  lemma TwiceAccepted()
    ensures Accepted(OneTestChanged(), TwiceHistory())
  {
    TwiceIds();
    var env, history := OneTestChanged(), TwiceHistory();
    assert env.diff(env.base, env.head) == [TestPath("t")];
    assert !DocumentationOnly([TestPath("t")]) by { assert TestPath("t") in [TestPath("t")]; }
    assert |TwiceWebsite().jobs| == 8 && Coverage == QualificationNames()[0];
    forall run | run in history ensures run.provenance && env.ancestor(run.head, env.head) && run.jobs != [] {
      assert run == TwiceWebsite() || run == EverythingDone();
    }
  }

  lemma TwiceSelects()
    ensures Select(OneTestChanged(), true, TwiceHistory())
         == FromBaseline(OneTestChanged(), TwiceHistory(), EverythingDone())
  {
    hide Select, FromBaseline, TwiceWebsite, EverythingDone, OneTestChanged, TwiceHistory, Accepted;
    TwiceAccepted();
    TwiceHistoryIsSorted();
    TwiceBaseline();
    SelectsFrom(OneTestChanged(), TwiceHistory(), TwiceHistory(), EverythingDone());
  }

  /**
    A whole history after which the selection omits an area that failed in the newest run: the website
    job failed once there and succeeded once, under the same name.
  */
  lemma SelectionDropsAFailure()
    ensures var selection := Select(OneTestChanged(), true, TwiceHistory());
            selection.Incremental? && !Schedules(selection, Website)
    ensures TwiceHistory()[0] == TwiceWebsite() && FailedIn(TwiceWebsite(), Website)
  {
    var env, run, baseline := OneTestChanged(), TwiceWebsite(), EverythingDone();
    assert baseline.id == 1;
    hide Select, Step, TwiceWebsite, EverythingDone, FailedIn, Start, UnknownFailureIn, Newer, FullAttempt;
    hide OneTestChanged, SortBy, FromBaseline, Answer, Known;
    TwiceSelects();
    EverythingDoneStarts();
    TwiceHistoryIsSorted();
    RepeatedNameDropsFailure(Start(baseline));
    var s := Step(env, Start(baseline), run).state;
    FromBaselineOne(env, TwiceHistory(), baseline, run, s);
    AnswerForOneTest(s);
  }

  lemma {:induction false} LastJobRan(jobs: seq<Job>, area: Name)
    requires jobs != [] && jobs[|jobs| - 1].name == area && jobs[|jobs| - 1].conclusion != Skipped
    ensures LastRan(jobs, area) == Some(jobs[|jobs| - 1].conclusion)
    decreases |jobs|
  {
    if |jobs| > 1 { LastJobRan(jobs[1..], area); }
  }

  lemma {:induction false} KeepsNothing(names: seq<Name>, run: Run, delta: Option<Scope>, s: State)
    requires forall name :: name in names ==> HasSuccess(run, name)
    ensures KeepMissing(names, run, delta, s) == Continue(s)
    decreases |names|
  {
    if names != [] { KeepsNothing(names[1..], run, delta, s); }
  }

  lemma {:induction false} AllCounted(jobs: seq<Job>, delta: Option<Scope>, s: State)
    requires forall job :: job in jobs ==> Known(job.name) || job.conclusion == Success
    ensures CountJobs(jobs, delta, true, s).Continue?
    decreases |jobs|
  {
    if jobs != [] { AllCounted(jobs[1..], delta, CountJob(jobs[0], delta, true, s).state); }
  }

  // ---------------------------------------------------------------- the code as it runs

  method FindScope(files: seq<File>, available: set<TestFile>) returns (found: Option<Scope>)
    ensures found == ScopeOf(files, available)
  {
    if available == {} {
      return None;
    }
    var selected: set<TestFile> := {};
    var allTests := false;
    var i := 0;
    while i < |files|
      invariant i <= |files|
      invariant ScopeFrom(files, available, Scope({}, false))
             == ScopeFrom(files[i..], available, Scope(selected, allTests))
    {
      match files[i] {
        case TestPath(test) =>
          if test !in available {
            return None;
          }
          selected := selected + {test};
        case OrdinarySource(_) =>
          allTests := true;
        case _ =>
          return None;
      }
      assert files[i..][1..] == files[i + 1..];
      i := i + 1;
    }
    found := if allTests || selected != {} then Some(Scope(selected, allTests)) else None;
  }

  method KeepMissingWork(required: seq<Name>, run: Run, delta: Option<Scope>, s: State) returns (outcome: Outcome)
    ensures outcome == KeepMissing(required, run, delta, s)
  {
    var pending, tests := s.pending, s.tests;
    var i := 0;
    while i < |required|
      invariant i <= |required|
      invariant KeepMissing(required, run, delta, s)
             == KeepMissing(required[i..], run, delta, State(s.checkpoint, pending, tests))
    {
      var name := required[i];
      assert required[i..][0] == name && required[i..][1..] == required[i + 1..];
      if !HasSuccess(run, name) {
        if Known(name) {
          pending := pending + {name};
        } else if IsAffected(name) {
          if delta.None? {
            return Full(IncompleteScope, false);
          }
          tests := tests + delta.value.tests;
        }
      }
      i := i + 1;
    }
    outcome := Continue(State(s.checkpoint, pending, tests));
  }

  method CountAllJobs(jobs: seq<Job>, delta: Option<Scope>, covered: bool, s: State) returns (outcome: Outcome)
    ensures outcome == CountJobs(jobs, delta, covered, s)
  {
    var pending, tests := s.pending, s.tests;
    var i := 0;
    while i < |jobs|
      invariant i <= |jobs|
      invariant CountJobs(jobs, delta, covered, s)
             == CountJobs(jobs[i..], delta, covered, State(s.checkpoint, pending, tests))
    {
      var job := jobs[i];
      assert jobs[i..][0] == job && jobs[i..][1..] == jobs[i + 1..];
      if job.conclusion == Success {
        if Known(job.name) && covered {
          pending := pending - {job.name};
        }
      } else if job.conclusion != Skipped {
        if Known(job.name) {
          pending := pending + {job.name};
        } else if IsAffected(job.name) && !job.nested {
          if delta.None? {
            return Full(FailedScope, false);
          }
          tests := tests + delta.value.tests;
        } else if !(job.name in {Detect, Static, SelectedAcceptance, FullAcceptance} && !job.nested) {
          return Full(UnknownFailure, true);
        }
      }
      i := i + 1;
    }
    outcome := Continue(State(s.checkpoint, pending, tests));
  }

  /** One pass of the main loop: what the run changes in checkpoint, pending areas and pending tests. */
  method FoldRun(env: Env, s: State, run: Run) returns (outcome: Outcome)
    ensures outcome == Step(env, s, run)
  {
    if !env.ancestor(s.checkpoint, run.head) {
      return Full(Rebased, false);
    }
    var delta := FindScope(env.diff(s.checkpoint, run.head), env.available);
    var required := Required(delta, s.pending);
    var covered := delta.Some? && run.conclusion == Success && env.sameConfiguration(run.head)
                   && forall name :: name in required ==> HasSuccess(run, name);
    outcome := KeepMissingWork(required, run, delta, s);
    if outcome.Continue? {
      outcome := CountAllJobs(run.jobs, delta, covered, outcome.state);
    }
    if outcome.Continue? && covered {
      outcome := Continue(State(run.head, outcome.state.pending, {}));
    }
  }

  lemma {:induction false} FullStays(env: Env, start: State, runs: seq<Run>, k: nat)
    requires k <= |runs| && After(env, start, runs[..k]).Full?
    ensures After(env, start, runs) == After(env, start, runs[..k])
    decreases |runs|
  {
    if k == |runs| {
      assert runs[..k] == runs;
    } else {
      var n := |runs| - 1;
      assert runs[..n][..k] == runs[..k];
      FullStays(env, start, runs[..n], k);
    }
  }

  /** selectCi. */
  method SelectCi(env: Env, event: bool, input: seq<Run>) returns (selection: Selection)
    ensures selection == Select(env, event, input)
  {
    if !event {
      return FullQualification(InvalidEvent, false);
    }
    var history := SortBy(NewerFirst, input);
    if |set run | run in history :: run.id| != |history| {
      return FullQualification(DuplicateHistory, false);
    }
    if exists run :: run in history && !(run.provenance && env.ancestor(run.head, env.head) && run.jobs != []) {
      return FullQualification(BadHistory, false);
    }
    if OnlyDocumentation(env, history) {
      return NoPackage;
    }
    var found := Baseline(env, history);
    if found.None? {
      return FullQualification(NoBaseline, !(env.historyComplete && history == []));
    }
    var baseline := found.value;
    if UnknownFailureIn(baseline) {
      return FullQualification(UnknownBaselineFailure, true);
    }
    var runs, start := Newer(history, baseline.id), Start(baseline);
    assert Select(env, event, input) == FromBaseline(env, history, baseline);
    hide Select, SortBy, Baseline, Newer, Start, Answer, Step, OnlyDocumentation, UnknownFailureIn;
    var state := start;
    var k := 0;
    while k < |runs|
      invariant k <= |runs|
      invariant After(env, start, runs[..k]) == Continue(state)
    {
      var outcome := FoldRun(env, state, runs[k]);
      assert runs[..k + 1][..k] == runs[..k];
      assert After(env, start, runs[..k + 1]) == outcome;
      if outcome.Full? {
        FullStays(env, start, runs, k + 1);
        return FullQualification(outcome.reason, outcome.website);
      }
      state := outcome.state;
      k := k + 1;
    }
    assert runs[..|runs|] == runs;
    selection := Answer(env, state);
  }
}
