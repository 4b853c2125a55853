/**
  What a CI selection schedules and when there is one (scripts/testing/ci-selection.ts), both ways round:
  by the files that changed since the checkpoint, by the jobs of the earlier runs, and by nothing else.
*/
module CiExactness {
  import opened Options
  import opened Sorting
  import opened CiSelection

  // ---------------------------------------------------------------- the scope of a change

  /** Every changed file is a test that still exists or an ordinary source file. */
  predicate Reducible(files: seq<File>, available: set<TestFile>) {
    && available != {} && files != []
    && forall f :: f in files ==> Tractable(f, available)
  }

  predicate Tractable(f: File, available: set<TestFile>) {
    (f.TestPath? && f.test in available) || f.OrdinarySource?
  }

  predicate TouchesSource(files: seq<File>) {
    exists f :: f in files && f.OrdinarySource?
  }

  function ChangedTests(files: seq<File>): set<TestFile> {
    set f | f in files && f.TestPath? :: f.test
  }

  lemma {:induction false} ScopeFromExactly(files: seq<File>, available: set<TestFile>, s: Scope)
    ensures ScopeFrom(files, available, s) ==
              if forall f :: f in files ==> Tractable(f, available)
              then Some(Scope(s.tests + ChangedTests(files), s.allTests || TouchesSource(files))) else None
  {
    if files == [] {
      assert s.tests + ChangedTests(files) == s.tests && !TouchesSource(files);
    } else {
      var f, rest := files[0], files[1..];
      assert forall g :: g in files <==> g == f || g in rest;
      if Tractable(f, available) {
        var next := if f.TestPath? then s.(tests := s.tests + {f.test}) else s.(allTests := true);
        ScopeFromExactly(rest, available, next);
        assert ChangedTests(files) == ChangedTests(rest) + if f.TestPath? then {f.test} else {};
        assert s.tests + ChangedTests(files) == next.tests + ChangedTests(rest);
      }
    }
  }

  /** The scope of a change: its tests, and all tests if it touches source; nothing else has a scope. */
  lemma ScopeExactly(files: seq<File>, available: set<TestFile>)
    ensures ScopeOf(files, available) ==
              if Reducible(files, available) then Some(Scope(ChangedTests(files), TouchesSource(files))) else None
  {
    ScopeFromExactly(files, available, Scope({}, false));
    assert {} + ChangedTests(files) == ChangedTests(files);
    if files == [] {
      assert ChangedTests(files) == {};
    } else if Reducible(files, available) {
      assert files[0] in files && Tractable(files[0], available);
      if files[0].TestPath? { assert files[0].test in ChangedTests(files); }
    }
  }

  // ---------------------------------------------------------------- names and jobs

  predicate Qualifies(name: Name) {
    || name == Coverage || (name.Shard? && name.shard < SHARDS) || (name.Consumer? && name.k < CONSUMERS)
    || name.Native?
  }

  lemma ConsumersAre(name: Name)
    ensures name in ConsumerAreas() <==> name.Consumer? && name.k < CONSUMERS
  {
    if name.Consumer? && name.k < CONSUMERS { assert ConsumerAreas()[name.k] == name; }
  }

  lemma NativesAre(name: Name)
    ensures name in NativeAreas <==> name.Native?
  {
    assert NativeAreas[0] == Native(Ubuntu);
    assert NativeAreas[1] == Native(On(MacOs)) && NativeAreas[2] == Native(On(Windows));
    if name.Native? && name.on.On? { assert name.on.platform == MacOs || name.on.platform == Windows; }
  }

  lemma ShardsAre(name: Name)
    ensures name in ShardAreas <==> name.Shard? && name.shard < SHARDS
  {
    if name.Shard? && name.shard < SHARDS {
      var k := if name.os == MacOs then name.shard else 3 + name.shard;
      assert ShardAreas[k] == name;
    }
  }

  /** The areas of a full qualification. */
  lemma AreasAre(name: Name)
    ensures IsArea(name) <==> Qualifies(name)
  {
    ConsumersAre(name);
    NativesAre(name);
    ShardsAre(name);
    hide ConsumerAreas;
  }

  /** The i-th job is the only one of this name. */
  ghost predicate Only(jobs: seq<Job>, name: Name, i: nat) {
    i < |jobs| && jobs[i].name == name && forall j :: 0 <= j < |jobs| && j != i ==> jobs[j].name != name
  }

  lemma {:induction false} MatchesAre(jobs: seq<Job>, name: Name)
    ensures Matching(jobs, name) == [] <==> forall j :: 0 <= j < |jobs| ==> jobs[j].name != name
    ensures |Matching(jobs, name)| == 1 <==> exists i: nat :: Only(jobs, name, i)
    ensures forall i: nat :: Only(jobs, name, i) ==> Matching(jobs, name) == [jobs[i]]
  {
    if jobs != [] {
      var rest := jobs[1..];
      MatchesAre(rest, name);
      assert Matching(jobs, name) == (if jobs[0].name == name then [jobs[0]] else []) + Matching(rest, name);
      assert forall j :: 0 < j < |jobs| ==> jobs[j] == rest[j - 1];
      forall i: nat | Only(jobs, name, i) ensures Matching(jobs, name) == [jobs[i]] {
        if i > 0 { assert Only(rest, name, i - 1); }
      }
      if |Matching(jobs, name)| == 1 {
        if jobs[0].name == name {
          assert Only(jobs, name, 0);
        } else {
          var i: nat :| Only(rest, name, i);
          assert Only(jobs, name, i + 1);
        }
      }
    }
  }

  /** The area has exactly one job, and it succeeded. */
  lemma HasSuccessExactly(run: Run, name: Name)
    ensures HasSuccess(run, name) <==> exists i: nat :: Only(run.jobs, name, i) && run.jobs[i].conclusion == Success
  {
    MatchesAre(run.jobs, name);
    hide Matching, Only;
  }

  /** A finished run with every area in exactly one job, or with one summary of a full run under this configuration. */
  lemma FullAttemptExactly(run: Run, sameConfiguration: bool)
    ensures FullAttempt(run, sameConfiguration) <==>
              && run.conclusion != Unfinished
              && (|| (sameConfiguration
                      && exists i: nat :: Only(run.jobs, FullAcceptance, i) && !run.jobs[i].nested
                                     && run.jobs[i].conclusion in {Success, Failure, Cancelled, TimedOut})
                  || forall area :: Qualifies(area) ==> exists i: nat :: Only(run.jobs, area, i))
  {
    MatchesAre(run.jobs, FullAcceptance);
    forall area ensures area in QualificationNames() <==> Qualifies(area) { AreasAre(area); }
    forall area ensures |Matching(run.jobs, area)| == 1 <==> exists i: nat :: Only(run.jobs, area, i) {
      MatchesAre(run.jobs, area);
    }
    if i: nat :| Only(run.jobs, FullAcceptance, i) { assert run.jobs[i] in run.jobs; }
    hide Matching, QualificationNames, Qualifies;
  }

  // ---------------------------------------------------------------- what a run has to do

  /** The work that a change with this scope requires on top of what was pending. */
  predicate Requires(delta: Option<Scope>, pending: set<Name>, name: Name) {
    var all := delta.Some? && delta.value.allTests;
    match name
    case Detect => true
    case Static => true
    case SelectedAcceptance => true
    case Coverage => all || Coverage in pending
    case AffectedLinux => !all && Coverage !in pending
    case Shard(os, k) => k < SHARDS && (all || exists j :: 0 <= j < SHARDS && Shard(os, j) in pending)
    case Affected(os) => !all && forall j :: 0 <= j < SHARDS ==> Shard(os, j) !in pending
    case Consumer(k) => k < CONSUMERS && name in pending
    case Native(_) => name in pending
    case Website => name in pending
    case _ => false
  }

  lemma PlatformJobsAre(os: Platform, delta: Option<Scope>, pending: set<Name>, name: Name)
    ensures name in PlatformJobs(os, RunsAllTests(delta), pending) <==>
              ((name.Shard? || name.Affected?) && name.os == os && Requires(delta, pending, name))
  {
    hide ConsumerAreas;
    var shards := [Shard(os, 0), Shard(os, 1), Shard(os, 2)];
    assert name in shards <==> name.Shard? && name.os == os && name.shard < SHARDS by {
      if name.Shard? && name.os == os && name.shard < SHARDS { assert shards[name.shard] == name; }
    }
  }

  /** Exactly that work is required. */
  lemma RequiredExactly(delta: Option<Scope>, pending: set<Name>, name: Name)
    ensures name in Required(delta, pending) <==> Requires(delta, pending, name)
  {
    PlatformJobsAre(MacOs, delta, pending, name);
    PlatformJobsAre(Windows, delta, pending, name);
    ThoseAre(ConsumerAreas(), pending, name);
    ThoseAre(NativeAreas, pending, name);
    ConsumersAre(name);
    NativesAre(name);
    hide ConsumerAreas, PlatformJobs, Those;
    if name.Shard? || name.Affected? { assert name.os == MacOs || name.os == Windows; }
  }

  /** A job failed that is no area, no test job of the change and none of the jobs every run has. */
  predicate FailsStrangely(run: Run) {
    exists job :: job in run.jobs && job.conclusion !in {Success, Skipped} && Strange(job)
  }

  predicate Strange(job: Job) {
    && !Known(job.name)
    && !(!job.nested && job.name in {Detect, Static, SelectedAcceptance, FullAcceptance})
    && !(!job.nested && IsAffected(job.name))
  }

  lemma {:induction false} MissingContinues(names: seq<Name>, run: Run, delta: Option<Scope>, s: State)
    ensures KeepMissing(names, run, delta, s).Continue? <==>
              (delta.None? ==> forall name :: name in names && IsAffected(name) ==> HasSuccess(run, name))
    decreases |names|
  {
    hide HasSuccess, QualificationNames;
    if names != [] {
      var first := names[0];
      assert IsAffected(first) ==> !Known(first) by { AreasAre(first); }
      assert forall name :: name in names <==> name == first || name in names[1..];
      forall next: State ensures KeepMissing(names[1..], run, delta, next).Continue? <==>
        (delta.None? ==> forall name :: name in names[1..] && IsAffected(name) ==> HasSuccess(run, name))
      {
        MissingContinues(names[1..], run, delta, next);
      }
    }
  }

  lemma {:induction false} CountingContinues(jobs: seq<Job>, delta: Option<Scope>, covered: bool, s: State)
    ensures CountJobs(jobs, delta, covered, s).Continue? <==>
              && (forall job :: job in jobs && job.conclusion !in {Success, Skipped} ==> !Strange(job))
              && (delta.None? ==> forall job :: job in jobs && job.conclusion !in {Success, Skipped} ==>
                                    !(IsAffected(job.name) && !job.nested))
    decreases |jobs|
  {
    hide QualificationNames;
    if jobs != [] {
      var first := jobs[0];
      assert IsAffected(first.name) ==> !Known(first.name) by { AreasAre(first.name); }
      assert forall job :: job in jobs <==> job == first || job in jobs[1..];
      if CountJob(first, delta, covered, s).Continue? {
        CountingContinues(jobs[1..], delta, covered, CountJob(first, delta, covered, s).state);
      }
    }
  }

  /**
    A run can be folded in exactly if the checkpoint is an ancestor of its head, no job of unknown meaning
    failed in it, and the scope of its change is known in case its test jobs are unproven.
  */
  lemma StepContinuesExactly(env: Env, s: State, run: Run)
    ensures Step(env, s, run).Continue? <==>
              && env.ancestor(s.checkpoint, run.head) && !FailsStrangely(run)
              && (AffectedUnproven(env, s, run) ==>
                    Reducible(env.diff(s.checkpoint, run.head), env.available))
  {
    var delta := Delta(env, s, run);
    ScopeExactly(env.diff(s.checkpoint, run.head), env.available);
    MissingContinues(Required(delta, s.pending), run, delta, s);
    hide Required, HasSuccess, Strange, Reducible, Covered, ScopeOf;
    var kept := KeepMissing(Required(delta, s.pending), run, delta, s);
    if kept.Continue? { CountingContinues(run.jobs, delta, Covered(env, s, run), kept.state); }
  }

  // ---------------------------------------------------------------- what is scheduled

  /** The head of the last run that advanced the checkpoint, or that of the baseline. */
  ghost predicate IsCheckpoint(env: Env, start: State, runs: seq<Run>, n: nat, checkpoint: Commit)
    requires n <= |runs| && Continues(env, start, runs)
  {
    || (checkpoint == start.checkpoint && forall k: nat :: k < n ==> !Advances(env, start, runs, k))
    || exists k: nat :: k < n && Advances(env, start, runs, k) && checkpoint == runs[k].head
                        && forall m: nat :: k < m < n ==> !Advances(env, start, runs, m)
  }

  /** Everything required of the run succeeded, under the present configuration. */
  ghost predicate Advances(env: Env, start: State, runs: seq<Run>, k: nat)
    requires k < |runs| && Continues(env, start, runs)
  {
    Covered(env, Before(env, start, runs, k), runs[k])
  }

  lemma {:induction false} CheckpointIs(env: Env, start: State, runs: seq<Run>, n: nat)
    requires n <= |runs| && Continues(env, start, runs)
    ensures IsCheckpoint(env, start, runs, n, Before(env, start, runs, n).checkpoint)
  {
    if n == 0 {
      FirstCheckpoint(env, start, runs);
    } else {
      hide Before, Continues, Step, IsCheckpoint, Covered;
      CheckpointIs(env, start, runs, n - 1);
      NextState(env, start, runs, n - 1);
      CheckpointAfterRun(env, Before(env, start, runs, n - 1), runs[n - 1]);
      CheckpointNext(env, start, runs, n - 1);
    }
  }

  lemma FirstCheckpoint(env: Env, start: State, runs: seq<Run>)
    requires Continues(env, start, runs)
    ensures IsCheckpoint(env, start, runs, 0, Before(env, start, runs, 0).checkpoint)
  {
    assert runs[..0] == [];
    hide Step;
  }

  lemma CheckpointAfterRun(env: Env, s: State, run: Run)
    requires Step(env, s, run).Continue?
    ensures Step(env, s, run).state.checkpoint == if Covered(env, s, run) then run.head else s.checkpoint
  {
    TestsAfterRun(env, s, run, "");
    hide Step, Covered;
  }

  lemma CheckpointNext(env: Env, start: State, runs: seq<Run>, n: nat)
    requires n < |runs| && Continues(env, start, runs)
    requires IsCheckpoint(env, start, runs, n, Before(env, start, runs, n).checkpoint)
    requires Before(env, start, runs, n + 1).checkpoint
          == if Advances(env, start, runs, n) then runs[n].head else Before(env, start, runs, n).checkpoint
    ensures IsCheckpoint(env, start, runs, n + 1, Before(env, start, runs, n + 1).checkpoint)
  {
    hide Before, Covered, Continues, Advances;
    var was := Before(env, start, runs, n).checkpoint;
    if !Advances(env, start, runs, n) {
      if k: nat :| k < n && Advances(env, start, runs, k) && was == runs[k].head
                   && forall m: nat :: k < m < n ==> !Advances(env, start, runs, m) {
        assert forall m: nat :: k < m < n + 1 ==> !Advances(env, start, runs, m);
      }
    }
  }

  /** The area has to be done again: it is not proven, or the change touches source and it runs all tests. */
  ghost predicate Due(env: Env, baseline: Run, runs: seq<Run>, files: seq<File>, area: Name)
    requires Continues(env, Start(baseline), runs)
  {
    var start, n := Start(baseline), |runs|;
    match area
    case Coverage => TouchesSource(files) || !Proven(env, start, runs, area, n)
    case Shard(os, _) =>
      TouchesSource(files) || exists k :: 0 <= k < SHARDS && !Proven(env, start, runs, Shard(os, k), n)
    case _ => !Proven(env, start, runs, area, n)
  }

  lemma AnswerExactly(env: Env, s: State, area: Name)
    requires Known(area)
    ensures var files := env.diff(s.checkpoint, env.head);
            && (Answer(env, s).Incremental? <==> Reducible(files, env.available))
            && (Answer(env, s).Incremental? ==>
                  && Answer(env, s).tests == ChangedTests(files) + s.tests
                  && (Schedules(Answer(env, s), area) <==>
                        match area
                        case Coverage => TouchesSource(files) || area in s.pending
                        case Shard(os, _) => TouchesSource(files) || ShardsPending(os, s.pending)
                        case _ => area in s.pending))
  {
    ScopeExactly(env.diff(s.checkpoint, env.head), env.available);
    ThoseAre(ConsumerAreas(), s.pending, area);
    ThoseAre(NativeAreas, s.pending, area);
    AreasAre(area);
    ConsumersAre(area);
    NativesAre(area);
    hide ScopeOf, ConsumerAreas, QualificationNames, Those, ChangedTests, TouchesSource, ShardsPending;
    if area.Shard? { assert area.os == MacOs || area.os == Windows; }
  }

  lemma DueMeans(env: Env, baseline: Run, runs: seq<Run>, s: State, files: seq<File>, area: Name)
    requires After(env, Start(baseline), runs) == Continue(s) && Continues(env, Start(baseline), runs) && Known(area)
    ensures Due(env, baseline, runs, files, area) <==>
              match area
              case Coverage => TouchesSource(files) || area in s.pending
              case Shard(os, _) => TouchesSource(files) || ShardsPending(os, s.pending)
              case _ => area in s.pending
  {
    assert runs[..|runs|] == runs;
    PendingIsUnproven(env, Start(baseline), runs, area, |runs|);
    if area.Shard? {
      forall k | 0 <= k < SHARDS
        ensures Shard(area.os, k) in s.pending <==> !Proven(env, Start(baseline), runs, Shard(area.os, k), |runs|)
      {
        AreasAre(Shard(area.os, k));
        PendingIsUnproven(env, Start(baseline), runs, Shard(area.os, k), |runs|);
      }
    }
    hide Proven, After, Start, TouchesSource, QualificationNames;
  }

  /**
    An incremental selection, exactly: with the files changed since the checkpoint, it selects the tests
    among them and the tests left unproven since then, and nothing else; and it schedules an area exactly
    if it is not proven, or the change touches source and the area runs all tests.
  */
  lemma SelectionExactly(env: Env, event: bool, input: seq<Run>, area: Name)
    returns (baseline: Run, runs: seq<Run>, s: State)
    requires Select(env, event, input).Incremental? && Known(area)
    ensures FoldedFrom(env, input, baseline, runs, s) && Continues(env, Start(baseline), runs)
    ensures IsCheckpoint(env, Start(baseline), runs, |runs|, s.checkpoint)
    ensures var selection, files := Select(env, event, input), env.diff(s.checkpoint, env.head);
            && Reducible(files, env.available)
            && (forall test :: test in selection.tests <==>
                  TestPath(test) in files || Outstanding(env, Start(baseline), runs, test, |runs|))
            && (Schedules(selection, area) <==> Due(env, baseline, runs, files, area))
  {
    baseline, runs, s := SelectionFolds(env, event, input);
    var files := env.diff(s.checkpoint, env.head);
    FullIsFinal(env, Start(baseline), runs);
    assert runs[..|runs|] == runs;
    CheckpointIs(env, Start(baseline), runs, |runs|);
    AnswerExactly(env, s, area);
    DueMeans(env, baseline, runs, s, files, area);
    hide Select, Answer, After, Due, Schedules, Continues, IsCheckpoint, Reducible, TouchesSource;
    forall test ensures test in Select(env, event, input).tests <==>
        TestPath(test) in files || Outstanding(env, Start(baseline), runs, test, |runs|)
    {
      ChangedAndOutstanding(env, baseline, runs, s, files, test);
    }
  }

  lemma ChangedAndOutstanding(
    env: Env, baseline: Run, runs: seq<Run>, s: State, files: seq<File>, test: TestFile)
    requires After(env, Start(baseline), runs) == Continue(s) && Continues(env, Start(baseline), runs)
    ensures test in ChangedTests(files) + s.tests <==>
              TestPath(test) in files || Outstanding(env, Start(baseline), runs, test, |runs|)
  {
    assert runs[..|runs|] == runs;
    TestsAreOutstanding(env, Start(baseline), runs, test, |runs|);
    hide After, Start, Outstanding, Continues;
    if TestPath(test) in files { assert TestPath(test).test in ChangedTests(files); }
  }

  predicate AsksForWebsite(run: Run) {
    exists job :: job in run.jobs
                  && (job.websiteProof || (job.name == Website && !job.nested && job.conclusion != Skipped))
  }

  /** What a baseline leaves to be done: every area without its one success, and the website if it was asked for. */
  lemma BaselineLeaves(baseline: Run, area: Name)
    requires Known(area)
    ensures area in Start(baseline).pending <==>
              && (!exists i: nat :: Only(baseline.jobs, area, i) && baseline.jobs[i].conclusion == Success)
              && (area == Website ==> AsksForWebsite(baseline))
    ensures Start(baseline).checkpoint == baseline.head && Start(baseline).tests == {}
  {
    HasSuccessExactly(baseline, area);
    AreasAre(area);
    hide HasSuccess, QualificationNames, Only;
  }

  // ---------------------------------------------------------------- when there is a selection

  ghost predicate DistinctIds(runs: seq<Run>) {
    forall i, j :: 0 <= i < j < |runs| ==> runs[i].id != runs[j].id
  }

  function Ids(runs: seq<Run>): set<nat> {
    set run | run in runs :: run.id
  }

  lemma IdsOf(runs: seq<Run>)
    requires runs != []
    ensures Ids(runs) == Ids(runs[1..]) + {runs[0].id}
    ensures runs[0].id in Ids(runs[1..]) <==> exists j :: 0 < j < |runs| && runs[j].id == runs[0].id
  {
    var rest := runs[1..];
    assert forall run :: run in runs <==> run == runs[0] || run in rest;
    if runs[0].id in Ids(rest) {
      var run :| run in rest && run.id == runs[0].id;
      var j :| 0 <= j < |rest| && rest[j] == run;
      assert runs[j + 1].id == runs[0].id;
    }
    if j :| 0 < j < |runs| && runs[j].id == runs[0].id {
      assert rest[j - 1] == runs[j] && runs[j] in rest;
    }
  }

  lemma DistinctRest(runs: seq<Run>)
    requires runs != []
    ensures DistinctIds(runs) <==>
              DistinctIds(runs[1..]) && forall j :: 0 < j < |runs| ==> runs[j].id != runs[0].id
  {
    var rest := runs[1..];
    assert forall j :: 0 < j < |runs| ==> runs[j] == rest[j - 1];
    if DistinctIds(runs) {
      forall i, j | 0 <= i < j < |rest| ensures rest[i].id != rest[j].id { assert runs[i + 1].id != runs[j + 1].id; }
    }
  }

  lemma {:induction false} IdsCount(runs: seq<Run>)
    ensures |Ids(runs)| <= |runs| && (|Ids(runs)| == |runs| <==> DistinctIds(runs))
  {
    if runs != [] {
      IdsCount(runs[1..]);
      IdsOf(runs);
      DistinctRest(runs);
      hide Ids, DistinctIds;
      if runs[0].id in Ids(runs[1..]) { assert Ids(runs) == Ids(runs[1..]); }
    }
  }

  /** Every earlier run has its own number, belongs to this event, leads to its head and has jobs. */
  ghost predicate Believable(env: Env, input: seq<Run>) {
    && DistinctIds(input)
    && forall run :: run in input ==> run.provenance && env.ancestor(run.head, env.head) && run.jobs != []
  }

  /** Runs in strict order of their numbers. */
  ghost predicate InOrder(runs: seq<Run>) {
    forall i, j :: 0 <= i < j < |runs| ==> runs[i].id < runs[j].id
  }

  /** The newest full attempt of this history, the runs since then in order, and where the fold over them ends. */
  ghost predicate Folds(env: Env, input: seq<Run>, baseline: Run, runs: seq<Run>, s: State) {
    FoldedFrom(env, input, baseline, runs, s) && InOrder(runs)
  }

  lemma {:induction false} SameRuns(a: seq<Run>, b: seq<Run>)
    requires InOrder(a) && InOrder(b) && forall run :: run in a <==> run in b
    ensures a == b
    decreases |a|
  {
    assert b == [] || b[0] in a;
    if a != [] {
      assert a[|a| - 1] in b;
      var a', b' := a[..|a| - 1], b[..|b| - 1];
      assert InOrder(a') && InOrder(b') && a == a' + [a[|a| - 1]] && b == b' + [b[|b| - 1]];
      hide InOrder;
      SameLast(a, b);
      OthersAreBefore(a);
      OthersAreBefore(b);
      forall run | run in a' ensures run in b' {
        assert run in a && run in b;
      }
      forall run | run in b' ensures run in a' {
        assert run in b && run in a;
      }
      SameRuns(a', b');
    }
  }

  lemma SameLast(a: seq<Run>, b: seq<Run>)
    requires InOrder(a) && InOrder(b) && a != [] && b != [] && a[|a| - 1] in b && b[|b| - 1] in a
    ensures a[|a| - 1] == b[|b| - 1]
  {
    LastIsNewest(a, b[|b| - 1]);
    LastIsNewest(b, a[|a| - 1]);
    var i :| 0 <= i < |b| && b[i] == a[|a| - 1];
    assert i == |b| - 1;
  }

  lemma LastIsNewest(runs: seq<Run>, run: Run)
    requires InOrder(runs) && run in runs
    ensures run.id <= runs[|runs| - 1].id
  {
    var i :| 0 <= i < |runs| && runs[i] == run;
  }

  lemma OthersAreBefore(runs: seq<Run>)
    requires InOrder(runs) && runs != []
    ensures forall run :: run in runs[..|runs| - 1] <==> run in runs && run != runs[|runs| - 1]
  {
    var n := |runs| - 1;
    forall run | run in runs && run != runs[n] ensures run in runs[..n] {
      var i :| 0 <= i < |runs| && runs[i] == run;
      assert runs[..n][i] == run;
    }
    forall run | run in runs[..n] ensures run in runs && run != runs[n] {
      var i :| 0 <= i < n && runs[..n][i] == run;
      assert runs[i] == run && runs[i].id < runs[n].id;
    }
  }

  lemma {:induction false} NewerInOrder(history: seq<Run>, id: nat)
    requires Sorted(NewerFirst, history) && DistinctIds(history)
    ensures InOrder(Newer(history, id))
    decreases |history|
  {
    if history != [] {
      var rest := history[1..];
      assert Sorted(NewerFirst, rest);
      forall i, j | 0 <= i < j < |rest| ensures rest[i].id != rest[j].id {
        assert history[i + 1].id != history[j + 1].id;
      }
      NewerInOrder(rest, id);
      NewerAre(rest, id);
      var runs := Newer(rest, id);
      forall i | 0 <= i < |runs| ensures runs[i].id < history[0].id {
        assert runs[i] in rest;
        var k :| 0 <= k < |rest| && rest[k] == runs[i];
        assert NewerFirst(history[0], history[k + 1]) && history[0].id != history[k + 1].id;
      }
    }
  }

  lemma {:induction false} BaselineFinds(env: Env, history: seq<Run>, run: Run)
    requires run in history && FullAttempt(run, env.sameConfiguration(run.head))
    ensures Baseline(env, history).Some?
  {
    if !FullAttempt(history[0], env.sameConfiguration(history[0].head)) { BaselineFinds(env, history[1..], run); }
  }

  lemma SortedIds(input: seq<Run>)
    ensures var history := SortBy(NewerFirst, input);
            && (|set run | run in history :: run.id| == |history| <==> DistinctIds(input))
            && (DistinctIds(input) ==> DistinctIds(history))
  {
    var history := SortBy(NewerFirst, input);
    SortedHistory(input);
    SortKeepsElements(NewerFirst, input);
    assert Ids(history) == Ids(input);
    IdsCount(input);
    IdsCount(history);
    hide SortBy, DistinctIds;
  }

  lemma ById(input: seq<Run>, a: Run, b: Run)
    requires DistinctIds(input) && a in input && b in input && a.id == b.id
    ensures a == b
  {
    var i :| 0 <= i < |input| && input[i] == a;
    var j :| 0 <= j < |input| && input[j] == b;
  }

  /** The fold is the one that the code makes. */
  lemma FoldsAre(env: Env, input: seq<Run>, baseline: Run, runs: seq<Run>, s: State)
    requires DistinctIds(input) && Folds(env, input, baseline, runs, s)
    ensures var history := SortBy(NewerFirst, input);
            Baseline(env, history) == Some(baseline) && Newer(history, baseline.id) == runs
  {
    var history := SortBy(NewerFirst, input);
    SortedHistory(input);
    SortedIds(input);
    hide SortBy, FullAttempt;
    BaselineFinds(env, history, baseline);
    BaselineIsNewest(env, history);
    var found := Baseline(env, history).value;
    assert found.id <= baseline.id;
    ById(input, found, baseline);
    NewerInOrder(history, baseline.id);
    NewerAre(history, baseline.id);
    SameRuns(Newer(history, baseline.id), runs);
  }

  lemma FoldsFound(env: Env, input: seq<Run>, baseline: Run, s: State)
    requires var history := SortBy(NewerFirst, input);
             && DistinctIds(input) && Baseline(env, history) == Some(baseline)
             && After(env, Start(baseline), Newer(history, baseline.id)) == Continue(s)
    ensures Folds(env, input, baseline, Newer(SortBy(NewerFirst, input), baseline.id), s)
  {
    var history := SortBy(NewerFirst, input);
    SortedHistory(input);
    SortedIds(input);
    hide SortBy, FullAttempt, Baseline, After;
    BaselineIsNewest(env, history);
    NewerAre(history, baseline.id);
    NewerInOrder(history, baseline.id);
    NewerOldestFirst(history, baseline.id);
  }

  /** Only documentation changed, in the whole of a complete history, and nothing failed in it. */
  predicate DocumentsOnly(env: Env, input: seq<Run>) {
    && env.historyComplete
    && Documents(env.diff(env.base, env.head))
    && forall run :: run in input ==>
         && Documents(env.diff(env.base, run.head)) && run.conclusion == Success
         && forall job :: job in run.jobs ==> job.conclusion in {Success, Skipped}
  }

  predicate Documents(files: seq<File>) {
    files != [] && forall f :: f in files ==> f.Documentation?
  }

  lemma DocumentationMeans(env: Env, input: seq<Run>)
    ensures OnlyDocumentation(env, SortBy(NewerFirst, input)) <==> DocumentsOnly(env, input)
  {
    SortedHistory(input);
    hide SortBy;
    assert forall files :: DocumentationOnly(files) <==> Documents(files);
  }

  /** Select, read off its own steps, before the baseline is looked for. */
  lemma SelectSteps(env: Env, event: bool, input: seq<Run>)
    ensures var history, selection := SortBy(NewerFirst, input), Select(env, event, input);
            if !event || !Believable(env, input) then selection.FullQualification?
            else if DocumentsOnly(env, input) then selection == NoPackage
            else if Baseline(env, history).None? then selection.FullQualification?
            else selection == FromBaseline(env, history, Baseline(env, history).value)
  {
    SortedIds(input);
    SortedHistory(input);
    DocumentationMeans(env, input);
    hide SortBy, OnlyDocumentation, DocumentsOnly, Baseline, FromBaseline, DistinctIds;
  }

  /** A job of the baseline failed that is no area and none of the jobs a full run has. */
  predicate BaselineFailsStrangely(baseline: Run) {
    exists job :: job in baseline.jobs && job.conclusion !in {Success, Skipped} && !Known(job.name)
                  && (job.nested || job.name !in {Detect, Static, FullAcceptance})
  }

  /** What there is to select from: a fold of the history whose changes since the checkpoint have a scope. */
  ghost predicate Selects(env: Env, input: seq<Run>, baseline: Run, runs: seq<Run>, s: State) {
    && Folds(env, input, baseline, runs, s) && !BaselineFailsStrangely(baseline)
    && Reducible(env.diff(s.checkpoint, env.head), env.available)
  }

  lemma FromBaselineMeans(env: Env, input: seq<Run>, baseline: Run)
    requires var history := SortBy(NewerFirst, input);
             DistinctIds(input) && Baseline(env, history) == Some(baseline)
    ensures var selection := FromBaseline(env, SortBy(NewerFirst, input), baseline);
            && selection != NoPackage
            && (selection.Incremental? <==> exists runs, s :: Selects(env, input, baseline, runs, s))
  {
    var history := SortBy(NewerFirst, input);
    var after := After(env, Start(baseline), Newer(history, baseline.id));
    hide SortBy, Baseline, After, Newer, Start, Reducible, Known;
    if after.Continue? {
      AnswerExactly(env, after.state, Website) by { WebsiteIsKnown(); }
      FoldsFound(env, input, baseline, after.state);
    }
    if runs, s :| Selects(env, input, baseline, runs, s) { FoldsAre(env, input, baseline, runs, s); }
    hide Answer;
    if FromBaseline(env, history, baseline).Incremental? {
      assert Selects(env, input, baseline, Newer(history, baseline.id), after.state);
    }
  }

  lemma WebsiteIsKnown()
    ensures Known(Website)
  {
  }

  /**
    Which kind of selection there is, exactly: none of the package if the history is believable and only
    documentation changed in it; an incremental one if it is believable, something else changed, and there
    is something to select from; and full qualification in every other case.
  */
  lemma SelectsExactly(env: Env, event: bool, input: seq<Run>)
    ensures var selection := Select(env, event, input);
            && (selection == NoPackage <==> event && Believable(env, input) && DocumentsOnly(env, input))
            && (selection.Incremental? <==>
                  && event && Believable(env, input) && !DocumentsOnly(env, input)
                  && exists baseline, runs, s :: Selects(env, input, baseline, runs, s))
  {
    SelectSteps(env, event, input);
    var history := SortBy(NewerFirst, input);
    hide Select, SortBy, DocumentsOnly, FromBaseline;
    if event && Believable(env, input) && !DocumentsOnly(env, input) {
      if Baseline(env, history).Some? {
        var found := Baseline(env, history).value;
        hide Baseline, Selects;
        FromBaselineMeans(env, input, found);
        forall baseline, runs, s | Selects(env, input, baseline, runs, s) ensures baseline == found {
          SelectsFromFound(env, input, baseline, runs, s);
        }
      } else {
        hide Baseline, Selects;
        forall baseline, runs, s ensures !Selects(env, input, baseline, runs, s) {
          if Selects(env, input, baseline, runs, s) { SelectsFromFound(env, input, baseline, runs, s); }
        }
      }
    }
  }

  lemma SelectsFromFound(env: Env, input: seq<Run>, baseline: Run, runs: seq<Run>, s: State)
    requires DistinctIds(input) && Selects(env, input, baseline, runs, s)
    ensures Baseline(env, SortBy(NewerFirst, input)) == Some(baseline)
  {
    FoldsAre(env, input, baseline, runs, s);
  }

  lemma NoBaselineMeans(env: Env, history: seq<Run>)
    requires forall run :: run in history ==> !FullAttempt(run, env.sameConfiguration(run.head))
    ensures Baseline(env, history).None?
  {
    if Baseline(env, history).Some? { BaselineIsMember(env, history); }
  }

  lemma {:induction false} BaselineIsMember(env: Env, history: seq<Run>)
    requires Baseline(env, history).Some?
    ensures var found := Baseline(env, history).value;
            found in history && FullAttempt(found, env.sameConfiguration(found.head))
  {
    if !FullAttempt(history[0], env.sameConfiguration(history[0].head)) { BaselineIsMember(env, history[1..]); }
  }

  lemma EmptySorted(input: seq<Run>)
    ensures SortBy(NewerFirst, input) == [] <==> input == []
  {
    SortKeepsElements(NewerFirst, input);
  }

  /** Without a full attempt everything is qualified, and the website too unless the history is known to be empty. */
  lemma NothingToBuildOn(env: Env, input: seq<Run>)
    requires Believable(env, input) && !DocumentsOnly(env, input)
    requires forall run :: run in input ==> !FullAttempt(run, env.sameConfiguration(run.head))
    ensures Select(env, true, input) == FullQualification(NoBaseline, !(env.historyComplete && input == []))
  {
    SortedIds(input);
    SortedHistory(input);
    DocumentationMeans(env, input);
    NoBaselineMeans(env, SortBy(NewerFirst, input));
    EmptySorted(input);
    hide SortBy, OnlyDocumentation, DocumentsOnly, Baseline, FromBaseline, DistinctIds, FullAttempt;
  }

  /**
    With a fold of the history but no scope for the changes since the checkpoint everything is qualified,
    and the website exactly if it is not proven; and if the baseline failed in an unknown way, always.
  */
  lemma EverythingAgain(env: Env, input: seq<Run>, baseline: Run, runs: seq<Run>, s: State)
    requires Believable(env, input) && !DocumentsOnly(env, input) && Folds(env, input, baseline, runs, s)
    ensures Continues(env, Start(baseline), runs)
    ensures BaselineFailsStrangely(baseline) ==>
              Select(env, true, input) == FullQualification(UnknownBaselineFailure, true)
    ensures !BaselineFailsStrangely(baseline) && !Reducible(env.diff(s.checkpoint, env.head), env.available) ==>
              Select(env, true, input)
              == FullQualification(SharedPaths, !Proven(env, Start(baseline), runs, Website, |runs|))
  {
    SelectSteps(env, true, input);
    FoldsAre(env, input, baseline, runs, s);
    FullIsFinal(env, Start(baseline), runs);
    assert runs[..|runs|] == runs;
    WebsiteIsKnown();
    PendingIsUnproven(env, Start(baseline), runs, Website, |runs|);
    FoldIsAnswered(env, SortBy(NewerFirst, input), baseline, s);
    hide *;
  }

  /** What a fold of the history comes to when there is no scope. */
  lemma FoldIsAnswered(env: Env, history: seq<Run>, baseline: Run, s: State)
    ensures BaselineFailsStrangely(baseline) ==>
              FromBaseline(env, history, baseline) == FullQualification(UnknownBaselineFailure, true)
    ensures (!BaselineFailsStrangely(baseline) && !Reducible(env.diff(s.checkpoint, env.head), env.available)
             && After(env, Start(baseline), Newer(history, baseline.id)) == Continue(s)) ==>
              FromBaseline(env, history, baseline) == FullQualification(SharedPaths, Website in s.pending)
  {
    ScopeExactly(env.diff(s.checkpoint, env.head), env.available);
    hide Newer, Start, ScopeOf, Known, Reducible, After;
    assert UnknownFailureIn(baseline) <==> BaselineFailsStrangely(baseline);
  }
}
