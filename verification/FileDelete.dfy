/**
  Batch deletion with rollback (src/runtime/file-delete.ts). Every file is captured, then removed; when
  a later step fails the removed files are restored in reverse. Any call may reject; locks keep outside
  writers away. The volume counts the rejections, which tell exactly when a batch succeeds and what its error
  names. Digests are injective, so contents are compared.
*/
module FileDelete {
  import opened Options

  type Path = string
  type Bytes = seq<bv8>

  datatype File = File(bytes: Bytes, mode: nat, owner: nat)

  datatype Entry = Entry(path: Path, expected: Option<Bytes>)

  /** `affected` are the affected paths of the error. */
  datatype Outcome = Deleted | Failed(affected: seq<Path>)

  function Named(affected: seq<Path>): set<Path> {
    set p | p in affected
  }

  lemma NamedNext(affected: seq<Path>, path: Path)
    ensures Named(affected + [path]) == Named(affected) + {path}
  {
  }

  type Files = map<Path, File>

  predicate SameAt(before: Files, now: Files, path: Path) {
    (path in now <==> path in before) && (path in now ==> now[path] == before[path])
  }

  /** Every path that is not one of these is as it was. */
  ghost predicate SameOutside(before: Files, now: Files, paths: set<Path>) {
    forall p :: p !in paths ==> SameAt(before, now, p)
  }

  /** What was captured is there. */
  predicate Captured(snapshots: Files, files: Files) {
    forall p :: p in snapshots ==> p in files && files[p] == snapshots[p]
  }

  predicate AllGone(files: Files, paths: set<Path>) {
    forall p :: p in paths ==> p !in files
  }

  /** These are there as they were captured. */
  predicate AllBack(files: Files, snapshots: Files, paths: set<Path>) {
    forall p :: p in paths ==> p in files && p in snapshots && files[p] == snapshots[p]
  }

  predicate DistinctPaths(entries: seq<Entry>) {
    forall i, j :: 0 <= i < j < |entries| ==> entries[i].path != entries[j].path
  }

  predicate Expects(e: Entry, file: File) {
    e.expected.Some? ==> e.expected.value == file.bytes
  }

  function Paths(entries: seq<Entry>): set<Path> {
    set e | e in entries :: e.path
  }

  /** Every file is there as expected. */
  predicate AllExpected(entries: seq<Entry>, files: Files) {
    forall e :: e in entries ==> e.path in files && Expects(e, files[e.path])
  }

  /** Exactly the first k files are gone. */
  ghost predicate GoneBelow(before: Files, now: Files, entries: seq<Entry>, k: nat) {
    k <= |entries| && now == before - Paths(entries[..k])
  }

  /** Every path is as it was, or one of these, and then gone or named. */
  ghost predicate Between(before: Files, now: Files, paths: set<Path>, named: set<Path>) {
    forall p :: SameAt(before, now, p) || (p in paths && (p !in now || p in named))
  }

  /**
    That, or without links one more path is just being restored: an exclusive copy shows a part of the
    file under its name.
  */
  ghost predicate Midway(links: bool, before: Files, now: Files, paths: set<Path>, named: set<Path>) {
    || Between(before, now, paths, named)
    || (!links && exists p :: p in paths && Between(before, now, paths, named + {p}))
  }

  /** That holds of every state since the first of the two traces. */
  ghost predicate AllMidway(
    links: bool, before: Files, first: seq<Files>, trace: seq<Files>, paths: set<Path>, named: set<Path>)
  {
    first <= trace && forall k :: |first| <= k < |trace| ==> Midway(links, before, trace[k], paths, named)
  }

  lemma BetweenMore(before: Files, now: Files, paths: set<Path>, named: set<Path>, more: set<Path>, others: set<Path>)
    requires Between(before, now, paths, named) && named <= more && paths <= others
    ensures Between(before, now, others, more)
  {
  }

  lemma MidwayMore(
    links: bool, before: Files, now: Files, paths: set<Path>, named: set<Path>, more: set<Path>, others: set<Path>)
    requires Midway(links, before, now, paths, named) && named <= more && paths <= others
    ensures Midway(links, before, now, others, more)
  {
    if Between(before, now, paths, named) {
      BetweenMore(before, now, paths, named, more, others);
    } else {
      var p :| p in paths && Between(before, now, paths, named + {p});
      BetweenMore(before, now, paths, named + {p}, more + {p}, others);
    }
  }

  lemma AllMidwayMore(
    links: bool, before: Files, first: seq<Files>, trace: seq<Files>, paths: set<Path>, named: set<Path>,
    more: set<Path>, others: set<Path>)
    requires AllMidway(links, before, first, trace, paths, named) && named <= more && paths <= others
    ensures AllMidway(links, before, first, trace, others, more)
  {
    forall k | |first| <= k < |trace| ensures Midway(links, before, trace[k], others, more) {
      MidwayMore(links, before, trace[k], paths, named, more, others);
    }
  }

  lemma AllMidwayNext(
    links: bool, before: Files, first: seq<Files>, trace: seq<Files>, next: Files, paths: set<Path>,
    named: set<Path>)
    requires AllMidway(links, before, first, trace, paths, named) && Between(before, next, paths, named)
    ensures AllMidway(links, before, first, trace + [next], paths, named)
  {
  }

  lemma AllMidwaySelf(links: bool, before: Files, trace: seq<Files>, paths: set<Path>, named: set<Path>)
    ensures AllMidway(links, before, trace, trace, paths, named)
  {
  }

  lemma AllMidwayOn(
    links: bool, before: Files, first: seq<Files>, mid: seq<Files>, trace: seq<Files>, paths: set<Path>,
    named: set<Path>)
    requires AllMidway(links, before, first, mid, paths, named) && AllMidway(links, before, mid, trace, paths, named)
    ensures AllMidway(links, before, first, trace, paths, named)
  {
  }

  /** The removals and then the rollback of the files that were removed. */
  lemma AllMidwayJoins(
    links: bool, before: Files, first: seq<Files>, mid: seq<Files>, trace: seq<Files>, removed: set<Path>,
    named: set<Path>, paths: set<Path>)
    requires AllMidway(links, before, first, mid, paths, {}) && AllMidway(links, before, mid, trace, removed, named)
    requires removed <= paths
    ensures AllMidway(links, before, first, trace, paths, named)
  {
    AllMidwayMore(links, before, first, mid, paths, {}, named, paths);
    AllMidwayMore(links, before, mid, trace, removed, named, named, paths);
    AllMidwayOn(links, before, first, mid, trace, paths, named);
  }

  /** While one file is restored no other path changes, and with links it is absent or whole. */
  ghost predicate Restoring(links: bool, before: Files, now: Files, path: Path, snapshot: File) {
    && (forall p :: p != path ==> SameAt(before, now, p))
    && (links && path in now ==> now[path] == snapshot)
  }

  ghost predicate AllRestoring(
    links: bool, before: Files, first: seq<Files>, trace: seq<Files>, path: Path, snapshot: File)
  {
    first <= trace && forall k :: |first| <= k < |trace| ==> Restoring(links, before, trace[k], path, snapshot)
  }

  lemma AllRestoringNext(
    links: bool, before: Files, first: seq<Files>, trace: seq<Files>, now: Files, next: Files, path: Path,
    snapshot: File)
    requires AllRestoring(links, before, first, trace, path, snapshot)
    requires (forall p :: p != path ==> SameAt(before, now, p)) && next - {path} == now - {path}
    requires links && path in next ==> next[path] == snapshot
    ensures AllRestoring(links, before, first, trace + [next], path, snapshot)
    ensures forall p :: p != path ==> SameAt(before, next, p)
  {
    forall p | p != path ensures SameAt(before, next, p) {
      assert SameAt(before, now, p) && (p in next <==> p in next - {path}) && (p in now <==> p in now - {path});
    }
  }

  lemma RestoringIsMidway(
    links: bool, orig: Files, before: Files, now: Files, path: Path, snapshot: File, paths: set<Path>,
    named: set<Path>)
    requires Between(orig, before, paths, named) && Restoring(links, before, now, path, snapshot)
    requires path in paths && path in orig && orig[path] == snapshot
    ensures Midway(links, orig, now, paths, named)
  {
    forall p | p != path ensures SameAt(orig, now, p) || (p in paths && (p !in now || p in named)) {
      assert SameAt(before, now, p);
    }
    assert Between(orig, now, paths, named + {path});
  }

  /** The states of a restoration are on the way. */
  lemma AllRestoringIsMidway(
    links: bool, orig: Files, before: Files, first: seq<Files>, trace: seq<Files>, path: Path, snapshot: File,
    paths: set<Path>, named: set<Path>)
    requires Between(orig, before, paths, named) && AllRestoring(links, before, first, trace, path, snapshot)
    requires path in paths && path in orig && orig[path] == snapshot
    ensures AllMidway(links, orig, first, trace, paths, named)
  {
    forall k | |first| <= k < |trace| ensures Midway(links, orig, trace[k], paths, named) {
      RestoringIsMidway(links, orig, before, trace[k], path, snapshot, paths, named);
    }
  }

  /**
    The `trace` holds every state that the files have been in, `rejections` counts the calls that have
    rejected, and `links` tells whether links are supported.
  */
  class Volume {
    const links: bool
    var files: Files
    ghost var trace: seq<Files>
    ghost var rejections: nat

    ghost predicate Valid()
      reads this
    {
      trace != [] && trace[|trace| - 1] == files
    }

    /** Every change of the files. */
    method Store(next: Files)
      modifies `files, `trace
      ensures files == next && trace == old(trace) + [next] && Valid()
    {
      files := next;
      trace := trace + [next];
    }

    /** A call that may reject. */
    method Try() returns (ok: bool)
      modifies `rejections
      ensures rejections == old(rejections) + (if ok then 0 else 1)
    {
      var rejects: bool := *;
      ok := !rejects;
      if rejects {
        rejections := rejections + 1;
      }
    }

    /** stageFileSnapshot and the hash check for every entry; None when one of them rejects. */
    method CaptureAll(entries: seq<Entry>) returns (snapshots: Option<Files>)
      modifies `rejections
      ensures snapshots.Some? ==> snapshots.value.Keys == Paths(entries) && Captured(snapshots.value, files)
      ensures old(rejections) <= rejections
      ensures snapshots.Some? <==> rejections == old(rejections) && AllExpected(entries, files)
    {
      var taken: Files := map[];
      var i := 0;
      while i < |entries|
        invariant i <= |entries| && taken.Keys == Paths(entries[..i])
        invariant rejections == old(rejections) && AllExpected(entries[..i], files)
        invariant forall p :: p in taken ==> p in files && taken[p] == files[p]
      {
        var e := entries[i];
        var staged := Try();
        assert e in entries;
        if !staged || e.path !in files || !Expects(e, files[e.path]) {
          return None;
        }
        taken := taken[e.path := files[e.path]];
        assert entries[..i + 1] == entries[..i] + [e];
        i := i + 1;
      }
      assert entries[..i] == entries;
      snapshots := Some(taken);
    }

    /** One file of the removal loop: it may be gone even though recording that rejects. */
    method RemoveOne(path: Path, snapshot: File) returns (ok: bool, gone: bool)
      requires Valid() && path in files && files[path] == snapshot
      modifies this
      ensures files == (if gone then old(files) - {path} else old(files)) && Valid()
      ensures trace == if gone then old(trace) + [files] else old(trace)
      ensures (ok ==> gone) && rejections == old(rejections) + (if ok then 0 else 1)
    {
      gone := false;
      ok := Try();
      if ok && files[path].bytes == snapshot.bytes {
        ok := Try();
        if ok {
          Store(files - {path});
          gone := true;
          ok := Try();
        }
      }
    }

    /** The removal loop: on success all files are gone, otherwise exactly the first `removed` ones. */
    method RemoveAll(entries: seq<Entry>, snapshots: Files) returns (ok: bool, removed: nat)
      requires DistinctPaths(entries) && snapshots.Keys == Paths(entries)
      requires Valid() && Captured(snapshots, files)
      modifies this
      ensures Valid() && AllMidway(links, old(files), old(trace), trace, Paths(entries), {})
      ensures GoneBelow(old(files), files, entries, removed)
      ensures ok ==> removed == |entries|
      ensures rejections == old(rejections) + (if ok then 0 else 1)
    {
      ok, removed := true, 0;
      ghost var before := files;
      hide GoneBelow, AllMidway, Between, SameAt, Paths, DistinctPaths;
      NothingGone(files, entries);
      AllMidwaySelf(links, files, trace, Paths(entries), {});
      while ok && removed < |entries|
        invariant Valid() && AllMidway(links, before, old(trace), trace, Paths(entries), {})
        invariant removed <= |entries| && GoneBelow(before, files, entries, removed)
        invariant rejections == old(rejections) + (if ok then 0 else 1)
        decreases |entries| - removed, ok
      {
        var path := entries[removed].path;
        GoneNext(before, files, entries, removed);
        ghost var states := trace;
        var gone;
        ok, gone := RemoveOne(path, snapshots[path]);
        if gone {
          removed := removed + 1;
          GoneIsBetween(before, files, entries, removed);
          AllMidwayNext(links, before, old(trace), states, files, Paths(entries), {});
        }
      }
    }

    /**
      One file of the rollback: true when it is there again as it was. With links it appears at once; without
      them a copy is written under its name. A failed restoration may leave nothing, the whole file, or such
      a half-written copy, and one of its calls has rejected.
    */
    method Restore(path: Path, snapshot: File) returns (ok: bool)
      requires Valid() && path !in files
      modifies this
      ensures Valid() && AllRestoring(links, old(files), old(trace), trace, path, snapshot)
      ensures SameOutside(old(files), files, {path})
      ensures ok ==> path in files && files[path] == snapshot
      ensures rejections == old(rejections) + (if ok then 0 else 1)
    {
      var ready := Try();
      if !ready {
        return false;
      }
      if !links {
        CopyExclusively(path, snapshot);
      }
      var published := Try();
      if !published {
        var removed: bool := *;
        if removed && path in files {
          ghost var copied, now := trace, files;
          Store(files - {path});
          AllRestoringNext(links, old(files), old(trace), copied, now, files, path, snapshot);
        }
        return false;
      }
      ghost var states, now := trace, files;
      Store(files[path := snapshot]);
      AllRestoringNext(links, old(files), old(trace), states, now, files, path, snapshot);
      ok := Try();
    }

    /** The exclusive copy in progress: any parts of the file, in any number of writes. */
    method CopyExclusively(path: Path, snapshot: File)
      requires Valid() && path !in files && !links
      modifies `files, `trace
      ensures Valid() && AllRestoring(links, old(files), old(trace), trace, path, snapshot)
      ensures forall p :: p != path ==> SameAt(old(files), files, p)
    {
      var writes: nat := *;
      while writes > 0
        invariant Valid() && AllRestoring(links, old(files), old(trace), trace, path, snapshot)
        invariant forall p :: p != path ==> SameAt(old(files), files, p)
      {
        var part: File := *;
        ghost var states, now := trace, files;
        Store(files[path := part]);
        AllRestoringNext(links, old(files), old(trace), states, now, files, path, snapshot);
        writes := writes - 1;
      }
    }

    /** The rollback loop, last removed file first: every removed file is restored or named. */
    method RestoreAll(entries: seq<Entry>, snapshots: Files, removed: nat, ghost orig: Files)
      returns (affected: seq<Path>)
      requires DistinctPaths(entries) && removed <= |entries| && snapshots.Keys == Paths(entries)
      requires AllGone(files, Paths(entries[..removed]))
      requires Valid() && Between(orig, files, Paths(entries[..removed]), {})
      requires Captured(snapshots, orig)
      modifies this
      ensures Valid() && AllMidway(links, orig, old(trace), trace, Paths(entries[..removed]), Named(affected))
      ensures Between(orig, files, Paths(entries[..removed]), Named(affected))
      ensures Named(affected) <= Paths(entries[..removed])
      ensures AllBack(files, snapshots, Paths(entries[..removed]) - Named(affected))
      ensures SameOutside(old(files), files, Paths(entries[..removed])) && SameOutside(orig, files, Named(affected))
      ensures |affected| == rejections - old(rejections)
    {
      affected := [];
      ghost var all, start, states := Paths(entries[..removed]), files, trace;
      PathsOfPrefix(entries, removed, |entries|);
      assert entries[..|entries|] == entries;
      RollbackBegins(links, orig, files, trace, snapshots, all);
      assert Paths(entries[..0]) == {};
      hide *;
      var k: nat := removed;
      while k > 0
        invariant Valid() && k <= removed && |affected| == rejections - old(rejections)
        invariant RollingBack(links, orig, start, states, trace, files, snapshots, all, Paths(entries[..k]), affected)
      {
        k := k - 1;
        var path := entries[k].path;
        PathsOfNext(entries, k);
        PathStillThere(entries, k);
        ghost var before, done, todo, earlier := files, trace, Paths(entries[..k]), affected;
        RollbackWaits(links, orig, start, states, trace, files, snapshots, all, todo + {path}, affected, path);
        var ok := Restore(path, snapshots[path]);
        if !ok {
          affected := affected + [path];
        }
        RollbackGoesOn(
          links, orig, start, states, done, trace, before, files, snapshots, all, todo, earlier, affected, path, ok);
      }
      RollbackEnds(links, orig, start, states, trace, files, snapshots, all, affected);
    }

    /** The begin, the check of the captures, the removals and their completion, up to the first failure. */
    method RemoveCaptured(entries: seq<Entry>, snapshots: Files) returns (began: bool, done: bool, removed: nat)
      requires DistinctPaths(entries) && snapshots.Keys == Paths(entries)
      requires Valid() && Captured(snapshots, files)
      modifies this
      ensures Valid() && AllMidway(links, old(files), old(trace), trace, Paths(entries), {})
      ensures GoneBelow(old(files), files, entries, removed) && (done ==> began && removed == |entries|)
      ensures rejections == old(rejections) + (if done then 0 else 1)
    {
      began, done := BeginAndVerify();
      if !done {
        NothingGone(files, entries);
        AllMidwaySelf(links, files, trace, Paths(entries), {});
        return began, false, 0;
      }
      done, removed := RemoveAll(entries, snapshots);
      if done {
        done := Try();
      }
    }

    method BeginAndVerify() returns (began: bool, verified: bool)
      modifies `rejections
      ensures (verified ==> began) && rejections == old(rejections) + (if verified then 0 else 1)
    {
      verified := false;
      began := Try();
      if began {
        verified := Try();
      }
    }

    /** The record of a complete rollback after the begin. */
    method RecordRollback(affected: seq<Path>, began: bool) returns (recorded: bool)
      modifies `rejections
      ensures recorded ==> began && affected == []
      ensures rejections == old(rejections) + (if affected == [] && began && !recorded then 1 else 0)
    {
      recorded := false;
      if began && affected == [] {
        recorded := Try();
      }
    }

    /**
      deleteFilesSafely under its locks: all files are deleted, or every path outside the affected paths
      that the error names is as it was. In every state on the way a path is as it was, or it is one of the
      batch and either gone or named by the error, except that without links one path at a time may be just
      being restored. The captures are given up only before the begin, after success, or after a recorded
      rollback of everything. The batch succeeds exactly when every file is as expected and nothing rejects;
      otherwise the error names one file for every rejection of the rollback, which begins `after` so many of
      them, and a complete rollback is recorded unless that rejects.
    */
    method DeleteFiles(entries: seq<Entry>)
      returns (outcome: Outcome, disposable: bool, began: bool, recorded: bool, ghost after: nat)
      requires DistinctPaths(entries) && Valid()
      modifies this
      ensures Valid()
      ensures AllMidway(links, old(files), old(trace), trace, Paths(entries),
                        if outcome.Failed? then Named(outcome.affected) else {})
      ensures outcome.Deleted? ==> files == old(files) - Paths(entries)
      ensures outcome.Failed? ==>
                Named(outcome.affected) <= Paths(entries) && SameOutside(old(files), files, Named(outcome.affected))
      ensures disposable ==> outcome.Deleted? || recorded || (!began && files == old(files))
      ensures recorded ==> outcome == Failed([]) && files == old(files)
      ensures outcome.Deleted? ==> disposable && began && !recorded
      ensures outcome.Deleted? <==> rejections == old(rejections) && old(AllExpected(entries, files))
      ensures old(rejections) <= after <= rejections
      ensures outcome.Failed? ==>
                rejections == after + |outcome.affected|
                              + (if outcome.affected == [] && began && !recorded then 1 else 0)
    {
      disposable, began, recorded, after := true, false, false, rejections;
      assert Named([]) == {} && SameOutside(files, files, {});
      AllMidwaySelf(links, files, trace, Paths(entries), {});
      var captured := CaptureAll(entries);
      var going := Try();
      if captured.None? || !going {
        return Failed([]), disposable, began, recorded, rejections;
      }
      disposable := false;
      var removed, done;
      began, done, removed := RemoveCaptured(entries, captured.value);
      GoneIsBetween(old(files), files, entries, removed);
      if done {
        return Deleted, true, began, recorded, rejections;
      }
      ghost var states := trace;
      after := rejections;
      ghost var first := Paths(entries[..removed]);
      var affected := RestoreAll(entries, captured.value, removed, old(files));
      AllMidwayJoins(links, old(files), old(trace), states, trace, first, Named(affected), Paths(entries));
      NothingAffected(old(files), files, affected);
      recorded := RecordRollback(affected, began);
      disposable := recorded;
      outcome := Failed(affected);
    }
  }

  lemma NothingGone(files: Files, entries: seq<Entry>)
    ensures GoneBelow(files, files, entries, 0)
  {
    assert Paths(entries[..0]) == {};
  }

  /** The next file is still as it was, and without it one more is gone. */
  lemma GoneNext(before: Files, now: Files, entries: seq<Entry>, k: nat)
    requires GoneBelow(before, now, entries, k) && k < |entries| && DistinctPaths(entries)
    requires Paths(entries) <= before.Keys
    ensures var path := entries[k].path;
            && path in Paths(entries) && path in now && now[path] == before[path]
            && GoneBelow(before, now - {path}, entries, k + 1)
  {
    PathStillThere(entries, k);
    PathsOfNext(entries, k);
    hide Paths, DistinctPaths;
  }

  lemma GoneIsBetween(before: Files, now: Files, entries: seq<Entry>, k: nat)
    requires GoneBelow(before, now, entries, k)
    ensures Between(before, now, Paths(entries[..k]), {}) && Between(before, now, Paths(entries), {})
    ensures k <= |entries| && Paths(entries[..k]) <= Paths(entries)
    ensures AllGone(now, Paths(entries[..k]))
    ensures k == |entries| ==> now == before - Paths(entries)
  {
    PathsOfPrefix(entries, k, |entries|);
    assert entries[..|entries|] == entries;
  }

  lemma WasCaptured(snapshots: Files, files: Files, path: Path)
    requires Captured(snapshots, files) && path in snapshots
    ensures path in files && files[path] == snapshots[path]
  {
  }

  /** What the rollback loop knows while the files of `todo` are still to be restored. */
  ghost predicate RollingBack(
    links: bool, orig: Files, start: Files, states: seq<Files>, trace: seq<Files>, now: Files, snapshots: Files,
    all: set<Path>, todo: set<Path>, affected: seq<Path>)
  {
    && AllMidway(links, orig, states, trace, all, Named(affected)) && Between(orig, now, all, Named(affected))
    && todo <= all <= snapshots.Keys && Named(affected) <= all - todo
    && AllGone(now, todo) && AllBack(now, snapshots, all - todo - Named(affected)) && SameOutside(start, now, all)
    && Between(orig, start, all, {}) && Captured(snapshots, orig)
  }

  lemma RollbackBegins(
    links: bool, orig: Files, start: Files, states: seq<Files>, snapshots: Files, all: set<Path>)
    requires all <= snapshots.Keys && AllGone(start, all) && Between(orig, start, all, {})
    requires Captured(snapshots, orig)
    ensures RollingBack(links, orig, start, states, states, start, snapshots, all, all, [])
  {
    assert Named([]) == {};
  }

  lemma RollbackWaits(
    links: bool, orig: Files, start: Files, states: seq<Files>, trace: seq<Files>, now: Files, snapshots: Files,
    all: set<Path>, todo: set<Path>, affected: seq<Path>, path: Path)
    requires RollingBack(links, orig, start, states, trace, now, snapshots, all, todo, affected) && path in todo
    ensures path !in now && path in snapshots
  {
  }

  lemma RollbackEnds(
    links: bool, orig: Files, start: Files, states: seq<Files>, trace: seq<Files>, now: Files, snapshots: Files,
    all: set<Path>, affected: seq<Path>)
    requires RollingBack(links, orig, start, states, trace, now, snapshots, all, {}, affected)
    ensures AllMidway(links, orig, states, trace, all, Named(affected)) && Between(orig, now, all, Named(affected))
    ensures Named(affected) <= all && AllBack(now, snapshots, all - Named(affected)) && SameOutside(start, now, all)
    ensures SameOutside(orig, now, Named(affected))
  {
    assert all - {} - Named(affected) == all - Named(affected);
    hide AllMidway, Named;
  }

  lemma RollbackGoesOn(
    links: bool, orig: Files, start: Files, states: seq<Files>, done: seq<Files>, trace: seq<Files>, before: Files,
    now: Files, snapshots: Files, all: set<Path>, todo: set<Path>, earlier: seq<Path>, affected: seq<Path>,
    path: Path, ok: bool)
    requires RollingBack(links, orig, start, states, done, before, snapshots, all, todo + {path}, earlier)
    requires path !in todo && affected == if ok then earlier else earlier + [path]
    requires AllRestoring(links, before, done, trace, path, orig[path]) && SameOutside(before, now, {path})
    requires ok ==> path in now && now[path] == snapshots[path]
    ensures RollingBack(links, orig, start, states, trace, now, snapshots, all, todo, affected)
  {
    var named, more := Named(earlier), Named(affected);
    NamedNext(earlier, path);
    WasCaptured(snapshots, orig, path);
    hide AllMidway, Between, AllRestoring, SameAt, SameOutside, AllGone, AllBack, Captured, Named;
    RestoringSpares(start, before, now, snapshots, all, todo, named, path, ok);
    AllRestoringIsMidway(links, orig, before, done, trace, path, orig[path], all, named);
    AllMidwayOn(links, orig, states, done, trace, all, named);
    AllMidwayMore(links, orig, states, trace, all, named, more, all);
    RestoredIsBetween(orig, now, start, snapshots, all, todo, more);
  }

  /** Restoring one file keeps what the rollback loop knows about all others. */
  lemma RestoringSpares(
    start: Files, before: Files, now: Files, snapshots: Files, all: set<Path>, todo: set<Path>, named: set<Path>,
    path: Path, ok: bool)
    requires all <= snapshots.Keys && path in all && path !in todo && todo <= all
    requires SameOutside(start, before, all) && SameOutside(before, now, {path})
    requires AllGone(before, todo + {path}) && AllBack(before, snapshots, all - (todo + {path}) - named)
    requires ok ==> path in now && now[path] == snapshots[path]
    ensures SameOutside(start, now, all) && AllGone(now, todo)
    ensures AllBack(now, snapshots, all - todo - if ok then named else named + {path})
  {
    forall p | p !in all ensures SameAt(start, now, p) {
      assert SameAt(start, before, p) && SameAt(before, now, p);
    }
    forall p | p in all - todo - (if ok then named else named + {path})
      ensures p in now && now[p] == snapshots[p]
    {
      if p != path { assert p in before && SameAt(before, now, p); }
    }
    forall p | p in todo ensures p !in now {
      assert p !in before && SameAt(before, now, p);
    }
  }

  /** The invariants of the rollback loop say that its states are in between. */
  lemma RestoredIsBetween(
    orig: Files, now: Files, start: Files, snapshots: Files, all: set<Path>, todo: set<Path>, named: set<Path>)
    requires Between(orig, start, all, {}) && SameOutside(start, now, all)
    requires AllGone(now, todo) && AllBack(now, snapshots, all - todo - named)
    requires Captured(snapshots, orig)
    ensures Between(orig, now, all, named)
  {
    forall p ensures SameAt(orig, now, p) || (p in all && (p !in now || p in named)) {
      if p !in all { assert SameAt(orig, start, p) && SameAt(start, now, p); }
    }
  }

  lemma PathsOfNext(entries: seq<Entry>, k: nat)
    requires k < |entries|
    ensures Paths(entries[..k + 1]) == Paths(entries[..k]) + {entries[k].path}
    ensures DistinctPaths(entries) ==> entries[k].path !in Paths(entries[..k])
  {
    assert entries[..k + 1] == entries[..k] + [entries[k]];
    forall e | e in entries[..k] && DistinctPaths(entries) ensures e.path != entries[k].path {
      var i :| 0 <= i < k && entries[i] == e;
    }
  }

  lemma PathStillThere(entries: seq<Entry>, k: nat)
    requires k < |entries| && DistinctPaths(entries)
    ensures entries[k].path !in Paths(entries[..k]) && entries[k].path in Paths(entries)
  {
    PathsOfNext(entries, k);
    assert entries[k] in entries;
  }

  lemma PathsOfPrefix(entries: seq<Entry>, k: nat, n: nat)
    requires k <= n <= |entries|
    ensures Paths(entries[..k]) <= Paths(entries[..n])
  {
    assert entries[..k] == entries[..n][..k];
    assert forall e :: e in entries[..k] ==> e in entries[..n];
  }

  lemma NothingAffected(before: Files, now: Files, affected: seq<Path>)
    requires SameOutside(before, now, Named(affected))
    ensures affected == [] ==> now == before
  {
    if affected == [] {
      forall p ensures p in now <==> p in before { assert p !in Named([]) && SameAt(before, now, p); }
      forall p | p in now ensures now[p] == before[p] { assert p !in Named([]) && SameAt(before, now, p); }
    }
  }
}
