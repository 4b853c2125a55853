/**
  Patch and write batches with rollback (src/patch/engine.ts). Every mutated file is written to a
  random sibling, verified and renamed into place; a failure re-commits the snapshots of the
  committed prefix in reverse. A run is determined by which awaited calls reject; locks give the
  batch exclusive access to its paths, and hashes are injective, so contents are compared.
*/
module PatchBatch {
  import opened Options

  type Path = string
  type Bytes = seq<bv8>

  datatype File = File(bytes: Bytes, mode: nat, owner: nat)

  type Files = map<Path, File>

  /** `partial`: what the sibling holds when staging rejects. `sweep`: removing the sibling rejects. */
  datatype CommitFaults = CommitFaults(open: bool, stage: bool, partial: File, rename: bool, sweep: bool)

  /** `Overwritten`: the call rejected although the rename had already replaced the file. */
  datatype Committing = Committed | Rejected | Overwritten

  datatype Entry = Entry(
    path: Path, sibling: Path, undoSibling: Path, mutates: bool, target: File, expected: Option<Bytes>)

  datatype EntryFaults = EntryFaults(before: bool, commit: CommitFaults, record: bool)

  datatype UndoFaults = UndoFaults(fence: bool, commit: CommitFaults, check: bool, unlink: bool, directories: bool)

  function Last(files: Files, trace: seq<Files>): Files {
    if trace == [] then files else trace[|trace| - 1]
  }

  predicate Holds(files: Files, path: Path, bytes: Bytes) {
    path in files && files[path].bytes == bytes
  }

  // ---------------------------------------------------------------- one atomic replacement

  function Commit(
    files: Files, path: Path, sibling: Path, target: File, expected: Option<Bytes>, f: CommitFaults)
    : (seq<Files>, Committing)
  {
    if f.open || sibling in files then
      ([], Rejected)
    else
      var staged := files[sibling := if f.stage then f.partial else target];
      if f.stage || (expected.Some? && !Holds(staged, path, expected.value)) || f.rename then
        (if f.sweep then [staged] else [staged, staged - {sibling}], Rejected)
      else
        var renamed := (staged - {sibling})[path := target];
        ([staged, renamed], if f.sweep then Overwritten else Committed)
  }

  /** Undo one committed entry; true when the rollback loop records no failure for it. */
  function UndoOne(files: Files, e: Entry, before: Option<File>, f: UndoFaults): (seq<Files>, bool) {
    if f.fence then ([], false)
    else if before.Some? then
      var (trace, end) := Commit(files, e.path, e.undoSibling, before.value, Some(e.target.bytes), f.commit);
      (trace, end == Committed)
    else if f.check || !Holds(files, e.path, e.target.bytes) || f.unlink then ([], false)
    else ([files - {e.path}], !f.directories)
  }

  /** Nothing rejects on the way to the old state: the call that brings it back takes effect. */
  predicate Restores(existed: bool, f: UndoFaults) {
    && !f.fence
    && if existed then !f.commit.open && !f.commit.stage && !f.commit.rename else !f.check && !f.unlink
  }

  /** Nothing rejects at all. */
  predicate UndoesQuietly(existed: bool, f: UndoFaults) {
    Restores(existed, f) && if existed then !f.commit.sweep else !f.directories
  }

  // ---------------------------------------------------------------- the batch

  /** How the loop over the entries ended; `late` when entry `at` was committed before the rejection. */
  datatype Running = AllDone | Stopped(at: nat, late: bool, overwritten: bool)

  function RunFrom(files: Files, entries: seq<Entry>, faults: seq<EntryFaults>, i: nat): (seq<Files>, Running)
    requires i <= |entries| == |faults|
    decreases |entries| - i
  {
    if i == |entries| then ([], AllDone)
    else
      var e, f := entries[i], faults[i];
      if f.before then ([], Stopped(i, false, false))
      else if !e.mutates then RunFrom(files, entries, faults, i + 1)
      else
        var (trace, end) := Commit(files, e.path, e.sibling, e.target, e.expected, f.commit);
        if end != Committed then (trace, Stopped(i, false, end == Overwritten))
        else if f.record then (trace, Stopped(i, true, false))
        else
          var (rest, running) := RunFrom(Last(files, trace), entries, faults, i + 1);
          (trace + rest, running)
  }

  /** Undo the mutating entries below k, last first, collecting those whose undo was recorded as failed. */
  function UndoFrom(
    files: Files, entries: seq<Entry>, befores: seq<Option<File>>, faults: seq<UndoFaults>, k: nat)
    : (seq<Files>, set<nat>)
    requires k <= |entries| == |befores| == |faults|
    decreases k
  {
    if k == 0 then ([], {})
    else if !entries[k - 1].mutates then UndoFrom(files, entries, befores, faults, k - 1)
    else
      var (trace, undone) := UndoOne(files, entries[k - 1], befores[k - 1], faults[k - 1]);
      var (rest, failed) := UndoFrom(Last(files, trace), entries, befores, faults, k - 1);
      (trace + rest, if undone then failed else failed + {k - 1})
  }

  datatype RunFaults = RunFaults(
    aborted: bool, begin: bool, verify: bool, entries: seq<EntryFaults>, complete: bool,
    undos: seq<UndoFaults>, record: bool)

  /** `named`: entries whose paths the error lists; an error without rollback trouble lists none. */
  datatype Outcome = Completed | Failed(named: set<nat>)

  datatype BatchRun = BatchRun(
    trace: seq<Files>, outcome: Outcome, running: Running,
    disposable: bool, recorded: bool, receiptsSafe: bool, receiptsSpent: bool)

  function CommittedBelow(entries: seq<Entry>, k: nat): set<nat>
    requires k <= |entries|
  {
    set i | 0 <= i < k && entries[i].mutates
  }

  function Snapshots(files: Files, entries: seq<Entry>): (befores: seq<Option<File>>)
    ensures |befores| == |entries|
    ensures forall i :: 0 <= i < |entries| ==>
              befores[i] == if entries[i].path in files then Some(files[entries[i].path]) else None
  {
    if entries == [] then []
    else
      var e := entries[|entries| - 1];
      Snapshots(files, entries[..|entries| - 1]) + [if e.path in files then Some(files[e.path]) else None]
  }

  /** The catch block: undo, record, and report every committed path unless all of that succeeded. */
  function Recover(
    files: Files, entries: seq<Entry>, f: RunFaults, trace: seq<Files>, running: Running, k: nat,
    began: bool, intact: bool): BatchRun
    requires k <= |entries| == |f.undos|
  {
    var (back, failed) := UndoFrom(Last(files, trace), entries, Snapshots(files, entries), f.undos, k);
    var quiet := failed == {} && (began ==> !f.record);
    var recorded := began && quiet;
    BatchRun(
      trace + back, Failed(if quiet then {} else CommittedBelow(entries, k)), running,
      recorded || intact, recorded, if quiet then began || intact else intact, false)
  }

  /** The entries below this index have been pushed to the committed list. */
  function Reached(entries: seq<Entry>, running: Running): (k: nat)
    ensures k <= |entries|
  {
    if running.AllDone? then |entries|
    else if running.at >= |entries| then 0
    else if running.late then running.at + 1
    else running.at
  }

  predicate Planned(entries: seq<Entry>) {
    exists i :: 0 <= i < |entries| && entries[i].mutates
  }

  function RunBatch(files: Files, entries: seq<Entry>, f: RunFaults): BatchRun
    requires |entries| == |f.entries| == |f.undos|
  {
    var planned := Planned(entries);
    if f.aborted then Recover(files, entries, f, [], Stopped(0, false, false), 0, false, true)
    else if planned && f.begin then Recover(files, entries, f, [], Stopped(0, false, false), 0, false, false)
    else if planned && f.verify then Recover(files, entries, f, [], Stopped(0, false, false), 0, true, false)
    else
      var (trace, running) := RunFrom(files, entries, f.entries, 0);
      if running.AllDone? && !f.complete then
        BatchRun(trace, Completed, running, true, false, !planned, true)
      else
        Recover(files, entries, f, trace, running, Reached(entries, running), planned, !planned)
  }

  // ---------------------------------------------------------------- where each path stands

  ghost predicate IsSibling(entries: seq<Entry>, p: Path) {
    exists i :: 0 <= i < |entries| && (entries[i].sibling == p || entries[i].undoSibling == p)
  }

  ghost predicate InBatch(entries: seq<Entry>, p: Path) {
    exists i :: 0 <= i < |entries| && entries[i].path == p
  }

  /** One entry per resolved path, and random siblings that name no batch path. */
  ghost predicate WellFormed(entries: seq<Entry>) {
    && (forall i, k :: 0 <= i < k < |entries| ==> entries[i].path != entries[k].path)
    && (forall i :: 0 <= i < |entries| ==>
          !InBatch(entries, entries[i].sibling) && !InBatch(entries, entries[i].undoSibling))
  }

  ghost predicate SameAt(orig: Files, files: Files, p: Path) {
    (p in files <==> p in orig) && (p in orig ==> files[p] == orig[p])
  }

  /** Entry i stands at its target where done[i], at its original state elsewhere. */
  ghost predicate Standing(orig: Files, files: Files, entries: seq<Entry>, done: seq<bool>) {
    && |done| == |entries|
    && (forall i :: 0 <= i < |entries| ==> StandsAt(orig, files, entries[i], done[i]))
    && (forall p :: !InBatch(entries, p) && !IsSibling(entries, p) ==> SameAt(orig, files, p))
  }

  ghost predicate StandsAt(orig: Files, files: Files, e: Entry, done: bool) {
    if done then e.path in files && files[e.path] == e.target else SameAt(orig, files, e.path)
  }

  /** No batch path is ever seen in between, and no other path but a random sibling changes. */
  ghost predicate Whole(orig: Files, files: Files, entries: seq<Entry>) {
    && (forall i :: 0 <= i < |entries| ==>
          SameAt(orig, files, entries[i].path) || StandsAt(orig, files, entries[i], true))
    && (forall p :: !InBatch(entries, p) && !IsSibling(entries, p) ==> SameAt(orig, files, p))
  }

  ghost predicate AllWhole(orig: Files, trace: seq<Files>, entries: seq<Entry>) {
    forall t :: 0 <= t < |trace| ==> Whole(orig, trace[t], entries)
  }

  lemma StandingIsWhole(orig: Files, files: Files, entries: seq<Entry>, done: seq<bool>)
    requires Standing(orig, files, entries, done)
    ensures Whole(orig, files, entries)
  {
    forall i | 0 <= i < |entries|
      ensures SameAt(orig, files, entries[i].path) || StandsAt(orig, files, entries[i], true)
    {
      assert StandsAt(orig, files, entries[i], done[i]);
    }
  }

  lemma LastOfConcat(files: Files, first: seq<Files>, second: seq<Files>)
    ensures Last(files, first + second) == Last(Last(files, first), second)
  {
  }

  lemma AllWholeConcat(orig: Files, first: seq<Files>, second: seq<Files>, entries: seq<Entry>)
    requires AllWhole(orig, first, entries) && AllWhole(orig, second, entries)
    ensures AllWhole(orig, first + second, entries)
  {
  }

  /** A step that changes entry i's path and siblings only. */
  lemma Restand(
    orig: Files, files: Files, next: Files, entries: seq<Entry>, done: seq<bool>, i: nat, stands: bool)
    requires WellFormed(entries) && Standing(orig, files, entries, done) && i < |entries|
    requires StandsAt(orig, next, entries[i], stands)
    requires forall p :: p != entries[i].path && !IsSibling(entries, p) ==> SameAt(files, next, p)
    ensures Standing(orig, next, entries, done[i := stands])
    ensures Whole(orig, next, entries)
  {
    var done' := done[i := stands];
    forall k | 0 <= k < |entries| ensures StandsAt(orig, next, entries[k], done'[k]) {
      if k != i {
        assert StandsAt(orig, files, entries[k], done[k]);
        PathsAreNotSiblings(entries, k);
        assert SameAt(files, next, entries[k].path);
      }
    }
    forall p | !InBatch(entries, p) && !IsSibling(entries, p) ensures SameAt(orig, next, p) {
      assert SameAt(files, next, p);
    }
    StandingIsWhole(orig, next, entries, done');
  }

  lemma PathsAreNotSiblings(entries: seq<Entry>, k: nat)
    requires WellFormed(entries) && k < |entries|
    ensures !IsSibling(entries, entries[k].path)
  {
    assert InBatch(entries, entries[k].path);
  }

  /** Replacing entry i by `target`: the result stands at `target` unless the call was rejected. */
  lemma CommitStep(
    orig: Files, files: Files, entries: seq<Entry>, done: seq<bool>, i: nat,
    sibling: Path, target: File, stands: bool, expected: Option<Bytes>, f: CommitFaults)
    requires WellFormed(entries) && Standing(orig, files, entries, done) && i < |entries|
    requires sibling == entries[i].sibling || sibling == entries[i].undoSibling
    requires if stands then target == entries[i].target
             else entries[i].path in orig && orig[entries[i].path] == target
    ensures var (trace, end) := Commit(files, entries[i].path, sibling, target, expected, f);
            && AllWhole(orig, trace, entries)
            && Standing(orig, Last(files, trace), entries, if end == Rejected then done else done[i := stands])
  {
    var e := entries[i];
    PathsAreNotSiblings(entries, i);
    assert IsSibling(entries, sibling);
    assert done[i := done[i]] == done;
    assert StandsAt(orig, files, e, done[i]);
    hide Standing, WellFormed, Whole, IsSibling, InBatch, StandsAt, AllWhole;
    NothingSeen(orig, entries);
    if !f.open && sibling !in files {
      var staged := files[sibling := if f.stage then f.partial else target];
      var renamed := (staged - {sibling})[e.path := target];
      SiblingStep(orig, files, staged, entries, done, i, sibling);
      SiblingStep(orig, staged, staged - {sibling}, entries, done, i, sibling);
      RenameStep(orig, staged, entries, done, i, sibling, target, stands);
      SeenTwice(orig, staged, staged - {sibling}, entries);
      SeenTwice(orig, staged, renamed, entries);
    }
  }

  lemma SeenTwice(orig: Files, first: Files, second: Files, entries: seq<Entry>)
    requires Whole(orig, first, entries) && Whole(orig, second, entries)
    ensures AllWhole(orig, [first], entries) && AllWhole(orig, [first, second], entries)
  {
  }

  /** Writing or removing a sibling moves no batch path. */
  lemma SiblingStep(
    orig: Files, files: Files, next: Files, entries: seq<Entry>, done: seq<bool>, i: nat, sibling: Path)
    requires WellFormed(entries) && Standing(orig, files, entries, done) && i < |entries|
    requires IsSibling(entries, sibling) && files - {sibling} == next - {sibling}
    ensures Standing(orig, next, entries, done) && Whole(orig, next, entries)
  {
    var e := entries[i];
    PathsAreNotSiblings(entries, i);
    assert done[i := done[i]] == done;
    assert StandsAt(orig, files, e, done[i]);
    forall p | p != sibling ensures SameAt(files, next, p) {
      assert p in files <==> p in files - {sibling};
      assert p in next <==> p in next - {sibling};
    }
    hide Standing, WellFormed, Whole, IsSibling, InBatch;
    assert SameAt(files, next, e.path);
    Restand(orig, files, next, entries, done, i, done[i]);
  }

  lemma RenameStep(
    orig: Files, staged: Files, entries: seq<Entry>, done: seq<bool>, i: nat,
    sibling: Path, target: File, stands: bool)
    requires WellFormed(entries) && Standing(orig, staged, entries, done) && i < |entries|
    requires IsSibling(entries, sibling)
    requires if stands then target == entries[i].target
             else entries[i].path in orig && orig[entries[i].path] == target
    ensures var renamed := (staged - {sibling})[entries[i].path := target];
            Standing(orig, renamed, entries, done[i := stands]) && Whole(orig, renamed, entries)
  {
    hide Standing, WellFormed, Whole, InBatch;
    Restand(orig, staged, (staged - {sibling})[entries[i].path := target], entries, done, i, stands);
  }

  lemma UndoStep(
    orig: Files, files: Files, entries: seq<Entry>, done: seq<bool>, i: nat, f: UndoFaults)
    returns (stands: bool)
    requires WellFormed(entries) && Standing(orig, files, entries, done) && i < |entries| && done[i]
    ensures var (trace, undone) := UndoOne(files, entries[i], Snapshots(orig, entries)[i], f);
            && AllWhole(orig, trace, entries)
            && Standing(orig, Last(files, trace), entries, done[i := stands])
            && (undone ==> !stands)
            && (entries[i].undoSibling !in files ==>
                  && (stands <==> !Restores(entries[i].path in orig, f))
                  && (undone <==> UndoesQuietly(entries[i].path in orig, f)))
  {
    var e := entries[i];
    var before := Snapshots(orig, entries)[i];
    assert StandsAt(orig, files, e, done[i]);
    assert done[i := true] == done;
    stands := true;
    if !f.fence {
      if before.Some? {
        CommitStep(orig, files, entries, done, i, e.undoSibling, before.value, false, Some(e.target.bytes), f.commit);
        var end := Commit(files, e.path, e.undoSibling, before.value, Some(e.target.bytes), f.commit).1;
        stands := end == Rejected;
      } else if !f.check && !f.unlink {
        Restand(orig, files, files - {e.path}, entries, done, i, false);
        stands := false;
      }
    }
  }

  /** Mutating entries below k are at their targets, and entry `extra` is when it is below |entries|. */
  ghost function DoneBelow(entries: seq<Entry>, k: nat): (done: seq<bool>)
    ensures |done| == |entries|
  {
    seq(|entries|, i requires 0 <= i < |entries| => i < k && entries[i].mutates)
  }

  ghost function AfterRunning(entries: seq<Entry>, running: Running): (done: seq<bool>)
    requires running.Stopped? ==> running.at < |entries|
    ensures |done| == |entries|
  {
    if running.AllDone? then DoneBelow(entries, |entries|)
    else DoneBelow(entries, running.at)[running.at := running.late || running.overwritten]
  }

  ghost predicate Ran(
    orig: Files, files: Files, entries: seq<Entry>, run: (seq<Files>, Running))
  {
    && AllWhole(orig, run.0, entries)
    && (run.1.Stopped? ==>
          && run.1.at < |entries|
          && !(run.1.late && run.1.overwritten)
          && (run.1.late || run.1.overwritten ==> entries[run.1.at].mutates))
    && Standing(orig, Last(files, run.0), entries, AfterRunning(entries, run.1))
  }

  lemma {:induction false} RunFromStanding(
    orig: Files, files: Files, entries: seq<Entry>, faults: seq<EntryFaults>, i: nat)
    requires WellFormed(entries) && i <= |entries| == |faults|
    requires Standing(orig, files, entries, DoneBelow(entries, i))
    ensures Ran(orig, files, entries, RunFrom(files, entries, faults, i))
    decreases |entries| - i
  {
    var done := DoneBelow(entries, i);
    NothingSeen(orig, entries);
    assert Last(files, []) == files;
    if i < |entries| {
      assert done[i := false] == done;
      assert DoneBelow(entries, i + 1) == done[i := entries[i].mutates];
    }
    hide Whole, Standing, AllWhole, Ran, Commit, WellFormed, DoneBelow, Last;
    if i == |entries| {
      RanStopped(orig, files, entries, [], AllDone);
    } else {
      var e, f := entries[i], faults[i];
      if f.before {
        RanStopped(orig, files, entries, [], Stopped(i, false, false));
      } else if !e.mutates {
        RunFromStanding(orig, files, entries, faults, i + 1);
      } else {
        var (trace, end) := Commit(files, e.path, e.sibling, e.target, e.expected, f.commit);
        CommitStep(orig, files, entries, done, i, e.sibling, e.target, true, e.expected, f.commit);
        if end != Committed {
          RanStopped(orig, files, entries, trace, Stopped(i, false, end == Overwritten));
        } else if f.record {
          RanStopped(orig, files, entries, trace, Stopped(i, true, false));
        } else {
          RunFromStanding(orig, Last(files, trace), entries, faults, i + 1);
          RanOn(orig, files, entries, trace, RunFrom(Last(files, trace), entries, faults, i + 1));
        }
      }
    }
  }

  lemma NothingSeen(orig: Files, entries: seq<Entry>)
    ensures AllWhole(orig, [], entries)
  {
  }

  lemma RanStopped(orig: Files, files: Files, entries: seq<Entry>, trace: seq<Files>, running: Running)
    requires AllWhole(orig, trace, entries)
    requires running.Stopped? ==> running.at < |entries|
    requires running.Stopped? ==> !(running.late && running.overwritten)
    requires running.Stopped? && (running.late || running.overwritten) ==> entries[running.at].mutates
    requires Standing(orig, Last(files, trace), entries, AfterRunning(entries, running))
    ensures Ran(orig, files, entries, (trace, running))
  {
  }

  lemma RanOn(orig: Files, files: Files, entries: seq<Entry>, trace: seq<Files>, run: (seq<Files>, Running))
    requires AllWhole(orig, trace, entries) && Ran(orig, Last(files, trace), entries, run)
    ensures Ran(orig, files, entries, (trace + run.0, run.1))
  {
    hide Whole, Standing;
    LastOfConcat(files, trace, run.0);
  }

  /** Undoing entries below k: whatever is still at its target was recorded as failed. */
  ghost predicate Undone(
    orig: Files, files: Files, entries: seq<Entry>, done: seq<bool>, k: nat,
    undo: (seq<Files>, set<nat>), done': seq<bool>)
  {
    && |done'| == |done| == |entries| && k <= |entries|
    && AllWhole(orig, undo.0, entries)
    && Standing(orig, Last(files, undo.0), entries, done')
    && (forall i :: k <= i < |entries| ==> done'[i] == done[i])
    && (forall i :: i in undo.1 ==> i < k && entries[i].mutates)
    && (forall i :: 0 <= i < k && done'[i] ==> i in undo.1)
  }

  /** The random siblings of the undos are used once each. */
  ghost predicate UndoSiblingsDiffer(entries: seq<Entry>) {
    forall i, k :: 0 <= i < k < |entries| ==> entries[i].undoSibling != entries[k].undoSibling
  }

  /** The siblings of the undos below k name nothing. */
  ghost predicate Free(files: Files, entries: seq<Entry>, k: nat) {
    k <= |entries| && forall i :: 0 <= i < k ==> entries[i].undoSibling !in files
  }

  /** Of the entries below k exactly those whose undo is kept from it stay, and those that met a rejection failed. */
  ghost predicate UndoneAsFlagged(
    orig: Files, entries: seq<Entry>, faults: seq<UndoFaults>, k: nat, failed: set<nat>, done': seq<bool>)
  {
    && k <= |entries| == |faults| == |done'|
    && forall i :: 0 <= i < k ==>
         && (done'[i] <==> entries[i].mutates && !Restores(entries[i].path in orig, faults[i]))
         && (i in failed <==> entries[i].mutates && !UndoesQuietly(entries[i].path in orig, faults[i]))
  }

  lemma UndoTouches(files: Files, e: Entry, before: Option<File>, f: UndoFaults)
    ensures forall p :: p != e.path && p != e.undoSibling ==>
              (p in Last(files, UndoOne(files, e, before, f).0) <==> p in files)
  {
  }

  lemma UndoLeavesFree(files: Files, entries: seq<Entry>, k: nat, before: Option<File>, f: UndoFaults)
    requires WellFormed(entries) && UndoSiblingsDiffer(entries) && k < |entries| && Free(files, entries, k + 1)
    ensures Free(Last(files, UndoOne(files, entries[k], before, f).0), entries, k)
  {
    UndoTouches(files, entries[k], before, f);
    hide UndoOne, Last;
    forall i | 0 <= i < k ensures entries[i].undoSibling != entries[k].path {
      assert InBatch(entries, entries[k].path) && !InBatch(entries, entries[i].undoSibling);
    }
  }

  lemma {:induction false} UndoFromStanding(
    orig: Files, files: Files, entries: seq<Entry>, faults: seq<UndoFaults>, k: nat, done: seq<bool>)
    returns (done': seq<bool>)
    requires WellFormed(entries) && k <= |entries| == |faults| == |done|
    requires Standing(orig, files, entries, done)
    requires forall i :: 0 <= i < k ==> (done[i] <==> entries[i].mutates)
    ensures Undone(orig, files, entries, done, k,
                   UndoFrom(files, entries, Snapshots(orig, entries), faults, k), done')
    ensures UndoSiblingsDiffer(entries) && Free(files, entries, k) ==>
              UndoneAsFlagged(orig, entries, faults, k,
                              UndoFrom(files, entries, Snapshots(orig, entries), faults, k).1, done')
    decreases k
  {
    hide Whole, Standing, AllWhole, Undone, UndoOne, WellFormed, Snapshots, UndoSiblingsDiffer, Restores, UndoesQuietly;
    hide Last;
    var befores := Snapshots(orig, entries);
    if k == 0 {
      done' := done;
      UndoneNothing(orig, files, entries, done);
    } else if !entries[k - 1].mutates {
      done' := UndoFromStanding(orig, files, entries, faults, k - 1, done);
      var undo := UndoFrom(files, entries, befores, faults, k - 1);
      UndoneSkip(orig, files, entries, done, k - 1, undo, done');
      AfterTheOthers(orig, files, entries, done, k - 1, undo, done');
    } else {
      var (trace, undone) := UndoOne(files, entries[k - 1], befores[k - 1], faults[k - 1]);
      var stands := UndoStep(orig, files, entries, done, k - 1, faults[k - 1]);
      var undo := UndoFrom(Last(files, trace), entries, befores, faults, k - 1);
      done' := UndoFromStanding(orig, Last(files, trace), entries, faults, k - 1, done[k - 1 := stands]);
      UndoneOn(orig, files, entries, done, k - 1, trace, undone, stands, undo, done');
      if UndoSiblingsDiffer(entries) && Free(files, entries, k) {
        UndoLeavesFree(files, entries, k - 1, befores[k - 1], faults[k - 1]);
        AfterTheOthers(orig, Last(files, trace), entries, done[k - 1 := stands], k - 1, undo, done');
        FlaggedOn(orig, entries, faults, k - 1, undo.1, done', undone);
      }
    }
  }

  lemma FlaggedOn(
    orig: Files, entries: seq<Entry>, faults: seq<UndoFaults>, k: nat, failed: set<nat>, done': seq<bool>, undone: bool)
    requires UndoneAsFlagged(orig, entries, faults, k, failed, done') && k < |entries| && entries[k].mutates
    requires k !in failed && (done'[k] <==> !Restores(entries[k].path in orig, faults[k]))
    requires undone <==> UndoesQuietly(entries[k].path in orig, faults[k])
    ensures UndoneAsFlagged(orig, entries, faults, k + 1, if undone then failed else failed + {k}, done')
  {
    hide Restores, UndoesQuietly;
  }

  /** The later undos keep where this entry stands and do not name it. */
  lemma AfterTheOthers(
    orig: Files, files: Files, entries: seq<Entry>, done: seq<bool>, k: nat, undo: (seq<Files>, set<nat>),
    done': seq<bool>)
    requires Undone(orig, files, entries, done, k, undo, done') && k < |entries|
    ensures done'[k] == done[k] && k !in undo.1
  {
  }

  lemma UndoneNothing(orig: Files, files: Files, entries: seq<Entry>, done: seq<bool>)
    requires |done| == |entries| && Standing(orig, files, entries, done)
    ensures Undone(orig, files, entries, done, 0, ([], {}), done)
  {
  }

  lemma UndoneSkip(
    orig: Files, files: Files, entries: seq<Entry>, done: seq<bool>, k: nat,
    undo: (seq<Files>, set<nat>), done': seq<bool>)
    requires k < |done| == |entries| && !done[k]
    requires Undone(orig, files, entries, done, k, undo, done')
    ensures Undone(orig, files, entries, done, k + 1, undo, done')
  {
    hide Whole, Standing, AllWhole;
  }

  lemma UndoneOn(
    orig: Files, files: Files, entries: seq<Entry>, done: seq<bool>, k: nat, trace: seq<Files>,
    undone: bool, stands: bool, undo: (seq<Files>, set<nat>), done': seq<bool>)
    requires k < |done| == |entries| && entries[k].mutates && AllWhole(orig, trace, entries)
    requires undone ==> !stands
    requires Undone(orig, Last(files, trace), entries, done[k := stands], k, undo, done')
    ensures Undone(orig, files, entries, done, k + 1,
                   (trace + undo.0, if undone then undo.1 else undo.1 + {k}), done')
  {
    hide Whole, Standing;
    LastOfConcat(files, trace, undo.0);
  }

  lemma NothingDone(orig: Files, entries: seq<Entry>)
    ensures Standing(orig, orig, entries, DoneBelow(entries, 0))
  {
  }

  // ---------------------------------------------------------------- the theorem

  /** The one rejection the rollback does not see: a handler that rejected after its rename. */
  ghost predicate Slipped(run: BatchRun) {
    run.running.Stopped? && run.running.overwritten
  }

  ghost predicate Settled(orig: Files, entries: seq<Entry>, run: BatchRun, final: Files, intact: bool) {
    && AllWhole(orig, run.trace, entries)
    && (Slipped(run) ==> run.running.at < |entries| && entries[run.running.at].mutates)
    && (run.outcome.Completed? ==> !Slipped(run) && forall i :: 0 <= i < |entries| ==>
          StandsAt(orig, final, entries[i], entries[i].mutates))
    && (run.outcome.Failed? ==> forall i :: 0 <= i < |entries| ==>
          if Slipped(run) && i == run.running.at then
            StandsAt(orig, final, entries[i], true) && i !in run.outcome.named
          else
            SameAt(orig, final, entries[i].path) || i in run.outcome.named)
    && (run.recorded ==> run.outcome == Failed({}))
    && (run.disposable <==> run.outcome.Completed? || run.recorded || intact)
    && (intact ==> forall i :: 0 <= i < |entries| ==> SameAt(orig, final, entries[i].path))
  }

  lemma RecoverSettles(
    orig: Files, entries: seq<Entry>, f: RunFaults, trace: seq<Files>, running: Running, k: nat,
    began: bool, intact: bool, done: seq<bool>)
    requires WellFormed(entries) && k <= |entries| == |f.undos| == |done|
    requires AllWhole(orig, trace, entries) && Standing(orig, Last(orig, trace), entries, done)
    requires forall i :: 0 <= i < k ==> (done[i] <==> entries[i].mutates)
    requires forall i :: k <= i < |entries| ==>
               (done[i] <==> running.Stopped? && running.overwritten && i == running.at)
    requires running.Stopped? && running.overwritten ==> k == running.at < |entries| && entries[k].mutates
    requires intact ==> k == 0 && !(running.Stopped? && running.overwritten)
    ensures var run := Recover(orig, entries, f, trace, running, k, began, intact);
            Settled(orig, entries, run, Last(orig, run.trace), intact)
  {
    hide UndoneAsFlagged, Free, UndoSiblingsDiffer, WellFormed;
    var done' := UndoFromStanding(orig, Last(orig, trace), entries, f.undos, k, done);
    var undo := UndoFrom(Last(orig, trace), entries, Snapshots(orig, entries), f.undos, k);
    LastOfConcat(orig, trace, undo.0);
    AllWholeConcat(orig, trace, undo.0, entries);
    var final := Last(orig, trace + undo.0);
    forall i | 0 <= i < |entries| ensures StandsAt(orig, final, entries[i], done'[i]) {
    }
    hide Whole, AllWhole, Standing, StandsAt, SameAt, UndoFrom;
    forall i | 0 <= i < |entries| && !done'[i] ensures SameAt(orig, final, entries[i].path) {
      assert StandsAt(orig, final, entries[i], done'[i]);
      NotDoneIsSame(orig, final, entries[i]);
    }
  }

  lemma NotDoneIsSame(orig: Files, files: Files, e: Entry)
    requires StandsAt(orig, files, e, false)
    ensures SameAt(orig, files, e.path)
  {
  }

  /**
    Whatever rejects: every state of the run shows each batch path whole, success puts every
    planned file at its target, and a failure restores or names every path, except the one whose
    handler rejected after its rename: that one is at its target and not named.
  */
  lemma BatchSettles(orig: Files, entries: seq<Entry>, f: RunFaults)
    requires WellFormed(entries) && |entries| == |f.entries| == |f.undos|
    ensures var run := RunBatch(orig, entries, f);
            Settled(orig, entries, run, Last(orig, run.trace), f.aborted || !Planned(entries))
  {
    var planned := Planned(entries);
    var zero := DoneBelow(entries, 0);
    var early := Stopped(0, false, false);
    assert forall i :: 0 <= i < |entries| ==> !zero[i];
    NothingDone(orig, entries);
    NothingSeen(orig, entries);
    hide Whole, AllWhole, Standing, Settled, Ran, Recover, RunFrom, WellFormed, DoneBelow, Reached, Planned;
    if f.aborted {
      RecoverSettles(orig, entries, f, [], early, 0, false, true, zero);
    } else if planned && f.begin {
      RecoverSettles(orig, entries, f, [], early, 0, false, false, zero);
    } else if planned && f.verify {
      RecoverSettles(orig, entries, f, [], early, 0, true, false, zero);
    } else {
      RunFromStanding(orig, orig, entries, f.entries, 0);
      var (trace, running) := RunFrom(orig, entries, f.entries, 0);
      if running.AllDone? && !f.complete {
        CompletedSettles(orig, entries, trace, !planned);
      } else {
        RecoverWhenPlanned(orig, entries, f, trace, running, planned);
      }
    }
  }

  lemma RecoverWhenPlanned(
    orig: Files, entries: seq<Entry>, f: RunFaults, trace: seq<Files>, running: Running, planned: bool)
    requires WellFormed(entries) && |entries| == |f.undos| && planned == Planned(entries)
    requires Ran(orig, orig, entries, (trace, running))
    ensures var run := Recover(orig, entries, f, trace, running, Reached(entries, running), planned, !planned);
            Settled(orig, entries, run, Last(orig, run.trace), !planned)
  {
    var k := Reached(entries, running);
    var done := AfterRunning(entries, running);
    if planned {
      RecoverSettles(orig, entries, f, trace, running, k, true, false, done);
    } else {
      assert done == DoneBelow(entries, 0);
      assert forall i :: 0 <= i < |entries| ==> !entries[i].mutates;
      RecoverIdle(orig, entries, f, trace, running, k, done);
    }
  }

  /** A batch of previews only has nothing to undo. */
  lemma RecoverIdle(
    orig: Files, entries: seq<Entry>, f: RunFaults, trace: seq<Files>, running: Running, k: nat, done: seq<bool>)
    requires WellFormed(entries) && k <= |entries| == |f.undos| && !Planned(entries)
    requires AllWhole(orig, trace, entries) && Standing(orig, Last(orig, trace), entries, done)
    requires forall i :: 0 <= i < |entries| ==> !done[i]
    requires running.Stopped? ==> !running.overwritten
    ensures var run := Recover(orig, entries, f, trace, running, k, false, true);
            Settled(orig, entries, run, Last(orig, run.trace), true)
  {
    var done' := UndoFromStanding(orig, Last(orig, trace), entries, f.undos, k, done);
    var undo := UndoFrom(Last(orig, trace), entries, Snapshots(orig, entries), f.undos, k);
    LastOfConcat(orig, trace, undo.0);
    AllWholeConcat(orig, trace, undo.0, entries);
    var final := Last(orig, trace + undo.0);
    forall i | 0 <= i < |entries| ensures !done'[i] && SameAt(orig, final, entries[i].path) {
      assert !entries[i].mutates;
      assert StandsAt(orig, final, entries[i], done'[i]);
    }
  }

  lemma CompletedSettles(orig: Files, entries: seq<Entry>, trace: seq<Files>, idle: bool)
    requires idle == !Planned(entries)
    requires Ran(orig, orig, entries, (trace, AllDone))
    ensures Settled(orig, entries, BatchRun(trace, Completed, AllDone, true, false, idle, true),
                    Last(orig, trace), idle)
  {
    forall i | 0 <= i < |entries|
      ensures StandsAt(orig, Last(orig, trace), entries[i], entries[i].mutates)
    {
      assert StandsAt(orig, Last(orig, trace), entries[i], DoneBelow(entries, |entries|)[i]);
    }
  }

  /** What a batch leaves in the state that its preview receipts are released with. */
  lemma ReceiptsFollowTheOutcome(orig: Files, entries: seq<Entry>, f: RunFaults)
    requires |entries| == |f.entries| == |f.undos|
    ensures var run := RunBatch(orig, entries, f);
            && (run.receiptsSpent <==> run.outcome.Completed?)
            && (run.outcome.Failed? ==> (run.receiptsSafe <==> run.recorded || f.aborted || !Planned(entries)))
  {
    hide RunFrom, UndoFrom, Planned, Reached, CommittedBelow;
  }

  // ---------------------------------------------------------------- when a rejection slips through

  /** The rename of this entry is reached: nothing rejects before, and the file is still as expected. */
  predicate Renames(orig: Files, e: Entry, f: CommitFaults) {
    && !f.open && e.sibling !in orig && !f.stage && !f.rename
    && (e.expected.Some? ==> Holds(orig, e.path, e.expected.value))
  }

  predicate PassesEntry(orig: Files, e: Entry, f: EntryFaults) {
    !f.before && (e.mutates ==> Renames(orig, e, f.commit) && !f.commit.sweep && !f.record)
  }

  /** Only removing the temporary rejects, after the rename. */
  predicate SlipsOn(orig: Files, e: Entry, f: EntryFaults) {
    !f.before && e.mutates && Renames(orig, e, f.commit) && f.commit.sweep
  }

  predicate SlipsAt(orig: Files, entries: seq<Entry>, f: RunFaults, k: nat)
    requires |entries| == |f.entries|
  {
    && !f.aborted && !f.begin && !f.verify
    && k < |entries| && SlipsOn(orig, entries[k], f.entries[k])
    && forall i :: 0 <= i < k ==> PassesEntry(orig, entries[i], f.entries[i])
  }

  lemma CommitEnds(orig: Files, files: Files, e: Entry, f: CommitFaults)
    requires SameAt(orig, files, e.path) && SameAt(orig, files, e.sibling) && e.sibling != e.path
    ensures var (trace, end) := Commit(files, e.path, e.sibling, e.target, e.expected, f);
            && (end == Overwritten <==> Renames(orig, e, f) && f.sweep)
            && (end == Committed <==> Renames(orig, e, f) && !f.sweep)
            && (end == Committed ==> Last(files, trace) == files[e.path := e.target])
  {
    if !f.open && e.sibling !in files {
      var staged := files[e.sibling := if f.stage then f.partial else e.target];
      assert staged - {e.sibling} == files;
    }
  }

  /** Nothing but the paths of entries below i has changed. */
  ghost predicate OnlyBelow(orig: Files, files: Files, entries: seq<Entry>, i: nat)
    requires i <= |entries|
  {
    forall p :: (forall j :: 0 <= j < i ==> entries[j].path != p) ==> SameAt(orig, files, p)
  }

  lemma OnlyBelowNext(orig: Files, files: Files, next: Files, entries: seq<Entry>, i: nat)
    requires i < |entries| && OnlyBelow(orig, files, entries, i)
    requires next == files || next == files[entries[i].path := entries[i].target]
    ensures OnlyBelow(orig, next, entries, i + 1)
  {
    forall p | forall j :: 0 <= j < i + 1 ==> entries[j].path != p ensures SameAt(orig, next, p) {
      assert entries[i].path != p && SameAt(orig, files, p);
    }
  }

  lemma OnlyBelowKeeps(orig: Files, files: Files, entries: seq<Entry>, i: nat)
    requires WellFormed(entries) && i < |entries| && OnlyBelow(orig, files, entries, i)
    ensures SameAt(orig, files, entries[i].path) && SameAt(orig, files, entries[i].sibling)
    ensures entries[i].sibling != entries[i].path
  {
    assert !InBatch(entries, entries[i].sibling) && InBatch(entries, entries[i].path);
    forall j | 0 <= j < i ensures entries[j].path != entries[i].sibling && entries[j].path != entries[i].path {
      assert InBatch(entries, entries[j].path);
    }
  }

  /** The call on this entry takes effect and returns: its path joins the committed ones. */
  predicate CommitsOn(orig: Files, e: Entry, f: EntryFaults) {
    !f.before && e.mutates && Renames(orig, e, f.commit) && !f.commit.sweep
  }

  /** From entry i on, the loop ends as the flags say: at the first entry that does not pass, if any. */
  ghost predicate RunsAsFlagged(
    orig: Files, entries: seq<Entry>, faults: seq<EntryFaults>, i: nat, running: Running)
  {
    && i <= |entries| == |faults|
    && if running.AllDone? then forall j :: i <= j < |entries| ==> PassesEntry(orig, entries[j], faults[j])
       else
         && i <= running.at < |entries| && !PassesEntry(orig, entries[running.at], faults[running.at])
         && (forall j :: i <= j < running.at ==> PassesEntry(orig, entries[j], faults[j]))
         && (running.late <==> CommitsOn(orig, entries[running.at], faults[running.at]))
         && (running.overwritten <==> SlipsOn(orig, entries[running.at], faults[running.at]))
  }

  lemma EntryAsFlagged(orig: Files, files: Files, entries: seq<Entry>, i: nat, f: EntryFaults)
    requires WellFormed(entries) && i < |entries| && OnlyBelow(orig, files, entries, i)
    ensures var e := entries[i];
            var (trace, end) := Commit(files, e.path, e.sibling, e.target, e.expected, f.commit);
            && (PassesEntry(orig, e, f) <==> !f.before && (e.mutates ==> end == Committed && !f.record))
            && (CommitsOn(orig, e, f) <==> !f.before && e.mutates && end == Committed)
            && (SlipsOn(orig, e, f) <==> !f.before && e.mutates && end == Overwritten)
            && OnlyBelow(orig, files, entries, i + 1)
            && (end == Committed ==> OnlyBelow(orig, Last(files, trace), entries, i + 1))
  {
    var e := entries[i];
    OnlyBelowKeeps(orig, files, entries, i);
    CommitEnds(orig, files, e, f.commit);
    hide Commit, WellFormed, OnlyBelow, Last, Renames;
    OnlyBelowNext(orig, files, files, entries, i);
    var (trace, end) := Commit(files, e.path, e.sibling, e.target, e.expected, f.commit);
    if end == Committed { OnlyBelowNext(orig, files, Last(files, trace), entries, i); }
  }

  lemma {:induction false} RunFromAsFlagged(
    orig: Files, files: Files, entries: seq<Entry>, faults: seq<EntryFaults>, i: nat)
    requires WellFormed(entries) && i <= |entries| == |faults| && OnlyBelow(orig, files, entries, i)
    ensures RunsAsFlagged(orig, entries, faults, i, RunFrom(files, entries, faults, i).1)
    decreases |entries| - i
  {
    hide Commit, WellFormed, OnlyBelow, Last, Renames, PassesEntry, CommitsOn, SlipsOn;
    if i < |entries| {
      var e, f := entries[i], faults[i];
      var (trace, end) := Commit(files, e.path, e.sibling, e.target, e.expected, f.commit);
      EntryAsFlagged(orig, files, entries, i, f);
      if PassesEntry(orig, e, f) {
        var next := if e.mutates then Last(files, trace) else files;
        RunFromAsFlagged(orig, next, entries, faults, i + 1);
        assert RunFrom(files, entries, faults, i).1 == RunFrom(next, entries, faults, i + 1).1;
      }
    }
  }

  lemma FlaggedSlip(orig: Files, entries: seq<Entry>, faults: seq<EntryFaults>, running: Running, k: nat)
    requires RunsAsFlagged(orig, entries, faults, 0, running)
    ensures running == Stopped(k, false, true) <==>
              k < |entries| && SlipsOn(orig, entries[k], faults[k])
              && forall j :: 0 <= j < k ==> PassesEntry(orig, entries[j], faults[j])
  {
    hide Renames;
    if k < |entries| && SlipsOn(orig, entries[k], faults[k])
       && forall j :: 0 <= j < k ==> PassesEntry(orig, entries[j], faults[j]) {
      assert !PassesEntry(orig, entries[k], faults[k]);
      assert running.Stopped? && running.at == k;
    }
  }

  /** The run stops with a rejection after a rename exactly under that condition on what rejects. */
  lemma SlippedExactly(orig: Files, entries: seq<Entry>, f: RunFaults, k: nat)
    requires WellFormed(entries) && |entries| == |f.entries| == |f.undos|
    ensures RunBatch(orig, entries, f).running == Stopped(k, false, true) <==> SlipsAt(orig, entries, f, k)
  {
    assert OnlyBelow(orig, orig, entries, 0);
    RunFromAsFlagged(orig, orig, entries, f.entries, 0);
    FlaggedSlip(orig, entries, f.entries, RunFrom(orig, entries, f.entries, 0).1, k);
    if SlipsAt(orig, entries, f, k) { assert entries[k].mutates && Planned(entries); }
    hide RunFrom, OnlyBelow, WellFormed, UndoFrom, PassesEntry, Reached, CommittedBelow, RunsAsFlagged, Renames;
    if RunBatch(orig, entries, f).running == Stopped(k, false, true) {
      assert entries[k].mutates && Planned(entries);
    }
  }

  /** Entry k slips, and its file differed from its target. */
  ghost predicate LosesTrackAt(orig: Files, entries: seq<Entry>, f: RunFaults, k: nat)
    requires |entries| == |f.entries|
  {
    SlipsAt(orig, entries, f, k) && !StandsAt(orig, orig, entries[k], true)
  }

  /**
    Exactly when a failed batch keeps the promise "restored or named": unless some entry is renamed
    over a file that differs from its target and then removing its temporary rejects, while nothing
    before rejects.
  */
  lemma RestoredOrNamedExactly(orig: Files, entries: seq<Entry>, f: RunFaults)
    requires WellFormed(entries) && |entries| == |f.entries| == |f.undos|
    requires RunBatch(orig, entries, f).outcome.Failed?
    ensures RestoredOrNamed(orig, entries, RunBatch(orig, entries, f)) <==>
              !exists k :: LosesTrackAt(orig, entries, f, k)
  {
    RestoredOrNamedByRun(orig, entries, f);
    var run := RunBatch(orig, entries, f);
    hide RunBatch, RestoredOrNamed, WellFormed, SlipsAt, StandsAt;
    if Slipped(run) {
      SlippedIsNotLate(orig, entries, f);
      SlippedExactly(orig, entries, f, run.running.at);
      assert !StandsAt(orig, orig, entries[run.running.at], true) ==> LosesTrackAt(orig, entries, f, run.running.at);
    }
    if k :| LosesTrackAt(orig, entries, f, k) {
      SlippedExactly(orig, entries, f, k);
    }
  }

  ghost predicate RestoredOrNamed(orig: Files, entries: seq<Entry>, run: BatchRun) {
    run.outcome.Failed? && forall i :: 0 <= i < |entries| ==>
      SameAt(orig, Last(orig, run.trace), entries[i].path) || i in run.outcome.named
  }

  lemma RestoredOrNamedByRun(orig: Files, entries: seq<Entry>, f: RunFaults)
    requires WellFormed(entries) && |entries| == |f.entries| == |f.undos|
    requires RunBatch(orig, entries, f).outcome.Failed?
    ensures var run := RunBatch(orig, entries, f);
            && (Slipped(run) ==> run.running.at < |entries|)
            && (RestoredOrNamed(orig, entries, run) <==>
                  !(Slipped(run) && !StandsAt(orig, orig, entries[run.running.at], true)))
  {
    BatchSettles(orig, entries, f);
    hide RunBatch, AllWhole, WellFormed;
  }

  lemma SlippedIsNotLate(orig: Files, entries: seq<Entry>, f: RunFaults)
    requires WellFormed(entries) && |entries| == |f.entries| == |f.undos|
    ensures Slipped(RunBatch(orig, entries, f)) ==> !RunBatch(orig, entries, f).running.late
  {
    NothingDone(orig, entries);
    RunFromStanding(orig, orig, entries, f.entries, 0);
    hide RunFrom, WellFormed, UndoFrom, Reached, CommittedBelow, Standing, AllWhole;
  }

  // ---------------------------------------------------------------- what the flags decide

  /** The loop over the entries begins. */
  predicate Starts(entries: seq<Entry>, f: RunFaults) {
    !f.aborted && (Planned(entries) ==> !f.begin && !f.verify)
  }

  /** The journal knows of the batch. */
  predicate Begins(entries: seq<Entry>, f: RunFaults) {
    !f.aborted && Planned(entries) && !f.begin
  }

  /** Entry i is committed: nothing rejects before, and its own call returns. */
  predicate CommitsAt(orig: Files, entries: seq<Entry>, f: RunFaults, i: nat)
    requires |entries| == |f.entries|
  {
    && Starts(entries, f) && i < |entries| && CommitsOn(orig, entries[i], f.entries[i])
    && forall j :: 0 <= j < i ==> PassesEntry(orig, entries[j], f.entries[j])
  }

  predicate Succeeds(orig: Files, entries: seq<Entry>, f: RunFaults)
    requires |entries| == |f.entries|
  {
    && Starts(entries, f) && !f.complete
    && forall j :: 0 <= j < |entries| ==> PassesEntry(orig, entries[j], f.entries[j])
  }

  /** No undo of a committed entry meets a rejection, and the journal takes the rollback if it knows the batch. */
  predicate RollsBackQuietly(orig: Files, entries: seq<Entry>, f: RunFaults)
    requires |entries| == |f.entries| == |f.undos|
  {
    && (forall i :: 0 <= i < |entries| && CommitsAt(orig, entries, f, i) ==>
          UndoesQuietly(entries[i].path in orig, f.undos[i]))
    && (Begins(entries, f) ==> !f.record)
  }

  /** In the end of a failed batch entry i stays at its target. */
  predicate StaysAt(orig: Files, entries: seq<Entry>, f: RunFaults, i: nat)
    requires |entries| == |f.entries| == |f.undos|
  {
    || SlipsAt(orig, entries, f, i)
    || (CommitsAt(orig, entries, f, i) && !Restores(entries[i].path in orig, f.undos[i]))
  }

  /** The siblings of the undos name nothing at first and are no sibling of any write. */
  ghost predicate FreshUndoSiblings(orig: Files, entries: seq<Entry>) {
    && UndoSiblingsDiffer(entries) && Free(orig, entries, |entries|)
    && forall i, k :: 0 <= i < |entries| && 0 <= k < |entries| ==> entries[i].undoSibling != entries[k].sibling
  }

  lemma CommitTouches(files: Files, path: Path, sibling: Path, target: File, expected: Option<Bytes>, f: CommitFaults)
    ensures forall p :: p != path && p != sibling ==>
              (p in Last(files, Commit(files, path, sibling, target, expected, f).0) <==> p in files)
  {
  }

  lemma {:induction false} RunFromLeavesFree(
    orig: Files, files: Files, entries: seq<Entry>, faults: seq<EntryFaults>, i: nat)
    requires WellFormed(entries) && FreshUndoSiblings(orig, entries) && i <= |entries| == |faults|
    requires Free(files, entries, |entries|)
    ensures Free(Last(files, RunFrom(files, entries, faults, i).0), entries, |entries|)
    decreases |entries| - i
  {
    if i < |entries| && !faults[i].before {
      if !entries[i].mutates {
        RunFromLeavesFree(orig, files, entries, faults, i + 1);
      } else {
        var e, f := entries[i], faults[i];
        var (trace, end) := Commit(files, e.path, e.sibling, e.target, e.expected, f.commit);
        CommitTouches(files, e.path, e.sibling, e.target, e.expected, f.commit);
        forall k | 0 <= k < |entries| ensures entries[k].undoSibling != e.path && entries[k].undoSibling != e.sibling {
          assert InBatch(entries, e.path) && !InBatch(entries, entries[k].undoSibling);
        }
        hide Commit, WellFormed, FreshUndoSiblings, Last;
        RunFromLeavesFree(orig, Last(files, trace), entries, faults, i + 1);
        LastOfConcat(files, trace, RunFrom(Last(files, trace), entries, faults, i + 1).0);
      }
    }
  }

  /** What the catch block leaves, when it starts with `done` at their targets and free undo siblings. */
  lemma RecoverAsFlagged(
    orig: Files, entries: seq<Entry>, f: RunFaults, trace: seq<Files>, running: Running, k: nat,
    began: bool, intact: bool, done: seq<bool>)
    requires WellFormed(entries) && FreshUndoSiblings(orig, entries) && k <= |entries| == |f.undos| == |done|
    requires Standing(orig, Last(orig, trace), entries, done) && Free(Last(orig, trace), entries, |entries|)
    requires forall i :: 0 <= i < k ==> (done[i] <==> entries[i].mutates)
    ensures var run := Recover(orig, entries, f, trace, running, k, began, intact);
            var quiet := (forall i :: 0 <= i < k && entries[i].mutates ==>
                            UndoesQuietly(entries[i].path in orig, f.undos[i])) && (began ==> !f.record);
            && run.outcome == Failed(if quiet then {} else CommittedBelow(entries, k))
            && (run.recorded <==> began && quiet)
            && forall i :: 0 <= i < |entries| ==>
                 StandsAt(orig, Last(orig, run.trace), entries[i],
                          if i < k then entries[i].mutates && !Restores(entries[i].path in orig, f.undos[i])
                          else done[i])
  {
    var done' := UndoFromStanding(orig, Last(orig, trace), entries, f.undos, k, done);
    var undo := UndoFrom(Last(orig, trace), entries, Snapshots(orig, entries), f.undos, k);
    LastOfConcat(orig, trace, undo.0);
    var final := Last(orig, trace + undo.0);
    hide Whole, AllWhole, SameAt, UndoFrom, UndoesQuietly, Restores, StandsAt, WellFormed, Last;
    assert forall i :: 0 <= i < |entries| ==> StandsAt(orig, final, entries[i], done'[i]);
    assert undo.1 == {} <==>
      forall i :: 0 <= i < k && entries[i].mutates ==> UndoesQuietly(entries[i].path in orig, f.undos[i]);
  }

  ghost function CommittedByFlags(orig: Files, entries: seq<Entry>, f: RunFaults): set<nat>
    requires |entries| == |f.entries|
  {
    set i | 0 <= i < |entries| && CommitsAt(orig, entries, f, i)
  }

  /** How a failed batch ends, in terms of what rejects. */
  ghost predicate FailsAsFlagged(orig: Files, entries: seq<Entry>, f: RunFaults, run: BatchRun)
    requires |entries| == |f.entries| == |f.undos|
  {
    && run.outcome == Failed(if RollsBackQuietly(orig, entries, f) then {} else CommittedByFlags(orig, entries, f))
    && (run.recorded <==> Begins(entries, f) && RollsBackQuietly(orig, entries, f))
    && forall i :: 0 <= i < |entries| ==>
         StandsAt(orig, Last(orig, run.trace), entries[i], StaysAt(orig, entries, f, i))
  }

  lemma RecoverMeans(
    orig: Files, entries: seq<Entry>, f: RunFaults, trace: seq<Files>, running: Running, k: nat,
    began: bool, intact: bool, done: seq<bool>)
    requires WellFormed(entries) && FreshUndoSiblings(orig, entries) && k <= |entries| == |f.undos| == |done|
    requires |entries| == |f.entries| && (began <==> Begins(entries, f))
    requires Standing(orig, Last(orig, trace), entries, done) && Free(Last(orig, trace), entries, |entries|)
    requires forall i :: 0 <= i < k ==>
               (done[i] <==> entries[i].mutates) && (CommitsAt(orig, entries, f, i) <==> entries[i].mutates)
               && !SlipsAt(orig, entries, f, i)
    requires forall i :: k <= i < |entries| ==>
               !CommitsAt(orig, entries, f, i) && (done[i] <==> SlipsAt(orig, entries, f, i))
    ensures FailsAsFlagged(orig, entries, f, Recover(orig, entries, f, trace, running, k, began, intact))
  {
    hide WellFormed, FreshUndoSiblings, Standing, Free, Recover, Begins, CommitsAt, SlipsAt, StandsAt, Last;
    hide Restores, UndoesQuietly;
    RecoverAsFlagged(orig, entries, f, trace, running, k, began, intact, done);
    assert CommittedBelow(entries, k) == CommittedByFlags(orig, entries, f);
  }

  /** What the loop over the entries has committed when it stops, in terms of what rejects. */
  lemma ReachedMeans(orig: Files, entries: seq<Entry>, f: RunFaults, running: Running)
    requires |entries| == |f.entries| && Starts(entries, f)
    requires RunsAsFlagged(orig, entries, f.entries, 0, running)
    ensures running.Stopped? ==> running.at < |entries|
    ensures var k, done := Reached(entries, running), AfterRunning(entries, running);
            && (forall i :: 0 <= i < k ==>
                  (done[i] <==> entries[i].mutates) && (CommitsAt(orig, entries, f, i) <==> entries[i].mutates)
                  && !SlipsAt(orig, entries, f, i))
            && (forall i :: k <= i < |entries| ==>
                  !CommitsAt(orig, entries, f, i) && (done[i] <==> SlipsAt(orig, entries, f, i)))
  {
    var k := Reached(entries, running);
    hide Renames, Planned;
    forall i | 0 <= i < |entries| && entries[i].mutates ensures Planned(entries) {
      MutatingIsPlanned(entries, i);
    }
    forall i | 0 <= i < k ensures CommitsAt(orig, entries, f, i) <==> entries[i].mutates {
      if running.Stopped? && running.late && i == running.at {
        assert CommitsOn(orig, entries[i], f.entries[i]);
      } else {
        assert PassesEntry(orig, entries[i], f.entries[i]);
      }
    }
  }

  lemma MutatingIsPlanned(entries: seq<Entry>, i: nat)
    requires i < |entries| && entries[i].mutates
    ensures Planned(entries)
  {
  }

  lemma RunIsFlagged(orig: Files, entries: seq<Entry>, f: RunFaults)
    requires WellFormed(entries) && FreshUndoSiblings(orig, entries) && |entries| == |f.entries|
    ensures var (trace, running) := RunFrom(orig, entries, f.entries, 0);
            && Ran(orig, orig, entries, (trace, running))
            && RunsAsFlagged(orig, entries, f.entries, 0, running)
            && Free(Last(orig, trace), entries, |entries|)
  {
    NothingDone(orig, entries);
    RunFromStanding(orig, orig, entries, f.entries, 0);
    assert OnlyBelow(orig, orig, entries, 0);
    RunFromAsFlagged(orig, orig, entries, f.entries, 0);
    RunFromLeavesFree(orig, orig, entries, f.entries, 0);
  }

  /** A batch that does not start fails with nothing committed. */
  lemma UnstartedFails(orig: Files, entries: seq<Entry>, f: RunFaults, began: bool, intact: bool)
    requires WellFormed(entries) && FreshUndoSiblings(orig, entries) && |entries| == |f.entries| == |f.undos|
    requires !Starts(entries, f) && (began <==> Begins(entries, f))
    ensures FailsAsFlagged(
              orig, entries, f, Recover(orig, entries, f, [], Stopped(0, false, false), 0, began, intact))
  {
    var zero := DoneBelow(entries, 0);
    assert Last(orig, []) == orig && forall i :: 0 <= i < |entries| ==> !zero[i];
    NothingDone(orig, entries);
    hide WellFormed, Standing, Recover, Last, Planned, DoneBelow;
    RecoverMeans(orig, entries, f, [], Stopped(0, false, false), 0, began, intact, zero);
  }

  /** A batch that starts completes exactly when all entries pass and completing does not reject. */
  lemma StartedEnds(orig: Files, entries: seq<Entry>, f: RunFaults)
    requires WellFormed(entries) && FreshUndoSiblings(orig, entries) && |entries| == |f.entries| == |f.undos|
    requires Starts(entries, f)
    ensures var (trace, running) := RunFrom(orig, entries, f.entries, 0);
            var k, planned := Reached(entries, running), Planned(entries);
            && (running.AllDone? && !f.complete <==> Succeeds(orig, entries, f))
            && FailsAsFlagged(orig, entries, f, Recover(orig, entries, f, trace, running, k, planned, !planned))
  {
    var (trace, running) := RunFrom(orig, entries, f.entries, 0);
    RunIsFlagged(orig, entries, f);
    ReachedMeans(orig, entries, f, running);
    hide WellFormed, FreshUndoSiblings, Recover, Last, Planned, Reached, RunFrom, PassesEntry, CommitsAt, SlipsAt;
    hide Standing, Free, FailsAsFlagged, AfterRunning;
    RecoverMeans(orig, entries, f, trace, running, Reached(entries, running), Planned(entries), !Planned(entries),
                 AfterRunning(entries, running));
  }

  /**
    What a batch does in terms of what rejects, and of nothing else: it completes exactly when nothing
    rejects on the way. Otherwise exactly those files stay at their targets that slipped, or were committed
    and whose undo was kept from taking effect; it names nothing if no undo of a committed file and no
    recording rejects, and all committed files if one does; and it is recorded as rolled back in the first
    case once the journal knows of it.
  */
  lemma BatchExactly(orig: Files, entries: seq<Entry>, f: RunFaults)
    requires WellFormed(entries) && FreshUndoSiblings(orig, entries) && |entries| == |f.entries| == |f.undos|
    ensures var run := RunBatch(orig, entries, f);
            && (run.outcome.Completed? <==> Succeeds(orig, entries, f))
            && (run.outcome.Failed? ==> FailsAsFlagged(orig, entries, f, run))
  {
    if Starts(entries, f) {
      StartedEnds(orig, entries, f);
    } else {
      UnstartedFails(orig, entries, f, Begins(entries, f), f.aborted);
    }
    hide WellFormed, FreshUndoSiblings, Last, Planned, Reached, RunFrom, FailsAsFlagged, PassesEntry, Snapshots;
    hide UndoFrom, CommittedBelow;
  }

  /** A rollback that meets no rejection brings everything back but what slipped, names nothing, and is recorded. */
  lemma QuietRollbackRestores(orig: Files, entries: seq<Entry>, f: RunFaults)
    requires WellFormed(entries) && FreshUndoSiblings(orig, entries) && |entries| == |f.entries| == |f.undos|
    requires RunBatch(orig, entries, f).outcome.Failed? && !f.record
    requires forall i :: 0 <= i < |entries| ==> UndoesQuietly(entries[i].path in orig, f.undos[i])
    ensures var run := RunBatch(orig, entries, f);
            && run.outcome == Failed({})
            && (run.recorded <==> Begins(entries, f))
            && (forall i :: 0 <= i < |entries| && !SlipsAt(orig, entries, f, i) ==>
                  SameAt(orig, Last(orig, run.trace), entries[i].path))
  {
    BatchExactly(orig, entries, f);
    var run := RunBatch(orig, entries, f);
    hide RunBatch, WellFormed, FreshUndoSiblings, CommitsAt, SlipsAt, Last, Begins, SameAt;
    forall i | 0 <= i < |entries| && !SlipsAt(orig, entries, f, i)
      ensures SameAt(orig, Last(orig, run.trace), entries[i].path)
    {
      assert !StaysAt(orig, entries, f, i);
      assert StandsAt(orig, Last(orig, run.trace), entries[i], StaysAt(orig, entries, f, i));
    }
  }

  // ---------------------------------------------------------------- temporaries

  ghost predicate SameOutside(orig: Files, files: Files, entries: seq<Entry>) {
    forall p :: !InBatch(entries, p) ==> SameAt(orig, files, p)
  }

  lemma CommitSweeps(files: Files, path: Path, sibling: Path, target: File, expected: Option<Bytes>, f: CommitFaults)
    requires !f.sweep
    ensures forall p :: p != path ==>
              SameAt(files, Last(files, Commit(files, path, sibling, target, expected, f).0), p)
  {
  }

  lemma {:induction false} RunFromSweeps(
    orig: Files, files: Files, entries: seq<Entry>, faults: seq<EntryFaults>, i: nat)
    requires i <= |entries| == |faults| && SameOutside(orig, files, entries)
    requires forall j :: 0 <= j < |faults| ==> !faults[j].commit.sweep
    ensures SameOutside(orig, Last(files, RunFrom(files, entries, faults, i).0), entries)
    decreases |entries| - i
  {
    if i < |entries| && !faults[i].before {
      if !entries[i].mutates {
        RunFromSweeps(orig, files, entries, faults, i + 1);
      } else {
        var e, f := entries[i], faults[i];
        var (trace, end) := Commit(files, e.path, e.sibling, e.target, e.expected, f.commit);
        CommitSweeps(files, e.path, e.sibling, e.target, e.expected, f.commit);
        assert InBatch(entries, e.path);
        assert SameOutside(orig, Last(files, trace), entries);
        hide Commit, SameOutside, Last, InBatch;
        RunFromSweeps(orig, Last(files, trace), entries, faults, i + 1);
        LastOfConcat(files, trace, RunFrom(Last(files, trace), entries, faults, i + 1).0);
      }
    }
  }

  lemma {:induction false} UndoFromSweeps(
    orig: Files, files: Files, entries: seq<Entry>, befores: seq<Option<File>>, faults: seq<UndoFaults>, k: nat)
    requires k <= |entries| == |befores| == |faults| && SameOutside(orig, files, entries)
    requires forall j :: 0 <= j < |faults| ==> !faults[j].commit.sweep
    ensures SameOutside(orig, Last(files, UndoFrom(files, entries, befores, faults, k).0), entries)
    decreases k
  {
    if k > 0 {
      if !entries[k - 1].mutates {
        UndoFromSweeps(orig, files, entries, befores, faults, k - 1);
      } else {
        var e, f := entries[k - 1], faults[k - 1];
        var (trace, undone) := UndoOne(files, e, befores[k - 1], f);
        if befores[k - 1].Some? {
          CommitSweeps(files, e.path, e.undoSibling, befores[k - 1].value, Some(e.target.bytes), f.commit);
        }
        assert InBatch(entries, e.path);
        assert SameOutside(orig, Last(files, trace), entries);
        hide Commit, UndoOne, SameOutside, Last, InBatch;
        UndoFromSweeps(orig, Last(files, trace), entries, befores, faults, k - 1);
        LastOfConcat(files, trace, UndoFrom(Last(files, trace), entries, befores, faults, k - 1).0);
      }
    }
  }

  /** Unless removing a temporary rejects, a batch leaves none behind, however else it ends. */
  lemma NoTemporaryIsLeft(orig: Files, entries: seq<Entry>, f: RunFaults)
    requires |entries| == |f.entries| == |f.undos|
    requires forall i :: 0 <= i < |entries| ==> !f.entries[i].commit.sweep && !f.undos[i].commit.sweep
    ensures SameOutside(orig, Last(orig, RunBatch(orig, entries, f).trace), entries)
  {
    var befores := Snapshots(orig, entries);
    var (trace, running) := RunFrom(orig, entries, f.entries, 0);
    var k := Reached(entries, running);
    RunFromSweeps(orig, orig, entries, f.entries, 0);
    UndoFromSweeps(orig, Last(orig, trace), entries, befores, f.undos, k);
    LastOfConcat(orig, trace, UndoFrom(Last(orig, trace), entries, befores, f.undos, k).0);
    assert UndoFrom(Last(orig, []), entries, befores, f.undos, 0) == ([], {});
    hide RunFrom, UndoFrom, Reached, CommittedBelow, InBatch, Planned, Snapshots;
  }

  /** The exception is real: the file keeps its target, no path is named and the blob is given up. */
  lemma SweepRejectionLeavesTheTarget()
    ensures var before, after := File([1], 0, 0), File([2], 0, 0);
            var entry := Entry("a", "s", "u", true, after, Some([1]));
            var quiet := CommitFaults(false, false, before, false, false);
            var f := RunFaults(false, false, false, [EntryFaults(false, quiet.(sweep := true), false)],
                               false, [UndoFaults(false, quiet, false, false, false)], false);
            var run := RunBatch(map["a" := before], [entry], f);
            && run.outcome == Failed({})
            && Last(map["a" := before], run.trace) == map["a" := after]
            && run.recorded && run.disposable
  {
    var before, after := File([1], 0, 0), File([2], 0, 0);
    var entry := Entry("a", "s", "u", true, after, Some([1]));
    var quiet := CommitFaults(false, false, before, false, false);
    var undo := UndoFaults(false, quiet, false, false, false);
    var step := EntryFaults(false, quiet.(sweep := true), false);
    var files: Files := map["a" := before];
    var staged := files["s" := after];
    assert Commit(files, "a", "s", after, Some([1]), step.commit)
        == ([staged, (staged - {"s"})["a" := after]], Overwritten);
    assert RunFrom(files, [entry], [step], 0)
        == ([staged, (staged - {"s"})["a" := after]], Stopped(0, false, true));
    assert [entry][0].mutates;
    assert UndoFrom((staged - {"s"})["a" := after], [entry], Snapshots(files, [entry]), [undo], 0) == ([], {});
    assert (staged - {"s"})["a" := after] == map["a" := after];
    assert CommittedBelow([entry], 0) == {};
  }
}
