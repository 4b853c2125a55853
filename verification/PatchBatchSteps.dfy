/**
  The patch and write batch as the steps it performs on a mutable tree of files. Each method is
  proved to do exactly what the run functions of `PatchBatch` say, state by state.
*/
module PatchBatchSteps {
  import opened Options
  import opened PatchBatch

  class Tree {
    var files: Files
    ghost var trace: seq<Files>

    constructor (files: Files)
      ensures this.files == files && trace == []
    {
      this.files, this.trace := files, [];
    }

    /** The states this method added to the trace, and where the files stand now, are those of `run`. */
    twostate predicate Follows(run: seq<Files>)
      reads this
    {
      trace == old(trace) + run && files == Last(old(files), run)
    }

    method Store(path: Path, file: File)
      modifies this
      ensures files == old(files)[path := file] && trace == old(trace) + [files]
    {
      files := files[path := file];
      trace := trace + [files];
    }

    method Remove(path: Path)
      modifies this
      ensures files == old(files) - {path} && trace == old(trace) + [files]
    {
      files := files - {path};
      trace := trace + [files];
    }

    method Rename(from: Path, to: Path)
      requires from in files
      modifies this
      ensures files == (old(files) - {from})[to := old(files)[from]] && trace == old(trace) + [files]
    {
      files := (files - {from})[to := files[from]];
      trace := trace + [files];
    }

    method CommitFile(path: Path, sibling: Path, target: File, expected: Option<Bytes>, f: CommitFaults)
      returns (end: Committing)
      modifies this
      ensures Follows(Commit(old(files), path, sibling, target, expected, f).0)
      ensures end == Commit(old(files), path, sibling, target, expected, f).1
    {
      if f.open || sibling in files {
        return Rejected;
      }
      Store(sibling, if f.stage then f.partial else target);
      var committed := false;
      if !f.stage && (expected.None? || Holds(files, path, expected.value)) && !f.rename {
        Rename(sibling, path);
        committed := true;
      }
      // The finally block: the sibling is swept whether or not the rename took it away.
      if f.sweep {
        return if committed then Overwritten else Rejected;
      }
      if !committed {
        Remove(sibling);
        return Rejected;
      }
      return Committed;
    }

    method UndoEntry(e: Entry, before: Option<File>, f: UndoFaults) returns (undone: bool)
      modifies this
      ensures Follows(UndoOne(old(files), e, before, f).0)
      ensures undone == UndoOne(old(files), e, before, f).1
    {
      if f.fence {
        return false;
      }
      if before.Some? {
        var end := CommitFile(e.path, e.undoSibling, before.value, Some(e.target.bytes), f.commit);
        return end == Committed;
      }
      if f.check || !Holds(files, e.path, e.target.bytes) || f.unlink {
        return false;
      }
      Remove(e.path);
      return !f.directories;
    }

    /** Undo the committed entries below k, last one first. */
    method RollbackFileBatch(
      entries: seq<Entry>, befores: seq<Option<File>>, faults: seq<UndoFaults>, k: nat)
      returns (failed: set<nat>)
      requires k <= |entries| == |befores| == |faults|
      modifies this
      ensures Follows(UndoFrom(old(files), entries, befores, faults, k).0)
      ensures failed == UndoFrom(old(files), entries, befores, faults, k).1
    {
      hide UndoOne;
      ghost var whole := UndoFrom(files, entries, befores, faults, k);
      ghost var done := [];
      failed := {};
      for i := k downto 0
        invariant Follows(done)
        invariant var rest := UndoFrom(files, entries, befores, faults, i);
                  whole.0 == done + rest.0 && whole.1 == failed + rest.1
      {
        if entries[i].mutates {
          ghost var step := UndoOne(files, entries[i], befores[i], faults[i]).0;
          LastOfConcat(old(files), done, step);
          var undone := UndoEntry(entries[i], befores[i], faults[i]);
          done := done + step;
          if !undone {
            failed := failed + {i};
          }
        }
      }
    }

    /** Since the trace was `first` and the files `start`, exactly these states were added. */
    ghost predicate FollowsFrom(first: seq<Files>, start: Files, done: seq<Files>)
      reads this
    {
      trace == first + done && files == Last(start, done)
    }

    /** One pass of the loop of RunEntries, which has added the states `done` so far. */
    method RunEntry(
      e: Entry, f: EntryFaults, i: nat, ghost first: seq<Files>, ghost start: Files, ghost done: seq<Files>)
      returns (running: Running, ghost next: seq<Files>)
      requires FollowsFrom(first, start, done)
      modifies this
      ensures FollowsFrom(first, start, next)
      ensures forall entries, faults | i < |entries| == |faults| && entries[i] == e && faults[i] == f ::
                var whole := RunFrom(old(files), entries, faults, i);
                if running.Stopped? then done + whole.0 == next && whole.1 == running
                else
                  var rest := RunFrom(files, entries, faults, i + 1);
                  done + whole.0 == next + rest.0 && whole.1 == rest.1
    {
      next := done;
      if f.before {
        return Stopped(i, false, false), done;
      }
      if e.mutates {
        ghost var step := Commit(files, e.path, e.sibling, e.target, e.expected, f.commit).0;
        LastOfConcat(start, done, step);
        var end := CommitFile(e.path, e.sibling, e.target, e.expected, f.commit);
        next := done + step;
        if end != Committed {
          return Stopped(i, false, end == Overwritten), next;
        }
        if f.record {
          return Stopped(i, true, false), next;
        }
      }
      running := AllDone;
    }

    method RunEntries(entries: seq<Entry>, faults: seq<EntryFaults>) returns (running: Running)
      requires |entries| == |faults|
      modifies this
      ensures Follows(RunFrom(old(files), entries, faults, 0).0)
      ensures running == RunFrom(old(files), entries, faults, 0).1
    {
      ghost var whole := RunFrom(files, entries, faults, 0);
      ghost var done := [];
      for i := 0 to |entries|
        invariant FollowsFrom(old(trace), old(files), done)
        invariant var rest := RunFrom(files, entries, faults, i);
                  whole.0 == done + rest.0 && whole.1 == rest.1
      {
        running, done := RunEntry(entries[i], faults[i], i, old(trace), old(files), done);
        if running.Stopped? {
          return running;
        }
      }
      return AllDone;
    }

    method ExecuteBatch(entries: seq<Entry>, f: RunFaults)
      returns (outcome: Outcome, disposable: bool, recorded: bool, receiptsSafe: bool, receiptsSpent: bool)
      requires |entries| == |f.entries| == |f.undos|
      modifies this
      ensures var run := RunBatch(old(files), entries, f);
              && Follows(run.trace)
              && outcome == run.outcome && disposable == run.disposable && recorded == run.recorded
              && receiptsSafe == run.receiptsSafe && receiptsSpent == run.receiptsSpent
    {
      hide RunFrom, UndoFrom, Holds;
      var befores := Snapshots(files, entries);
      disposable, recorded, receiptsSafe, receiptsSpent := true, false, true, false;
      var began, k := false, 0;
      ghost var done: seq<Files> := [];
      if !f.aborted {
        var planned := Planned(entries);
        var started := true;
        if planned {
          receiptsSafe, disposable := false, false;
          began := !f.begin;
          started := began && !f.verify;
        }
        if started {
          done := RunFrom(files, entries, f.entries, 0).0;
          var running := RunEntries(entries, f.entries);
          if running.AllDone? && !f.complete {
            return Completed, true, false, receiptsSafe, true;
          }
          k := Reached(entries, running);
        }
      }
      ghost var back := UndoFrom(files, entries, befores, f.undos, k).0;
      var failed := RollbackFileBatch(entries, befores, f.undos, k);
      assert Follows(done + back);
      if failed == {} && (began ==> !f.record) {
        recorded := began;
        disposable := recorded || disposable;
        receiptsSafe := began || receiptsSafe;
        outcome := Failed({});
      } else {
        outcome := Failed(CommittedBelow(entries, k));
      }
    }
  }
}
