/**
  The rename operation as the steps it performs on the mutable name table of one volume. Each
  method is proved to do exactly what the run functions of `FileRename` say, state by state.
*/
module FileRenameSteps {
  import opened FileRename

  class Volume {
    var names: Names
    const data: Inodes
    ghost var trace: seq<Names>

    constructor (names: Names, data: Inodes)
      ensures this.names == names && this.data == data && trace == []
    {
      this.names, this.data, this.trace := names, data, [];
    }

    method Link(from: Path, to: Path, fault: bool) returns (ok: bool)
      modifies this
      ensures ok == (!fault && from in old(names) && to !in old(names))
      ensures names == if ok then old(names)[to := old(names)[from]] else old(names)
      ensures trace == if ok then old(trace) + [names] else old(trace)
    {
      ok := !fault && from in names && to !in names;
      if ok {
        names := names[to := names[from]];
        trace := trace + [names];
      }
    }

    method Unlink(path: Path, fault: bool) returns (ok: bool)
      modifies this
      ensures ok == !fault
      ensures names == if ok then old(names) - {path} else old(names)
      ensures trace == if ok then old(trace) + [names] else old(trace)
    {
      ok := !fault;
      if ok {
        names := names - {path};
        trace := trace + [names];
      }
    }

    /** The states this method added to the trace, and where the names stand now, are those of `run`. */
    twostate predicate Follows(run: seq<Names>)
      reads this
    {
      trace == old(trace) + run && names == Last(old(names), run)
    }

    method Move(e: Entry, digest: Bytes, f: MoveFaults) returns (moving: Moving)
      modifies this
      ensures Follows(MoveOne(old(names), data, e, digest, f).0)
      ensures moving == MoveOne(old(names), data, e, digest, f).1
    {
      if f.before || !Reads(names, data, e.source, digest) {
        return Stopped(0, Refused);
      }
      var linked := Link(e.source, e.destination, f.link);
      if !linked {
        return Stopped(0, Refused);
      }
      if !f.after {
        var unlinked := Unlink(e.source, f.unlink);
        if unlinked {
          return AllMoved;
        }
      }
      if f.cleanupFence {
        return Stopped(0, FenceLost);
      }
      if f.cleanupCheck || !Reads(names, data, e.destination, digest) {
        return Stopped(0, CleanupFailed);
      }
      var removed := Unlink(e.destination, f.cleanupUnlink);
      return Stopped(0, if removed then Refused else CleanupFailed);
    }

    method Undo(e: Entry, digest: Bytes, f: UndoFaults) returns (undone: bool)
      modifies this
      ensures Follows(UndoOne(old(names), data, e, digest, f).0)
      ensures undone == UndoOne(old(names), data, e, digest, f).1
    {
      if f.before || !Reads(names, data, e.destination, digest) {
        return false;
      }
      var linked := Link(e.destination, e.source, f.link);
      if !linked || f.middle {
        return false;
      }
      undone := Unlink(e.destination, f.unlink);
    }

    method Probe(e: Entry, f: ProbeFaults) returns (able: bool, residual: bool)
      modifies this
      ensures Follows(ProbeOne(old(names), e, f).0)
      ensures able == ProbeOne(old(names), e, f).1
      ensures residual == ProbeOne(old(names), e, f).2
    {
      if f.before {
        return false, false;
      }
      var linked := Link(e.source, e.probe, f.link);
      if !linked {
        return false, false;
      }
      if f.fence {
        return false, true;
      }
      able := Unlink(e.probe, f.unlink);
      residual := !able;
    }

    method VerifyLinkCapability(entries: seq<Entry>, faults: seq<ProbeFaults>)
      returns (able: bool, residual: bool)
      requires |entries| == |faults|
      modifies this
      ensures Follows(ProbeFrom(old(names), entries, faults, 0).0)
      ensures able == ProbeFrom(old(names), entries, faults, 0).1
      ensures residual == ProbeFrom(old(names), entries, faults, 0).2
    {
      hide ProbeOne;
      ghost var whole := ProbeFrom(names, entries, faults, 0);
      ghost var done := [];
      for i := 0 to |entries|
        invariant Follows(done)
        invariant var rest := ProbeFrom(names, entries, faults, i);
                  whole.0 == done + rest.0 && whole.1 == rest.1 && whole.2 == rest.2
      {
        ghost var step := ProbeOne(names, entries[i], faults[i]);
        able, residual := Probe(entries[i], faults[i]);
        done := done + step.0;
        if !able {
          return;
        }
      }
      return true, false;
    }

    /** Since the trace was `first` and the names `start`, exactly these states were added. */
    ghost predicate FollowsFrom(first: seq<Names>, start: Names, done: seq<Names>)
      reads this
    {
      trace == first + done && names == Last(start, done)
    }

    /** Undo the first k entries, last one first. */
    method RollbackMovedFiles(entries: seq<Entry>, digests: seq<Bytes>, faults: seq<UndoFaults>, k: nat)
      returns (failed: set<nat>)
      requires k <= |entries| == |digests| == |faults|
      modifies this
      ensures Follows(UndoFrom(old(names), data, entries, digests, faults, k).0)
      ensures failed == UndoFrom(old(names), data, entries, digests, faults, k).1
    {
      hide UndoOne;
      ghost var whole := UndoFrom(names, data, entries, digests, faults, k);
      ghost var done := [];
      failed := {};
      for i := k downto 0
        invariant Follows(done)
        invariant var rest := UndoFrom(names, data, entries, digests, faults, i);
                  whole.0 == done + rest.0 && whole.1 == failed + rest.1
      {
        ghost var step := UndoOne(names, data, entries[i], digests[i], faults[i]).0;
        UndoFromNext(names, data, entries, digests, faults, i, done, failed);
        LastOfConcat(old(names), done, step);
        var undone := Undo(entries[i], digests[i], faults[i]);
        done := done + step;
        if !undone {
          failed := failed + {i};
        }
      }
    }

    /** One pass of the loop of MoveFiles, which has added the states `done` so far. */
    method MoveNext(
      entries: seq<Entry>, digests: seq<Bytes>, moves: seq<MoveFaults>, i: nat,
      ghost first: seq<Names>, ghost start: Names, ghost done: seq<Names>)
      returns (moving: Moving, ghost next: seq<Names>)
      requires i < |entries| == |digests| == |moves| && FollowsFrom(first, start, done)
      modifies this
      ensures FollowsFrom(first, start, next)
      ensures var whole := MoveFrom(old(names), data, entries, digests, moves, i);
              if moving.Stopped? then done + whole.0 == next && whole.1 == Stopped(i, moving.why)
              else
                var rest := MoveFrom(names, data, entries, digests, moves, i + 1);
                done + whole.0 == next + rest.0 && whole.1 == rest.1
    {
      ghost var step := MoveOne(names, data, entries[i], digests[i], moves[i]).0;
      MoveFromNext(names, data, entries, digests, moves, i, done);
      LastOfConcat(start, done, step);
      moving := Move(entries[i], digests[i], moves[i]);
      next := done + step;
    }

    method MoveFiles(entries: seq<Entry>, digests: seq<Bytes>, moves: seq<MoveFaults>)
      returns (moving: Moving)
      requires |entries| == |digests| == |moves|
      modifies this
      ensures Follows(MoveFrom(old(names), data, entries, digests, moves, 0).0)
      ensures moving == MoveFrom(old(names), data, entries, digests, moves, 0).1
      ensures moving.Stopped? ==> moving.at < |entries|
    {
      ghost var whole := MoveFrom(names, data, entries, digests, moves, 0);
      ghost var done := [];
      for i := 0 to |entries|
        invariant FollowsFrom(old(trace), old(names), done)
        invariant var rest := MoveFrom(names, data, entries, digests, moves, i);
                  whole.0 == done + rest.0 && whole.1 == rest.1
      {
        moving, done := MoveNext(entries, digests, moves, i, old(trace), old(names), done);
        if moving.Stopped? {
          return Stopped(i, moving.why);
        }
      }
      MoveFromEnd(names, data, entries, digests, moves);
      return AllMoved;
    }

    method MoveFilesWithRollback(
      entries: seq<Entry>, digests: seq<Bytes>, moves: seq<MoveFaults>, undos: seq<UndoFaults>)
      returns (report: Report)
      requires |entries| == |digests| == |moves| == |undos|
      modifies this
      ensures Follows(MoveWithRollback(old(names), data, entries, digests, moves, undos).0)
      ensures report == MoveWithRollback(old(names), data, entries, digests, moves, undos).1
    {
      hide MoveFrom, UndoFrom;
      ghost var forth := MoveFrom(names, data, entries, digests, moves, 0);
      var moving := MoveFiles(entries, digests, moves);
      if moving.AllMoved? {
        return Report(AllMoved, {});
      }
      ghost var back := UndoFrom(names, data, entries, digests, undos, moving.at);
      var failed := RollbackMovedFiles(entries, digests, undos, moving.at);
      assert Follows(forth.0 + back.0);
      return Report(moving, failed);
    }

    /** The part of renameFilesSafely that runs under the file locks. */
    method RenameFiles(entries: seq<Entry>, digests: seq<Bytes>, f: RunFaults)
      returns (outcome: Outcome, disposable: bool, recorded: bool)
      requires |entries| == |digests| == |f.probes| == |f.moves| == |f.undos| == |f.lateUndos| == |f.inspect|
      modifies this
      ensures var run := RenameRun(old(names), data, entries, digests, f);
              && Follows(run.trace)
              && outcome == run.outcome && disposable == run.disposable && recorded == run.recorded
    {
      hide MoveWithRollback, ProbeFrom, UndoFrom, Restored;
      disposable, recorded := true, false;
      if f.aborted {
        return Failed(Mentions(false, false, {})), disposable, recorded;
      }
      disposable := false;
      if f.begin {
        return Failed(Mentions(false, false, {})), disposable, recorded;
      }
      var mentions := Mentions(false, false, {});
      if !f.prepare {
        ghost var probing := ProbeFrom(names, entries, f.probes, 0);
        var able, residual := VerifyLinkCapability(entries, f.probes);
        if !able {
          mentions := mentions.(probe := residual);
        } else {
          ghost var start := names;
          ghost var run := MoveWithRollback(names, data, entries, digests, f.moves, f.undos);
          var report := MoveFilesWithRollback(entries, digests, f.moves, f.undos);
          assert Follows(probing.0 + run.0);
          if report.moving.Stopped? {
            mentions := Mentions(false, report.moving.why == CleanupFailed, report.unrestored);
          } else if !f.complete {
            disposable := true;
            return Renamed, disposable, recorded;
          } else {
            ghost var back := UndoFrom(names, data, entries, digests, f.lateUndos, |entries|);
            var failed := RollbackMovedFiles(entries, digests, f.lateUndos, |entries|);
            assert Follows(probing.0 + run.0 + back.0);
            if failed != {} {
              return Failed(mentions.(unrestored := failed)), disposable, recorded;
            }
          }
        }
      }
      if Restored(names, data, entries, digests, f.inspect) && !f.record {
        recorded, disposable := true, true;
      }
      return Failed(mentions), disposable, recorded;
    }
  }
}
