/**
  Batch rename with rollback (src/runtime/file-rename.ts): every file is linked to its
  destination, verified and unlinked from its source; a failure undoes the moved prefix in
  reverse. A run is determined by which awaited calls reject, so a fault record has one flag per
  group of awaits that reach the same handler. Locks keep outside writers away.

  The functions give the names after every link and unlink; the methods of `Volume` perform the
  same steps on the mutable name table.
*/
module FileRename {
  type Path = string
  type Inode = nat
  type Bytes = seq<bv8>
  type Names = map<Path, Inode>
  type Inodes = map<Inode, Bytes>

  datatype Entry = Entry(source: Path, destination: Path, probe: Path)

  /** `before`, `after`: policy, abort, fence and hash awaits around the link; the rest are one call each. */
  datatype MoveFaults = MoveFaults(
    before: bool, link: bool, after: bool, unlink: bool,
    cleanupFence: bool, cleanupCheck: bool, cleanupUnlink: bool)

  datatype UndoFaults = UndoFaults(before: bool, link: bool, middle: bool, unlink: bool)

  datatype ProbeFaults = ProbeFaults(before: bool, link: bool, fence: bool, unlink: bool)

  /** How one entry's move ended. Only `CleanupFailed` mentions the left-over destination. */
  datatype Stop = Refused | FenceLost | CleanupFailed

  datatype Moving = AllMoved | Stopped(at: nat, why: Stop)

  // ---------------------------------------------------------------- one entry

  /** `sha256File(path)` equals the recorded hash; hashes are injective, so contents are compared. */
  predicate Reads(names: Names, data: Inodes, path: Path, digest: Bytes) {
    path in names && names[path] in data && data[names[path]] == digest
  }

  function MoveOne(names: Names, data: Inodes, e: Entry, digest: Bytes, f: MoveFaults)
    : (seq<Names>, Moving)
  {
    if f.before || !Reads(names, data, e.source, digest) || f.link || e.destination in names then
      ([], Stopped(0, Refused))
    else
      var linked := names[e.destination := names[e.source]];
      if !f.after && !f.unlink then ([linked, linked - {e.source}], AllMoved)
      else if f.cleanupFence then ([linked], Stopped(0, FenceLost))
      else if f.cleanupCheck || f.cleanupUnlink then ([linked], Stopped(0, CleanupFailed))
      else ([linked, linked - {e.destination}], Stopped(0, Refused))
  }

  /** True when the source is restored and the destination gone. */
  function UndoOne(names: Names, data: Inodes, e: Entry, digest: Bytes, f: UndoFaults)
    : (seq<Names>, bool)
  {
    if f.before || !Reads(names, data, e.destination, digest) || f.link || e.source in names then
      ([], false)
    else
      var linked := names[e.source := names[e.destination]];
      if f.middle || f.unlink then ([linked], false)
      else ([linked, linked - {e.destination}], true)
  }

  /** The link probe: false on refusal, and a second flag for a probe left behind. */
  function ProbeOne(names: Names, e: Entry, f: ProbeFaults): (seq<Names>, bool, bool) {
    if f.before then ([], false, false)
    else if f.link || e.source !in names || e.probe in names then ([], false, false)
    else
      var linked := names[e.probe := names[e.source]];
      if f.fence || f.unlink then ([linked], false, true)
      else ([linked, linked - {e.probe}], true, false)
  }

  function Last(names: Names, trace: seq<Names>): Names {
    if trace == [] then names else trace[|trace| - 1]
  }

  // ---------------------------------------------------------------- the batch

  function MoveFrom(
    names: Names, data: Inodes, entries: seq<Entry>, digests: seq<Bytes>, faults: seq<MoveFaults>, i: nat)
    : (seq<Names>, Moving)
    requires i <= |entries| == |digests| == |faults|
    decreases |entries| - i
  {
    if i == |entries| then ([], AllMoved)
    else
      var (trace, moving) := MoveOne(names, data, entries[i], digests[i], faults[i]);
      if moving.Stopped? then (trace, Stopped(i, moving.why))
      else
        var (rest, end) := MoveFrom(Last(names, trace), data, entries, digests, faults, i + 1);
        (trace + rest, end)
  }

  /** MoveFrom, one entry on, behind a prefix that is already in the trace. */
  lemma MoveFromNext(
    names: Names, data: Inodes, entries: seq<Entry>, digests: seq<Bytes>, faults: seq<MoveFaults>, i: nat,
    done: seq<Names>)
    requires i < |entries| == |digests| == |faults|
    ensures var whole := MoveFrom(names, data, entries, digests, faults, i);
            var (step, moving) := MoveOne(names, data, entries[i], digests[i], faults[i]);
            if moving.Stopped? then whole == (step, Stopped(i, moving.why))
            else
              var rest := MoveFrom(Last(names, step), data, entries, digests, faults, i + 1);
              done + whole.0 == done + step + rest.0 && whole.1 == rest.1
  {
    hide MoveOne, Last;
  }

  lemma MoveFromEnd(
    names: Names, data: Inodes, entries: seq<Entry>, digests: seq<Bytes>, faults: seq<MoveFaults>)
    requires |entries| == |digests| == |faults|
    ensures MoveFrom(names, data, entries, digests, faults, |entries|) == ([], AllMoved)
  {
  }

  /** Undo entries k-1 down to 0, collecting the entries whose undo failed. */
  function UndoFrom(
    names: Names, data: Inodes, entries: seq<Entry>, digests: seq<Bytes>, faults: seq<UndoFaults>, k: nat)
    : (seq<Names>, set<nat>)
    requires k <= |entries| == |digests| == |faults|
    decreases k
  {
    if k == 0 then ([], {})
    else
      var (trace, undone) := UndoOne(names, data, entries[k - 1], digests[k - 1], faults[k - 1]);
      var (rest, failed) := UndoFrom(Last(names, trace), data, entries, digests, faults, k - 1);
      (trace + rest, if undone then failed else failed + {k - 1})
  }

  /** UndoFrom, one entry on, behind what is already in the trace and among the failures. */
  lemma UndoFromNext(
    names: Names, data: Inodes, entries: seq<Entry>, digests: seq<Bytes>, faults: seq<UndoFaults>, i: nat,
    done: seq<Names>, failed: set<nat>)
    requires i < |entries| == |digests| == |faults|
    ensures var whole := UndoFrom(names, data, entries, digests, faults, i + 1);
            var (step, undone) := UndoOne(names, data, entries[i], digests[i], faults[i]);
            var rest := UndoFrom(Last(names, step), data, entries, digests, faults, i);
            && done + whole.0 == done + step + rest.0
            && failed + whole.1 == (if undone then failed else failed + {i}) + rest.1
  {
    hide UndoOne, Last;
  }

  function ProbeFrom(names: Names, entries: seq<Entry>, faults: seq<ProbeFaults>, i: nat)
    : (seq<Names>, bool, bool)
    requires i <= |entries| == |faults|
    decreases |entries| - i
  {
    if i == |entries| then ([], true, false)
    else
      var (trace, able, residual) := ProbeOne(names, entries[i], faults[i]);
      if !able then (trace, false, residual)
      else
        var (rest, able', residual') := ProbeFrom(Last(names, trace), entries, faults, i + 1);
        (trace + rest, able', residual')
  }

  /** What moveFilesWithRollback reports: where it stopped and which undos failed. */
  datatype Report = Report(moving: Moving, unrestored: set<nat>)

  function MoveWithRollback(
    names: Names, data: Inodes, entries: seq<Entry>, digests: seq<Bytes>,
    moves: seq<MoveFaults>, undos: seq<UndoFaults>): (seq<Names>, Report)
    requires |entries| == |digests| == |moves| == |undos|
  {
    var (trace, moving) := MoveFrom(names, data, entries, digests, moves, 0);
    if moving.AllMoved? then (trace, Report(moving, {}))
    else
      var k := if moving.at <= |entries| then moving.at else 0;
      var (back, failed) := UndoFrom(Last(names, trace), data, entries, digests, undos, k);
      (trace + back, Report(moving, failed))
  }

  // ---------------------------------------------------------------- layouts

  datatype Place = AtSource | Both | AtDestination

  /** What the preflight establishes before any lock is taken. */
  ghost predicate Admitted(names: Names, entries: seq<Entry>) {
    && (forall i :: 0 <= i < |entries| ==> entries[i].source in names && entries[i].destination !in names)
    && (forall i, k :: 0 <= i < k < |entries| ==>
          entries[i].source != entries[k].source && entries[i].destination != entries[k].destination)
  }

  ghost predicate Recorded(names: Names, data: Inodes, entries: seq<Entry>, digests: seq<Bytes>) {
    && |entries| == |digests|
    && forall i :: 0 <= i < |entries| ==> Reads(names, data, entries[i].source, digests[i])
  }

  ghost predicate Named(names: Names, path: Path, inode: Inode) {
    path in names && names[path] == inode
  }

  ghost predicate Placed(orig: Names, names: Names, e: Entry, at: Place)
    requires e.source in orig
  {
    && (if at == AtDestination then e.source !in names else Named(names, e.source, orig[e.source]))
    && (if at == AtSource then e.destination !in names else Named(names, e.destination, orig[e.source]))
  }

  ghost predicate Involved(entries: seq<Entry>, p: Path) {
    exists i :: 0 <= i < |entries| && (entries[i].source == p || entries[i].destination == p)
  }

  ghost predicate IsProbe(entries: seq<Entry>, p: Path) {
    exists i :: 0 <= i < |entries| && entries[i].probe == p
  }

  ghost predicate SameAt(orig: Names, names: Names, p: Path) {
    (p in names <==> p in orig) && (p in orig ==> names[p] == orig[p])
  }

  /** `names` is `orig` with entry i standing at place at[i]. */
  ghost predicate Layout(orig: Names, names: Names, entries: seq<Entry>, at: seq<Place>)
    requires Admitted(orig, entries)
  {
    && |at| == |entries|
    && (forall i :: 0 <= i < |entries| ==> Placed(orig, names, entries[i], at[i]))
    && (forall p :: !Involved(entries, p) ==> SameAt(orig, names, p))
  }

  /** Every original inode is named by its source or its destination; no unrelated path changed. */
  ghost predicate Safe(orig: Names, names: Names, entries: seq<Entry>)
    requires Admitted(orig, entries)
  {
    && (forall i :: 0 <= i < |entries| ==>
          || Named(names, entries[i].source, orig[entries[i].source])
          || Named(names, entries[i].destination, orig[entries[i].source]))
    && (forall p :: !Involved(entries, p) && !IsProbe(entries, p) ==> SameAt(orig, names, p))
  }

  ghost predicate AllSafe(orig: Names, trace: seq<Names>, entries: seq<Entry>)
    requires Admitted(orig, entries)
  {
    forall t :: 0 <= t < |trace| ==> Safe(orig, trace[t], entries)
  }

  /** One link or unlink moves one entry to a neighbouring place. */
  lemma Relocate(orig: Names, names: Names, next: Names, entries: seq<Entry>, at: seq<Place>, i: nat, place: Place)
    requires Admitted(orig, entries) && Layout(orig, names, entries, at) && i < |entries|
    requires Placed(orig, next, entries[i], place)
    requires forall p :: p != entries[i].source && p != entries[i].destination ==> SameAt(names, next, p)
    ensures Layout(orig, next, entries, at[i := place])
    ensures Safe(orig, next, entries)
  {
    forall k | 0 <= k < |entries| && k != i ensures Placed(orig, next, entries[k], at[k]) {
      assert Placed(orig, names, entries[k], at[k]);
      assert SameAt(names, next, entries[k].source) && SameAt(names, next, entries[k].destination);
    }
    forall p | !Involved(entries, p) ensures SameAt(orig, next, p) {
      assert SameAt(names, next, p);
    }
    assert forall k :: 0 <= k < |entries| ==> Placed(orig, next, entries[k], at[i := place][k]);
  }

  lemma MoveOneStep(
    orig: Names, names: Names, data: Inodes, entries: seq<Entry>, digests: seq<Bytes>,
    at: seq<Place>, i: nat, f: MoveFaults)
    requires Admitted(orig, entries) && Recorded(orig, data, entries, digests)
    requires Layout(orig, names, entries, at) && i < |entries| && at[i] == AtSource
    ensures var (trace, moving) := MoveOne(names, data, entries[i], digests[i], f);
            && AllSafe(orig, trace, entries)
            && Layout(orig, Last(names, trace), entries, at[i := StopPlace(moving)])
  {
    var e := entries[i];
    assert Placed(orig, names, e, at[i]);
    assert at[i := AtSource] == at;
    var (trace, moving) := MoveOne(names, data, e, digests[i], f);
    if trace != [] {
      var linked := names[e.destination := names[e.source]];
      Relocate(orig, names, linked, entries, at, i, Both);
      if |trace| == 2 {
        Relocate(orig, linked, trace[1], entries, at[i := Both], i, StopPlace(moving));
        assert at[i := Both][i := StopPlace(moving)] == at[i := StopPlace(moving)];
      }
    }
  }

  ghost function StopPlace(moving: Moving): Place {
    if moving.AllMoved? then AtDestination
    else if moving.why == Refused then AtSource
    else Both
  }

  /** Where the awaits of an undo let it bring an entry that stands at its destination. */
  function UndoPlace(f: UndoFaults): Place {
    if f.before || f.link then AtDestination else if f.middle || f.unlink then Both else AtSource
  }

  lemma UndoOneStep(
    orig: Names, names: Names, data: Inodes, entries: seq<Entry>, digests: seq<Bytes>,
    at: seq<Place>, i: nat, f: UndoFaults) returns (place: Place)
    requires Admitted(orig, entries) && Recorded(orig, data, entries, digests)
    requires Layout(orig, names, entries, at) && i < |entries| && at[i] == AtDestination
    ensures var (trace, undone) := UndoOne(names, data, entries[i], digests[i], f);
            && AllSafe(orig, trace, entries)
            && Layout(orig, Last(names, trace), entries, at[i := place])
            && (undone <==> place == AtSource)
    ensures place == UndoPlace(f)
  {
    var e := entries[i];
    assert Placed(orig, names, e, at[i]);
    assert at[i := AtDestination] == at;
    var (trace, undone) := UndoOne(names, data, e, digests[i], f);
    place := AtDestination;
    if trace != [] {
      var linked := names[e.source := names[e.destination]];
      Relocate(orig, names, linked, entries, at, i, Both);
      place := Both;
      if undone {
        Relocate(orig, linked, trace[1], entries, at[i := Both], i, AtSource);
        assert at[i := Both][i := AtSource] == at[i := AtSource];
        place := AtSource;
      }
    }
  }

  /** Entries below k at the destination, entry k at `middle`, the rest at the source. */
  ghost function Progress(n: nat, k: nat, middle: Place): (at: seq<Place>)
    ensures |at| == n
  {
    seq(n, i => if i < k then AtDestination else if i == k then middle else AtSource)
  }

  lemma {:induction false} MoveFromLayout(
    orig: Names, names: Names, data: Inodes, entries: seq<Entry>, digests: seq<Bytes>,
    faults: seq<MoveFaults>, i: nat)
    requires Admitted(orig, entries) && Recorded(orig, data, entries, digests)
    requires i <= |entries| == |faults|
    requires Layout(orig, names, entries, Progress(|entries|, i, AtSource))
    ensures var (trace, moving) := MoveFrom(names, data, entries, digests, faults, i);
            && AllSafe(orig, trace, entries)
            && (moving.Stopped? ==> moving.at < |entries|)
            && Layout(orig, Last(names, trace), entries,
                      if moving.AllMoved? then Progress(|entries|, |entries|, AtSource)
                      else Progress(|entries|, moving.at, StopPlace(moving)))
    decreases |entries| - i
  {
    if i < |entries| {
      var n := |entries|;
      var at := Progress(n, i, AtSource);
      var (trace, moving) := MoveOne(names, data, entries[i], digests[i], faults[i]);
      MoveOneStep(orig, names, data, entries, digests, at, i, faults[i]);
      assert at[i := StopPlace(moving)] == Progress(n, i, StopPlace(moving));
      if moving.AllMoved? {
        assert Progress(n, i, AtDestination) == Progress(n, i + 1, AtSource);
        MoveFromLayout(orig, Last(names, trace), data, entries, digests, faults, i + 1);
      }
    }
  }

  /** The places after undoing entries below k: back at the source exactly where the undo succeeded. */
  ghost predicate Undone(
    orig: Names, names: Names, entries: seq<Entry>, at: seq<Place>, k: nat,
    undo: (seq<Names>, set<nat>), at': seq<Place>)
    requires Admitted(orig, entries)
  {
    && |at'| == |at| == |entries| && k <= |at|
    && AllSafe(orig, undo.0, entries)
    && Layout(orig, Last(names, undo.0), entries, at')
    && (forall i :: k <= i < |at| ==> at'[i] == at[i])
    && (forall i :: i in undo.1 ==> i < k)
    && (forall i :: 0 <= i < k ==> (at'[i] == AtSource <==> i !in undo.1))
  }

  /** The undo run of the entries below k leaves the places at'. */
  ghost predicate Unwinds(
    orig: Names, names: Names, data: Inodes, entries: seq<Entry>, digests: seq<Bytes>,
    faults: seq<UndoFaults>, k: nat, at: seq<Place>, at': seq<Place>)
    requires Admitted(orig, entries) && k <= |entries| == |digests| == |faults|
  {
    && Undone(orig, names, entries, at, k, UndoFrom(names, data, entries, digests, faults, k), at')
    && forall i :: 0 <= i < k ==> at'[i] == UndoPlace(faults[i])
  }

  lemma {:induction false} UndoFromLayout(
    orig: Names, names: Names, data: Inodes, entries: seq<Entry>, digests: seq<Bytes>,
    faults: seq<UndoFaults>, k: nat, at: seq<Place>) returns (at': seq<Place>)
    requires Admitted(orig, entries) && Recorded(orig, data, entries, digests)
    requires k <= |entries| == |at| == |faults| && Layout(orig, names, entries, at)
    requires forall i :: 0 <= i < k ==> at[i] == AtDestination
    ensures Unwinds(orig, names, data, entries, digests, faults, k, at, at')
    decreases k
  {
    if k == 0 {
      at' := at;
      assert UndoFrom(names, data, entries, digests, faults, k) == ([], {});
    } else {
      hide Unwinds, Safe, Layout, UndoOne, AllSafe, Involved, SameAt, Placed, Last;
      var (trace, undone) := UndoOne(names, data, entries[k - 1], digests[k - 1], faults[k - 1]);
      var place := UndoOneStep(orig, names, data, entries, digests, at, k - 1, faults[k - 1]);
      at' := UndoFromLayout(orig, Last(names, trace), data, entries, digests, faults, k - 1, at[k - 1 := place]);
      OneMoreUnwinds(orig, names, data, entries, digests, faults, k - 1, at, place, at');
    }
  }

  lemma OneMoreUnwinds(
    orig: Names, names: Names, data: Inodes, entries: seq<Entry>, digests: seq<Bytes>,
    faults: seq<UndoFaults>, k: nat, at: seq<Place>, place: Place, at': seq<Place>)
    requires Admitted(orig, entries) && k < |entries| == |digests| == |faults| == |at|
    requires var (trace, undone) := UndoOne(names, data, entries[k], digests[k], faults[k]);
             && AllSafe(orig, trace, entries)
             && (undone <==> place == AtSource) && place == UndoPlace(faults[k])
             && Unwinds(orig, Last(names, trace), data, entries, digests, faults, k, at[k := place], at')
    ensures Unwinds(orig, names, data, entries, digests, faults, k + 1, at, at')
  {
    var (trace, undone) := UndoOne(names, data, entries[k], digests[k], faults[k]);
    var undo := UndoFrom(Last(names, trace), data, entries, digests, faults, k);
    hide Undone, UndoOne, Safe, AllSafe;
    OneMoreUndone(orig, names, entries, at, k, trace, undone, place, undo, at');
    AfterTheOthers(orig, Last(names, trace), entries, at[k := place], k, undo, at');
  }

  /** The undos of the entries below k keep where this one stands. */
  lemma AfterTheOthers(
    orig: Names, names: Names, entries: seq<Entry>, at: seq<Place>, k: nat, undo: (seq<Names>, set<nat>),
    at': seq<Place>)
    requires Admitted(orig, entries) && Undone(orig, names, entries, at, k, undo, at') && k < |at|
    ensures at'[k] == at[k]
  {
  }

  lemma OneMoreUndone(
    orig: Names, names: Names, entries: seq<Entry>, at: seq<Place>, k: nat,
    trace: seq<Names>, undone: bool, place: Place, undo: (seq<Names>, set<nat>), at': seq<Place>)
    requires Admitted(orig, entries) && k < |at| && AllSafe(orig, trace, entries)
    requires undone <==> place == AtSource
    requires Undone(orig, Last(names, trace), entries, at[k := place], k, undo, at')
    ensures Undone(orig, names, entries, at, k + 1,
                   (trace + undo.0, if undone then undo.1 else undo.1 + {k}), at')
  {
    hide Safe, Layout;
    LastOfConcat(names, trace, undo.0);
  }

  lemma LastOfConcat(names: Names, first: seq<Names>, second: seq<Names>)
    ensures Last(names, first + second) == Last(Last(names, first), second)
  {
  }

  lemma AllSafeConcat(orig: Names, first: seq<Names>, second: seq<Names>, entries: seq<Entry>)
    requires Admitted(orig, entries) && AllSafe(orig, first, entries) && AllSafe(orig, second, entries)
    ensures AllSafe(orig, first + second, entries)
  {
  }

  lemma OriginalLayout(orig: Names, names: Names, entries: seq<Entry>, at: seq<Place>)
    requires Admitted(orig, entries) && Layout(orig, names, entries, at)
    ensures names == orig <==> forall i :: 0 <= i < |at| ==> at[i] == AtSource
  {
    forall i | 0 <= i < |at| ensures names == orig ==> at[i] == AtSource {
      assert Placed(orig, names, entries[i], at[i]);
    }
    if forall i :: 0 <= i < |at| ==> at[i] == AtSource {
      forall p ensures SameAt(orig, names, p) {
        if Involved(entries, p) {
          var i :| 0 <= i < |entries| && (entries[i].source == p || entries[i].destination == p);
          assert Placed(orig, names, entries[i], at[i]);
        }
      }
      SameEverywhere(orig, names);
    }
  }

  lemma SameEverywhere(orig: Names, names: Names)
    requires forall p :: SameAt(orig, names, p)
    ensures names == orig
  {
    forall p ensures p in names <==> p in orig { assert SameAt(orig, names, p); }
    forall p | p in orig ensures names[p] == orig[p] { assert SameAt(orig, names, p); }
  }

  lemma StartLayout(orig: Names, entries: seq<Entry>)
    requires Admitted(orig, entries)
    ensures Layout(orig, orig, entries, Progress(|entries|, 0, AtSource))
  {
  }

  // ---------------------------------------------------------------- the whole operation

  datatype RunFaults = RunFaults(
    aborted: bool, begin: bool, prepare: bool, probes: seq<ProbeFaults>, moves: seq<MoveFaults>,
    undos: seq<UndoFaults>, complete: bool, lateUndos: seq<UndoFaults>, inspect: seq<bool>, record: bool)

  /** What the thrown error tells the caller to clean up: a probe, a destination, entries not undone. */
  datatype Mentions = Mentions(probe: bool, destination: bool, unrestored: set<nat>)

  datatype Outcome = Renamed | Failed(mentions: Mentions)

  datatype RunResult = RunResult(
    trace: seq<Names>, outcome: Outcome, moving: Moving, disposable: bool, recorded: bool)

  ghost predicate FaultsFit(entries: seq<Entry>, f: RunFaults) {
    |f.probes| == |f.moves| == |f.undos| == |f.lateUndos| == |f.inspect| == |entries|
  }

  predicate Restored(names: Names, data: Inodes, entries: seq<Entry>, digests: seq<Bytes>, inspect: seq<bool>)
    requires |entries| == |digests| == |inspect|
  {
    forall i :: 0 <= i < |entries| ==>
      !inspect[i] && Reads(names, data, entries[i].source, digests[i]) && entries[i].destination !in names
  }

  /** The catch block after a durable begin: only an inspected, complete restoration is recorded. */
  function Recover(
    names: Names, data: Inodes, entries: seq<Entry>, digests: seq<Bytes>, f: RunFaults,
    trace: seq<Names>, moving: Moving, mentions: Mentions): RunResult
    requires |entries| == |digests| == |f.inspect|
  {
    var recorded := Restored(Last(names, trace), data, entries, digests, f.inspect) && !f.record;
    RunResult(trace, Failed(mentions), moving, recorded, recorded)
  }

  function RenameRun(orig: Names, data: Inodes, entries: seq<Entry>, digests: seq<Bytes>, f: RunFaults)
    : RunResult
    requires |entries| == |digests| == |f.probes| == |f.moves| == |f.undos| == |f.lateUndos| == |f.inspect|
  {
    var none := Mentions(false, false, {});
    if f.aborted || f.begin then
      // The blobs stop being disposable before the begin that may already be durable.
      RunResult([], Failed(none), Stopped(0, Refused), f.aborted, false)
    else if f.prepare then
      Recover(orig, data, entries, digests, f, [], Stopped(0, Refused), none)
    else
      var (probing, able, residual) := ProbeFrom(orig, entries, f.probes, 0);
      if !able then
        Recover(orig, data, entries, digests, f, probing, Stopped(0, Refused), none.(probe := residual))
      else
        var names := Last(orig, probing);
        var (trace, report) := MoveWithRollback(names, data, entries, digests, f.moves, f.undos);
        if report.moving.Stopped? then
          Recover(orig, data, entries, digests, f, probing + trace, report.moving,
                  Mentions(false, report.moving.why == CleanupFailed, report.unrestored))
        else if !f.complete then
          RunResult(probing + trace, Renamed, AllMoved, true, false)
        else
          var (back, failed) := UndoFrom(Last(names, trace), data, entries, digests, f.lateUndos, |entries|);
          if failed != {} then
            RunResult(probing + trace + back, Failed(none.(unrestored := failed)), AllMoved, false, false)
          else
            Recover(orig, data, entries, digests, f, probing + trace + back, AllMoved, none)
  }

  /** Random probe names hit nothing that exists and nothing that is being renamed. */
  ghost predicate FreshProbes(orig: Names, entries: seq<Entry>) {
    forall i :: 0 <= i < |entries| ==>
      entries[i].probe !in orig && !Involved(entries, entries[i].probe)
  }

  ghost predicate Untouched(orig: Names, names: Names, entries: seq<Entry>)
    requires Admitted(orig, entries)
  {
    forall k :: 0 <= k < |entries| ==>
      Named(names, entries[k].source, orig[entries[k].source]) && entries[k].destination !in names
  }

  lemma ProbeOneStep(orig: Names, entries: seq<Entry>, f: ProbeFaults, i: nat)
    requires Admitted(orig, entries) && FreshProbes(orig, entries) && i < |entries|
    ensures var (trace, able, residual) := ProbeOne(orig, entries[i], f);
            && AllSafe(orig, trace, entries)
            && (residual <==> Last(orig, trace) != orig)
            && (able ==> !residual)
            && Untouched(orig, Last(orig, trace), entries)
  {
    var e := entries[i];
    var linked := orig[e.probe := orig[e.source]];
    assert IsProbe(entries, e.probe);
    ProbeKeepsLayout(orig, entries, linked, e.probe);
    assert linked - {e.probe} == orig;
    StartLayout(orig, entries);
    LayoutIsSafe(orig, orig, entries, Progress(|entries|, 0, AtSource));
    hide Safe;
  }

  lemma ProbeKeepsLayout(orig: Names, entries: seq<Entry>, linked: Names, probe: Path)
    requires Admitted(orig, entries) && IsProbe(entries, probe)
    requires probe !in orig && !Involved(entries, probe)
    requires probe in linked && linked - {probe} == orig
    ensures linked != orig && Untouched(orig, linked, entries) && Safe(orig, linked, entries)
  {
    forall p | p != probe ensures SameAt(orig, linked, p) {
      assert p in linked - {probe} <==> p in linked;
    }
    forall k | 0 <= k < |entries|
      ensures Named(linked, entries[k].source, orig[entries[k].source]) && entries[k].destination !in linked
    {
      assert Involved(entries, entries[k].source) && Involved(entries, entries[k].destination);
      assert SameAt(orig, linked, entries[k].source) && SameAt(orig, linked, entries[k].destination);
    }
  }

  lemma LayoutIsSafe(orig: Names, names: Names, entries: seq<Entry>, at: seq<Place>)
    requires Admitted(orig, entries) && Layout(orig, names, entries, at)
    ensures Safe(orig, names, entries)
  {
    forall i | 0 <= i < |entries|
      ensures Named(names, entries[i].source, orig[entries[i].source])
           || Named(names, entries[i].destination, orig[entries[i].source])
    {
      assert Placed(orig, names, entries[i], at[i]);
    }
  }

  lemma {:induction false} ProbeFromSafe(orig: Names, entries: seq<Entry>, faults: seq<ProbeFaults>, i: nat)
    requires Admitted(orig, entries) && FreshProbes(orig, entries) && i <= |entries| == |faults|
    ensures var (trace, able, residual) := ProbeFrom(orig, entries, faults, i);
            && AllSafe(orig, trace, entries)
            && (residual <==> Last(orig, trace) != orig)
            && (able ==> !residual)
            && Untouched(orig, Last(orig, trace), entries)
    decreases |entries| - i
  {
    if i < |entries| {
      var (trace, able, residual) := ProbeOne(orig, entries[i], faults[i]);
      ProbeOneStep(orig, entries, faults[i], i);
      if able {
        var (rest, _, _) := ProbeFrom(orig, entries, faults, i + 1);
        ProbeFromSafe(orig, entries, faults, i + 1);
        LastOfConcat(orig, trace, rest);
        AllSafeConcat(orig, trace, rest, entries);
      }
    }
  }

  /** The entries below k undone as the flags let them, entry k as its own stop left it, the rest untouched. */
  ghost function RolledBack(n: nat, moving: Moving, undos: seq<UndoFaults>): (at: seq<Place>)
    requires moving.Stopped? && |undos| == n
    ensures |at| == n
  {
    seq(n, i requires 0 <= i < n =>
          if i < moving.at then UndoPlace(undos[i]) else if i == moving.at then StopPlace(moving) else AtSource)
  }

  lemma MoveWithRollbackLayout(
    orig: Names, data: Inodes, entries: seq<Entry>, digests: seq<Bytes>,
    moves: seq<MoveFaults>, undos: seq<UndoFaults>) returns (at: seq<Place>)
    requires Admitted(orig, entries) && Recorded(orig, data, entries, digests)
    requires |entries| == |moves| == |undos|
    ensures var (trace, report) := MoveWithRollback(orig, data, entries, digests, moves, undos);
            && AllSafe(orig, trace, entries)
            && Layout(orig, Last(orig, trace), entries, at)
            && (report.moving.AllMoved? ==> report.unrestored == {})
            && (report.moving.AllMoved? ==> forall i :: 0 <= i < |at| ==> at[i] == AtDestination)
            && (report.moving.Stopped? ==>
                  && report.moving.at < |entries| && at == RolledBack(|entries|, report.moving, undos)
                  && (forall i :: i in report.unrestored ==> i < report.moving.at)
                  && at[report.moving.at] == StopPlace(report.moving)
                  && forall i :: 0 <= i < |at| && i != report.moving.at ==>
                       (at[i] == AtSource <==> i !in report.unrestored))
  {
    StartLayout(orig, entries);
    MoveFromLayout(orig, orig, data, entries, digests, moves, 0);
    var (trace, moving) := MoveFrom(orig, data, entries, digests, moves, 0);
    if moving.AllMoved? {
      at := Progress(|entries|, |entries|, AtSource);
    } else {
      at := UndoFromLayout(orig, Last(orig, trace), data, entries, digests, undos, moving.at,
                           Progress(|entries|, moving.at, StopPlace(moving)));
    }
  }

  /** Exactly the renamed file system. */
  ghost predicate RenamedExactly(orig: Names, names: Names, entries: seq<Entry>)
    requires Admitted(orig, entries)
  {
    && (forall i :: 0 <= i < |entries| ==>
          entries[i].source !in names && Named(names, entries[i].destination, orig[entries[i].source]))
    && (forall p :: !Involved(entries, p) ==> SameAt(orig, names, p))
  }

  /** Crash safety: whatever rejects, no state of the run loses a file or touches an unrelated path. */
  lemma RenameNeverLosesAFile(
    orig: Names, data: Inodes, entries: seq<Entry>, digests: seq<Bytes>, f: RunFaults)
    requires Admitted(orig, entries) && Recorded(orig, data, entries, digests)
    requires FreshProbes(orig, entries) && FaultsFit(entries, f)
    ensures AllSafe(orig, RenameRun(orig, data, entries, digests, f).trace, entries)
  {
    ProbeFromSafe(orig, entries, f.probes, 0);
    var (probing, able, _) := ProbeFrom(orig, entries, f.probes, 0);
    if able {
      var at := MoveWithRollbackLayout(orig, data, entries, digests, f.moves, f.undos);
      var (trace, report) := MoveWithRollback(orig, data, entries, digests, f.moves, f.undos);
      AllSafeConcat(orig, probing, trace, entries);
      if report.moving.AllMoved? {
        var _ := UndoFromLayout(orig, Last(orig, trace), data, entries, digests, f.lateUndos, |entries|, at);
        var (back, _) := UndoFrom(Last(orig, trace), data, entries, digests, f.lateUndos, |entries|);
        AllSafeConcat(orig, probing + trace, back, entries);
      }
    }
  }

  // ---------------------------------------------------------------- when the cleanup fence is lost

  predicate CleanProbe(f: ProbeFaults) {
    !f.before && !f.link && !f.fence && !f.unlink
  }

  predicate CleanMove(f: MoveFaults) {
    !f.before && !f.link && !f.after && !f.unlink
  }

  /** How a move that is not clean stops: what follows a failed link, or guards and does the cleanup after it. */
  function StopOf(f: MoveFaults): Stop {
    if f.before || f.link then Refused
    else if f.cleanupFence then FenceLost
    else if f.cleanupCheck || f.cleanupUnlink then CleanupFailed
    else Refused
  }

  /** The link is made, a later await rejects, and so does the fence in front of the cleanup. */
  predicate LosesFence(f: MoveFaults) {
    !f.before && !f.link && (f.after || f.unlink) && f.cleanupFence
  }

  /** Nothing rejects before entry k, whose cleanup fence is lost. */
  predicate FenceIsLostAt(f: RunFaults, k: nat) {
    && !f.aborted && !f.begin && !f.prepare
    && (forall i :: 0 <= i < |f.probes| ==> CleanProbe(f.probes[i]))
    && k < |f.moves| && LosesFence(f.moves[k])
    && forall i :: 0 <= i < k ==> CleanMove(f.moves[i])
  }

  ghost predicate FenceIsLost(f: RunFaults) {
    exists k :: FenceIsLostAt(f, k)
  }

  /** The probe is linked and not removed again. */
  predicate StrandsProbe(f: ProbeFaults) {
    !f.before && !f.link && (f.fence || f.unlink)
  }

  /** From entry i on, a probe is left at the first one that is not clean. */
  ghost predicate LeavesProbeFrom(faults: seq<ProbeFaults>, i: nat) {
    exists k :: i <= k < |faults| && StrandsProbe(faults[k]) && forall j :: i <= j < k ==> CleanProbe(faults[j])
  }

  lemma LeavesProbeNext(faults: seq<ProbeFaults>, i: nat)
    requires i < |faults|
    ensures LeavesProbeFrom(faults, i) <==>
              StrandsProbe(faults[i]) || (CleanProbe(faults[i]) && LeavesProbeFrom(faults, i + 1))
  {
    if LeavesProbeFrom(faults, i) {
      var k :| i <= k < |faults| && StrandsProbe(faults[k]) && forall j :: i <= j < k ==> CleanProbe(faults[j]);
      if k > i { assert LeavesProbeFrom(faults, i + 1); }
    }
    if StrandsProbe(faults[i]) {
      assert LeavesProbeFrom(faults, i);
    } else if CleanProbe(faults[i]) && LeavesProbeFrom(faults, i + 1) {
      var k :| i + 1 <= k < |faults| && StrandsProbe(faults[k])
               && forall j :: i + 1 <= j < k ==> CleanProbe(faults[j]);
      assert i <= k && forall j :: i <= j < k ==> CleanProbe(faults[j]);
    }
  }

  lemma ProbeOneAble(orig: Names, e: Entry, f: ProbeFaults)
    requires e.source in orig && e.probe !in orig
    ensures ProbeOne(orig, e, f).1 <==> CleanProbe(f)
    ensures ProbeOne(orig, e, f).2 <==> StrandsProbe(f)
    ensures CleanProbe(f) ==> Last(orig, ProbeOne(orig, e, f).0) == orig
  {
    assert orig[e.probe := orig[e.source]] - {e.probe} == orig;
  }

  lemma {:induction false} ProbeFromAble(orig: Names, entries: seq<Entry>, faults: seq<ProbeFaults>, i: nat)
    requires Admitted(orig, entries) && FreshProbes(orig, entries) && i <= |entries| == |faults|
    ensures ProbeFrom(orig, entries, faults, i).1 <==> forall k :: i <= k < |faults| ==> CleanProbe(faults[k])
    ensures ProbeFrom(orig, entries, faults, i).2 <==> LeavesProbeFrom(faults, i)
    decreases |entries| - i
  {
    if i < |entries| {
      ProbeOneAble(orig, entries[i], faults[i]);
      LeavesProbeNext(faults, i);
      hide ProbeOne, CleanProbe, StrandsProbe, LeavesProbeFrom;
      if CleanProbe(faults[i]) { ProbeFromAble(orig, entries, faults, i + 1); }
    }
  }

  lemma MoveOneEnds(
    orig: Names, names: Names, data: Inodes, entries: seq<Entry>, digests: seq<Bytes>, i: nat, f: MoveFaults)
    requires Admitted(orig, entries) && Recorded(orig, data, entries, digests) && i < |entries|
    requires Layout(orig, names, entries, Progress(|entries|, i, AtSource))
    ensures MoveOne(names, data, entries[i], digests[i], f).1.AllMoved? <==> CleanMove(f)
    ensures !CleanMove(f) ==> MoveOne(names, data, entries[i], digests[i], f).1 == Stopped(0, StopOf(f))
  {
    assert Placed(orig, names, entries[i], Progress(|entries|, i, AtSource)[i]);
    assert Reads(orig, data, entries[i].source, digests[i]);
  }

  lemma MoveOneGoesOn(
    orig: Names, names: Names, data: Inodes, entries: seq<Entry>, digests: seq<Bytes>, i: nat, f: MoveFaults)
    requires Admitted(orig, entries) && Recorded(orig, data, entries, digests) && i < |entries|
    requires Layout(orig, names, entries, Progress(|entries|, i, AtSource))
    requires MoveOne(names, data, entries[i], digests[i], f).1.AllMoved?
    ensures Layout(orig, Last(names, MoveOne(names, data, entries[i], digests[i], f).0), entries,
                   Progress(|entries|, i + 1, AtSource))
  {
    var n := |entries|;
    MoveOneStep(orig, names, data, entries, digests, Progress(n, i, AtSource), i, f);
    assert Progress(n, i, AtSource)[i := AtDestination] == Progress(n, i + 1, AtSource);
  }

  /** From entry i on, the loop ends as the flags say: at the first move that is not clean, if any. */
  ghost predicate MovesAsFlagged(faults: seq<MoveFaults>, i: nat, moving: Moving) {
    if moving.AllMoved? then forall j :: i <= j < |faults| ==> CleanMove(faults[j])
    else
      && i <= moving.at < |faults| && !CleanMove(faults[moving.at]) && moving.why == StopOf(faults[moving.at])
      && forall j :: i <= j < moving.at ==> CleanMove(faults[j])
  }

  lemma {:induction false} MoveFromAsFlagged(
    orig: Names, names: Names, data: Inodes, entries: seq<Entry>, digests: seq<Bytes>,
    faults: seq<MoveFaults>, i: nat)
    requires Admitted(orig, entries) && Recorded(orig, data, entries, digests)
    requires i <= |entries| == |faults|
    requires Layout(orig, names, entries, Progress(|entries|, i, AtSource))
    ensures MovesAsFlagged(faults, i, MoveFrom(names, data, entries, digests, faults, i).1)
    decreases |entries| - i
  {
    if i < |entries| {
      MoveOneEnds(orig, names, data, entries, digests, i, faults[i]);
      var (trace, moving) := MoveOne(names, data, entries[i], digests[i], faults[i]);
      if moving.AllMoved? { MoveOneGoesOn(orig, names, data, entries, digests, i, faults[i]); }
      hide MoveOne, Layout, Admitted, Recorded, Last, CleanMove, StopOf;
      if moving.AllMoved? {
        MoveFromAsFlagged(orig, Last(names, trace), data, entries, digests, faults, i + 1);
      }
    }
  }

  lemma MovingOfRun(orig: Names, data: Inodes, entries: seq<Entry>, digests: seq<Bytes>, f: RunFaults)
    requires |entries| == |digests| && FaultsFit(entries, f)
    ensures var (probing, able, _) := ProbeFrom(orig, entries, f.probes, 0);
            RenameRun(orig, data, entries, digests, f).moving ==
              if f.aborted || f.begin || f.prepare || !able then Stopped(0, Refused)
              else MoveFrom(Last(orig, probing), data, entries, digests, f.moves, 0).1
  {
    hide ProbeFrom, MoveFrom, UndoFrom, Restored, Last;
  }

  /** The run ends with a lost cleanup fence exactly under that condition on what rejects. */
  lemma FenceLostExactly(orig: Names, data: Inodes, entries: seq<Entry>, digests: seq<Bytes>, f: RunFaults, k: nat)
    requires Admitted(orig, entries) && Recorded(orig, data, entries, digests)
    requires FreshProbes(orig, entries) && FaultsFit(entries, f)
    ensures RenameRun(orig, data, entries, digests, f).moving == Stopped(k, FenceLost) <==> FenceIsLostAt(f, k)
  {
    ProbeFromAble(orig, entries, f.probes, 0);
    ProbeFromSafe(orig, entries, f.probes, 0);
    StartLayout(orig, entries);
    hide Admitted, Recorded, FreshProbes, CleanProbe, CleanMove, LosesFence, RenameRun, ProbeFrom, MoveFrom;
    hide Layout, Safe, AllSafe, Untouched, Last;
    MovingOfRun(orig, data, entries, digests, f);
    MoveFromAsFlagged(orig, orig, data, entries, digests, f.moves, 0);
    FlaggedFence(f.moves, MoveFrom(orig, data, entries, digests, f.moves, 0).1, k);
  }

  lemma FlaggedFence(faults: seq<MoveFaults>, moving: Moving, k: nat)
    requires MovesAsFlagged(faults, 0, moving)
    ensures moving == Stopped(k, FenceLost) <==>
              k < |faults| && LosesFence(faults[k]) && forall j :: 0 <= j < k ==> CleanMove(faults[j])
  {
    if k < |faults| && LosesFence(faults[k]) && forall j :: 0 <= j < k ==> CleanMove(faults[j]) {
      assert !CleanMove(faults[k]);
      assert moving.Stopped? && moving.at == k;
    }
  }

  /**
    Success is exactly the renamed file system. Failure is exactly the original one if and only if
    the error mentions nothing to clean up and the fence guarding the cleanup of a half-moved
    entry did not reject.
  */
  lemma RenameOutcome(orig: Names, data: Inodes, entries: seq<Entry>, digests: seq<Bytes>, f: RunFaults)
    requires Admitted(orig, entries) && Recorded(orig, data, entries, digests)
    requires FreshProbes(orig, entries) && FaultsFit(entries, f)
    ensures var run := RenameRun(orig, data, entries, digests, f);
            var final := Last(orig, run.trace);
            && (run.outcome.Renamed? ==> RenamedExactly(orig, final, entries))
            && (run.outcome.Failed? ==>
                  (final == orig <==>
                     run.outcome.mentions == Mentions(false, false, {}) && !FenceIsLost(f)))
  {
    RenameOutcomeByRun(orig, data, entries, digests, f);
    var run := RenameRun(orig, data, entries, digests, f);
    hide RenameRun, Admitted, Recorded, FreshProbes, FenceIsLostAt, RenamedExactly;
    if run.moving.Stopped? && run.moving.why == FenceLost {
      FenceLostExactly(orig, data, entries, digests, f, run.moving.at);
    }
    if FenceIsLost(f) {
      var k :| FenceIsLostAt(f, k);
      FenceLostExactly(orig, data, entries, digests, f, k);
    }
  }

  lemma RenameOutcomeByRun(orig: Names, data: Inodes, entries: seq<Entry>, digests: seq<Bytes>, f: RunFaults)
    requires Admitted(orig, entries) && Recorded(orig, data, entries, digests)
    requires FreshProbes(orig, entries) && FaultsFit(entries, f)
    ensures var run := RenameRun(orig, data, entries, digests, f);
            var final := Last(orig, run.trace);
            && (run.outcome.Renamed? ==> RenamedExactly(orig, final, entries))
            && (run.outcome.Failed? ==>
                  (final == orig <==>
                     && run.outcome.mentions == Mentions(false, false, {})
                     && !(run.moving.Stopped? && run.moving.why == FenceLost)))
  {
    assert |entries| == |digests|;
    hide Safe, AllSafe, Layout, Recorded, RenamedExactly, Undone, MoveWithRollback, ProbeFrom, UndoFrom, Untouched;
    hide FreshProbes, SameAt;
    ProbeFromSafe(orig, entries, f.probes, 0);
    var (probing, able, residual) := ProbeFrom(orig, entries, f.probes, 0);
    if !f.aborted && !f.begin && !f.prepare && able {
      var at := MoveWithRollbackLayout(orig, data, entries, digests, f.moves, f.undos);
      var (trace, report) := MoveWithRollback(orig, data, entries, digests, f.moves, f.undos);
      var names := Last(orig, trace);
      LastOfConcat(orig, probing, trace);
      if report.moving.Stopped? {
        StoppedRestores(orig, names, entries, at, report);
      } else if !f.complete {
        AllAtDestination(orig, names, entries, at);
      } else {
        var at' := UndoFromLayout(orig, names, data, entries, digests, f.lateUndos, |entries|, at);
        var undo := UndoFrom(names, data, entries, digests, f.lateUndos, |entries|);
        LastOfConcat(orig, probing + trace, undo.0);
        UndoneRestores(orig, names, entries, at, undo, at');
      }
    }
  }

  lemma StoppedRestores(orig: Names, names: Names, entries: seq<Entry>, at: seq<Place>, report: Report)
    requires Admitted(orig, entries) && Layout(orig, names, entries, at)
    requires report.moving.Stopped? && report.moving.at < |entries|
    requires forall i :: i in report.unrestored ==> i < report.moving.at
    requires at[report.moving.at] == StopPlace(report.moving)
    requires forall i :: 0 <= i < |at| && i != report.moving.at ==>
               (at[i] == AtSource <==> i !in report.unrestored)
    ensures names == orig <==> report.unrestored == {} && report.moving.why == Refused
  {
    OriginalLayout(orig, names, entries, at);
    UnrestoredIsEmpty(at, report.moving.at, report.unrestored);
  }

  lemma UndoneRestores(
    orig: Names, names: Names, entries: seq<Entry>, at: seq<Place>, undo: (seq<Names>, set<nat>), at': seq<Place>)
    requires Admitted(orig, entries) && Undone(orig, names, entries, at, |entries|, undo, at')
    ensures Last(names, undo.0) == orig <==> undo.1 == {}
  {
    OriginalLayout(orig, Last(names, undo.0), entries, at');
    UnrestoredIsEmpty(at', |entries|, undo.1);
  }

  lemma AllAtDestination(orig: Names, names: Names, entries: seq<Entry>, at: seq<Place>)
    requires Admitted(orig, entries) && Layout(orig, names, entries, at)
    requires forall i :: 0 <= i < |at| ==> at[i] == AtDestination
    ensures RenamedExactly(orig, names, entries)
  {
    forall i | 0 <= i < |entries|
      ensures entries[i].source !in names && Named(names, entries[i].destination, orig[entries[i].source])
    {
      assert Placed(orig, names, entries[i], at[i]);
    }
  }

  lemma UnrestoredIsEmpty(at: seq<Place>, k: nat, failed: set<nat>)
    requires k <= |at| && forall i :: i in failed ==> i < k
    requires forall i :: 0 <= i < |at| && i != k ==> (at[i] == AtSource <==> i !in failed)
    ensures failed == {} <==> forall i :: 0 <= i < |at| && i != k ==> at[i] == AtSource
  {
    if failed != {} {
      var i :| i in failed;
      assert at[i] != AtSource;
    }
  }

  // ---------------------------------------------------------------- what the flags decide

  /** The moves begin: nothing rejects before them, and every probe succeeds. */
  predicate Ready(f: RunFaults) {
    !f.aborted && !f.begin && !f.prepare && forall i :: 0 <= i < |f.probes| ==> CleanProbe(f.probes[i])
  }

  predicate MovesAll(f: RunFaults) {
    forall i :: 0 <= i < |f.moves| ==> CleanMove(f.moves[i])
  }

  /** Entry k is the first whose move is not clean. */
  predicate FirstStop(f: RunFaults, k: nat) {
    k < |f.moves| && !CleanMove(f.moves[k]) && forall i :: 0 <= i < k ==> CleanMove(f.moves[i])
  }

  /** Where every entry stands in the end. */
  ghost predicate EndsAt(f: RunFaults, at: seq<Place>) {
    && |at| == |f.moves| == |f.undos| == |f.lateUndos|
    && if !Ready(f) then forall i :: 0 <= i < |at| ==> at[i] == AtSource
       else if MovesAll(f) then
         forall i :: 0 <= i < |at| ==> at[i] == if f.complete then UndoPlace(f.lateUndos[i]) else AtDestination
       else
         forall k: nat :: FirstStop(f, k) ==>
           && at[k] == StopPlace(Stopped(k, StopOf(f.moves[k])))
           && (forall i :: 0 <= i < k ==> at[i] == UndoPlace(f.undos[i]))
           && forall i :: k < i < |at| ==> at[i] == AtSource
  }

  /** What the error mentions: a stranded probe, the destination of the stopped entry, the entries not undone. */
  ghost predicate MentionsAsFlagged(f: RunFaults, at: seq<Place>, mentions: Mentions) {
    && (mentions.probe <==> !f.aborted && !f.begin && !f.prepare && LeavesProbeFrom(f.probes, 0))
    && (mentions.destination <==> Ready(f) && exists k: nat :: FirstStop(f, k) && StopOf(f.moves[k]) == CleanupFailed)
    && mentions.unrestored == set i | 0 <= i < |at| && at[i] != AtSource && !FirstStop(f, i)
  }

  ghost predicate EndsAsFlagged(
    orig: Names, entries: seq<Entry>, f: RunFaults, run: RunResult, at: seq<Place>)
    requires Admitted(orig, entries) && FaultsFit(entries, f)
  {
    var final := Last(orig, run.trace);
    && EndsAt(f, at)
    && (forall i :: 0 <= i < |entries| ==> Placed(orig, final, entries[i], at[i]))
    && (run.outcome.Renamed? <==> Ready(f) && MovesAll(f) && !f.complete)
    && (run.outcome.Failed? ==> MentionsAsFlagged(f, at, run.outcome.mentions))
    && (run.recorded <==>
          && run.outcome.Failed? && !f.aborted && !f.begin && !f.record
          && forall i :: 0 <= i < |entries| ==> at[i] == AtSource && !f.inspect[i])
  }

  /** The inspection finds everything restored exactly when all entries are at their sources and it can look. */
  lemma RestoredMeans(
    orig: Names, names: Names, data: Inodes, entries: seq<Entry>, digests: seq<Bytes>, inspect: seq<bool>,
    at: seq<Place>)
    requires Admitted(orig, entries) && Recorded(orig, data, entries, digests)
    requires |entries| == |inspect| == |at|
    requires forall i :: 0 <= i < |entries| ==> Placed(orig, names, entries[i], at[i])
    ensures Restored(names, data, entries, digests, inspect)
       <==> forall i :: 0 <= i < |entries| ==> at[i] == AtSource && !inspect[i]
  {
    forall i | 0 <= i < |entries|
      ensures at[i] == AtSource
         <==> Reads(names, data, entries[i].source, digests[i]) && entries[i].destination !in names
    {
      assert Placed(orig, names, entries[i], at[i]);
      assert Reads(orig, data, entries[i].source, digests[i]);
    }
  }

  lemma LayoutPlaces(orig: Names, names: Names, entries: seq<Entry>, at: seq<Place>)
    requires Admitted(orig, entries) && Layout(orig, names, entries, at)
    ensures |at| == |entries| && forall i :: 0 <= i < |entries| ==> Placed(orig, names, entries[i], at[i])
  {
  }

  lemma UnreadyMeans(f: RunFaults, at: seq<Place>)
    requires !Ready(f) && |at| == |f.moves| == |f.undos| == |f.lateUndos|
    requires forall i :: 0 <= i < |at| ==> at[i] == AtSource
    ensures EndsAt(f, at)
    ensures var stranded := !f.aborted && !f.begin && !f.prepare && LeavesProbeFrom(f.probes, 0);
            MentionsAsFlagged(f, at, Mentions(stranded, false, {}))
  {
    hide CleanMove, LeavesProbeFrom, FirstStop;
  }

  /** Before the moves nothing but a probe can be left. */
  lemma UnreadyEnds(orig: Names, data: Inodes, entries: seq<Entry>, digests: seq<Bytes>, f: RunFaults)
    returns (at: seq<Place>)
    requires Admitted(orig, entries) && Recorded(orig, data, entries, digests)
    requires FreshProbes(orig, entries) && FaultsFit(entries, f) && !Ready(f)
    ensures EndsAsFlagged(orig, entries, f, RenameRun(orig, data, entries, digests, f), at)
  {
    at := Progress(|entries|, 0, AtSource);
    var (probing, able, residual) := ProbeFrom(orig, entries, f.probes, 0);
    ProbeFromSafe(orig, entries, f.probes, 0);
    ProbeFromAble(orig, entries, f.probes, 0);
    assert forall i :: 0 <= i < |entries| ==> Placed(orig, Last(orig, probing), entries[i], at[i]);
    StartLayout(orig, entries);
    hide Admitted, Recorded, FreshProbes, CleanProbe, ProbeFrom, Restored, Last, Placed, AllSafe, Untouched, Layout;
    hide LeavesProbeFrom, MoveWithRollback, UndoFrom, EndsAt, MentionsAsFlagged;
    NothingTraced(orig);
    LayoutPlaces(orig, orig, entries, at);
    RestoredMeans(orig, Last(orig, probing), data, entries, digests, f.inspect, at);
    RestoredMeans(orig, orig, data, entries, digests, f.inspect, at);
    UnreadyMeans(f, at);
  }

  /** A move stopped: the ones before it are undone as the flags let them. */
  lemma StoppedEnds(orig: Names, data: Inodes, entries: seq<Entry>, digests: seq<Bytes>, f: RunFaults)
    returns (at: seq<Place>)
    requires Admitted(orig, entries) && Recorded(orig, data, entries, digests)
    requires FreshProbes(orig, entries) && FaultsFit(entries, f) && Ready(f) && !MovesAll(f)
    ensures EndsAsFlagged(orig, entries, f, RenameRun(orig, data, entries, digests, f), at)
  {
    ReadyMoves(orig, data, entries, digests, f);
    at := MoveWithRollbackLayout(orig, data, entries, digests, f.moves, f.undos);
    var (trace, report) := MoveWithRollback(orig, data, entries, digests, f.moves, f.undos);
    var (probing, _, _) := ProbeFrom(orig, entries, f.probes, 0);
    LastOfConcat(orig, probing, trace);
    LayoutPlaces(orig, Last(orig, trace), entries, at);
    RestoredMeans(orig, Last(orig, trace), data, entries, digests, f.inspect, at);
    hide Admitted, Recorded, FreshProbes, CleanProbe, ProbeFrom, Restored, Last, Placed, AllSafe, Layout;
    hide LeavesProbeFrom, CleanMove, UndoPlace, StopOf, MoveWithRollback, UndoFrom, EndsAt, MentionsAsFlagged;
    StoppedMeans(f, report, at);
  }

  /** With all probes clean the run is its moves, after probes that leave nothing. */
  lemma ReadyMoves(orig: Names, data: Inodes, entries: seq<Entry>, digests: seq<Bytes>, f: RunFaults)
    requires Admitted(orig, entries) && Recorded(orig, data, entries, digests)
    requires FreshProbes(orig, entries) && FaultsFit(entries, f) && Ready(f)
    ensures var (probing, able, residual) := ProbeFrom(orig, entries, f.probes, 0);
            able && !residual && Last(orig, probing) == orig && !LeavesProbeFrom(f.probes, 0)
    ensures var report := MoveWithRollback(orig, data, entries, digests, f.moves, f.undos).1;
            MovesAsFlagged(f.moves, 0, report.moving)
  {
    ProbeFromSafe(orig, entries, f.probes, 0);
    ProbeFromAble(orig, entries, f.probes, 0);
    StartLayout(orig, entries);
    MoveFromAsFlagged(orig, orig, data, entries, digests, f.moves, 0);
    hide Admitted, Recorded, FreshProbes, CleanProbe, ProbeFrom, Last, AllSafe, Layout, UndoFrom, MoveFrom;
  }

  lemma StoppedMeans(f: RunFaults, report: Report, at: seq<Place>)
    requires Ready(f) && !MovesAll(f) && |at| == |f.moves| == |f.undos| == |f.lateUndos|
    requires MovesAsFlagged(f.moves, 0, report.moving) && report.moving.Stopped?
    requires at == RolledBack(|at|, report.moving, f.undos) && !LeavesProbeFrom(f.probes, 0)
    requires forall i :: i in report.unrestored ==> i < report.moving.at
    requires forall i :: 0 <= i < |at| && i != report.moving.at ==> (at[i] == AtSource <==> i !in report.unrestored)
    ensures EndsAt(f, at)
    ensures MentionsAsFlagged(f, at, Mentions(false, report.moving.why == CleanupFailed, report.unrestored))
  {
    var k := report.moving.at;
    hide CleanMove, CleanProbe, StopOf, UndoPlace, LeavesProbeFrom;
    assert FirstStop(f, k);
    assert forall i: nat :: FirstStop(f, i) ==> i == k;
  }

  lemma MovedMeans(f: RunFaults, at: seq<Place>)
    requires Ready(f) && MovesAll(f) && !LeavesProbeFrom(f.probes, 0)
    requires |at| == |f.moves| == |f.undos| == |f.lateUndos|
    requires forall i :: 0 <= i < |at| ==> at[i] == if f.complete then UndoPlace(f.lateUndos[i]) else AtDestination
    ensures EndsAt(f, at)
    ensures MentionsAsFlagged(f, at, Mentions(false, false, set i | 0 <= i < |at| && at[i] != AtSource))
  {
    hide CleanMove, CleanProbe, StopOf, UndoPlace, LeavesProbeFrom;
    assert forall i: nat :: !FirstStop(f, i);
  }

  /** All moves were clean and completing did not reject. */
  lemma RenamedEnds(orig: Names, data: Inodes, entries: seq<Entry>, digests: seq<Bytes>, f: RunFaults)
    returns (at: seq<Place>)
    requires Admitted(orig, entries) && Recorded(orig, data, entries, digests)
    requires FreshProbes(orig, entries) && FaultsFit(entries, f) && Ready(f) && MovesAll(f) && !f.complete
    ensures EndsAsFlagged(orig, entries, f, RenameRun(orig, data, entries, digests, f), at)
  {
    ReadyMoves(orig, data, entries, digests, f);
    at := MoveWithRollbackLayout(orig, data, entries, digests, f.moves, f.undos);
    var (trace, report) := MoveWithRollback(orig, data, entries, digests, f.moves, f.undos);
    var (probing, _, _) := ProbeFrom(orig, entries, f.probes, 0);
    hide Admitted, Recorded, FreshProbes, CleanProbe, ProbeFrom, Last, AllSafe, Layout, CleanMove, Placed;
    hide LeavesProbeFrom, UndoPlace, StopOf, MoveWithRollback, EndsAt, MentionsAsFlagged;
    LastOfConcat(orig, probing, trace);
    LayoutPlaces(orig, Last(orig, trace), entries, at);
    MovedMeans(f, at);
  }

  lemma LateUndone(
    orig: Names, names: Names, data: Inodes, entries: seq<Entry>, digests: seq<Bytes>, faults: seq<UndoFaults>,
    moved: seq<Place>) returns (at: seq<Place>)
    requires Admitted(orig, entries) && Recorded(orig, data, entries, digests)
    requires |entries| == |moved| == |faults| && Layout(orig, names, entries, moved)
    requires forall i :: 0 <= i < |moved| ==> moved[i] == AtDestination
    ensures var undo := UndoFrom(names, data, entries, digests, faults, |entries|);
            && |at| == |entries|
            && (forall i :: 0 <= i < |at| ==> at[i] == UndoPlace(faults[i]))
            && (forall i :: 0 <= i < |entries| ==> Placed(orig, Last(names, undo.0), entries[i], at[i]))
            && undo.1 == set i | 0 <= i < |at| && at[i] != AtSource
  {
    at := UndoFromLayout(orig, names, data, entries, digests, faults, |entries|, moved);
    hide UndoPlace, UndoFrom, Last, Placed;
  }

  /** The run, when everything has been moved and completing rejects. */
  lemma LateRun(orig: Names, data: Inodes, entries: seq<Entry>, digests: seq<Bytes>, f: RunFaults)
    requires |entries| == |digests| && FaultsFit(entries, f)
    requires !f.aborted && !f.begin && !f.prepare && f.complete
    requires var (probing, able, _) := ProbeFrom(orig, entries, f.probes, 0);
             && able && Last(orig, probing) == orig
             && MoveWithRollback(orig, data, entries, digests, f.moves, f.undos).1.moving.AllMoved?
    ensures var run := RenameRun(orig, data, entries, digests, f);
            var probing := ProbeFrom(orig, entries, f.probes, 0).0;
            var trace := MoveWithRollback(orig, data, entries, digests, f.moves, f.undos).0;
            var undo := UndoFrom(Last(orig, trace), data, entries, digests, f.lateUndos, |entries|);
            var final := Last(Last(orig, trace), undo.0);
            && Last(orig, run.trace) == final
            && run.outcome == Failed(Mentions(false, false, undo.1))
            && (run.recorded <==> undo.1 == {} && Restored(final, data, entries, digests, f.inspect) && !f.record)
  {
    hide ProbeFrom, Restored, MoveWithRollback, UndoFrom, Last;
    var probing := ProbeFrom(orig, entries, f.probes, 0).0;
    var trace := MoveWithRollback(orig, data, entries, digests, f.moves, f.undos).0;
    var undo := UndoFrom(Last(orig, trace), data, entries, digests, f.lateUndos, |entries|);
    LastOfConcat(orig, probing, trace);
    LastOfConcat(orig, probing + trace, undo.0);
  }

  /** All moves were clean, but completing rejected: the late undos bring back what they can. */
  lemma LateEnds(orig: Names, data: Inodes, entries: seq<Entry>, digests: seq<Bytes>, f: RunFaults)
    returns (at: seq<Place>)
    requires Admitted(orig, entries) && Recorded(orig, data, entries, digests)
    requires FreshProbes(orig, entries) && FaultsFit(entries, f) && Ready(f) && MovesAll(f) && f.complete
    ensures EndsAsFlagged(orig, entries, f, RenameRun(orig, data, entries, digests, f), at)
  {
    hide Admitted, Recorded, FreshProbes, CleanProbe, ProbeFrom, Restored, Last, Placed, AllSafe, Layout, RenameRun;
    hide LeavesProbeFrom, CleanMove, UndoPlace, StopOf, MoveWithRollback, UndoFrom, EndsAt, MentionsAsFlagged;
    RecordedFits(orig, data, entries, digests);
    at := MovedBack(orig, data, entries, digests, f);
    LateRun(orig, data, entries, digests, f);
    MovedMeans(f, at);
  }

  lemma RecordedFits(orig: Names, data: Inodes, entries: seq<Entry>, digests: seq<Bytes>)
    requires Recorded(orig, data, entries, digests)
    ensures |entries| == |digests|
  {
  }

  /** Where the late undos leave the moved entries. */
  lemma MovedBack(orig: Names, data: Inodes, entries: seq<Entry>, digests: seq<Bytes>, f: RunFaults)
    returns (at: seq<Place>)
    requires Admitted(orig, entries) && Recorded(orig, data, entries, digests)
    requires FreshProbes(orig, entries) && FaultsFit(entries, f) && Ready(f) && MovesAll(f)
    ensures var (probing, able, _) := ProbeFrom(orig, entries, f.probes, 0);
            able && Last(orig, probing) == orig && !LeavesProbeFrom(f.probes, 0)
    ensures MoveWithRollback(orig, data, entries, digests, f.moves, f.undos).1.moving.AllMoved?
    ensures var names := Last(orig, MoveWithRollback(orig, data, entries, digests, f.moves, f.undos).0);
            var undo := UndoFrom(names, data, entries, digests, f.lateUndos, |entries|);
            var final := Last(names, undo.0);
            && |at| == |entries|
            && (forall i :: 0 <= i < |at| ==> at[i] == UndoPlace(f.lateUndos[i]))
            && (forall i :: 0 <= i < |entries| ==> Placed(orig, final, entries[i], at[i]))
            && undo.1 == (set i | 0 <= i < |at| && at[i] != AtSource)
            && (undo.1 == {} <==> forall i :: 0 <= i < |at| ==> at[i] == AtSource)
            && (Restored(final, data, entries, digests, f.inspect) <==>
                  forall i :: 0 <= i < |entries| ==> at[i] == AtSource && !f.inspect[i])
  {
    hide Admitted, Recorded, FreshProbes, CleanProbe, ProbeFrom, Restored, Last, Placed, AllSafe, Layout;
    hide LeavesProbeFrom, CleanMove, UndoPlace, StopOf, MoveWithRollback, UndoFrom;
    RecordedFits(orig, data, entries, digests);
    ReadyMoves(orig, data, entries, digests, f);
    var moved := MoveWithRollbackLayout(orig, data, entries, digests, f.moves, f.undos);
    var names := Last(orig, MoveWithRollback(orig, data, entries, digests, f.moves, f.undos).0);
    at := LateUndone(orig, names, data, entries, digests, f.lateUndos, moved);
    var undo := UndoFrom(names, data, entries, digests, f.lateUndos, |entries|);
    RestoredMeans(orig, Last(names, undo.0), data, entries, digests, f.inspect, at);
    BackMeans(at, undo.1);
  }

  lemma BackMeans(at: seq<Place>, failed: set<nat>)
    requires failed == set i | 0 <= i < |at| && at[i] != AtSource
    ensures failed == {} <==> forall i :: 0 <= i < |at| ==> at[i] == AtSource
  {
    if forall i :: 0 <= i < |at| ==> at[i] == AtSource { assert failed == {}; }
    forall i | 0 <= i < |at| && failed == {} ensures at[i] == AtSource {
      assert i !in failed;
    }
  }

  /**
    What a rename does in terms of what rejects, and of nothing else: it succeeds exactly when nothing
    rejects on the way. Otherwise every entry stands where the awaits of its own undo let it, the stopped
    one where its cleanup left it; the error mentions exactly a stranded probe, a destination whose cleanup
    failed and the entries that are not back; and the rollback is recorded exactly when all entries are at
    their sources and neither the inspection nor the recording rejects.
  */
  lemma RenameExactly(orig: Names, data: Inodes, entries: seq<Entry>, digests: seq<Bytes>, f: RunFaults)
    returns (at: seq<Place>)
    requires Admitted(orig, entries) && Recorded(orig, data, entries, digests)
    requires FreshProbes(orig, entries) && FaultsFit(entries, f)
    ensures EndsAsFlagged(orig, entries, f, RenameRun(orig, data, entries, digests, f), at)
  {
    hide EndsAsFlagged, RenameRun, Admitted, Recorded, FreshProbes;
    if !Ready(f) {
      at := UnreadyEnds(orig, data, entries, digests, f);
    } else if MovesAll(f) {
      if f.complete {
        at := LateEnds(orig, data, entries, digests, f);
      } else {
        at := RenamedEnds(orig, data, entries, digests, f);
      }
    } else {
      at := StoppedEnds(orig, data, entries, digests, f);
    }
  }

  /** A lost fence leaves the new link in place although the error asks for no cleanup. */
  lemma FenceLossLeavesTheDestination()
    ensures var orig: Names := map["a" := 1];
            var entries := [Entry("a", "b", "probe")];
            var clean := UndoFaults(false, false, false, false);
            var f := RunFaults(false, false, false, [ProbeFaults(false, false, false, false)],
              [MoveFaults(false, false, true, false, true, false, false)], [clean], false, [clean], [false], false);
            var run := RenameRun(orig, map[1 := []], entries, [[]], f);
            && run.outcome == Failed(Mentions(false, false, {}))
            && Last(orig, run.trace) == map["a" := 1, "b" := 1]
            && !run.recorded
  {
    var orig: Names := map["a" := 1];
    var data: Inodes := map[1 := []];
    var e := Entry("a", "b", "probe");
    var clean := UndoFaults(false, false, false, false);
    var probe := ProbeFaults(false, false, false, false);
    var move := MoveFaults(false, false, true, false, true, false, false);
    var probed := orig["probe" := 1];
    assert ProbeOne(orig, e, probe) == ([probed, probed - {"probe"}], true, false);
    assert probed - {"probe"} == orig;
    assert ProbeFrom(orig, [e], [probe], 1) == ([], true, false);
    assert [probed, orig] + [] == [probed, orig];
    assert ProbeFrom(orig, [e], [probe], 0) == ([probed, orig], true, false);
    var linked := orig["b" := 1];
    assert MoveOne(orig, data, e, [], move) == ([linked], Stopped(0, FenceLost));
    assert MoveFrom(orig, data, [e], [[]], [move], 0) == ([linked], Stopped(0, FenceLost));
    assert UndoFrom(linked, data, [e], [[]], [clean], 0) == ([], {});
    assert [linked] + [] == [linked];
    assert MoveWithRollback(orig, data, [e], [[]], [move], [clean])
        == ([linked], Report(Stopped(0, FenceLost), {}));
  }

  /** Recovery blobs are given up only before the begin, after success, or after a recorded restoration. */
  lemma BlobsDisposable(orig: Names, data: Inodes, entries: seq<Entry>, digests: seq<Bytes>, f: RunFaults)
    requires Admitted(orig, entries) && Recorded(orig, data, entries, digests)
    requires FreshProbes(orig, entries) && FaultsFit(entries, f)
    ensures var run := RenameRun(orig, data, entries, digests, f);
            var final := Last(orig, run.trace);
            && (run.disposable <==> f.aborted || run.outcome.Renamed? || run.recorded)
            && (f.aborted ==> final == orig)
            && (run.recorded ==> forall i :: 0 <= i < |entries| ==>
                  Reads(final, data, entries[i].source, digests[i]) && entries[i].destination !in final)
  {
    assert |entries| == |digests|;
    hide ProbeFrom, MoveWithRollback, UndoFrom, Last, Reads, Admitted, Recorded, FreshProbes;
    NothingTraced(orig);
  }

  lemma NothingTraced(orig: Names)
    ensures Last(orig, []) == orig
  {
  }
}
