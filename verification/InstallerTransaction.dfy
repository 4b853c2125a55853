/**
  The installer's in-memory file transaction (src/installer/transaction.ts). Its journal keeps,
  per file, the state first observed and the state last known; operations and the rollback act
  on a file only while it is in the last known state, so that a user's concurrent edit survives.

  Outside writers may change any file while the transaction awaits: every step carries the edits
  that happen during its awaits. The comparison, the rename and the journal update between them are
  synchronous. Directory bookkeeping and compensation callbacks are not modelled.
*/
module InstallerTransaction {
  type Path = string
  type Bytes = seq<bv8>

  datatype FileState = Missing | Present(bytes: Bytes, mode: nat)

  type Disk = map<Path, FileState>

  datatype Entry = Entry(before: FileState, after: FileState)

  /** `order` lists the journal's files in insertion order. */
  datatype Journal = Journal(order: seq<Path>, entries: map<Path, Entry>)

  /**
    What the awaits of one operation bring. Before the synchronous `last` step `early` may reject and
    others make `edits`; while the temporary is removed `sweep` may reject and others make the `late` ones.
  */
  datatype Awaits = Awaits(early: bool, edits: Disk, last: bool, sweep: bool, late: Disk)

  /** An accepted action on a file: the state it was found in and the state it was left in. */
  datatype Seen = Seen(path: Path, from: FileState, to: FileState)

  datatype Op =
    | Observe(path: Path)
    | Replace(path: Path, next: FileState, expected: FileState, exclusive: bool, awaits: Awaits)

  datatype Step = Step(edits: Disk, op: Op)

  datatype World = World(disk: Disk, journal: Journal, log: seq<Seen>)

  function At(disk: Disk, path: Path): FileState {
    if path in disk then disk[path] else Missing
  }

  /** Disks that show the same state everywhere; a `Missing` binding shows what no binding shows. */
  ghost predicate Same(a: Disk, b: Disk) {
    forall p :: At(a, p) == At(b, p)
  }

  // ---------------------------------------------------------------- operations

  function Known(journal: Journal, path: Path, state: FileState): bool {
    path in journal.entries ==> journal.entries[path].after == state
  }

  function SetEntry(journal: Journal, path: Path, entry: Entry): Journal {
    Journal(if path in journal.entries then journal.order else journal.order + [path],
            journal.entries[path := entry])
  }

  function ObserveFile(w: World, path: Path): (World, bool) {
    var current := At(w.disk, path);
    if !Known(w.journal, path, current) then (w, false)
    else if path in w.journal.entries then
      (w.(log := w.log + [Seen(path, current, current)]), true)
    else
      (World(w.disk, SetEntry(w.journal, path, Entry(current, current)),
             w.log + [Seen(path, current, current)]), true)
  }

  /** The shared commit: awaits, compares and swaps in one synchronous step, and awaits the removal of its temporary. */
  function CommitFile(w: World, path: Path, next: FileState, expected: FileState, entry: Entry, a: Awaits)
    : (World, bool)
  {
    var disk := w.disk + a.edits;
    if a.early || At(disk, path) != expected || a.last then (w.(disk := disk + a.late), false)
    else
      (World(disk[path := next] + a.late, SetEntry(w.journal, path, entry), w.log + [Seen(path, expected, next)]),
       !a.sweep)
  }

  function ReplaceFile(
    w: World, path: Path, next: FileState, expected: FileState, exclusive: bool, a: Awaits): (World, bool)
  {
    var current := At(w.disk, path);
    if current != expected || !Known(w.journal, path, current) then (w, false)
    else if exclusive && current.Present? then (w, false)
    else if current == next then (w, true)
    else
      var before := if path in w.journal.entries then w.journal.entries[path].before else current;
      CommitFile(w, path, next, current, Entry(before, next), a)
  }

  function Perform(w: World, step: Step): World {
    var edited := w.(disk := w.disk + step.edits);
    match step.op
    case Observe(path) => ObserveFile(edited, path).0
    case Replace(path, next, expected, exclusive, awaits) =>
      ReplaceFile(edited, path, next, expected, exclusive, awaits).0
  }

  function Run(w: World, steps: seq<Step>): World {
    if steps == [] then w else Perform(Run(w, steps[..|steps| - 1]), steps[|steps| - 1])
  }

  // ---------------------------------------------------------------- rollback

  /** One file of the rollback; true unless a failure is pushed for it. */
  function RollbackFile(w: World, path: Path, a: Awaits): (World, bool) {
    var entry := if path in w.journal.entries then w.journal.entries[path] else Entry(Missing, Missing);
    if entry.before == entry.after then (w, true)
    else if At(w.disk, path) != entry.after then (w, false)
    else CommitFile(w, path, entry.before, entry.after, Entry(entry.before, entry.before), a)
  }

  /** The files order[..k], last first; the second result holds the files reported as failed. */
  function RollbackFrom(w: World, order: seq<Path>, awaits: seq<Awaits>, k: nat): (World, set<Path>)
    requires k <= |order| <= |awaits|
    decreases k
  {
    if k == 0 then (w, {})
    else
      var (next, ok) := RollbackFile(w, order[k - 1], awaits[k - 1]);
      var (end, failed) := RollbackFrom(next, order, awaits, k - 1);
      (end, if ok then failed else failed + {order[k - 1]})
  }

  lemma RollbackFromNext(w: World, order: seq<Path>, awaits: seq<Awaits>, k: nat)
    requires 0 < k <= |order| <= |awaits|
    ensures var (next, ok) := RollbackFile(w, order[k - 1], awaits[k - 1]);
            var (end, failed) := RollbackFrom(next, order, awaits, k - 1);
            RollbackFrom(w, order, awaits, k) == (end, if ok then failed else failed + {order[k - 1]})
  {
    hide RollbackFile;
  }

  function Rollback(w: World, awaits: seq<Awaits>): (World, set<Path>)
    requires |w.journal.order| <= |awaits|
  {
    RollbackFrom(w, w.journal.order, awaits, |w.journal.order|)
  }

  // ---------------------------------------------------------------- what the journal knows

  /** Where the log first found a file, and where it last left it. */
  function First(log: seq<Seen>, path: Path): FileState {
    if log == [] then Missing
    else if log[0].path == path then log[0].from
    else First(log[1..], path)
  }

  function Latest(log: seq<Seen>, path: Path): FileState {
    if log == [] then Missing
    else if log[|log| - 1].path == path then log[|log| - 1].to
    else Latest(log[..|log| - 1], path)
  }

  predicate Touched(log: seq<Seen>, path: Path) {
    exists i :: 0 <= i < |log| && log[i].path == path
  }

  /** Every action found its file exactly as the previous action on that file had left it. */
  ghost predicate Unbroken(log: seq<Seen>) {
    forall i :: 0 <= i < |log| && Touched(log[..i], log[i].path) ==>
      log[i].from == Latest(log[..i], log[i].path)
  }

  ghost predicate WellOrdered(journal: Journal) {
    && (forall i, k :: 0 <= i < k < |journal.order| ==> journal.order[i] != journal.order[k])
    && (forall p :: p in journal.order <==> p in journal.entries)
  }

  /** The last known state of every journalled file is what the log last left. */
  ghost predicate Tracks(w: World) {
    && WellOrdered(w.journal)
    && Unbroken(w.log)
    && (forall p :: p in w.journal.entries <==> Touched(w.log, p))
    && (forall p :: p in w.journal.entries ==> w.journal.entries[p].after == Latest(w.log, p))
  }

  /** While operations run, the journal also keeps the state in which it first found every file. */
  ghost predicate Remembers(w: World) {
    Tracks(w) && forall p :: p in w.journal.entries ==> w.journal.entries[p].before == First(w.log, p)
  }

  const Fresh := Journal([], map[])

  lemma AppendSeen(log: seq<Seen>, s: Seen)
    ensures forall p :: Touched(log + [s], p) <==> Touched(log, p) || p == s.path
    ensures forall p :: Latest(log + [s], p) == if p == s.path then s.to else Latest(log, p)
    ensures forall p :: First(log + [s], p)
              == if Touched(log, p) then First(log, p) else if p == s.path then s.from else Missing
    ensures Unbroken(log) && (Touched(log, s.path) ==> s.from == Latest(log, s.path)) ==> Unbroken(log + [s])
  {
    assert (log + [s])[..|log|] == log;
    forall p ensures Touched(log + [s], p) <==> Touched(log, p) || p == s.path {
      if Touched(log, p) {
        var i :| 0 <= i < |log| && log[i].path == p;
        assert (log + [s])[i].path == p;
      }
      if p == s.path { assert (log + [s])[|log|].path == p; }
    }
    forall p ensures First(log + [s], p)
              == if Touched(log, p) then First(log, p) else if p == s.path then s.from else Missing {
      FirstOfAppend(log, s, p);
    }
    forall i | 0 <= i < |log| ensures (log + [s])[..i] == log[..i] && (log + [s])[i] == log[i] {
    }
  }

  lemma {:induction false} FirstOfAppend(log: seq<Seen>, s: Seen, p: Path)
    ensures First(log + [s], p)
         == if Touched(log, p) then First(log, p) else if p == s.path then s.from else Missing
  {
    if log != [] {
      FirstOfAppend(log[1..], s, p);
      assert (log + [s])[1..] == log[1..] + [s];
      if Touched(log, p) && log[0].path != p {
        var i :| 0 <= i < |log| && log[i].path == p;
        assert log[1..][i - 1].path == p;
      }
      if Touched(log[1..], p) {
        var i :| 0 <= i < |log[1..]| && log[1..][i].path == p;
        assert log[i + 1].path == p;
      }
      if log[0].path == p { assert Touched(log, p); }
    }
  }

  lemma SetEntryKeepsOrder(journal: Journal, path: Path, entry: Entry)
    requires WellOrdered(journal)
    ensures WellOrdered(SetEntry(journal, path, entry))
  {
  }

  /** Recording an action that found its file as last known keeps the journal in step with the log. */
  lemma RecordSeen(w: World, disk: Disk, s: Seen, entry: Entry)
    requires Tracks(w) && entry.after == s.to
    requires s.path in w.journal.entries ==> s.from == w.journal.entries[s.path].after
    ensures var w' := World(disk, SetEntry(w.journal, s.path, entry), w.log + [s]);
            && Tracks(w')
            && (Remembers(w) && entry.before ==
                  (if s.path in w.journal.entries then w.journal.entries[s.path].before else s.from)
                ==> Remembers(w'))
  {
    hide First, Latest, Touched, Unbroken, WellOrdered;
    AppendSeen(w.log, s);
    SetEntryKeepsOrder(w.journal, s.path, entry);
  }

  lemma ObserveRemembers(w: World, path: Path)
    requires Remembers(w)
    ensures Remembers(ObserveFile(w, path).0)
  {
    var current := At(w.disk, path);
    var entry := if path in w.journal.entries then w.journal.entries[path] else Entry(current, current);
    if path in w.journal.entries { assert SetEntry(w.journal, path, entry) == w.journal; }
    if Known(w.journal, path, current) {
      RecordSeen(w, w.disk, Seen(path, current, current), entry);
    }
  }

  /** What is remembered does not depend on the disk, which others edit. */
  lemma RemembersOnAnyDisk(w: World, disk: Disk)
    requires Remembers(w)
    ensures Remembers(w.(disk := disk))
  {
  }

  lemma SwapRemembers(w: World, path: Path, disk: Disk, current: FileState, before: FileState, next: FileState)
    requires Remembers(w) && Known(w.journal, path, current)
    requires before == if path in w.journal.entries then w.journal.entries[path].before else current
    ensures Remembers(World(disk, SetEntry(w.journal, path, Entry(before, next)),
                            w.log + [Seen(path, current, next)]))
  {
    RecordSeen(w, disk, Seen(path, current, next), Entry(before, next));
  }

  lemma ReplaceRemembers(
    w: World, path: Path, next: FileState, expected: FileState, exclusive: bool, a: Awaits)
    requires Remembers(w)
    ensures Remembers(ReplaceFile(w, path, next, expected, exclusive, a).0)
  {
    hide Remembers;
    var current := At(w.disk, path);
    var before := if path in w.journal.entries then w.journal.entries[path].before else current;
    RemembersOnAnyDisk(w, w.disk + a.edits + a.late);
    if Known(w.journal, path, current) {
      SwapRemembers(w, path, (w.disk + a.edits)[path := next] + a.late, current, before, next);
    }
  }

  lemma PerformRemembers(w: World, step: Step)
    requires Remembers(w)
    ensures Remembers(Perform(w, step))
  {
    var edited := w.(disk := w.disk + step.edits);
    assert Remembers(edited);
    hide ObserveFile, ReplaceFile, Remembers;
    match step.op
    case Observe(path) =>
      ObserveRemembers(edited, path);
    case Replace(path, next, expected, exclusive, awaits) =>
      ReplaceRemembers(edited, path, next, expected, exclusive, awaits);
  }

  /** Over every sequence of operations and outside edits, the journal holds the ends of an unbroken log. */
  lemma {:induction false} JournalRemembers(disk: Disk, steps: seq<Step>)
    ensures Remembers(Run(World(disk, Fresh, []), steps))
  {
    if steps != [] {
      JournalRemembers(disk, steps[..|steps| - 1]);
      PerformRemembers(Run(World(disk, Fresh, []), steps[..|steps| - 1]), steps[|steps| - 1]);
    }
  }

  // ---------------------------------------------------------------- when an operation goes through

  /** Nobody but this transaction has changed the file since its last action on it. */
  predicate Unedited(w: World, disk: Disk, path: Path) {
    Touched(w.log, path) ==> At(disk, path) == Latest(w.log, path)
  }

  /** The replacement may go ahead: the file shows what the caller expects, and no edit would be lost. */
  predicate MayReplace(w: World, disk: Disk, path: Path, expected: FileState, exclusive: bool) {
    At(disk, path) == expected && Unedited(w, disk, path) && !(exclusive && expected.Present?)
  }

  /** No call before the swap rejects and the file still shows what the caller expects when the awaits are over. */
  predicate Swaps(disk: Disk, path: Path, expected: FileState, a: Awaits) {
    !a.early && !a.last && At(disk + a.edits, path) == expected
  }

  /** The replacement of an unedited file that shows what the caller expects and needs a change. */
  lemma CommitExactly(w: World, path: Path, next: FileState, expected: FileState, entry: Entry, a: Awaits)
    ensures var (end, ok) := CommitFile(w, path, next, expected, entry, a);
            var swapped := Swaps(w.disk, path, expected, a);
            && (ok <==> swapped && !a.sweep)
            && end.log == (if swapped then w.log + [Seen(path, expected, next)] else w.log)
            && forall p :: At(end.disk, p) ==
                 if p in a.late then a.late[p] else if p == path && swapped then next else At(w.disk + a.edits, p)
  {
  }

  lemma KnownIsUnedited(w: World, disk: Disk, path: Path)
    requires Tracks(w)
    ensures Known(w.journal, path, At(disk, path)) <==> Unedited(w, disk, path)
  {
  }

  /** After any run an observation goes through exactly when the file is unedited, and changes nothing. */
  lemma ObservationExactly(disk: Disk, steps: seq<Step>, edits: Disk, path: Path)
    ensures var w := Run(World(disk, Fresh, []), steps);
            var now := w.disk + edits;
            var (seen, found) := ObserveFile(w.(disk := now), path);
            && (found <==> Unedited(w, now, path)) && seen.disk == now
            && seen.log == (if found then w.log + [Seen(path, At(now, path), At(now, path))] else w.log)
  {
    JournalRemembers(disk, steps);
    var w := Run(World(disk, Fresh, []), steps);
    KnownIsUnedited(w, w.disk + edits, path);
    hide Run, Remembers, Unedited, Known, At;
  }

  /** How a replacement goes that begins on this disk, told by the log alone. */
  ghost predicate ReplacedExactly(
    w: World, now: Disk, path: Path, next: FileState, expected: FileState, exclusive: bool, a: Awaits,
    end: World, ok: bool)
  {
    var starts := MayReplace(w, now, path, expected, exclusive) && expected != next;
    var swapped := starts && Swaps(now, path, expected, a);
    && (ok <==> MayReplace(w, now, path, expected, exclusive) && (expected == next || (swapped && !a.sweep)))
    && end.log == (if swapped then w.log + [Seen(path, expected, next)] else w.log)
    && forall p :: At(end.disk, p) ==
         if !starts then At(now, p)
         else if p in a.late then a.late[p]
         else if p == path && swapped then next
         else At(now + a.edits, p)
  }

  lemma ReplaceByLog(
    w: World, now: Disk, path: Path, next: FileState, expected: FileState, exclusive: bool, a: Awaits)
    requires Known(w.journal, path, At(now, path)) <==> Unedited(w, now, path)
    ensures var (end, ok) := ReplaceFile(w.(disk := now), path, next, expected, exclusive, a);
            ReplacedExactly(w, now, path, next, expected, exclusive, a, end, ok)
  {
    var before := if path in w.journal.entries then w.journal.entries[path].before else expected;
    CommitExactly(w.(disk := now), path, next, expected, Entry(before, next), a);
    hide Unedited, Known, At, CommitFile, Swaps;
  }

  /**
    After any run, told by its log alone: a replacement goes through exactly when it may go ahead and the
    file needs no change, or is swapped and the sweep succeeds. Only a swap acts, on this file alone, and it
    leaves exactly the state asked for; everything else on the disk is what others wrote.
  */
  lemma ReplacementExactly(
    disk: Disk, steps: seq<Step>, edits: Disk, path: Path, next: FileState, expected: FileState, exclusive: bool,
    a: Awaits)
    ensures var w := Run(World(disk, Fresh, []), steps);
            var now := w.disk + edits;
            var (end, ok) := ReplaceFile(w.(disk := now), path, next, expected, exclusive, a);
            ReplacedExactly(w, now, path, next, expected, exclusive, a, end, ok)
  {
    JournalRemembers(disk, steps);
    var w := Run(World(disk, Fresh, []), steps);
    hide Run, Remembers, Unedited, Known, At, ReplacedExactly, ReplaceFile;
    KnownIsUnedited(w, w.disk + edits, path);
    ReplaceByLog(w, w.disk + edits, path, next, expected, exclusive, a);
  }

  /** One file's turn in the rollback leaves every other entry alone. */
  ghost predicate TurnTaken(w: World, path: Path, next: World, ok: bool)
    requires path in w.journal.entries
  {
    && Tracks(next)
    && next.journal.order == w.journal.order
    && next.journal.entries.Keys == w.journal.entries.Keys
    && next.journal.entries[path].before == w.journal.entries[path].before
    && (ok ==> next.journal.entries[path].after == w.journal.entries[path].before)
    && (forall p :: p in w.journal.entries && p != path ==>
          next.journal.entries[p] == w.journal.entries[p])
  }

  lemma TurnWithoutAction(w: World, path: Path, disk: Disk, ok: bool)
    requires Tracks(w) && path in w.journal.entries
    requires ok ==> w.journal.entries[path].after == w.journal.entries[path].before
    ensures TurnTaken(w, path, w.(disk := disk), ok)
  {
  }

  lemma TurnWithAction(w: World, path: Path, disk: Disk, ok: bool)
    requires Tracks(w) && path in w.journal.entries
    ensures var entry := w.journal.entries[path];
            TurnTaken(w, path, World(disk, SetEntry(w.journal, path, Entry(entry.before, entry.before)),
                                     w.log + [Seen(path, entry.after, entry.before)]), ok)
  {
    var entry := w.journal.entries[path];
    RecordSeen(w, disk, Seen(path, entry.after, entry.before), Entry(entry.before, entry.before));
    WellOrderedMembers(w);
    hide Tracks;
  }

  lemma RollbackFileTracks(w: World, path: Path, a: Awaits)
    requires Tracks(w) && path in w.journal.entries
    ensures var (next, ok) := RollbackFile(w, path, a);
            TurnTaken(w, path, next, ok)
  {
    var (next, ok) := RollbackFile(w, path, a);
    var disk := w.disk + a.edits;
    hide Tracks, TurnTaken;
    if w.journal.entries[path].before == w.journal.entries[path].after {
      TurnWithoutAction(w, path, w.disk, ok);
    } else if next.log == w.log {
      TurnWithoutAction(w, path, next.disk, ok);
    } else {
      TurnWithAction(w, path, disk[path := w.journal.entries[path].before] + a.late, ok);
    }
  }

  /** What a rollback of order[..k] has done, whatever rejected and whoever edited meanwhile. */
  ghost predicate Unwound(w: World, order: seq<Path>, k: nat, result: (World, set<Path>)) {
    && k <= |order|
    && (forall i :: 0 <= i < |order| ==> order[i] in w.journal.entries)
    && Tracks(result.0)
    && result.0.journal.order == order
    && (forall i :: 0 <= i < k && order[i] !in result.1 ==>
          Latest(result.0.log, order[i]) == w.journal.entries[order[i]].before)
    && (forall i :: k <= i < |order| ==>
          order[i] in result.0.journal.entries
          && result.0.journal.entries[order[i]] == w.journal.entries[order[i]])
  }

  lemma LatestIsAfter(w: World, path: Path)
    requires Tracks(w) && path in w.journal.entries
    ensures Latest(w.log, path) == w.journal.entries[path].after
  {
  }

  lemma TurnKeepsOthers(w: World, order: seq<Path>, k: nat, next: World, ok: bool)
    requires k < |order| && WellOrdered(w.journal) && order == w.journal.order
    requires order[k] in w.journal.entries && TurnTaken(w, order[k], next, ok)
    ensures forall i :: 0 <= i < |order| && i != k ==>
              order[i] in w.journal.entries && order[i] in next.journal.entries
              && next.journal.entries[order[i]] == w.journal.entries[order[i]]
  {
    forall i | 0 <= i < |order| && i != k ensures order[i] in w.journal.entries && order[i] != order[k] {
      assert order[i] in order;
    }
  }

  lemma UnwoundNext(
    w: World, order: seq<Path>, k': nat, next: World, ok: bool,
    result: (World, set<Path>), whole: (World, set<Path>))
    requires 0 < k' <= |order| && WellOrdered(w.journal) && order == w.journal.order
    requires order[k' - 1] in w.journal.entries && TurnTaken(w, order[k' - 1], next, ok)
    requires Unwound(next, order, k' - 1, result)
    requires whole == (result.0, if ok then result.1 else result.1 + {order[k' - 1]})
    ensures Unwound(w, order, k', whole)
  {
    var k := k' - 1;
    LatestIsAfter(result.0, order[k]);
    TurnKeepsOthers(w, order, k, next, ok);
    hide Latest, First, Touched, Unbroken, Tracks, WellOrdered;
    forall i | 0 <= i < k + 1 && order[i] !in whole.1
      ensures Latest(result.0.log, order[i]) == w.journal.entries[order[i]].before
    {
      if i < k { assert order[i] !in result.1; }
    }
  }

  /** The rollback of order[..k] unwinds as it should. */
  ghost predicate Unwinds(w: World, order: seq<Path>, awaits: seq<Awaits>, k: nat)
    requires k <= |order| <= |awaits|
  {
    Unwound(w, order, k, RollbackFrom(w, order, awaits, k))
  }

  lemma UnwindsNext(w: World, order: seq<Path>, awaits: seq<Awaits>, k: nat)
    requires 0 < k <= |order| <= |awaits| && Tracks(w) && order == w.journal.order
    requires Unwinds(RollbackFile(w, order[k - 1], awaits[k - 1]).0, order, awaits, k - 1)
    ensures Unwinds(w, order, awaits, k)
  {
    var (next, ok) := RollbackFile(w, order[k - 1], awaits[k - 1]);
    var rest := RollbackFrom(next, order, awaits, k - 1);
    var whole := RollbackFrom(w, order, awaits, k);
    RollbackFromNext(w, order, awaits, k);
    WellOrderedMembers(w);
    RollbackFileTracks(w, order[k - 1], awaits[k - 1]);
    hide RollbackFile, RollbackFrom, Unwound, TurnTaken, Tracks, WellOrdered;
    UnwoundNext(w, order, k, next, ok, rest, whole);
  }

  /**
    A rollback in which anything may reject and users may edit at every await: its own writes
    extend the unbroken log, and every file it does not report was last left in its first state.
  */
  lemma {:induction false} RollbackTracks(w: World, order: seq<Path>, awaits: seq<Awaits>, k: nat)
    requires Tracks(w) && order == w.journal.order && k <= |order| <= |awaits|
    ensures Unwinds(w, order, awaits, k)
    decreases k
  {
    hide *;
    if k == 0 {
      UnwoundNothing(w, order, awaits);
    } else {
      var path := order[k - 1];
      var (next, ok) := RollbackFile(w, path, awaits[k - 1]);
      WellOrderedMembers(w);
      RollbackFileTracks(w, path, awaits[k - 1]);
      TurnKeepsOrder(w, path, next, ok);
      RollbackTracks(next, order, awaits, k - 1);
      UnwindsNext(w, order, awaits, k);
    }
  }

  lemma WellOrderedMembers(w: World)
    requires Tracks(w)
    ensures WellOrdered(w.journal) && forall p :: p in w.journal.order ==> p in w.journal.entries
  {
  }

  lemma TurnKeepsOrder(w: World, path: Path, next: World, ok: bool)
    requires path in w.journal.entries && TurnTaken(w, path, next, ok)
    ensures Tracks(next) && next.journal.order == w.journal.order
  {
  }

  lemma UnwoundNothing(w: World, order: seq<Path>, awaits: seq<Awaits>)
    requires Tracks(w) && order == w.journal.order && |order| <= |awaits|
    ensures Unwinds(w, order, awaits, 0)
  {
  }

  /** No run ever acts on a state it has not seen, not even while it is undoing itself. */
  lemma NeverActsOnUnknownState(disk: Disk, steps: seq<Step>, awaits: seq<Awaits>)
    requires |Run(World(disk, Fresh, []), steps).journal.order| <= |awaits|
    ensures var w := Run(World(disk, Fresh, []), steps);
            Remembers(w) && Unbroken(Rollback(w, awaits).0.log)
    ensures var w := Run(World(disk, Fresh, []), steps);
            var (end, failed) := Rollback(w, awaits);
            forall p :: p in w.journal.entries && p !in failed ==> Latest(end.log, p) == First(w.log, p)
  {
    JournalRemembers(disk, steps);
    var w := Run(World(disk, Fresh, []), steps);
    RollbackTracks(w, w.journal.order, awaits, |w.journal.order|);
    forall p | p in w.journal.entries && p !in Rollback(w, awaits).1
      ensures Latest(Rollback(w, awaits).0.log, p) == First(w.log, p)
    {
      var i :| 0 <= i < |w.journal.order| && w.journal.order[i] == p;
    }
  }

  // ---------------------------------------------------------------- what a rollback restores

  predicate Quiet(a: Awaits) {
    !a.early && a.edits == map[] && !a.last && !a.sweep && a.late == map[]
  }

  /** What a rollback without further trouble leaves at p. */
  ghost function Restored(w: World, p: Path): FileState {
    if p in w.journal.entries && At(w.disk, p) == w.journal.entries[p].after
    then w.journal.entries[p].before
    else At(w.disk, p)
  }

  ghost predicate Conflicting(w: World, p: Path) {
    && p in w.journal.entries
    && w.journal.entries[p].before != w.journal.entries[p].after
    && At(w.disk, p) != w.journal.entries[p].after
  }

  /** What a quiet rollback of order[..k] leaves and reports, file by file. */
  ghost predicate PutBack(w: World, order: seq<Path>, k: nat, result: (World, set<Path>)) {
    k <= |order| &&
    forall p ::
      && At(result.0.disk, p) == (if p in order[..k] then Restored(w, p) else At(w.disk, p))
      && (p in result.1 <==> p in order[..k] && Conflicting(w, p))
  }

  lemma QuietTurn(w: World, path: Path, a: Awaits)
    requires Quiet(a) && WellOrdered(w.journal)
    ensures var (next, ok) := RollbackFile(w, path, a);
            && WellOrdered(next.journal) && next.journal.order == w.journal.order
            && At(next.disk, path) == Restored(w, path)
            && (ok <==> !Conflicting(w, path))
            && forall p :: p != path ==>
                 && At(next.disk, p) == At(w.disk, p)
                 && Restored(next, p) == Restored(w, p) && (Conflicting(next, p) <==> Conflicting(w, p))
  {
    assert w.disk + map[] == w.disk;
    if path in w.journal.entries {
      var disk := w.disk[path := w.journal.entries[path].before];
      assert disk + map[] == disk;
    }
  }

  lemma PutBackNext(
    w: World, order: seq<Path>, k: nat, a: Awaits, next: World, ok: bool, result: (World, set<Path>))
    requires WellOrdered(w.journal) && order == w.journal.order && k < |order| && Quiet(a)
    requires (next, ok) == RollbackFile(w, order[k], a) && PutBack(next, order, k, result)
    ensures PutBack(w, order, k + 1, (result.0, if ok then result.1 else result.1 + {order[k]}))
  {
    var path := order[k];
    QuietTurn(w, path, a);
    assert order[..k + 1] == order[..k] + [path];
    assert path !in order[..k];
    hide RollbackFile, Restored, Conflicting, At, Quiet, WellOrdered;
  }

  /** The rollback of order[..k] puts back as it should. */
  ghost predicate PutsBack(w: World, order: seq<Path>, awaits: seq<Awaits>, k: nat)
    requires k <= |order| <= |awaits|
  {
    PutBack(w, order, k, RollbackFrom(w, order, awaits, k))
  }

  lemma PutsBackNext(w: World, order: seq<Path>, awaits: seq<Awaits>, k: nat)
    requires WellOrdered(w.journal) && order == w.journal.order && 0 < k <= |order| <= |awaits|
    requires Quiet(awaits[k - 1])
    requires PutsBack(RollbackFile(w, order[k - 1], awaits[k - 1]).0, order, awaits, k - 1)
    ensures PutsBack(w, order, awaits, k)
  {
    var (next, ok) := RollbackFile(w, order[k - 1], awaits[k - 1]);
    var rest := RollbackFrom(next, order, awaits, k - 1);
    RollbackFromNext(w, order, awaits, k);
    hide RollbackFile, PutBack, WellOrdered, Quiet;
    PutBackNext(w, order, k - 1, awaits[k - 1], next, ok, rest);
  }

  lemma {:induction false} QuietRollback(w: World, order: seq<Path>, awaits: seq<Awaits>, k: nat)
    requires WellOrdered(w.journal) && order == w.journal.order && k <= |order| <= |awaits|
    requires forall i :: 0 <= i < k ==> Quiet(awaits[i])
    ensures PutsBack(w, order, awaits, k)
    decreases k
  {
    if k > 0 {
      hide RollbackFile, PutsBack, WellOrdered, Quiet;
      QuietTurn(w, order[k - 1], awaits[k - 1]);
      QuietRollback(RollbackFile(w, order[k - 1], awaits[k - 1]).0, order, awaits, k - 1);
      PutsBackNext(w, order, awaits, k);
    }
  }

  /**
    After any operations with any outside edits in between, a rollback that meets no new trouble
    puts back exactly the files still in their last known state, and reports exactly the files
    that it changed and that have been edited since.
  */
  lemma RollbackSparesEdits(disk: Disk, steps: seq<Step>, awaits: seq<Awaits>)
    requires |Run(World(disk, Fresh, []), steps).journal.order| <= |awaits|
    requires forall i :: 0 <= i < |awaits| ==> Quiet(awaits[i])
    ensures var w := Run(World(disk, Fresh, []), steps);
            var (end, failed) := Rollback(w, awaits);
            forall p ::
              && At(end.disk, p) == (if Touched(w.log, p) && At(w.disk, p) == Latest(w.log, p)
                                     then First(w.log, p) else At(w.disk, p))
              && (p in failed <==>
                    Touched(w.log, p) && First(w.log, p) != Latest(w.log, p)
                    && At(w.disk, p) != Latest(w.log, p))
  {
    JournalRemembers(disk, steps);
    var w := Run(World(disk, Fresh, []), steps);
    var order := w.journal.order;
    QuietRollback(w, order, awaits, |order|);
    assert order[..|order|] == order;
    assert forall p :: p in order <==> p in w.journal.entries;
  }

  predicate Undisturbed(step: Step) {
    step.edits == map[] && (step.op.Replace? ==> step.op.awaits.edits == map[] && step.op.awaits.late == map[])
  }

  /** Without outside writers the disk is always the original one with the journal's changes. */
  ghost predicate Accounts(disk: Disk, w: World) {
    && WellOrdered(w.journal)
    && forall p :: if p in w.journal.entries
                   then At(w.disk, p) == w.journal.entries[p].after && At(disk, p) == w.journal.entries[p].before
                   else At(w.disk, p) == At(disk, p)
  }

  lemma ObserveAccounts(disk: Disk, w: World, path: Path)
    requires Accounts(disk, w)
    ensures Accounts(disk, ObserveFile(w, path).0)
  {
  }

  lemma ReplaceAccounts(
    disk: Disk, w: World, path: Path, next: FileState, expected: FileState, exclusive: bool, a: Awaits)
    requires Accounts(disk, w) && a.edits == map[] && a.late == map[]
    ensures Accounts(disk, ReplaceFile(w, path, next, expected, exclusive, a).0)
  {
    assert w.disk + map[] == w.disk;
    assert w.(disk := w.disk) == w;
    assert w.disk[path := next] + map[] == w.disk[path := next];
    var current := At(w.disk, path);
    if Known(w.journal, path, current) {
      var before := if path in w.journal.entries then w.journal.entries[path].before else current;
      SwapAccounts(disk, w, path, next, Entry(before, next), w.log + [Seen(path, current, next)]);
    }
    hide Accounts;
  }

  lemma SwapAccounts(disk: Disk, w: World, path: Path, next: FileState, entry: Entry, log: seq<Seen>)
    requires Accounts(disk, w) && entry.after == next && At(disk, path) == entry.before
    ensures Accounts(disk, World(w.disk[path := next], SetEntry(w.journal, path, entry), log))
  {
    var w' := World(w.disk[path := next], SetEntry(w.journal, path, entry), log);
    SetEntryKeepsOrder(w.journal, path, entry);
    assert forall p :: At(w'.disk, p) == if p == path then next else At(w.disk, p);
    hide WellOrdered, At;
  }

  lemma PerformAccounts(disk: Disk, w: World, step: Step)
    requires Accounts(disk, w) && Undisturbed(step)
    ensures Accounts(disk, Perform(w, step))
  {
    assert w.disk + map[] == w.disk;
    assert w.(disk := w.disk) == w;
    hide ObserveFile, ReplaceFile, Accounts;
    match step.op
    case Observe(path) =>
      ObserveAccounts(disk, w, path);
    case Replace(path, next, expected, exclusive, awaits) =>
      ReplaceAccounts(disk, w, path, next, expected, exclusive, awaits);
  }

  lemma {:induction false} RunAccounts(disk: Disk, steps: seq<Step>)
    requires forall i :: 0 <= i < |steps| ==> Undisturbed(steps[i])
    ensures Accounts(disk, Run(World(disk, Fresh, []), steps))
  {
    if steps != [] {
      RunAccounts(disk, steps[..|steps| - 1]);
      PerformAccounts(disk, Run(World(disk, Fresh, []), steps[..|steps| - 1]), steps[|steps| - 1]);
    }
  }

  /** Alone on the disk, a transaction rolls back to exactly where it began, whatever failed before. */
  lemma RollbackRestoresEverything(disk: Disk, steps: seq<Step>, awaits: seq<Awaits>)
    requires forall i :: 0 <= i < |steps| ==> Undisturbed(steps[i])
    requires |Run(World(disk, Fresh, []), steps).journal.order| <= |awaits|
    requires forall i :: 0 <= i < |awaits| ==> Quiet(awaits[i])
    ensures var w := Run(World(disk, Fresh, []), steps);
            var (end, failed) := Rollback(w, awaits);
            Same(end.disk, disk) && failed == {}
  {
    var w := Run(World(disk, Fresh, []), steps);
    RunAccounts(disk, steps);
    QuietRollback(w, w.journal.order, awaits, |w.journal.order|);
    assert w.journal.order[..|w.journal.order|] == w.journal.order;
    assert forall p :: p in w.journal.order <==> p in w.journal.entries;
  }
}
