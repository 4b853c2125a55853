/**
  The rollback of the installer transaction under trouble (src/installer/transaction.ts): any call may
  reject and users may edit any file at every await. For each file this says exactly whether it is put
  back, whether it is reported, and what is in the end there.

  A turn awaits, before and after its swap, only when its file was changed and is still in its last known
  state, so an edit during the turn of one file can decide whether the turn of another awaits at all.
*/
module InstallerRollback {
  import opened InstallerTransaction

  /** The turn of this file gets as far as its awaits. */
  predicate Awaiting(w: World, path: Path, disk: Disk) {
    && path in w.journal.entries
    && w.journal.entries[path].before != w.journal.entries[path].after
    && At(disk, path) == w.journal.entries[path].after
  }

  /** The outside edits during the turns hi - 1 down to lo of a rollback that begins in w. */
  function EditsIn(w: World, awaits: seq<Awaits>, lo: nat, hi: nat): Disk
    requires lo <= hi <= |w.journal.order| <= |awaits|
    decreases |w.journal.order| - lo, hi - lo
  {
    if lo == hi then map[] else EditsIn(w, awaits, lo + 1, hi) + EditsOf(w, awaits, lo)
  }

  function EditsOf(w: World, awaits: seq<Awaits>, i: nat): Disk
    requires i < |w.journal.order| <= |awaits|
    decreases |w.journal.order| - i, 0
  {
    if Awaiting(w, w.journal.order[i], DiskBefore(w, awaits, i)) then awaits[i].edits + awaits[i].late else map[]
  }

  /** What outside edits have made of the disk when turn i begins. */
  function DiskBefore(w: World, awaits: seq<Awaits>, i: nat): Disk
    requires i < |w.journal.order| <= |awaits|
    decreases |w.journal.order| - i - 1, |w.journal.order| + 1
  {
    w.disk + EditsIn(w, awaits, i + 1, |w.journal.order|)
  }

  /** The i-th file is put back: still as last known around the awaits before its swap, which let it through. */
  predicate PutsBackAt(w: World, awaits: seq<Awaits>, i: nat)
    requires i < |w.journal.order| <= |awaits|
  {
    var disk := DiskBefore(w, awaits, i);
    && Awaiting(w, w.journal.order[i], disk) && Awaiting(w, w.journal.order[i], disk + awaits[i].edits)
    && !awaits[i].early && !awaits[i].last
  }

  /** The i-th file is reported: it was changed, and not put back or its sweep rejected. */
  predicate ReportedAt(w: World, awaits: seq<Awaits>, i: nat)
    requires i < |w.journal.order| <= |awaits|
  {
    var path := w.journal.order[i];
    && path in w.journal.entries && w.journal.entries[path].before != w.journal.entries[path].after
    && !(PutsBackAt(w, awaits, i) && !awaits[i].sweep)
  }

  /** What the turn of the i-th file leaves there after putting it back: an edit during its sweep comes last. */
  function PutBackAt(w: World, awaits: seq<Awaits>, i: nat): FileState
    requires i < |w.journal.order| <= |awaits| && w.journal.order[i] in w.journal.entries
  {
    var path := w.journal.order[i];
    if path in awaits[i].late then awaits[i].late[path] else w.journal.entries[path].before
  }

  /** What is in the end at the i-th file: later turns may bring another edit of it. */
  function FinalAt(w: World, awaits: seq<Awaits>, i: nat): FileState
    requires i < |w.journal.order| <= |awaits| && w.journal.order[i] in w.journal.entries
  {
    var path := w.journal.order[i];
    var later := EditsIn(w, awaits, 0, i);
    if !PutsBackAt(w, awaits, i) then At(w.disk + EditsIn(w, awaits, 0, |w.journal.order|), path)
    else if path in later then later[path]
    else PutBackAt(w, awaits, i)
  }

  // ---------------------------------------------------------------- the proof

  lemma Associates(a: Disk, b: Disk, c: Disk)
    ensures (a + b) + c == a + (b + c)
  {
  }

  lemma {:induction false} EditsSplit(w: World, awaits: seq<Awaits>, lo: nat, mid: nat, hi: nat)
    requires lo <= mid <= hi <= |w.journal.order| <= |awaits|
    ensures EditsIn(w, awaits, lo, hi) == EditsIn(w, awaits, mid, hi) + EditsIn(w, awaits, lo, mid)
    decreases mid - lo
  {
    if lo < mid {
      EditsSplit(w, awaits, lo + 1, mid, hi);
      var high, low, one := EditsIn(w, awaits, mid, hi), EditsIn(w, awaits, lo + 1, mid), EditsOf(w, awaits, lo);
      assert EditsIn(w, awaits, lo, hi) == EditsIn(w, awaits, lo + 1, hi) + one;
      assert EditsIn(w, awaits, lo, mid) == low + one;
      Associates(high, low, one);
    }
  }

  lemma AtPlus(disk: Disk, edits: Disk, path: Path)
    ensures At(disk + edits, path) == if path in edits then edits[path] else At(disk, path)
  {
  }

  /** The turns below k are still to come, and nothing but outside edits has touched their files. */
  ghost predicate Halfway(w: World, awaits: seq<Awaits>, now: World, k: nat) {
    var order := w.journal.order;
    && k <= |order| <= |awaits| && now.journal.order == order
    && now.journal.entries.Keys == w.journal.entries.Keys
    && (forall i :: 0 <= i < k ==> order[i] in w.journal.entries
                                   && now.journal.entries[order[i]] == w.journal.entries[order[i]])
    && forall p :: p !in order[k..] ==> At(now.disk, p) == At(w.disk + EditsIn(w, awaits, k, |order|), p)
  }

  /** The i-th file is reported and ends as it should. */
  ghost predicate Settles(w: World, awaits: seq<Awaits>, i: nat, end: Disk, failed: set<Path>)
    requires i < |w.journal.order| <= |awaits|
  {
    var path := w.journal.order[i];
    && path in w.journal.entries
    && (path in failed <==> ReportedAt(w, awaits, i))
    && At(end, path) == FinalAt(w, awaits, i)
  }

  /** The turn of p is below k. */
  predicate Below(order: seq<Path>, k: nat, p: Path)
    requires k <= |order|
  {
    p in order[..k]
  }

  /** What the turns below k do, seen from the world in which they begin. */
  ghost predicate Finishes(w: World, awaits: seq<Awaits>, now: World, k: nat, result: (World, set<Path>)) {
    var order := w.journal.order;
    && k <= |order| <= |awaits|
    && (forall p :: p in result.1 ==> Below(order, k, p))
    && (forall i :: 0 <= i < k ==> Settles(w, awaits, i, result.0.disk, result.1))
    && forall p :: !Below(order, k, p) ==> At(result.0.disk, p) == At(now.disk + EditsIn(w, awaits, 0, k), p)
  }

  lemma OrderParts(order: seq<Path>, k: nat)
    requires 0 < k <= |order| && forall i, j :: 0 <= i < j < |order| ==> order[i] != order[j]
    ensures order[k - 1] !in order[k..] && !Below(order, k - 1, order[k - 1])
    ensures forall p :: Below(order, k, p) <==> Below(order, k - 1, p) || p == order[k - 1]
    ensures forall p :: p in order[k - 1..] <==> p in order[k..] || p == order[k - 1]
  {
    assert order[..k] == order[..k - 1] + [order[k - 1]];
    assert order[k - 1..] == [order[k - 1]] + order[k..];
  }

  /** What the turn of the file does to the disk. */
  lemma TurnDisk(w: World, awaits: seq<Awaits>, now: World, k: nat)
    requires WellOrdered(w.journal) && Halfway(w, awaits, now, k) && 0 < k
    ensures var path := w.journal.order[k - 1];
            var (next, ok) := RollbackFile(now, path, awaits[k - 1]);
            && (!ok <==> ReportedAt(w, awaits, k - 1))
            && (forall p :: At(next.disk, p) ==
                  if p == path && PutsBackAt(w, awaits, k - 1) then PutBackAt(w, awaits, k - 1)
                  else At(now.disk + EditsOf(w, awaits, k - 1), p))
  {
    var order, a := w.journal.order, awaits[k - 1];
    var path := order[k - 1];
    OrderParts(order, k);
    var disk := DiskBefore(w, awaits, k - 1);
    assert At(now.disk, path) == At(disk, path);
    AtPlus(now.disk, a.edits, path);
    AtPlus(disk, a.edits, path);
    assert At(now.disk + a.edits, path) == At(disk + a.edits, path);
    Associates(now.disk, a.edits, a.late);
    assert now.disk + map[] == now.disk;
  }

  lemma TurnJournal(now: World, path: Path, a: Awaits)
    requires path in now.journal.entries
    ensures var (next, _) := RollbackFile(now, path, a);
            && next.journal.order == now.journal.order && next.journal.entries.Keys == now.journal.entries.Keys
            && forall p :: p in now.journal.entries && p != path ==>
                 next.journal.entries[p] == now.journal.entries[p]
  {
  }

  lemma TurnGoesOn(w: World, awaits: seq<Awaits>, now: World, k: nat)
    requires WellOrdered(w.journal) && Halfway(w, awaits, now, k) && 0 < k
    ensures Halfway(w, awaits, RollbackFile(now, w.journal.order[k - 1], awaits[k - 1]).0, k - 1)
  {
    var order := w.journal.order;
    var path, edits := order[k - 1], EditsOf(w, awaits, k - 1);
    var before := EditsIn(w, awaits, k, |order|);
    OrderParts(order, k);
    TurnDisk(w, awaits, now, k);
    TurnJournal(now, path, awaits[k - 1]);
    var next := RollbackFile(now, path, awaits[k - 1]).0;
    assert EditsIn(w, awaits, k - 1, |order|) == before + edits;
    hide RollbackFile, EditsIn, EditsOf, PutsBackAt, ReportedAt;
    forall p | p !in order[k - 1..] ensures At(next.disk, p) == At(w.disk + (before + edits), p) {
      AtPlus(now.disk, edits, p);
      AtPlus(w.disk, before, p);
      AtPlus(w.disk, before + edits, p);
    }
  }

  /** The edits of turn k - 1 come before those of the turns below it. */
  lemma EditsFrom(w: World, awaits: seq<Awaits>, k: nat)
    requires 0 < k <= |w.journal.order| <= |awaits|
    ensures EditsIn(w, awaits, 0, k) == EditsOf(w, awaits, k - 1) + EditsIn(w, awaits, 0, k - 1)
  {
    EditsSplit(w, awaits, 0, k - 1, k);
    assert EditsIn(w, awaits, k, k) == map[];
    assert EditsIn(w, awaits, k - 1, k) == EditsOf(w, awaits, k - 1);
  }

  /** In the end the file of this turn shows what was put back or the last outside edit. */
  lemma TurnIsFinal(w: World, awaits: seq<Awaits>, now: World, k: nat, next: World, ok: bool, end: Disk)
    requires WellOrdered(w.journal) && Halfway(w, awaits, now, k) && 0 < k
    requires (next, ok) == RollbackFile(now, w.journal.order[k - 1], awaits[k - 1])
    requires var path := w.journal.order[k - 1];
             At(end, path) == At(next.disk + EditsIn(w, awaits, 0, k - 1), path)
    ensures At(end, w.journal.order[k - 1]) == FinalAt(w, awaits, k - 1)
  {
    var path, n := w.journal.order[k - 1], |w.journal.order|;
    var edits, later := EditsOf(w, awaits, k - 1), EditsIn(w, awaits, 0, k - 1);
    OrderParts(w.journal.order, k);
    TurnDisk(w, awaits, now, k);
    EditsSplit(w, awaits, 0, k, n);
    EditsFrom(w, awaits, k);
    hide RollbackFile, EditsIn, EditsOf, PutsBackAt, ReportedAt, WellOrdered;
    AtPlus(next.disk, later, path);
    AtPlus(now.disk, edits, path);
    AtPlus(w.disk, EditsIn(w, awaits, k, n), path);
    AtPlus(w.disk, EditsIn(w, awaits, 0, n), path);
  }

  /** All other files see only the outside edits of this turn and the ones below it. */
  lemma TurnSpares(w: World, awaits: seq<Awaits>, now: World, k: nat, next: World, ok: bool, end: Disk, p: Path)
    requires WellOrdered(w.journal) && Halfway(w, awaits, now, k) && 0 < k && p != w.journal.order[k - 1]
    requires (next, ok) == RollbackFile(now, w.journal.order[k - 1], awaits[k - 1])
    requires At(end, p) == At(next.disk + EditsIn(w, awaits, 0, k - 1), p)
    ensures At(end, p) == At(now.disk + EditsIn(w, awaits, 0, k), p)
  {
    var edits, later := EditsOf(w, awaits, k - 1), EditsIn(w, awaits, 0, k - 1);
    TurnDisk(w, awaits, now, k);
    EditsFrom(w, awaits, k);
    hide RollbackFile, EditsIn, EditsOf, PutsBackAt, ReportedAt, WellOrdered, Halfway;
    AtPlus(next.disk, later, p);
    AtPlus(now.disk, edits, p);
    AtPlus(now.disk, edits + later, p);
  }

  lemma TurnFinishes(w: World, awaits: seq<Awaits>, now: World, k: nat, next: World, ok: bool, rest: (World, set<Path>))
    requires WellOrdered(w.journal) && Halfway(w, awaits, now, k) && 0 < k
    requires (next, ok) == RollbackFile(now, w.journal.order[k - 1], awaits[k - 1])
    requires Finishes(w, awaits, next, k - 1, rest)
    ensures Finishes(w, awaits, now, k, (rest.0, if ok then rest.1 else rest.1 + {w.journal.order[k - 1]}))
  {
    var order := w.journal.order;
    OrderParts(order, k);
    TurnDisk(w, awaits, now, k);
    TurnIsFinal(w, awaits, now, k, next, ok, rest.0.disk);
    assert order[k - 1] in w.journal.entries;
    hide Settles, RollbackFile, EditsIn, EditsOf, ReportedAt, FinalAt, Below, PutsBackAt, Halfway, At;
    OneMoreSettles(w, awaits, k, rest.0.disk, rest.1, ok);
    forall p | !Below(order, k, p) ensures At(rest.0.disk, p) == At(now.disk + EditsIn(w, awaits, 0, k), p) {
      TurnSpares(w, awaits, now, k, next, ok, rest.0.disk, p);
    }
  }

  lemma OneMoreSettles(w: World, awaits: seq<Awaits>, k: nat, end: Disk, failed: set<Path>, ok: bool)
    requires 0 < k <= |w.journal.order| <= |awaits| && WellOrdered(w.journal)
    requires forall i :: 0 <= i < k - 1 ==> Settles(w, awaits, i, end, failed)
    requires forall p :: p in failed ==> Below(w.journal.order, k - 1, p)
    requires var path := w.journal.order[k - 1];
             && path in w.journal.entries && (!ok <==> ReportedAt(w, awaits, k - 1))
             && At(end, path) == FinalAt(w, awaits, k - 1)
    ensures var reported := if ok then failed else failed + {w.journal.order[k - 1]};
            forall i :: 0 <= i < k ==> Settles(w, awaits, i, end, reported)
  {
    var order := w.journal.order;
    var reported := if ok then failed else failed + {order[k - 1]};
    OrderParts(order, k);
    hide ReportedAt, FinalAt, Below, At;
    forall i | 0 <= i < k ensures Settles(w, awaits, i, end, reported) {
      if i < k - 1 { assert Settles(w, awaits, i, end, failed) && order[i] != order[k - 1]; }
    }
  }

  /** The turns below k finish as they should. */
  ghost predicate Ends(w: World, awaits: seq<Awaits>, now: World, k: nat)
    requires k <= |w.journal.order| <= |awaits|
  {
    Finishes(w, awaits, now, k, RollbackFrom(now, w.journal.order, awaits, k))
  }

  lemma EndsNext(w: World, awaits: seq<Awaits>, now: World, k: nat)
    requires WellOrdered(w.journal) && Halfway(w, awaits, now, k) && 0 < k
    requires Ends(w, awaits, RollbackFile(now, w.journal.order[k - 1], awaits[k - 1]).0, k - 1)
    ensures Ends(w, awaits, now, k)
  {
    var order := w.journal.order;
    var (next, ok) := RollbackFile(now, order[k - 1], awaits[k - 1]);
    RollbackFromNext(now, order, awaits, k);
    hide RollbackFile, Halfway, Finishes, WellOrdered;
    TurnFinishes(w, awaits, now, k, next, ok, RollbackFrom(next, order, awaits, k - 1));
  }

  lemma NothingLeft(w: World, awaits: seq<Awaits>, now: World)
    requires Halfway(w, awaits, now, 0)
    ensures Ends(w, awaits, now, 0)
  {
    assert now.disk + map[] == now.disk;
  }

  lemma {:induction false} TurnsEnd(w: World, awaits: seq<Awaits>, now: World, k: nat)
    requires WellOrdered(w.journal) && Halfway(w, awaits, now, k)
    ensures Ends(w, awaits, now, k)
    decreases k
  {
    if k == 0 {
      NothingLeft(w, awaits, now);
    } else {
      TurnGoesOn(w, awaits, now, k);
      hide RollbackFile, Ends, WellOrdered;
      TurnsEnd(w, awaits, RollbackFile(now, w.journal.order[k - 1], awaits[k - 1]).0, k - 1);
      EndsNext(w, awaits, now, k);
    }
  }

  lemma SettledMeans(w: World, awaits: seq<Awaits>, end: Disk, failed: set<Path>)
    requires |w.journal.order| <= |awaits|
    requires forall i :: 0 <= i < |w.journal.order| ==> Settles(w, awaits, i, end, failed)
    ensures var order := w.journal.order;
            forall i :: 0 <= i < |order| ==>
              && order[i] in w.journal.entries
              && (order[i] in failed <==> ReportedAt(w, awaits, i))
              && At(end, order[i]) == FinalAt(w, awaits, i)
  {
    var order := w.journal.order;
    hide ReportedAt, FinalAt, At;
    forall i | 0 <= i < |order|
      ensures order[i] in w.journal.entries && (order[i] in failed <==> ReportedAt(w, awaits, i))
      ensures At(end, order[i]) == FinalAt(w, awaits, i)
    {
      assert Settles(w, awaits, i, end, failed);
    }
  }

  lemma BeginsHalfway(w: World, awaits: seq<Awaits>)
    requires |w.journal.order| <= |awaits| && forall p :: p in w.journal.order ==> p in w.journal.entries
    ensures Halfway(w, awaits, w, |w.journal.order|)
  {
    assert w.disk + map[] == w.disk;
  }

  /**
    After any operations with any edits, and for a rollback in which anything may reject and anybody may
    edit at every await: a file is reported exactly when it was changed and is not put back cleanly, it
    is put back exactly when it is in its last known state before and after the awaits that precede its
    swap and they let it through, and in the end it shows what was put back or the last outside edit.
  */
  lemma RollbackExactly(disk: Disk, steps: seq<Step>, awaits: seq<Awaits>)
    requires |Run(World(disk, Fresh, []), steps).journal.order| <= |awaits|
    ensures var w := Run(World(disk, Fresh, []), steps);
            var (end, failed) := Rollback(w, awaits);
            var order := w.journal.order;
            && (forall p :: p in failed ==> p in order)
            && (forall i :: 0 <= i < |order| ==>
                  && order[i] in w.journal.entries
                  && (order[i] in failed <==> ReportedAt(w, awaits, i))
                  && At(end.disk, order[i]) == FinalAt(w, awaits, i))
            && forall p :: p !in order ==> At(end.disk, p) == At(w.disk + EditsIn(w, awaits, 0, |order|), p)
  {
    JournalRemembers(disk, steps);
    var w := Run(World(disk, Fresh, []), steps);
    var order := w.journal.order;
    WellOrderedMembers(w);
    BeginsHalfway(w, awaits);
    hide Run, Remembers, WellOrdered, Halfway, RollbackFrom, Settles, EditsIn, ReportedAt, FinalAt, At;
    TurnsEnd(w, awaits, w, |order|);
    assert order[..|order|] == order;
    var (end, failed) := Rollback(w, awaits);
    SettledMeans(w, awaits, end.disk, failed);
  }
}
