/**
  The transaction object: its journal map, the disk it shares with outside writers, and the
  synchronous and awaiting parts of its methods, proved against `InstallerTransaction`.
*/
module InstallerTransactionSteps {
  import opened InstallerTransaction

  class FileTransaction {
    var disk: Disk
    var order: seq<Path>
    var entries: map<Path, Entry>
    ghost var log: seq<Seen>

    constructor (disk: Disk)
      ensures Now() == World(disk, Fresh, [])
    {
      this.disk, order, entries, log := disk, [], map[], [];
    }

    ghost function Now(): World
      reads this
    {
      World(disk, Journal(order, entries), log)
    }

    /** Outside writers at work while the transaction awaits. */
    method Await(edits: Disk)
      modifies `disk
      ensures disk == old(disk) + edits
    {
      disk := disk + edits;
    }

    method SetEntryOf(path: Path, entry: Entry)
      modifies `order, `entries
      ensures Journal(order, entries) == SetEntry(Journal(old(order), old(entries)), path, entry)
    {
      if path !in entries {
        order := order + [path];
      }
      entries := entries[path := entry];
    }

    method Observe(path: Path) returns (ok: bool)
      modifies this
      ensures (Now(), ok) == ObserveFile(old(Now()), path)
    {
      var current := At(disk, path);
      if path in entries && entries[path].after != current {
        return false;
      }
      if path !in entries {
        SetEntryOf(path, Entry(current, current));
      }
      log := log + [Seen(path, current, current)];
      return true;
    }

    method Commit(path: Path, next: FileState, expected: FileState, entry: Entry, a: Awaits) returns (ok: bool)
      modifies this
      ensures (Now(), ok) == CommitFile(old(Now()), path, next, expected, entry, a)
    {
      Await(a.edits);
      if a.early || At(disk, path) != expected || a.last {
        Await(a.late);
        return false;
      }
      disk := disk[path := next];
      SetEntryOf(path, entry);
      log := log + [Seen(path, expected, next)];
      Await(a.late);
      return !a.sweep;
    }

    method Replace(path: Path, next: FileState, expected: FileState, exclusive: bool, a: Awaits)
      returns (ok: bool)
      modifies this
      ensures (Now(), ok) == ReplaceFile(old(Now()), path, next, expected, exclusive, a)
    {
      var current := At(disk, path);
      if current != expected || (path in entries && entries[path].after != current) {
        return false;
      }
      if exclusive && current.Present? {
        return false;
      }
      if current == next {
        return true;
      }
      var before := if path in entries then entries[path].before else current;
      ok := Commit(path, next, current, Entry(before, next), a);
    }

    method RollbackOne(path: Path, a: Awaits) returns (ok: bool)
      modifies this
      ensures (Now(), ok) == RollbackFile(old(Now()), path, a)
    {
      var entry := if path in entries then entries[path] else Entry(Missing, Missing);
      if entry.before == entry.after {
        return true;
      }
      if At(disk, path) != entry.after {
        return false;
      }
      ok := Commit(path, entry.before, entry.after, Entry(entry.before, entry.before), a);
    }

    method RollBack(awaits: seq<Awaits>) returns (failures: set<Path>)
      requires |order| <= |awaits|
      modifies this
      ensures (Now(), failures) == Rollback(old(Now()), awaits)
    {
      var files := order;
      ghost var whole := RollbackFrom(Now(), files, awaits, |files|);
      failures := {};
      hide RollbackFile;
      for i := |files| downto 0
        invariant var rest := RollbackFrom(Now(), files, awaits, i);
                  whole.0 == rest.0 && whole.1 == failures + rest.1
      {
        RollbackFromNext(Now(), files, awaits, i + 1);
        var ok := RollbackOne(files[i], awaits[i]);
        if !ok {
          failures := failures + {files[i]};
        }
      }
    }
  }
}
