/**
  The descriptor table of the lock guard as the module-level state it is, with the loops that
  close deferred and quarantined descriptors one by one, proved against `TransactionLock`.
*/
module TransactionLockSteps {
  import opened TransactionLock

  class GuardTable {
    var table: map<Inode, Entry>
    var quarantined: set<Fd>
    var open: map<Fd, Inode>
    var guards: map<GuardId, Inode>
    ghost var dropped: set<Inode>

    constructor ()
      ensures Now() == Start
    {
      table, quarantined, open, guards, dropped := map[], {}, map[], map[], {};
    }

    ghost function Now(): State
      reads this
    {
      State(table, quarantined, open, guards, dropped)
    }

    /** closeSync: the process loses its record locks on the descriptor's inode. */
    method CloseDescriptor(fd: Fd)
      modifies this
      ensures Now() == Close(old(Now()), {fd})
    {
      ghost var before := Now();
      if fd in open && Holds(before, open[fd]) {
        dropped := dropped + {open[fd]};
      }
      open := open - {fd};
      assert Now() == Close(before, {fd});
    }

    method CloseAll(fds: set<Fd>)
      modifies this
      ensures Now() == Close(old(Now()), fds)
    {
      var rest := fds;
      CloseNone(Now());
      while rest != {}
        invariant rest <= fds
        invariant Now() == Close(old(Now()), fds - rest)
      {
        var fd :| fd in rest;
        CloseMore(old(Now()), fds - rest, fd);
        CloseDescriptor(fd);
        assert fds - rest + {fd} == fds - (rest - {fd});
        rest := rest - {fd};
      }
      assert fds - rest == fds;
    }

    lemma CloseNone(s: State)
      ensures Close(s, {}) == s
    {
    }

    lemma CloseMore(s: State, fds: set<Fd>, fd: Fd)
      ensures Close(Close(s, fds), {fd}) == Close(s, fds + {fd})
    {
      assert s.open - fds - {fd} == s.open - (fds + {fd});
      assert forall i :: Holds(Close(s, fds), i) <==> Holds(s, i);
    }

    method CloseQuarantinedDescriptors()
      modifies this
      ensures Now() == Sweep(old(Now()))
    {
      if table != map[] {
        return;
      }
      CloseAll(quarantined);
      quarantined := {};
    }

    method RetireDescriptor(fd: Fd, inode: Inode, known: bool)
      modifies this
      ensures Now() == Retire(old(Now()), fd, inode, known)
    {
      if known && inode in table {
        table := table[inode := table[inode].(deferred := table[inode].deferred + {fd})];
      } else if known {
        CloseDescriptor(fd);
      } else {
        quarantined := quarantined + {fd};
      }
      CloseQuarantinedDescriptors();
    }

    /** A guard's release; a second release finds nothing to do. */
    method ReleaseGuard(g: GuardId)
      modifies this
      ensures Now() == Release(old(Now()), g)
    {
      if g in guards && guards[g] in table {
        var inode := guards[g];
        var retained := table[inode];
        guards := guards - {g};
        if retained.references <= 1 {
          table := table - {inode};
          ghost var before := Now();
          CloseDescriptor(retained.descriptor);
          CloseAll(retained.deferred);
          CloseBoth(before, {retained.descriptor}, retained.deferred);
        } else {
          table := table[inode := retained.(references := retained.references - 1)];
        }
      }
      CloseQuarantinedDescriptors();
    }

    lemma CloseBoth(s: State, first: set<Fd>, second: set<Fd>)
      ensures Close(Close(s, first), second) == Close(s, first + second)
    {
      assert s.open - first - second == s.open - (first + second);
      assert forall i :: Holds(Close(s, first), i) <==> Holds(s, i);
    }

    method AdoptDescriptor(g: GuardId, fd: Fd, actual: Inode, expected: Inode, c: Calls) returns (ok: bool)
      modifies this
      ensures (Now(), ok) == Adopt(old(Now()), g, fd, actual, expected, c)
    {
      match c.stat
      case StatFailed =>
        RetireDescriptor(fd, actual, c.restat);
        return false;
      case StatUnsafe =>
        RetireDescriptor(fd, actual, true);
        return false;
      case StatSafe =>
        if actual != expected {
          RetireDescriptor(fd, actual, true);
          return false;
        }
        table := table[expected := Entry(fd, 1, {})];
        guards := guards[g := expected];
        ok := Fenced(g, c.fence);
    }

    method Fenced(g: GuardId, fence: bool) returns (ok: bool)
      modifies this
      ensures (Now(), ok) == Settle(old(Now()), g, fence)
    {
      if !fence {
        ReleaseGuard(g);
      }
      return fence;
    }

    method OpenDatabaseGuard(g: GuardId, c: Calls) returns (ok: bool)
      modifies this
      ensures (Now(), ok) == OpenGuard(old(Now()), g, c)
    {
      hide Retire, Release, Sweep, Adopt, Settle;
      if |quarantined| >= QUARANTINE_LIMIT || c.create.Refused? {
        CloseQuarantinedDescriptors();
        return false;
      }
      if c.create.Created? {
        open := open[c.create.fd := c.create.inode];
      }
      if !c.look.Safe? {
        if c.create.Created? {
          RetireDescriptor(c.create.fd, c.create.inode, c.restat);
        } else {
          CloseQuarantinedDescriptors();
        }
        return false;
      }
      var inode := c.look.inode;
      if inode in table {
        var retained := table[inode];
        var extra := if c.create.Created? then {c.create.fd} else {};
        table := table[inode := Entry(retained.descriptor, retained.references + 1, retained.deferred + extra)];
        guards := guards[g := inode];
        ok := Fenced(g, c.fence);
      } else if c.create.Created? {
        ok := AdoptDescriptor(g, c.create.fd, c.create.inode, inode, c);
      } else if c.opening.NotOpened? {
        CloseQuarantinedDescriptors();
        return false;
      } else {
        open := open[c.opening.fd := c.opening.inode];
        ok := AdoptDescriptor(g, c.opening.fd, c.opening.inode, inode, c);
      }
    }

    /** acquireDatabaseNow: the guard is released again when the database cannot be locked. */
    method AcquireDatabaseNow(g: GuardId, c: Calls, database: bool) returns (held: bool)
      modifies this
      ensures Now() == Act(old(Now()), Acquire(g, c, database))
      ensures held == (OpenGuard(old(Now()), g, c).1 && database)
    {
      held := OpenDatabaseGuard(g, c);
      if held && !database {
        ReleaseGuard(g);
        held := false;
      }
    }
  }
}
