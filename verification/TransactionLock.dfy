/**
  Descriptor ownership in the transaction lock guard (src/runtime/transaction-lock.ts).

  Closing any descriptor of an inode drops the process's POSIX record locks on that inode, so the
  guard keeps one counted entry per inode, defers surplus descriptors of a held inode, and
  quarantines descriptors whose inode it could not determine. `dropped` records every inode on
  which a close dropped the locks of an unreleased guard.

  A call record gives the outcome of every system call of one acquisition. `closeSync` succeeds.
*/
module TransactionLock {
  import opened Options

  type Fd = nat
  type Inode = nat
  type GuardId = nat

  datatype Entry = Entry(descriptor: Fd, references: nat, deferred: set<Fd>)

  datatype State = State(
    table: map<Inode, Entry>, quarantined: set<Fd>, open: map<Fd, Inode>,
    guards: map<GuardId, Inode>, dropped: set<Inode>)

  const Start := State(map[], {}, map[], map[], {})

  const QUARANTINE_LIMIT := 64

  /** The exclusive create of a shared guard: skipped or already there, refused, or a new file. */
  datatype Create = Exists | Refused | Created(fd: Fd, inode: Inode)

  datatype Look = Unreadable | Unsafe | Safe(inode: Inode)

  datatype Opened = NotOpened | Opened(fd: Fd, inode: Inode)

  datatype Stat = StatFailed | StatUnsafe | StatSafe

  /** `restat` is the second fstat, made while handling a failure; `fence` the final check. */
  datatype Calls = Calls(create: Create, look: Look, opening: Opened, stat: Stat, restat: bool, fence: bool)

  // ---------------------------------------------------------------- closing

  predicate Holds(s: State, inode: Inode) {
    exists g :: g in s.guards && s.guards[g] == inode
  }

  function Close(s: State, fds: set<Fd>): State {
    s.(open := s.open - fds,
       dropped := s.dropped + set fd | fd in fds && fd in s.open && Holds(s, s.open[fd]) :: s.open[fd])
  }

  /** closeQuarantinedDescriptors: only once no inode is owned. */
  function Sweep(s: State): State {
    if s.table != map[] then s else Close(s, s.quarantined).(quarantined := {})
  }

  /** retireDescriptor, where `known` says whether fstat told the descriptor's inode. */
  function Retire(s: State, fd: Fd, inode: Inode, known: bool): State {
    if known && inode in s.table then
      Sweep(s.(table := s.table[inode := s.table[inode].(deferred := s.table[inode].deferred + {fd})]))
    else if known then Sweep(Close(s, {fd}))
    else Sweep(s.(quarantined := s.quarantined + {fd}))
  }

  function Release(s: State, g: GuardId): State {
    if g !in s.guards || s.guards[g] !in s.table then Sweep(s)
    else
      var inode := s.guards[g];
      var e := s.table[inode];
      var left := s.(guards := s.guards - {g});
      if e.references <= 1 then
        Sweep(Close(left.(table := s.table - {inode}), {e.descriptor} + e.deferred))
      else
        Sweep(left.(table := s.table[inode := e.(references := e.references - 1)]))
  }

  // ---------------------------------------------------------------- acquiring

  /** A guard on an inode that already has an entry; `extra` is a descriptor created on the way. */
  function Join(s: State, g: GuardId, inode: Inode, extra: set<Fd>): State
    requires inode in s.table
  {
    var e := s.table[inode];
    s.(table := s.table[inode := Entry(e.descriptor, e.references + 1, e.deferred + extra)],
       guards := s.guards[g := inode])
  }

  function Found(s: State, g: GuardId, fd: Fd, inode: Inode): State {
    s.(table := s.table[inode := Entry(fd, 1, {})], guards := s.guards[g := inode])
  }

  /** The final fence: a failure releases the guard again. */
  function Settle(s: State, g: GuardId, fence: bool): (State, bool) {
    if fence then (s, true) else (Release(s, g), false)
  }

  /** From a descriptor on `actual`, expected to be on `expected`, to a new entry. */
  function Adopt(s: State, g: GuardId, fd: Fd, actual: Inode, expected: Inode, c: Calls): (State, bool) {
    match c.stat
    case StatFailed => (Retire(s, fd, actual, c.restat), false)
    case StatUnsafe => (Retire(s, fd, actual, true), false)
    case StatSafe =>
      if actual != expected then (Retire(s, fd, actual, true), false)
      else Settle(Found(s, g, fd, expected), g, c.fence)
  }

  /** openDatabaseGuard; true when a guard is handed out under the fresh identity g. */
  function OpenGuard(s: State, g: GuardId, c: Calls): (State, bool) {
    if |s.quarantined| >= QUARANTINE_LIMIT || c.create.Refused? then (Sweep(s), false)
    else
      var made := if c.create.Created? then s.(open := s.open[c.create.fd := c.create.inode]) else s;
      match c.look
      case Safe(inode) =>
        if inode in made.table then
          Settle(Join(made, g, inode, if c.create.Created? then {c.create.fd} else {}), g, c.fence)
        else if c.create.Created? then
          Adopt(made, g, c.create.fd, c.create.inode, inode, c)
        else if c.opening.NotOpened? then (Sweep(made), false)
        else
          Adopt(made.(open := made.open[c.opening.fd := c.opening.inode]),
                g, c.opening.fd, c.opening.inode, inode, c)
      case _ =>
        if c.create.Created? then (Retire(made, c.create.fd, c.create.inode, c.restat), false)
        else (Sweep(made), false)
  }

  /** An acquisition that may still fail in the database, or the release of a guard. */
  datatype Action = Acquire(guard: GuardId, calls: Calls, database: bool) | LetGo(guard: GuardId)

  function Act(s: State, a: Action): State {
    match a
    case LetGo(g) => Release(s, g)
    case Acquire(g, c, database) =>
      var (next, ok) := OpenGuard(s, g, c);
      if ok && !database then Release(next, g) else next
  }

  function Run(s: State, actions: seq<Action>): State
    decreases |actions|
  {
    if actions == [] then s else Run(Act(s, actions[0]), actions[1..])
  }

  // ---------------------------------------------------------------- what the system can answer

  /** New descriptors are unused, and a newly created file has an inode no open descriptor keeps alive. */
  ghost predicate Possible(s: State, a: Action) {
    a.Acquire? ==>
      && a.guard !in s.guards
      && (a.calls.create.Created? ==>
            a.calls.create.fd !in s.open && forall fd :: fd in s.open ==> s.open[fd] != a.calls.create.inode)
      && (a.calls.opening.Opened? ==> a.calls.opening.fd !in s.open)
  }

  /**
    The branch that defers a freshly created descriptor under the entry of the inode that the path names
    by the time of the lstat.
  */
  predicate Misplaces(s: State, a: Action) {
    && a.Acquire? && |s.quarantined| < QUARANTINE_LIMIT
    && a.calls.create.Created? && a.calls.look.Safe? && a.calls.look.inode in s.table
  }

  ghost predicate Careful(s: State, actions: seq<Action>)
    decreases |actions|
  {
    actions != [] ==> !Misplaces(s, actions[0]) && Careful(Act(s, actions[0]), actions[1..])
  }

  /** The path is not swapped between the exclusive create and the lstat. */
  predicate Steady(a: Action) {
    a.Acquire? && a.calls.create.Created? && a.calls.look.Safe? ==>
      a.calls.look.inode == a.calls.create.inode
  }

  ghost predicate Feasible(s: State, actions: seq<Action>)
    decreases |actions|
  {
    actions != [] ==> Possible(s, actions[0]) && Feasible(Act(s, actions[0]), actions[1..])
  }

  // ---------------------------------------------------------------- the invariant

  ghost function Holders(s: State, inode: Inode): set<GuardId> {
    set g | g in s.guards && s.guards[g] == inode
  }

  ghost function Owned(e: Entry): set<Fd> {
    {e.descriptor} + e.deferred
  }

  /** Every entry counts its unreleased guards and owns only descriptors of its inode. */
  ghost predicate Counted(s: State) {
    && (forall i :: i in s.table ==> s.table[i].references == |Holders(s, i)| > 0)
    && (forall g :: g in s.guards ==> s.guards[g] in s.table)
  }

  ghost predicate Placed(s: State) {
    && (forall i, fd :: i in s.table && fd in Owned(s.table[i]) ==> fd in s.open && s.open[fd] == i)
    && s.quarantined <= s.open.Keys
    && (forall fd :: fd in s.open ==>
          fd in s.quarantined || (s.open[fd] in s.table && fd in Owned(s.table[s.open[fd]])))
    && (forall i, fd :: i in s.table && fd in Owned(s.table[i]) ==> fd !in s.quarantined)
  }

  ghost predicate Inv(s: State) {
    && Counted(s) && Placed(s)
    && s.dropped == {}
    && |s.quarantined| <= QUARANTINE_LIMIT
    && (s.table == map[] ==> s.quarantined == {})
  }

  lemma SweepKeeps(s: State)
    requires Counted(s) && Placed(s) && s.dropped == {} && |s.quarantined| <= QUARANTINE_LIMIT
    ensures Inv(Sweep(s))
    ensures Sweep(s).guards == s.guards && Sweep(s).table == s.table
  {
    if s.table == map[] {
      assert s.guards == map[] by {
        assert forall g :: g in s.guards ==> s.guards[g] in s.table;
      }
      var swept := Sweep(s);
      assert forall fd :: fd in s.open ==> fd in s.quarantined;
      assert swept.open == map[];
    }
  }

  /** Counting looks at the guards and the reference counts only. */
  lemma CountedSame(s: State, t: State)
    requires Counted(s) && t.guards == s.guards && t.table.Keys == s.table.Keys
    requires forall i :: i in s.table ==> t.table[i].references == s.table[i].references
    ensures Counted(t)
  {
    assert forall i :: Holders(t, i) == Holders(s, i);
  }

  lemma DeferPlaced(s: State, fd: Fd, inode: Inode)
    requires Placed(s) && fd !in s.open && inode in s.table
    ensures var e := s.table[inode];
            Placed(s.(open := s.open[fd := inode],
                      table := s.table[inode := e.(deferred := e.deferred + {fd})]))
  {
    var e := s.table[inode];
    var next := s.(open := s.open[fd := inode], table := s.table[inode := e.(deferred := e.deferred + {fd})]);
    assert Owned(next.table[inode]) == Owned(e) + {fd};
    forall i, d | i in next.table && d in Owned(next.table[i])
      ensures d in next.open && next.open[d] == i && d !in next.quarantined
    {
      if d != fd || i != inode { assert d in Owned(s.table[i]); }
    }
    forall d | d in next.open
      ensures d in next.quarantined || (next.open[d] in next.table && d in Owned(next.table[next.open[d]]))
    {
      if d != fd { assert next.open[d] == s.open[d]; }
    }
  }

  lemma DeferKeeps(s: State, fd: Fd, inode: Inode)
    requires fd !in s.open && Inv(s) && inode in s.table
    ensures var e := s.table[inode];
            Inv(s.(open := s.open[fd := inode],
                   table := s.table[inode := e.(deferred := e.deferred + {fd})]))
  {
    var e := s.table[inode];
    var next := s.(open := s.open[fd := inode], table := s.table[inode := e.(deferred := e.deferred + {fd})]);
    CountedSame(s, next);
    DeferPlaced(s, fd, inode);
    hide Counted, Placed;
    assert inode in next.table;
  }

  lemma QuarantineKeeps(s: State, fd: Fd, inode: Inode)
    requires fd !in s.open && Inv(s) && |s.quarantined| < QUARANTINE_LIMIT
    ensures var next := s.(open := s.open[fd := inode], quarantined := s.quarantined + {fd});
            Counted(next) && Placed(next) && |next.quarantined| <= QUARANTINE_LIMIT
  {
    var next := s.(open := s.open[fd := inode], quarantined := s.quarantined + {fd});
    CountedSame(s, next);
    QuarantinePlaced(s, fd, inode);
  }

  lemma QuarantinePlaced(s: State, fd: Fd, inode: Inode)
    requires fd !in s.open && Placed(s)
    ensures Placed(s.(open := s.open[fd := inode], quarantined := s.quarantined + {fd}))
  {
    var next := s.(open := s.open[fd := inode], quarantined := s.quarantined + {fd});
    forall i, d | i in next.table && d in Owned(next.table[i])
      ensures d in next.open && next.open[d] == i && d !in next.quarantined
    {
      assert d in Owned(s.table[i]);
    }
    forall d | d in next.open
      ensures d in next.quarantined || (next.open[d] in next.table && d in Owned(next.table[next.open[d]]))
    {
      if d != fd { assert d in s.open && next.open[d] == s.open[d]; }
    }
  }

  lemma SweepOfInv(s: State)
    requires Inv(s)
    ensures Inv(Sweep(s)) && Sweep(s).guards == s.guards
  {
    SweepKeeps(s);
  }

  lemma RetireKeeps(s: State, fd: Fd, inode: Inode, known: bool)
    requires fd !in s.open && Inv(s) && |s.quarantined| < QUARANTINE_LIMIT
    ensures Inv(Retire(s.(open := s.open[fd := inode]), fd, inode, known))
    ensures Retire(s.(open := s.open[fd := inode]), fd, inode, known).guards == s.guards
  {
    var made := s.(open := s.open[fd := inode]);
    if known && inode in s.table {
      DeferKeeps(s, fd, inode);
      var e := s.table[inode];
      SweepKeeps(made.(table := s.table[inode := e.(deferred := e.deferred + {fd})]));
    } else if known {
      UnheldWithoutEntry(made, inode);
      assert made.open - {fd} == s.open;
      assert Close(made, {fd}) == s;
      SweepKeeps(s);
    } else {
      QuarantineKeeps(s, fd, inode);
      SweepKeeps(made.(quarantined := s.quarantined + {fd}));
    }
  }

  lemma UnheldWithoutEntry(s: State, inode: Inode)
    requires Counted(s) && inode !in s.table
    ensures !Holds(s, inode)
  {
  }

  /** The last guard of an inode: its whole entry is closed, and nobody holds the inode any more. */
  lemma LastReleaseKeeps(s: State, g: GuardId)
    requires Inv(s) && g in s.guards && s.table[s.guards[g]].references <= 1
    ensures var inode := s.guards[g];
            var next := Close(s.(guards := s.guards - {g}, table := s.table - {inode}), Owned(s.table[inode]));
            Counted(next) && Placed(next) && next.dropped == {}
  {
    var inode := s.guards[g];
    var gone := s.(guards := s.guards - {g}, table := s.table - {inode});
    var next := Close(gone, Owned(s.table[inode]));
    HoldersWithout(s, g);
    assert Holders(gone, inode) == {};
    assert !Holds(gone, inode) by {
      forall h | h in gone.guards ensures gone.guards[h] != inode {
        assert h !in Holders(gone, inode);
      }
    }
    assert Counted(next) by {
      assert forall i :: Holders(next, i) == Holders(gone, i);
    }
    hide Counted, Holders, Holds;
    assert forall fd :: fd in Owned(s.table[inode]) ==> fd in s.open && s.open[fd] == inode;
    ClosedPlaced(s, inode, next);
  }

  lemma ClosedPlaced(s: State, inode: Inode, next: State)
    requires Placed(s) && inode in s.table && next.table == s.table - {inode}
    requires next.open == s.open - Owned(s.table[inode]) && next.quarantined == s.quarantined
    ensures Placed(next)
  {
    forall i, d | i in next.table && d in Owned(next.table[i])
      ensures d in next.open && next.open[d] == i && d !in next.quarantined
    {
      assert i in s.table && next.table[i] == s.table[i];
      assert s.open[d] == i;
    }
    forall d | d in next.open
      ensures d in next.quarantined || (next.open[d] in next.table && d in Owned(next.table[next.open[d]]))
    {
      assert d in s.open && next.open[d] == s.open[d];
    }
    assert next.quarantined <= next.open.Keys;
  }

  lemma HoldersWithout(s: State, g: GuardId)
    requires Counted(s) && g in s.guards
    ensures var inode := s.guards[g];
            forall table :: var gone := s.(guards := s.guards - {g}, table := table);
              && |Holders(gone, inode)| == |Holders(s, inode)| - 1
              && forall i :: i != inode ==> Holders(gone, i) == Holders(s, i)
  {
    var inode := s.guards[g];
    forall table
      ensures var gone := s.(guards := s.guards - {g}, table := table);
              && |Holders(gone, inode)| == |Holders(s, inode)| - 1
              && forall i :: i != inode ==> Holders(gone, i) == Holders(s, i)
    {
      var gone := s.(guards := s.guards - {g}, table := table);
      assert Holders(s, inode) == Holders(gone, inode) + {g};
    }
  }

  lemma MoreReleaseKeeps(s: State, g: GuardId, next: State)
    requires Inv(s) && g in s.guards && s.table[s.guards[g]].references > 1
    requires var inode := s.guards[g];
             var e := s.table[inode];
             next == s.(guards := s.guards - {g}, table := s.table[inode := e.(references := e.references - 1)])
    ensures Counted(next) && Placed(next)
  {
    HoldersWithout(s, g);
    assert Counted(next);
    hide Counted, Holders, Placed;
    PlacedSame(s, next);
  }

  lemma ReleaseLastKeeps(s: State, g: GuardId)
    requires Inv(s) && g in s.guards && s.guards[g] in s.table && s.table[s.guards[g]].references <= 1
    ensures Inv(Release(s, g)) && Release(s, g).guards == s.guards - {g}
  {
    var inode := s.guards[g];
    var closed := Close(s.(guards := s.guards - {g}, table := s.table - {inode}), Owned(s.table[inode]));
    LastReleaseKeeps(s, g);
    assert Release(s, g) == Sweep(closed);
    assert closed.quarantined == s.quarantined && closed.guards == s.guards - {g};
    hide Release, Close, Counted, Placed;
    SweepKeeps(closed);
  }

  lemma ReleaseMoreKeeps(s: State, g: GuardId)
    requires Inv(s) && g in s.guards && s.guards[g] in s.table && s.table[s.guards[g]].references > 1
    ensures Inv(Release(s, g)) && Release(s, g).guards == s.guards - {g}
  {
    var inode := s.guards[g];
    var e := s.table[inode];
    var next := s.(guards := s.guards - {g}, table := s.table[inode := e.(references := e.references - 1)]);
    MoreReleaseKeeps(s, g, next);
    assert Release(s, g) == Sweep(next);
    hide Release, Close, Counted, Placed;
    SweepKeeps(next);
  }

  lemma ReleaseKeeps(s: State, g: GuardId)
    requires Inv(s)
    ensures Inv(Release(s, g)) && Release(s, g).guards == s.guards - {g}
  {
    if g !in s.guards {
      assert s.guards - {g} == s.guards;
      SweepOfInv(s);
    } else {
      assert s.guards[g] in s.table;
      hide Release, Inv;
      if s.table[s.guards[g]].references <= 1 {
        ReleaseLastKeeps(s, g);
      } else {
        ReleaseMoreKeeps(s, g);
      }
    }
  }

  lemma HoldersWith(s: State, g: GuardId, inode: Inode, next: State)
    requires g !in s.guards && next.guards == s.guards[g := inode]
    ensures |Holders(next, inode)| == |Holders(s, inode)| + 1
    ensures forall i :: i != inode ==> Holders(next, i) == Holders(s, i)
  {
    assert Holders(next, inode) == Holders(s, inode) + {g};
  }

  /** Placement looks at the descriptors each entry owns, not at its count. */
  lemma PlacedSame(s: State, t: State)
    requires Placed(s) && t.open == s.open && t.quarantined == s.quarantined && t.table.Keys == s.table.Keys
    requires forall i :: i in s.table ==> Owned(t.table[i]) == Owned(s.table[i])
    ensures Placed(t)
  {
  }

  lemma JoinKeeps(s: State, g: GuardId, inode: Inode)
    requires Inv(s) && g !in s.guards && inode in s.table
    ensures Inv(Join(s, g, inode, {}))
  {
    var next := Join(s, g, inode, {});
    HoldersWith(s, g, inode, next);
    assert Counted(next);
    hide Counted, Holders, Placed;
    PlacedSame(s, next);
    assert inode in next.table;
  }

  lemma FoundCounted(s: State, g: GuardId, fd: Fd, inode: Inode)
    requires Counted(s) && g !in s.guards && inode !in s.table
    ensures Counted(Found(s.(open := s.open[fd := inode]), g, fd, inode))
  {
    var next := Found(s.(open := s.open[fd := inode]), g, fd, inode);
    HoldersWith(s, g, inode, next);
    UnheldWithoutEntry(s, inode);
    forall h | h in Holders(s, inode) ensures false {
      assert Holds(s, inode);
    }
    assert Holders(s, inode) == {};
  }

  lemma FoundPlaced(s: State, g: GuardId, fd: Fd, inode: Inode)
    requires Placed(s) && inode !in s.table && fd !in s.open
    ensures Placed(Found(s.(open := s.open[fd := inode]), g, fd, inode))
  {
    var next := Found(s.(open := s.open[fd := inode]), g, fd, inode);
    assert Owned(next.table[inode]) == {fd};
    assert fd !in s.quarantined;
    forall i, d | i in next.table && d in Owned(next.table[i])
      ensures d in next.open && next.open[d] == i && d !in next.quarantined
    {
      if i != inode {
        assert next.table[i] == s.table[i];
        assert d in s.open && s.open[d] == i;
      }
    }
    forall d | d in next.open
      ensures d in next.quarantined || (next.open[d] in next.table && d in Owned(next.table[next.open[d]]))
    {
      if d != fd { assert next.open[d] == s.open[d]; }
    }
  }

  lemma FoundKeeps(s: State, g: GuardId, fd: Fd, inode: Inode)
    requires Inv(s) && g !in s.guards && inode !in s.table && fd !in s.open
    ensures Inv(Found(s.(open := s.open[fd := inode]), g, fd, inode))
  {
    FoundCounted(s, g, fd, inode);
    FoundPlaced(s, g, fd, inode);
    hide Counted, Placed;
    assert inode in Found(s.(open := s.open[fd := inode]), g, fd, inode).table;
  }

  lemma AdoptKeeps(s: State, g: GuardId, fd: Fd, actual: Inode, expected: Inode, c: Calls)
    requires Inv(s) && g !in s.guards && expected !in s.table && fd !in s.open
    requires |s.quarantined| < QUARANTINE_LIMIT
    ensures var (next, ok) := Adopt(s.(open := s.open[fd := actual]), g, fd, actual, expected, c);
            && Inv(next)
            && next.guards == (if ok then s.guards[g := expected] else s.guards)
  {
    hide Inv, Counted, Placed, Holders, Holds, Retire, Release, Sweep, Close;
    RetireKeeps(s, fd, actual, true);
    RetireKeeps(s, fd, actual, c.restat);
    if c.stat.StatSafe? && actual == expected {
      FoundKeeps(s, g, fd, actual);
      var found := Found(s.(open := s.open[fd := actual]), g, fd, actual);
      ReleaseKeeps(found, g);
      assert found.guards == s.guards[g := actual];
      assert found.guards - {g} == s.guards;
    }
  }

  /** The deferred descriptor of a freshly created file is only ever reached through a swapped path. */
  lemma DeferringMeansSwapped(s: State, a: Action)
    requires Inv(s) && Possible(s, a) && a.Acquire? && a.calls.create.Created? && a.calls.look.Safe?
    requires a.calls.look.inode in s.table
    ensures !Steady(a)
  {
    var e := s.table[a.calls.look.inode];
    assert e.descriptor in Owned(e);
    assert s.open[e.descriptor] == a.calls.look.inode;
  }

  ghost predicate Served(s: State, a: Action, result: (State, bool))
    requires a.Acquire?
  {
    && Inv(result.0)
    && result.0.guards ==
         (if result.1 && a.calls.look.Safe? then s.guards[a.guard := a.calls.look.inode] else s.guards)
  }

  lemma CreatedGuardKeeps(s: State, a: Action)
    requires Inv(s) && Possible(s, a) && !Misplaces(s, a) && a.Acquire?
    requires |s.quarantined| < QUARANTINE_LIMIT && a.calls.create.Created?
    ensures Served(s, a, OpenGuard(s, a.guard, a.calls))
  {
    var c, g := a.calls, a.guard;
    hide Inv, Counted, Placed, Holders, Holds, Retire, Release, Sweep, Close, Adopt;
    if c.look.Safe? {
      AdoptKeeps(s, g, c.create.fd, c.create.inode, c.look.inode, c);
    } else {
      RetireKeeps(s, c.create.fd, c.create.inode, c.restat);
    }
  }

  lemma FoundEntryIsJoined(s: State, g: GuardId, c: Calls)
    requires |s.quarantined| < QUARANTINE_LIMIT && c.create.Exists?
    requires c.look.Safe? && c.look.inode in s.table
    ensures OpenGuard(s, g, c) == Settle(Join(s, g, c.look.inode, {}), g, c.fence)
    ensures Join(s, g, c.look.inode, {}).guards == s.guards[g := c.look.inode]
  {
    hide Retire, Release, Sweep, Close, Adopt, Settle;
  }

  lemma JoinedGuardKeeps(s: State, a: Action)
    requires Inv(s) && Possible(s, a) && a.Acquire?
    requires |s.quarantined| < QUARANTINE_LIMIT && a.calls.create.Exists?
    requires a.calls.look.Safe? && a.calls.look.inode in s.table
    ensures Served(s, a, OpenGuard(s, a.guard, a.calls))
  {
    var c, g := a.calls, a.guard;
    hide Inv, Counted, Placed, Holders, Holds, Retire, Release, Sweep, Close, Adopt, OpenGuard, Join;
    var joined := Join(s, g, c.look.inode, {});
    FoundEntryIsJoined(s, g, c);
    JoinKeeps(s, g, c.look.inode);
    ReleaseKeeps(joined, g);
    assert joined.guards - {g} == s.guards;
  }

  lemma OpenedGuardKeeps(s: State, a: Action)
    requires Inv(s) && Possible(s, a) && a.Acquire?
    requires |s.quarantined| < QUARANTINE_LIMIT && a.calls.create.Exists?
    requires a.calls.look.Safe? && a.calls.look.inode !in s.table && a.calls.opening.Opened?
    ensures Served(s, a, OpenGuard(s, a.guard, a.calls))
  {
    var c, g := a.calls, a.guard;
    assert OpenGuard(s, g, c) == Adopt(s.(open := s.open[c.opening.fd := c.opening.inode]),
                                       g, c.opening.fd, c.opening.inode, c.look.inode, c);
    hide Inv, Counted, Placed, Holders, Holds, Retire, Release, Sweep, Close, Adopt, OpenGuard;
    AdoptKeeps(s, g, c.opening.fd, c.opening.inode, c.look.inode, c);
  }

  lemma FoundGuardKeeps(s: State, a: Action)
    requires Inv(s) && Possible(s, a) && a.Acquire?
    requires |s.quarantined| < QUARANTINE_LIMIT && a.calls.create.Exists? && a.calls.look.Safe?
    ensures Served(s, a, OpenGuard(s, a.guard, a.calls))
  {
    if a.calls.look.inode in s.table {
      JoinedGuardKeeps(s, a);
    } else if a.calls.opening.Opened? {
      OpenedGuardKeeps(s, a);
    } else {
      SweepOfInv(s);
    }
  }

  lemma OpenGuardKeeps(s: State, a: Action)
    requires Inv(s) && Possible(s, a) && !Misplaces(s, a) && a.Acquire?
    ensures Served(s, a, OpenGuard(s, a.guard, a.calls))
  {
    if |s.quarantined| < QUARANTINE_LIMIT && a.calls.create.Created? {
      CreatedGuardKeeps(s, a);
    } else if |s.quarantined| < QUARANTINE_LIMIT && a.calls.create.Exists? && a.calls.look.Safe? {
      FoundGuardKeeps(s, a);
    } else {
      SweepOfInv(s);
    }
  }

  lemma ActKeeps(s: State, a: Action)
    requires Inv(s) && Possible(s, a) && !Misplaces(s, a)
    ensures Inv(Act(s, a))
  {
    if a.LetGo? {
      ReleaseKeeps(s, a.guard);
    } else {
      OpenGuardKeeps(s, a);
      ReleaseKeeps(OpenGuard(s, a.guard, a.calls).0, a.guard);
    }
  }

  /**
    Over every run of acquisitions, failing anywhere, and releases, in which no created descriptor is
    misplaced: no close ever drops the locks of an unreleased guard, each entry counts exactly the
    unreleased guards of its inode, the quarantine stays within its limit and is empty while nothing is
    owned.
  */
  lemma {:induction false} GuardsKeepTheirLocks(s: State, actions: seq<Action>)
    requires Inv(s) && Feasible(s, actions) && Careful(s, actions)
    ensures Inv(Run(s, actions))
    decreases |actions|
  {
    if actions != [] {
      ActKeeps(s, actions[0]);
      GuardsKeepTheirLocks(Act(s, actions[0]), actions[1..]);
    }
  }

  /** Once every guard is released, every descriptor the guards ever opened has been closed. */
  lemma NothingLeaksAfterTheLastRelease(actions: seq<Action>)
    requires Feasible(Start, actions) && Careful(Start, actions)
    requires Run(Start, actions).guards == map[]
    ensures Run(Start, actions).open == map[] && Run(Start, actions).quarantined == {}
  {
    GuardsKeepTheirLocks(Start, actions);
    var s := Run(Start, actions);
    assert forall i :: Holders(s, i) == {};
    assert forall i :: i in s.table ==> |Holders(s, i)| > 0;
    assert s.table == map[];
    assert forall fd :: fd !in s.open;
  }

  /** Without a swap of the path nothing is misplaced. */
  lemma {:induction false} SteadyIsCareful(s: State, actions: seq<Action>)
    requires Inv(s) && Feasible(s, actions)
    requires forall i :: 0 <= i < |actions| ==> Steady(actions[i])
    ensures Careful(s, actions)
    decreases |actions|
  {
    if actions != [] {
      if Misplaces(s, actions[0]) { DeferringMeansSwapped(s, actions[0]); }
      ActKeeps(s, actions[0]);
      SteadyIsCareful(Act(s, actions[0]), actions[1..]);
    }
  }

  // ---------------------------------------------------------------- when a guard is handed out

  /** A live guard holds the inode already, or the descriptor just opened is on it and looks safe. */
  predicate Obtains(s: State, c: Calls, inode: Inode) {
    || Holds(s, inode)
    || (c.stat.StatSafe?
        && if c.create.Created? then c.create.inode == inode else c.opening.Opened? && c.opening.inode == inode)
  }

  predicate Admits(s: State, c: Calls) {
    && |s.quarantined| < QUARANTINE_LIMIT && !c.create.Refused? && c.look.Safe? && c.fence
    && Obtains(s, c, c.look.inode)
  }

  lemma EntriesAreHeld(s: State, inode: Inode)
    requires Counted(s)
    ensures inode in s.table <==> Holds(s, inode)
  {
    if inode in s.table {
      var g :| g in Holders(s, inode);
    }
  }

  /** Opening succeeds exactly when the calls admit it. */
  lemma OpensExactly(s: State, g: GuardId, c: Calls)
    requires Counted(s)
    ensures OpenGuard(s, g, c).1 <==> Admits(s, c)
  {
    if c.look.Safe? { EntriesAreHeld(s, c.look.inode); }
    hide Retire, Release, Sweep, Close, Holds, Counted;
  }

  /**
    An acquisition hands out its guard, on the inode that the path names, exactly when the calls admit it
    and the database can be locked; otherwise the guards stay as they were. A release ends one guard.
  */
  lemma AcquiresExactly(s: State, a: Action)
    requires Inv(s) && Possible(s, a)
    ensures Act(s, a).guards ==
              match a
              case LetGo(g) => s.guards - {g}
              case Acquire(g, c, database) =>
                if Admits(s, c) && database then s.guards[g := c.look.inode] else s.guards
  {
    hide Inv, OpenGuard, Release, Misplaces, Possible, Admits;
    match a
    case LetGo(g) => ReleaseKeeps(s, g);
    case Acquire(g, c, database) =>
      InvCounts(s, a);
      OpensExactly(s, g, c);
      if Misplaces(s, a) {
        MisplacedGuards(s, a);
      } else {
        OpenGuardKeeps(s, a);
        var next := OpenGuard(s, g, c).0;
        ReleaseKeeps(next, g);
        assert next.guards - {g} == s.guards;
      }
  }

  lemma InvCounts(s: State, a: Action)
    requires Inv(s) && Possible(s, a)
    ensures Counted(s) && (a.Acquire? ==> a.guard !in s.guards && (Admits(s, a.calls) ==> a.calls.look.Safe?))
  {
  }

  lemma MisplacedGuards(s: State, a: Action)
    requires Inv(s) && Possible(s, a) && Misplaces(s, a)
    ensures Act(s, a).guards
         == if a.calls.fence && a.database then s.guards[a.guard := a.calls.look.inode] else s.guards
    ensures Admits(s, a.calls) <==> a.calls.fence
  {
    var c, g, inode := a.calls, a.guard, a.calls.look.inode;
    var made := s.(open := s.open[c.create.fd := c.create.inode]);
    EntriesAreHeld(s, inode);
    ReleasedHolders(s, made, g, inode, c.create.fd);
    assert OpenGuard(s, g, c) == Settle(Join(made, g, inode, {c.create.fd}), g, c.fence);
    ReleasedAgain(Release(Join(made, g, inode, {c.create.fd}), g), g);
    hide Inv, Release, Join, OpenGuard, Obtains;
  }

  /** A second release of a guard finds nothing to do. */
  lemma ReleasedAgain(s: State, g: GuardId)
    ensures g !in s.guards ==> Release(s, g).guards == s.guards
  {
  }

  /** The descriptor of this acquisition whose inode nobody could tell. */
  function Unknown(s: State, c: Calls): Option<Fd> {
    if |s.quarantined| >= QUARANTINE_LIMIT || c.create.Refused? || c.restat then None
    else if !c.look.Safe? then if c.create.Created? then Some(c.create.fd) else None
    else if Holds(s, c.look.inode) || !c.stat.StatFailed? then None
    else if c.create.Created? then Some(c.create.fd)
    else if c.opening.Opened? then Some(c.opening.fd)
    else None
  }

  /** Only a descriptor whose inode could not be told is ever quarantined. */
  lemma OnlyUnknownIsQuarantined(s: State, a: Action, fd: Fd)
    requires Inv(s) && a.Acquire? && fd in Act(s, a).quarantined
    ensures fd in s.quarantined || Unknown(s, a.calls) == Some(fd)
  {
    var c := a.calls;
    if c.look.Safe? { EntriesAreHeld(s, c.look.inode); }
    var (next, ok) := OpenGuard(s, a.guard, c);
    ReleaseQuarantinesNothing(next, a.guard);
    hide Inv, Counted, Placed, Holds, Retire, Release, Sweep, Close, Adopt, Settle;
    OpeningQuarantines(s, a.guard, c);
  }

  lemma SweepQuarantinesNothing(s: State)
    ensures Sweep(s).quarantined <= s.quarantined
  {
  }

  lemma AdoptQuarantines(s: State, g: GuardId, fd: Fd, actual: Inode, expected: Inode, c: Calls)
    ensures Adopt(s, g, fd, actual, expected, c).0.quarantined
         <= s.quarantined + if c.stat.StatFailed? && !c.restat then {fd} else {}
  {
    RetireQuarantines(s, fd, actual, c.restat);
    RetireQuarantines(s, fd, actual, true);
    ReleaseQuarantinesNothing(Found(s, g, fd, expected), g);
    hide Retire, Release;
  }

  lemma RetireQuarantines(s: State, fd: Fd, inode: Inode, known: bool)
    ensures Retire(s, fd, inode, known).quarantined <= s.quarantined + if known then {} else {fd}
  {
  }

  lemma OpeningQuarantines(s: State, g: GuardId, c: Calls)
    requires c.look.Safe? ==> (c.look.inode in s.table <==> Holds(s, c.look.inode))
    ensures forall fd :: fd in OpenGuard(s, g, c).0.quarantined ==> fd in s.quarantined || Unknown(s, c) == Some(fd)
  {
    hide Retire, Release, Sweep, Close, Adopt, Holds;
    var made := if c.create.Created? then s.(open := s.open[c.create.fd := c.create.inode]) else s;
    SweepQuarantinesNothing(s);
    SweepQuarantinesNothing(made);
    if c.create.Created? {
      RetireQuarantines(made, c.create.fd, c.create.inode, c.restat);
      if c.look.Safe? { AdoptQuarantines(made, g, c.create.fd, c.create.inode, c.look.inode, c); }
    } else if c.opening.Opened? && c.look.Safe? {
      var wider := made.(open := made.open[c.opening.fd := c.opening.inode]);
      AdoptQuarantines(wider, g, c.opening.fd, c.opening.inode, c.look.inode, c);
    }
    if c.look.Safe? && c.look.inode in s.table {
      ReleaseQuarantinesNothing(Join(made, g, c.look.inode, if c.create.Created? then {c.create.fd} else {}), g);
    }
  }

  lemma ReleaseQuarantinesNothing(s: State, g: GuardId)
    ensures Release(s, g).quarantined <= s.quarantined
  {
  }

  // ---------------------------------------------------------------- the condition is exact

  /** Descriptor fd of the held inode `other` waits under the entry of another inode with live guards. */
  ghost predicate Trapped(s: State, inode: Inode, fd: Fd, other: Inode) {
    && inode != other && inode in s.table && fd in s.table[inode].deferred
    && s.table[inode].references == |Holders(s, inode)| > 0
    && fd in s.open && s.open[fd] == other && Holds(s, other)
  }

  lemma TrappedRelease(s: State, inode: Inode, fd: Fd, other: Inode, g: GuardId)
    requires Trapped(s, inode, fd, other) && g in Holders(s, inode)
    ensures if s.table[inode].references > 1
            then Trapped(Release(s, g), inode, fd, other)
                 && |Holders(Release(s, g), inode)| == |Holders(s, inode)| - 1
            else other in Release(s, g).dropped
  {
    var e := s.table[inode];
    var left := s.(guards := s.guards - {g});
    assert Holders(s, inode) == Holders(left, inode) + {g};
    var h :| h in s.guards && s.guards[h] == other;
    assert h in left.guards && left.guards[h] == other;
    if e.references > 1 {
      var next := left.(table := s.table[inode := e.(references := e.references - 1)]);
      assert Release(s, g) == Sweep(next);
      assert inode in next.table && Sweep(next) == next;
      assert Holders(next, inode) == Holders(left, inode);
    } else {
      var gone := left.(table := s.table - {inode});
      assert Holds(gone, other);
      var closed := Close(gone, {e.descriptor} + e.deferred);
      assert fd in {e.descriptor} + e.deferred && gone.open[fd] == other;
      assert other in closed.dropped;
      assert Release(s, g) == Sweep(closed);
    }
  }

  lemma CarefulLetGo(s: State, g: GuardId, rest: seq<Action>)
    requires Feasible(Release(s, g), rest) && Careful(Release(s, g), rest)
    ensures Feasible(s, [LetGo(g)] + rest) && Careful(s, [LetGo(g)] + rest)
    ensures Run(s, [LetGo(g)] + rest) == Run(Release(s, g), rest)
  {
    hide Release;
    var actions := [LetGo(g)] + rest;
    assert actions[0] == LetGo(g) && actions[1..] == rest;
  }

  /** The releases of all guards of that inode drop the locks on the other one. */
  lemma {:induction false} TrappedDrops(s: State, inode: Inode, fd: Fd, other: Inode) returns (actions: seq<Action>)
    requires Trapped(s, inode, fd, other)
    ensures Feasible(s, actions) && Careful(s, actions) && other in Run(s, actions).dropped
    decreases |Holders(s, inode)|
  {
    var g :| g in Holders(s, inode);
    var next := Release(s, g);
    TrappedRelease(s, inode, fd, other, g);
    if s.table[inode].references > 1 {
      actions := TrappedDrops(next, inode, fd, other);
    } else {
      actions := [];
    }
    CarefulLetGo(s, g, actions);
    actions := [LetGo(g)] + actions;
  }

  /** A misplaced descriptor waits under the entry of the named inode, whose guards still count. */
  ghost predicate Waiting(s: State, inode: Inode, fd: Fd, other: Inode) {
    && inode != other && other !in s.table && inode in s.table && fd in s.table[inode].deferred
    && s.table[inode].references == |Holders(s, inode)| > 0
    && fd in s.open && s.open[fd] == other && |s.quarantined| < QUARANTINE_LIMIT
  }

  lemma EntryIsOpen(s: State, i: Inode)
    requires Placed(s) && i in s.table
    ensures s.table[i].descriptor in s.open && s.open[s.table[i].descriptor] == i
  {
    assert s.table[i].descriptor in Owned(s.table[i]);
  }

  lemma MisplacedWaits(s: State, a: Action)
    requires Inv(s) && Possible(s, a) && Misplaces(s, a)
    ensures Waiting(Act(s, a), a.calls.look.inode, a.calls.create.fd, a.calls.create.inode)
  {
    var c, g, inode := a.calls, a.guard, a.calls.look.inode;
    forall i | i in s.table ensures i != c.create.inode {
      EntryIsOpen(s, i);
    }
    var made := s.(open := s.open[c.create.fd := c.create.inode]);
    var joined := Join(made, g, inode, {c.create.fd});
    assert OpenGuard(s, g, c) == Settle(joined, g, c.fence);
    assert Act(s, a) == joined || Act(s, a) == Release(joined, g);
    hide Inv, Placed, Act, OpenGuard, Settle, Misplaces, Possible;
    JoinedHolders(s, made, g, inode, c.create.fd);
    ReleasedHolders(s, made, g, inode, c.create.fd);
  }

  lemma JoinedHolders(s: State, made: State, g: GuardId, inode: Inode, fd: Fd)
    requires inode in s.table && g !in s.guards && made == s.(open := made.open)
    ensures |Holders(Join(made, g, inode, {fd}), inode)| == |Holders(s, inode)| + 1
  {
    HoldersWith(s, g, inode, Join(made, g, inode, {fd}));
  }

  /** Releasing the guard that has just joined leaves the descriptor with the entry. */
  lemma ReleasedHolders(s: State, made: State, g: GuardId, inode: Inode, fd: Fd)
    requires inode in s.table && g !in s.guards && made == s.(open := made.open)
    requires s.table[inode].references > 0
    ensures var back, e := Release(Join(made, g, inode, {fd}), g), s.table[inode];
            && back.table == s.table[inode := e.(deferred := e.deferred + {fd})]
            && back.guards == s.guards && back.open == made.open && back.quarantined == s.quarantined
            && Holders(back, inode) == Holders(s, inode)
  {
    var e := s.table[inode];
    var joined := Join(made, g, inode, {fd});
    assert joined.guards - {g} == s.guards;
    var back := joined.(guards := s.guards, table := joined.table[inode := e.(deferred := e.deferred + {fd})]);
    assert Release(joined, g) == Sweep(back);
    assert inode in back.table && Sweep(back) == back;
    assert back.table == s.table[inode := e.(deferred := e.deferred + {fd})];
    assert Holders(back, inode) == Holders(s, inode);
  }

  lemma {:induction false} Above(used: set<nat>) returns (bound: nat)
    ensures forall n :: n in used ==> n < bound
  {
    if used == {} {
      bound := 0;
    } else {
      var n :| n in used;
      var rest := Above(used - {n});
      bound := if n < rest then rest else n + 1;
      assert forall m :: m in used ==> m == n || m in used - {n};
    }
  }

  /** Somebody takes the created inode, by the ordinary way of opening it. */
  lemma WaitingTraps(s: State, inode: Inode, fd: Fd, other: Inode) returns (a: Action)
    requires Waiting(s, inode, fd, other)
    ensures Possible(s, a) && !Misplaces(s, a) && Trapped(Act(s, a), inode, fd, other)
  {
    var g := Above(s.guards.Keys);
    var d := Above(s.open.Keys);
    a := Acquire(g, Plain(d, other), true);
    var next := Found(s.(open := s.open[d := other]), g, d, other);
    assert Act(s, a) == next;
    assert Holders(next, inode) == Holders(s, inode);
    assert g in next.guards && next.guards[g] == other;
  }

  /** A continuation after which the locks of a live guard are gone. */
  lemma MisplacingDrops(s: State, a: Action) returns (actions: seq<Action>)
    requires Inv(s) && Possible(s, a) && Misplaces(s, a)
    ensures Feasible(Act(s, a), actions) && Careful(Act(s, a), actions)
    ensures a.calls.create.inode in Run(Act(s, a), actions).dropped
  {
    var inode, fd, other := a.calls.look.inode, a.calls.create.fd, a.calls.create.inode;
    MisplacedWaits(s, a);
    var next := Act(s, a);
    hide Act, Waiting, Trapped, Inv, Misplaces;
    var take := WaitingTraps(next, inode, fd, other);
    var rest := TrappedDrops(Act(next, take), inode, fd, other);
    actions := [take] + rest;
    assert actions[0] == take && actions[1..] == rest;
  }

  /**
    In a state in which all is well, an action is harmless in every future if and only if it does not
    misplace a created descriptor: otherwise some careful continuation drops the locks of a live guard.
  */
  lemma LocksAreKeptExactly(s: State, a: Action)
    requires Inv(s) && Possible(s, a)
    ensures !Misplaces(s, a) <==>
              forall actions :: Feasible(Act(s, a), actions) && Careful(Act(s, a), actions) ==>
                Run(Act(s, a), actions).dropped == {}
  {
    if Misplaces(s, a) {
      var actions := MisplacingDrops(s, a);
      assert Run(Act(s, a), actions).dropped != {};
    } else {
      ActKeeps(s, a);
      forall actions | Feasible(Act(s, a), actions) && Careful(Act(s, a), actions)
        ensures Run(Act(s, a), actions).dropped == {}
      {
        GuardsKeepTheirLocks(Act(s, a), actions);
      }
    }
  }

  // ---------------------------------------------------------------- a run with a swapped path

  function Plain(fd: Fd, inode: Inode): Calls {
    Calls(Exists, Safe(inode), Opened(fd, inode), StatSafe, true, true)
  }

  /** Guard 0 takes inode 1; guard 1's path is swapped; guard 9 takes inode 2; guards 0 and 1 let go. */
  function SwapActions(): seq<Action> {
    [Acquire(0, Plain(10, 1), true),
     Acquire(1, Calls(Created(20, 2), Safe(1), NotOpened, StatSafe, true, true), true),
     Acquire(9, Plain(30, 2), true),
     LetGo(0),
     LetGo(1)]
  }

  /** The states of that run: descriptor 20 of inode 2 ends up deferred under inode 1. */
  function SwapState(n: nat): State {
    if n == 0 then Start
    else if n == 1 then State(map[1 := Entry(10, 1, {})], {}, map[10 := 1], map[0 := 1], {})
    else if n == 2 then
      State(map[1 := Entry(10, 2, {20})], {}, map[10 := 1, 20 := 2], map[0 := 1, 1 := 1], {})
    else
      State(map[1 := Entry(10, if n == 3 then 2 else 1, {20}), 2 := Entry(30, 1, {})], {},
            map[10 := 1, 20 := 2, 30 := 2], if n == 3 then map[0 := 1, 1 := 1, 9 := 2] else map[1 := 1, 9 := 2], {})
  }

  lemma SwapStep(n: nat)
    requires n < 4
    ensures Act(SwapState(n), SwapActions()[n]) == SwapState(n + 1)
    ensures Possible(SwapState(n), SwapActions()[n])
  {
    if n == 3 { assert map[0 := 1, 1 := 1, 9 := 2] - {0} == map[1 := 1, 9 := 2]; }
  }

  lemma LastLetGo()
    ensures var end := Act(SwapState(4), SwapActions()[4]);
            9 in end.guards && end.guards[9] == 2 && end.dropped == {2}
    ensures Possible(SwapState(4), SwapActions()[4])
  {
    var s := SwapState(4);
    var gone := s.(guards := s.guards - {1}, table := s.table - {1});
    assert 2 in gone.table;
    assert 9 in gone.guards && gone.guards[9] == 2;
    assert Holds(gone, 2) && !Holds(gone, 1);
    var closed := Close(gone, {10} + {20});
    assert 20 in {10} + {20} && gone.open[20] == 2;
    assert closed.dropped == {2};
  }

  lemma {:induction false} RunFromStage(n: nat)
    requires n <= 4
    ensures Feasible(SwapState(n), SwapActions()[n..])
    ensures Run(SwapState(n), SwapActions()[n..]) == Act(SwapState(4), SwapActions()[4])
    decreases 4 - n
  {
    hide Act, SwapState, Possible;
    var rest := SwapActions()[n..];
    assert rest[0] == SwapActions()[n] && rest[1..] == SwapActions()[n + 1..];
    if n < 4 {
      SwapStep(n);
      RunFromStage(n + 1);
    } else {
      LastLetGo();
      assert rest[1..] == [];
    }
  }

  /**
    Such a run: when the path is swapped between the exclusive create and the lstat,
    the last release of one inode drops the locks that guard 9 still holds on another.
  */
  lemma SwappedPathDropsLocks()
    ensures Feasible(Start, SwapActions()) && !Steady(SwapActions()[1])
    ensures var end := Run(Start, SwapActions());
            9 in end.guards && end.guards[9] == 2 && end.dropped == {2}
  {
    RunFromStage(0);
    LastLetGo();
    assert SwapActions()[0..] == SwapActions();
    assert SwapState(0) == Start;
    hide Act, Run;
  }
}
