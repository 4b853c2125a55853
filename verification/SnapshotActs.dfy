/**
  What restoring a snapshot does to the names of a directory (src/runtime/snapshot-blob.ts). Outside
  writers change names between the awaits, so a run is a record of the names at each instant at which
  this code looks or acts, and of the calls that reject. Its acts are its own changes of names.
*/
module SnapshotActs {
  import opened Options

  type Path = string
  type Inode = nat
  type Names = map<Path, Inode>

  datatype LinkOutcome = Linked | LinkUnsupported | LinkFailed

  /** The names before and after a change that this code made. */
  datatype Act = Act(before: Names, after: Names)

  /** removeSnapshotTemporary: the names at its lstat and at its unlink. */
  datatype Removing = Removing(look: Names, lookRejects: bool, now: Names, unlinkRejects: bool)

  /** The names at the exclusive create, the file created there, and the removal if copying fails. */
  datatype Copying = Copying(atCreate: Names, rejects: bool, output: Inode, copied: bool, removing: Removing)

  datatype Publishing = Publishing(atLink: Names, link: LinkOutcome, copying: Copying)

  /** The temporary is copied, published unless a call before that rejects, and removed. */
  datatype Restoring = Restoring(copying: Copying, publishing: Option<Publishing>, removing: Removing)

  predicate SameName(before: Names, now: Names, path: Path) {
    (path in now <==> path in before) && (path in now ==> now[path] == before[path])
  }

  predicate Bound(before: Names, now: Names, path: Path, inode: Option<Inode>) {
    now == if inode.Some? then before[path := inode.value] else before
  }

  predicate Removed(before: Names, now: Names, path: Path) {
    now == before - {path}
  }

  lemma BoundSelf(names: Names, path: Path)
    ensures Bound(names, names, path, None)
  {
  }

  lemma BoundElsewhere(before: Names, now: Names, path: Path, inode: Option<Inode>, other: Path)
    requires Bound(before, now, path, inode) && other != path
    ensures other in now <==> other in before
    ensures inode == None ==> Bound(before, now, other, None)
  {
  }

  lemma BoundAndRemoved(before: Names, mid: Names, now: Names, path: Path, inode: Inode)
    requires path !in before && Bound(before, mid, path, Some(inode)) && Removed(mid, now, path)
    ensures Bound(before, now, path, None)
  {
  }

  /** A free name was bound, then perhaps another, and then the first was removed. */
  lemma BoundBetween(
    before: Names, first: Names, second: Names, now: Names, path: Path, inode: Inode, to: Path, other: Option<Inode>)
    requires path !in before && path != to && Bound(before, first, path, Some(inode))
    requires Bound(first, second, to, other) && Removed(second, now, path)
    ensures Bound(before, now, to, other)
  {
  }

  // ---------------------------------------------------------------- the run

  predicate Unlinks(path: Path, identity: Inode, r: Removing) {
    !r.lookRejects && path in r.look && r.look[path] == identity && path in r.now && !r.unlinkRejects
  }

  function RemovalActs(path: Path, identity: Inode, r: Removing): seq<Act> {
    if Unlinks(path, identity, r) then [Act(r.now, r.now - {path})] else []
  }

  predicate RemovalOk(path: Path, identity: Inode, r: Removing) {
    !r.lookRejects && (path !in r.look || Unlinks(path, identity, r))
  }

  predicate Creates(path: Path, c: Copying) {
    !c.rejects && path !in c.atCreate
  }

  predicate Copied(path: Path, c: Copying) {
    Creates(path, c) && c.copied
  }

  /** copySnapshotBlob, and the exclusive copy of publishSnapshotNoReplace. */
  function CopyActs(path: Path, c: Copying): seq<Act> {
    if !Creates(path, c) then []
    else [Act(c.atCreate, c.atCreate[path := c.output])]
         + if c.copied then [] else RemovalActs(path, c.output, c.removing)
  }

  lemma NotCopied(path: Path, c: Copying)
    requires !c.copied
    ensures !Copied(path, c)
  {
  }

  /** A copy that was created and not removed yet ends as a success, or with this removal. */
  lemma CopyEnds(path: Path, c: Copying, removing: Removing)
    requires Creates(path, c) && !c.copied && c.removing.lookRejects
    ensures CopyActs(path, c.(copied := true)) == CopyActs(path, c) && Copied(path, c.(copied := true))
    ensures CopyActs(path, c.(removing := removing)) == CopyActs(path, c) + RemovalActs(path, c.output, removing)
    ensures !Copied(path, c.(removing := removing))
  {
  }

  predicate Links(destination: Path, p: Publishing) {
    p.link.Linked? && destination !in p.atLink
  }

  /** publishSnapshotNoReplace: only an unsupported link falls back to the copy. */
  function PublicationActs(destination: Path, source: Inode, p: Publishing): seq<Act> {
    if Links(destination, p) then [Act(p.atLink, p.atLink[destination := source])]
    else if p.link.LinkUnsupported? then CopyActs(destination, p.copying)
    else []
  }

  function Published(destination: Path, source: Inode, p: Publishing): Option<Inode> {
    if Links(destination, p) then Some(source)
    else if p.link.LinkUnsupported? && Copied(destination, p.copying) then Some(p.copying.output)
    else None
  }

  function RestorationActs(temporary: Path, destination: Path, r: Restoring): seq<Act> {
    CopyActs(temporary, r.copying)
    + if !Copied(temporary, r.copying) then []
      else (if r.publishing.Some? then PublicationActs(destination, r.copying.output, r.publishing.value) else [])
           + RemovalActs(temporary, r.copying.output, r.removing)
  }

  function Restored(temporary: Path, destination: Path, r: Restoring): Option<Inode> {
    if Copied(temporary, r.copying) && r.publishing.Some?
    then Published(destination, r.copying.output, r.publishing.value)
    else None
  }

  /** Nobody else touches the random name of the temporary. */
  predicate KeepsPrivate(temporary: Path, r: Restoring) {
    && SameName(r.copying.removing.look, r.copying.removing.now, temporary)
    && SameName(r.removing.look, r.removing.now, temporary)
  }

  // ---------------------------------------------------------------- what it never does

  /** No name that stays is given another file. */
  predicate ReplacesNothing(act: Act) {
    forall p :: p in act.before && p in act.after ==> act.after[p] == act.before[p]
  }

  /** A free name is given this file, and no other name changes. */
  predicate Binds(act: Act, path: Path, inode: Inode) {
    path !in act.before && act.after == act.before[path := inode]
  }

  /** The name of a file that this code did not create is removed. */
  predicate Takes(act: Act, path: Path, created: set<Inode>) {
    path in act.before && path !in act.after && act.before[path] !in created
  }

  function Created(r: Restoring): set<Inode> {
    {r.copying.output} + if r.publishing.Some? then {r.publishing.value.copying.output} else {}
  }

  /**
    In every run, whatever rejects and whatever others do between the awaits, no name is given another
    file; the destination is bound, by link or by copy, only at an instant at which it is free, and a
    restoration that publishes nothing leaves it as it was except for the removal of its own copy.
  */
  lemma RestorationReplacesNothing(temporary: Path, destination: Path, r: Restoring)
    requires temporary != destination
    ensures forall act :: act in RestorationActs(temporary, destination, r) ==> ReplacesNothing(act)
    ensures forall act :: act in RestorationActs(temporary, destination, r) && destination in act.after
              ==> SameName(act.before, act.after, destination)
                  || exists inode :: inode in Created(r) && Binds(act, destination, inode)
    ensures Restored(temporary, destination, r).Some? ==>
              exists act :: act in RestorationActs(temporary, destination, r)
                            && Binds(act, destination, Restored(temporary, destination, r).value)
  {
    if r.publishing.Some? {
      var p, source := r.publishing.value, r.copying.output;
      var acts := PublicationActs(destination, source, p);
      if Published(destination, source, p).Some? {
        assert Binds(acts[0], destination, Published(destination, source, p).value);
      }
      if Restored(temporary, destination, r).Some? { assert acts[0] in RestorationActs(temporary, destination, r); }
      forall act | act in acts && destination in act.after
        ensures exists inode :: inode in Created(r) && Binds(act, destination, inode)
      {
        assert Binds(act, destination, source) || Binds(act, destination, p.copying.output);
      }
    }
  }

  /** A destination that is taken when this code would bind it, by link and by copy, is never touched. */
  lemma TakenDestinationStays(temporary: Path, destination: Path, r: Restoring)
    requires temporary != destination
    requires r.publishing.Some? ==>
               destination in r.publishing.value.atLink && destination in r.publishing.value.copying.atCreate
    ensures Restored(temporary, destination, r) == None
    ensures forall act :: act in RestorationActs(temporary, destination, r) ==>
              SameName(act.before, act.after, destination)
  {
  }

  /**
    The removal after a failed exclusive copy looks and then unlinks, with an await in between: it
    unlinks whatever the destination names by then.
  */
  predicate RemovesAnothers(temporary: Path, destination: Path, r: Restoring) {
    && Copied(temporary, r.copying) && r.publishing.Some?
    && var p := r.publishing.value;
       && p.link.LinkUnsupported? && Creates(destination, p.copying) && !p.copying.copied
       && Unlinks(destination, p.copying.output, p.copying.removing)
       && p.copying.removing.now[destination] !in Created(r)
  }

  /** A removal takes the name of another's file only if the name has changed hands since the lstat. */
  lemma RemovalTakes(path: Path, identity: Inode, r: Removing, created: set<Inode>)
    requires identity in created
    ensures forall act, p :: act in RemovalActs(path, identity, r) && Takes(act, p, created) ==>
              p == path && Unlinks(path, identity, r) && r.now[path] !in created && !SameName(r.look, r.now, path)
  {
  }

  /** The same for a copy: binding a free name takes nothing. */
  lemma CopyTakes(path: Path, c: Copying, created: set<Inode>)
    requires c.output in created
    ensures forall act, p :: act in CopyActs(path, c) && Takes(act, p, created) ==>
              && p == path && Creates(path, c) && !c.copied && Unlinks(path, c.output, c.removing)
              && c.removing.now[path] !in created && !SameName(c.removing.look, c.removing.now, path)
  {
    RemovalTakes(path, c.output, c.removing, created);
    hide Unlinks, SameName;
  }

  lemma PublicationTakes(destination: Path, source: Inode, p: Publishing, created: set<Inode>)
    requires p.copying.output in created
    ensures forall act, path :: act in PublicationActs(destination, source, p) && Takes(act, path, created) ==>
              && path == destination && p.link.LinkUnsupported? && Creates(destination, p.copying) && !p.copying.copied
              && Unlinks(destination, p.copying.output, p.copying.removing)
              && p.copying.removing.now[destination] !in created
  {
    CopyTakes(destination, p.copying, created);
    hide Unlinks, SameName, CopyActs, Creates;
  }

  lemma RestorationTakesOnly(temporary: Path, destination: Path, r: Restoring, act: Act, path: Path)
    requires KeepsPrivate(temporary, r) && act in RestorationActs(temporary, destination, r)
    requires Takes(act, path, Created(r))
    ensures RemovesAnothers(temporary, destination, r) && path == destination
  {
    CopyTakes(temporary, r.copying, Created(r));
    RemovalTakes(temporary, r.copying.output, r.removing, Created(r));
    if r.publishing.Some? {
      PublicationTakes(destination, r.copying.output, r.publishing.value, Created(r));
    }
    hide Takes, Unlinks, SameName, CopyActs, PublicationActs, RemovalActs;
  }

  lemma RemovalIsTaking(temporary: Path, destination: Path, r: Restoring) returns (act: Act)
    requires RemovesAnothers(temporary, destination, r)
    ensures act in RestorationActs(temporary, destination, r) && Takes(act, destination, Created(r))
  {
    var c := r.publishing.value.copying;
    act := Act(c.removing.now, c.removing.now - {destination});
    assert act == RemovalActs(destination, c.output, c.removing)[0];
    hide RemovalActs, Unlinks;
    assert act in CopyActs(destination, c);
    assert act in PublicationActs(destination, r.copying.output, r.publishing.value);
  }

  /**
    A restoration removes the name of somebody else's file if and only if its removal of the exclusive
    copy still saw that copy and the destination was given to another file before the unlink. The
    temporary is never the name of another file.
  */
  lemma RestorationTakesExactly(temporary: Path, destination: Path, r: Restoring)
    requires temporary != destination && KeepsPrivate(temporary, r)
    ensures (exists act, path :: act in RestorationActs(temporary, destination, r) && Takes(act, path, Created(r)))
            <==> RemovesAnothers(temporary, destination, r)
    ensures forall act, path :: act in RestorationActs(temporary, destination, r) && Takes(act, path, Created(r))
              ==> path == destination
  {
    hide *;
    if RemovesAnothers(temporary, destination, r) {
      var act := RemovalIsTaking(temporary, destination, r);
    }
    forall act, path | act in RestorationActs(temporary, destination, r) && Takes(act, path, Created(r))
      ensures RemovesAnothers(temporary, destination, r) && path == destination
    {
      RestorationTakesOnly(temporary, destination, r, act, path);
    }
  }

  /**
    A run on a disk without links: the exclusive copy 2 of the destination fails, its removal sees it, and
    before the unlink somebody moves their file 9 there. The name of file 9 is removed.
  */
  lemma RacingRemovalTakesAnothersFile() returns (r: Restoring)
    ensures KeepsPrivate(".f.rollback", r)
    ensures r.publishing.Some? && "f" !in r.publishing.value.atLink && "f" !in r.publishing.value.copying.atCreate
    ensures exists act :: act in RestorationActs(".f.rollback", "f", r) && Takes(act, "f", Created(r))
  {
    var empty: Names := map[];
    var staged: Names := map[".f.rollback" := 1];
    var copied: Names := staged["f" := 2];
    var raced: Names := staged["f" := 9];
    var calm := Removing(empty, false, empty, false);
    var removing := Removing(copied, false, raced, false);
    var publishing := Publishing(staged, LinkUnsupported, Copying(staged, false, 2, false, removing));
    r := Restoring(Copying(empty, false, 1, true, calm), Some(publishing), Removing(staged, false, staged, false));
    assert Unlinks("f", 2, removing) && raced["f"] == 9 && 9 !in Created(r);
    assert RemovesAnothers(".f.rollback", "f", r);
    RestorationTakesExactly(".f.rollback", "f", r);
  }
}
