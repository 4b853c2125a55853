/**
  Rollback copies (src/runtime/snapshot-blob.ts). Calls may fail, reads and writes may be short, and others
  act at every await, on all but the `secret` random names and the `guarded` files, which have only such
  names. A changed file has a later stamp (its times). Digests are injective.

  `trace` records the disk after every step, ours or not; `Acts` are our changes of names in it. On a `calm`
  disk no call fails and nobody else acts, but reads and writes are still short and links may be
  unsupported.
*/
module SnapshotCopy {
  import opened Options
  import opened SnapshotActs

  newtype Byte = x: int | 0 <= x < 256
  type Bytes = seq<Byte>
  type Files = map<Inode, File>

  datatype Digest = Sha256(bytes: Bytes)
  datatype Owner = Owner(uid: nat, gid: nat)
  datatype File = File(bytes: Bytes, mode: nat, owner: Owner, stamp: nat)
  datatype Snapshot = Snapshot(digest: Digest, size: nat, mode: nat, owner: Owner)

  /** The disk after a step of this code or of others. */
  datatype Moment = Moment(names: Names, files: Files, mine: bool)

  const CHUNK_SIZE := 1024 * 1024
  const PRIVATE_MODE := 0x180

  /** Files may be added, and files outside `still` changed, with a later stamp. */
  predicate Evolves(before: Files, now: Files, still: set<Inode>) {
    && before.Keys <= now.Keys
    && forall i :: i in before ==> now[i] == before[i] || (i !in still && now[i].stamp > before[i].stamp)
  }

  predicate OnlyChanges(before: Files, now: Files, handle: Inode) {
    before.Keys == now.Keys && forall i :: i in before && i != handle ==> now[i] == before[i]
  }

  predicate SameNames(before: Names, now: Names, paths: set<Path>) {
    forall p :: p in paths ==> SameName(before, now, p)
  }

  /** `unchanged` on two results of stat for the same inode. */
  predicate Unchanged(a: File, b: File) {
    |a.bytes| == |b.bytes| && a.stamp == b.stamp
  }

  /** The first n bytes of a file; a gap after its end is filled with zeros. */
  function Head(content: Bytes, n: nat): (head: Bytes)
    ensures |head| == n
  {
    if n <= |content| then content[..n] else content + seq(n - |content|, _ => 0)
  }

  function Tail(content: Bytes, n: nat): Bytes {
    if n <= |content| then content[n..] else []
  }

  /** pwrite of these bytes. */
  function Patched(content: Bytes, bytes: Bytes, position: nat): Bytes {
    if bytes == [] then content else Head(content, position) + bytes + Tail(content, position + |bytes|)
  }

  lemma PatchedTwice(content: Bytes, a: Bytes, b: Bytes, position: nat)
    ensures Patched(Patched(content, a, position), b, position + |a|) == Patched(content, a + b, position)
  {
    if a == [] {
      assert a + b == b;
    } else if b == [] {
      assert a + b == a;
    } else {
      var head, end := Head(content, position), position + |a|;
      var once := head + a + Tail(content, end);
      assert Head(once, end) == head + a;
      assert Tail(once, end + |b|) == Tail(content, end + |b|);
      assert head + a + b == head + (a + b);
    }
  }

  /** Apart from its stamp the file is as before with these bytes at this position. */
  predicate Wrote(before: File, now: File, bytes: Bytes, position: nat) {
    now == before.(bytes := Patched(before.bytes, bytes, position), stamp := now.stamp)
  }

  predicate HasBytes(before: File, now: File, bytes: Bytes) {
    now == before.(bytes := bytes, stamp := now.stamp)
  }

  /** Only the first n of these bytes. */
  predicate WrotePart(before: File, now: File, bytes: Bytes, n: nat, position: nat) {
    n <= |bytes| && Wrote(before, now, bytes[..n], position)
  }

  lemma WroteNone(file: File, bytes: Bytes, position: nat)
    ensures WrotePart(file, file, bytes, 0, position)
  {
  }

  lemma WroteMore(before: File, mid: File, now: File, bytes: Bytes, n: nat, m: nat, position: nat)
    requires WrotePart(before, mid, bytes, n, position)
    requires WrotePart(mid, now, bytes[n..], m, position + n)
    ensures WrotePart(before, now, bytes, n + m, position)
  {
    PatchedTwice(before.bytes, bytes[..n], bytes[n..][..m], position);
    assert bytes[..n] + bytes[n..][..m] == bytes[..n + m];
  }

  /** The snapshot describes the file: its digest, size, mode and owner. */
  predicate IsSnapshotOf(snapshot: Snapshot, file: File) {
    && snapshot.digest == Sha256(file.bytes)
    && snapshot.size == |file.bytes|
    && snapshot.mode == file.mode
    && snapshot.owner == file.owner
  }

  predicate IsContent(file: File, digest: Digest, size: nat) {
    Sha256(file.bytes) == digest && |file.bytes| == size
  }

  predicate IsBlobOf(file: File, snapshot: Snapshot) {
    IsContent(file, snapshot.digest, snapshot.size)
  }

  lemma {:induction false} InodesRunOver(s: set<Inode>) returns (bound: Inode)
    ensures forall i :: i in s ==> i < bound
  {
    if s == {} {
      bound := 0;
    } else {
      var i :| i in s;
      var others := InodesRunOver(s - {i});
      bound := if i < others then others else i + 1;
      assert forall j :: j in s ==> j == i || j in s - {i};
    }
  }

  // ---------------------------------------------------------------- what happened to the names

  ghost function Steps(before: Names, moment: Moment): seq<Act> {
    if moment.mine && moment.names != before then [Act(before, moment.names)] else []
  }

  ghost function OwnActs(trace: seq<Moment>): seq<Act> {
    if |trace| < 2 then []
    else OwnActs(trace[..|trace| - 1]) + Steps(trace[|trace| - 2].names, trace[|trace| - 1])
  }

  ghost predicate NothingReplaced(acts: seq<Act>) {
    forall act :: act in acts ==> ReplacesNothing(act)
  }

  lemma NextStep(trace: seq<Moment>, next: Moment)
    requires trace != []
    ensures OwnActs(trace + [next]) == OwnActs(trace) + Steps(trace[|trace| - 1].names, next)
  {
    assert (trace + [next])[..|trace|] == trace;
  }

  /** The two moments show the same bytes, mode and owner. */
  ghost predicate SameFile(before: Moment, path: Path, now: Moment, destination: Path) {
    && path in before.names && before.names[path] in before.files
    && destination in now.names && now.names[destination] in now.files
    && var a, b := before.files[before.names[path]], now.files[now.names[destination]];
       a.bytes == b.bytes && a.mode == b.mode && a.owner == b.owner
  }

  lemma RestoredIsCaptured(snapshot: Snapshot, before: Moment, path: Path, now: Moment, destination: Path)
    requires Shows(before, path, snapshot) && Shows(now, destination, snapshot)
    ensures SameFile(before, path, now, destination)
  {
  }

  /** Between the ends of two records this code changed no name. */
  ghost predicate Quiet(before: seq<Moment>, now: seq<Moment>) {
    before <= now && OwnActs(now) == OwnActs(before)
  }

  /**
    This code writes to the file and changes no names, and others act: not on `still` files and secret
    names, and on a calm disk not at all.
  */
  ghost predicate Passes(
    calm: bool, before: seq<Moment>, now: seq<Moment>, secret: set<Path>, still: set<Inode>, handle: Inode) {
    && before != [] && Quiet(before, now)
    && var a, b := before[|before| - 1], now[|now| - 1];
       && Evolves(a.files, b.files, still) && SameNames(a.names, b.names, secret)
       && (calm ==> b.names == a.names && OnlyChanges(a.files, b.files, handle))
  }

  lemma PassesSelf(calm: bool, trace: seq<Moment>, secret: set<Path>, still: set<Inode>, handle: Inode)
    requires trace != []
    ensures Passes(calm, trace, trace, secret, still, handle)
  {
  }

  lemma PassesOn(
    calm: bool, before: seq<Moment>, mid: seq<Moment>, now: seq<Moment>, secret: set<Path>, still: set<Inode>,
    handle: Inode)
    requires Passes(calm, before, mid, secret, still, handle) && Passes(calm, mid, now, secret, still, handle)
    ensures Passes(calm, before, now, secret, still, handle)
  {
  }

  /** At this moment the path names this inode, a file like the given one. */
  ghost predicate ShowsCopy(moment: Moment, path: Path, inode: Inode, file: File) {
    && path in moment.names && moment.names[path] == inode && inode in moment.files
    && moment.files[inode].bytes == file.bytes
    && moment.files[inode].mode == file.mode && moment.files[inode].owner == file.owner
  }

  /** Others act, and this code on new files and its `own`. */
  ghost predicate Beside(
    calm: bool, before: seq<Moment>, now: seq<Moment>, secret: set<Path>, still: set<Inode>, own: set<Inode>) {
    && before != [] && before <= now
    && var a, b := before[|before| - 1], now[|now| - 1];
       && Evolves(a.files, b.files, still) && SameNames(a.names, b.names, secret)
       && (calm ==> forall i :: i in a.files && i !in own ==> b.files[i] == a.files[i])
  }

  lemma BesideSelf(calm: bool, trace: seq<Moment>, secret: set<Path>, still: set<Inode>, own: set<Inode>)
    requires trace != []
    ensures Beside(calm, trace, trace, secret, still, own)
  {
  }

  lemma BesideNames(
    calm: bool, before: seq<Moment>, now: seq<Moment>, secret: set<Path>, still: set<Inode>, own: set<Inode>)
    requires Beside(calm, before, now, secret, still, own)
    ensures before <= now && SameNames(before[|before| - 1].names, now[|now| - 1].names, secret)
  {
  }

  lemma NoCopyActs(path: Path, c: Copying)
    requires c.rejects
    ensures CopyActs(path, c) == [] && !Copied(path, c)
  {
  }

  lemma PassesBeside(
    calm: bool, before: seq<Moment>, mid: seq<Moment>, now: seq<Moment>, few: set<Path>, secret: set<Path>,
    still: set<Inode>, guarded: set<Inode>, handle: Inode, own: set<Inode>)
    requires Beside(calm, before, mid, few, still, own) && Passes(calm, mid, now, secret, guarded, handle)
    requires handle in own || handle !in before[|before| - 1].files
    requires few <= secret && still <= guarded
    ensures Beside(calm, before, now, few, still, own)
  {
  }

  lemma BesideKeeps(
    calm: bool, before: seq<Moment>, now: seq<Moment>, secret: set<Path>, still: set<Inode>,
    own: set<Inode>, i: Inode)
    requires Beside(calm, before, now, secret, still, own) && i in still && i in before[|before| - 1].files
    ensures before <= now && i in now[|now| - 1].files && now[|now| - 1].files[i] == before[|before| - 1].files[i]
  {
  }

  lemma PassesNames(
    calm: bool, before: seq<Moment>, now: seq<Moment>, secret: set<Path>, still: set<Inode>, handle: Inode)
    requires Passes(calm, before, now, secret, still, handle)
    ensures Quiet(before, now) && SameNames(before[|before| - 1].names, now[|now| - 1].names, secret)
    ensures calm ==> now[|now| - 1].names == before[|before| - 1].names
  {
  }

  lemma BesideOn(
    calm: bool, before: seq<Moment>, mid: seq<Moment>, now: seq<Moment>, few: set<Path>, secret: set<Path>,
    still: set<Inode>, guarded: set<Inode>, own: set<Inode>, others: set<Inode>)
    requires Beside(calm, before, mid, few, still, own) && Beside(calm, mid, now, secret, guarded, others)
    requires few <= secret && still <= guarded
    requires forall i :: i in others ==> i in own || i !in before[|before| - 1].files
    ensures Beside(calm, before, now, few, still, own)
  {
  }

  /** The copy has the hashed bytes, which are the first of the source unless it has changed. */
  ghost predicate Follows(files: Files, source: Inode, metadata: File, copy: Inode, hashed: Bytes) {
    && source in files && copy in files && files[copy].bytes == hashed
    && (files[source] == metadata || files[source].stamp > metadata.stamp)
    && (files[source] == metadata ==> hashed <= metadata.bytes)
  }

  lemma FollowsCalm(
    calm: bool, before: seq<Moment>, now: seq<Moment>, secret: set<Path>, still: set<Inode>, source: Inode,
    metadata: File, copy: Inode, hashed: Bytes)
    requires Passes(calm, before, now, secret, still, copy) && source != copy
    requires Follows(now[|now| - 1].files, source, metadata, copy, hashed)
    ensures calm ==> now[|now| - 1].names == before[|before| - 1].names
    ensures calm && source in before[|before| - 1].files && before[|before| - 1].files[source] == metadata ==>
              now[|now| - 1].files[source] == metadata && |hashed| <= |metadata.bytes|
  {
  }

  /** At this moment the path names a file that the snapshot describes. */
  ghost predicate Shows(moment: Moment, path: Path, snapshot: Snapshot) {
    && path in moment.names && moment.names[path] in moment.files
    && IsSnapshotOf(snapshot, moment.files[moment.names[path]])
  }

  /** Since `before` only secret names changed hands. */
  ghost predicate OnlySecret(before: seq<Act>, now: seq<Act>, secret: set<Path>) {
    && before <= now
    && forall k, p :: |before| <= k < |now| && p !in secret ==> SameName(now[k].before, now[k].after, p)
  }

  lemma OneSecret(before: seq<Act>, now: seq<Act>, act: Act, secret: set<Path>, path: Path)
    requires now == before || now == before + [act]
    requires path in secret
    requires act.after == act.before - {path} || exists i :: Bound(act.before, act.after, path, i)
    ensures OnlySecret(before, now, secret)
  {
  }

  lemma CreatedSecret(before: seq<Act>, now: seq<Act>, path: Path, c: Copying, secret: set<Path>)
    requires path in secret && now == before + CopyActs(path, c) && !c.copied && c.removing.lookRejects
    ensures OnlySecret(before, now, secret)
  {
    if Creates(path, c) {
      assert CopyActs(path, c) == [Act(c.atCreate, c.atCreate[path := c.output])];
    }
  }

  lemma SecretOn(before: seq<Act>, mid: seq<Act>, now: seq<Act>, secret: set<Path>)
    requires OnlySecret(before, mid, secret) && OnlySecret(mid, now, secret)
    ensures OnlySecret(before, now, secret)
  {
  }

  class Disk {
    const calm: bool
    const links: bool
    const secret: set<Path>
    var names: Names
    var files: Files
    var guarded: set<Inode>
    ghost var trace: seq<Moment>

    ghost predicate Valid()
      reads this
    {
      && (forall p :: p in names ==> names[p] in files)
      && guarded <= files.Keys
      && trace != [] && trace[|trace| - 1].names == names && trace[|trace| - 1].files == files
      && NothingReplaced(Acts())
    }

    /** Every change of a name that this code has made so far. */
    ghost function Acts(): seq<Act>
      reads this
    {
      OwnActs(trace)
    }

    predicate CanCapture(path: Path, pending: Path, blob: Path, deadline: nat)
      requires Valid()
      reads this
    {
      path in names && pending !in names && blob !in names && |files[names[path]].bytes| + 1 < deadline
    }

    predicate CanRestore(snapshot: Snapshot, blob: Path, temporary: Path)
      requires Valid()
      reads this
    {
      blob in names && IsBlobOf(files[names[blob]], snapshot) && temporary !in names
    }

    /** The disk after one more step. */
    ghost method Record(mine: bool)
      requires trace != []
      requires var before := trace[|trace| - 1].names;
               mine && names != before ==> ReplacesNothing(Act(before, names))
      requires forall p :: p in names ==> names[p] in files
      requires guarded <= files.Keys && NothingReplaced(Acts())
      modifies `trace
      ensures Valid() && trace == old(trace) + [Moment(names, files, mine)]
      ensures Acts() == old(Acts()) + Steps(old(trace)[|old(trace)| - 1].names, Moment(names, files, mine))
    {
      NextStep(trace, Moment(names, files, mine));
      trace := trace + [Moment(names, files, mine)];
    }

    // -------------------------------------------------------------- what outside writers do

    method Outside()
      requires Valid()
      modifies `names, `files, `trace
      ensures Valid() && Quiet(old(trace), trace)
      ensures Evolves(old(files), files, guarded) && SameNames(old(names), names, secret)
      ensures calm ==> names == old(names) && files == old(files)
    {
      var n: Names := *;
      var f: Files := *;
      if !calm && Evolves(files, f, guarded) && SameNames(names, n, secret) && forall p :: p in n ==> n[p] in f {
        names, files := n, f;
        Record(false);
      }
    }

    // -------------------------------------------------------------- system calls

    /** open(path, "wx", 0600). */
    method CreateExclusive(path: Path, owner: Owner) returns (created: Option<Inode>)
      requires Valid()
      modifies `names, `files, `guarded, `trace
      ensures Valid() && old(trace) <= trace
      ensures created.None? ==>
                names == old(names) && files == old(files) && guarded == old(guarded) && Acts() == old(Acts())
      ensures created.Some? ==>
                && path !in old(names) && created.value !in old(files)
                && names == old(names)[path := created.value]
                && files == old(files)[created.value := File([], PRIVATE_MODE, owner, 0)]
                && guarded == (if path in secret then old(guarded) + {created.value} else old(guarded))
                && Acts() == old(Acts()) + [Act(old(names), names)]
      ensures calm && path !in old(names) ==> created.Some?
    {
      var fails: bool := *;
      if (fails && !calm) || path in names {
        return None;
      }
      ghost var bound := InodesRunOver(files.Keys);
      assert bound !in files.Keys;
      var inode: Inode :| inode !in files.Keys;
      names := names[path := inode];
      files := files[inode := File([], PRIVATE_MODE, owner, 0)];
      if path in secret {
        guarded := guarded + {inode};
      }
      Record(true);
      created := Some(inode);
    }

    method Link(from: Path, to: Path) returns (outcome: LinkOutcome)
      requires Valid()
      modifies `names, `guarded, `trace
      ensures Valid() && old(trace) <= trace
      ensures outcome == Linked ==>
                && from in old(names) && to !in old(names) && names == old(names)[to := old(names)[from]]
                && guarded == (if to in secret then old(guarded) else old(guarded) - {old(names)[from]})
                && Acts() == old(Acts()) + [Act(old(names), names)]
      ensures outcome != Linked ==> names == old(names) && guarded == old(guarded) && Acts() == old(Acts())
      ensures calm && from in old(names) && to !in old(names) ==>
                outcome == if links then Linked else LinkUnsupported
    {
      outcome := *;
      if calm {
        outcome := if links then Linked else LinkUnsupported;
      }
      if outcome == Linked {
        if from in names && to !in names {
          if to !in secret {
            guarded := guarded - {names[from]};
          }
          names := names[to := names[from]];
          Record(true);
        } else {
          outcome := LinkFailed;
        }
      }
    }

    method Unlink(path: Path) returns (ok: bool)
      requires Valid()
      modifies `names, `trace
      ensures Valid() && old(trace) <= trace
      ensures ok ==> path in old(names) && names == old(names) - {path}
      ensures ok ==> Acts() == old(Acts()) + [Act(old(names), names)]
      ensures !ok ==> names == old(names) && Acts() == old(Acts())
      ensures calm && path in old(names) ==> ok
    {
      var fails: bool := *;
      if (fails && !calm) || path !in names {
        return false;
      }
      names := names - {path};
      Record(true);
      ok := true;
    }

    /** A read of at most CHUNK_SIZE bytes; it returns nothing only at the end of the file. */
    method Read(handle: Inode, position: nat) returns (chunk: Bytes)
      requires handle in files
      ensures position < |files[handle].bytes| ==>
                0 < |chunk| <= CHUNK_SIZE && position + |chunk| <= |files[handle].bytes|
                && chunk == files[handle].bytes[position..position + |chunk|]
      ensures position >= |files[handle].bytes| ==> chunk == []
    {
      var bytes := files[handle].bytes;
      if position >= |bytes| {
        return [];
      }
      assert position + 1 <= |bytes|;
      var n: nat :| 0 < n <= CHUNK_SIZE && position + n <= |bytes|;
      chunk := bytes[position..position + n];
    }

    /** A write accepts a part of the bytes, possibly none. */
    method Write(handle: Inode, bytes: Bytes, position: nat) returns (accepted: nat)
      requires Valid() && handle in files
      modifies `files, `trace
      ensures Valid() && Quiet(old(trace), trace)
      ensures accepted <= |bytes| && (calm && bytes != [] ==> accepted > 0)
      ensures OnlyChanges(old(files), files, handle) && files[handle].stamp > old(files)[handle].stamp
      ensures WrotePart(old(files)[handle], files[handle], bytes, accepted, position)
    {
      assert calm && bytes != [] ==> |bytes| > 0;
      accepted :| 0 <= accepted <= |bytes| && (calm && bytes != [] ==> accepted > 0);
      Store(handle, files[handle].(bytes := Patched(files[handle].bytes, bytes[..accepted], position)));
    }

    /** Gives the file a new content or new metadata, and a later stamp. */
    method Store(handle: Inode, file: File)
      requires Valid() && handle in files && file.stamp == files[handle].stamp
      modifies `files, `trace
      ensures Valid() && Quiet(old(trace), trace)
      ensures OnlyChanges(old(files), files, handle)
      ensures files[handle] == file.(stamp := file.stamp + 1)
    {
      files := files[handle := file.(stamp := file.stamp + 1)];
      Record(true);
    }

    // -------------------------------------------------------------- copying

    /** Nobody else writes to this file. */
    ghost predicate Undisturbed(handle: Inode)
      reads this
    {
      calm || handle in guarded
    }

    /** One write, after others have acted. */
    method WriteSome(handle: Inode, bytes: Bytes, position: nat) returns (accepted: nat)
      requires Valid() && handle in files
      modifies `names, `files, `trace
      ensures Valid() && handle in files && accepted <= |bytes| && (calm && bytes != [] ==> accepted > 0)
      ensures Passes(calm, old(trace), trace, secret, guarded - {handle}, handle)
      ensures Undisturbed(handle) ==> WrotePart(old(files)[handle], files[handle], bytes, accepted, position)
    {
      hide OwnActs, NothingReplaced, WrotePart;
      Outside();
      accepted := Write(handle, bytes, position);
    }

    /** The next write of a sequence that began with `start`. */
    method WriteNext(
      handle: Inode, bytes: Bytes, written: nat, position: nat, ghost start: seq<Moment>, ghost before: File)
      returns (accepted: nat)
      requires Valid() && handle in files && written <= |bytes|
      requires Passes(calm, start, trace, secret, guarded - {handle}, handle)
      requires Undisturbed(handle) ==> WrotePart(before, files[handle], bytes, written, position)
      modifies `names, `files, `trace
      ensures Valid() && handle in files && written + accepted <= |bytes|
      ensures calm && written < |bytes| ==> accepted > 0
      ensures Passes(calm, start, trace, secret, guarded - {handle}, handle)
      ensures Undisturbed(handle) ==> WrotePart(before, files[handle], bytes, written + accepted, position)
    {
      hide OwnActs, NothingReplaced, Passes, WrotePart;
      ghost var mid, sofar := trace, files[handle];
      accepted := WriteSome(handle, bytes[written..], position + written);
      PassesOn(calm, start, mid, trace, secret, guarded - {handle}, handle);
      if Undisturbed(handle) {
        WroteMore(before, sofar, files[handle], bytes, written, accepted, position);
      }
    }

    /** writeAll: short writes are continued until nothing is left. */
    method WriteAll(handle: Inode, bytes: Bytes, position: nat) returns (ok: bool, ghost n: nat)
      requires Valid() && handle in files
      modifies `names, `files, `trace
      ensures Valid() && handle in files && n <= |bytes| && (ok ==> n == |bytes|)
      ensures Passes(calm, old(trace), trace, secret, guarded - {handle}, handle)
      ensures Undisturbed(handle) ==> WrotePart(old(files)[handle], files[handle], bytes, n, position)
      ensures calm ==> ok
    {
      var written := 0;
      hide OwnActs, NothingReplaced, WrotePart, Passes;
      WroteNone(files[handle], bytes, position);
      PassesSelf(calm, trace, secret, guarded - {handle}, handle);
      while written < |bytes|
        invariant Valid() && handle in files && written <= |bytes|
        invariant Passes(calm, old(trace), trace, secret, guarded - {handle}, handle)
        invariant Undisturbed(handle) ==> WrotePart(old(files)[handle], files[handle], bytes, written, position)
      {
        var accepted := WriteNext(handle, bytes, written, position, old(trace), old(files)[handle]);
        written := written + accepted;
        if accepted == 0 {
          return false, written;
        }
      }
      return true, written;
    }

    /** copyVerifiedBytes: on success exactly the expected bytes were written to the output. */
    method CopyVerifiedBytes(source: Inode, output: Inode, digest: Digest, size: nat) returns (ok: bool)
      requires Valid() && source in guarded && output in files && source != output
      modifies `names, `files, `trace
      ensures Valid() && Passes(calm, old(trace), trace, secret, guarded - {output}, output)
      ensures ok ==> IsContent(old(files)[source], digest, size)
      ensures calm && IsContent(old(files)[source], digest, size) ==> ok
      ensures output in files
      ensures Undisturbed(output) && ok && old(files)[output].bytes == [] ==>
                HasBytes(old(files)[output], files[output], old(files)[source].bytes)
    {
      var hashed: Bytes := [];
      var more := true;
      PassesSelf(calm, trace, secret, guarded - {output}, output);
      while more
        invariant Valid() && Passes(calm, old(trace), trace, secret, guarded - {output}, output)
        invariant output in files && source in files && files[source] == old(files)[source]
        invariant hashed <= files[source].bytes && (!more ==> hashed == files[source].bytes)
        invariant Undisturbed(output) && old(files)[output].bytes == [] ==>
                    HasBytes(old(files)[output], files[output], hashed)
        decreases |old(files)[source].bytes| - |hashed|, more
      {
        hide OwnActs, NothingReplaced, Passes, HasBytes;
        var aborted: bool := *;
        if aborted && !calm {
          return false;
        }
        var chunk, written := CopyChunk(source, output, hashed, old(trace), old(files)[output]);
        if !written {
          return false;
        }
        hashed := hashed + chunk;
        more := chunk != [];
      }
      ok := |hashed| == size && Sha256(hashed) == digest;
    }

    /** The next chunk of a copy that began with `start`; nothing at the end of the source. */
    method CopyChunk(
      source: Inode, output: Inode, hashed: Bytes, ghost start: seq<Moment>, ghost before: File)
      returns (chunk: Bytes, ok: bool)
      requires Valid() && source in guarded && output in files && source != output && hashed <= files[source].bytes
      requires Passes(calm, start, trace, secret, guarded - {output}, output)
      requires Undisturbed(output) && before.bytes == [] ==> HasBytes(before, files[output], hashed)
      modifies `names, `files, `trace
      ensures Valid() && Passes(calm, start, trace, secret, guarded - {output}, output)
      ensures output in files && source in files && files[source] == old(files)[source]
      ensures hashed + chunk <= files[source].bytes && (chunk == [] ==> hashed == files[source].bytes)
      ensures calm ==> ok
      ensures ok && Undisturbed(output) && before.bytes == [] ==> HasBytes(before, files[output], hashed + chunk)
    {
      hide OwnActs, NothingReplaced;
      ghost var mid, sofar := trace, files[output].bytes;
      chunk := Read(source, |hashed|);
      assert hashed + chunk <= files[source].bytes;
      assert Patched(hashed, chunk, |hashed|) == hashed + chunk && chunk[..|chunk|] == chunk;
      hide Patched;
      var written, _ := WriteAll(output, chunk, |hashed|);
      ok := written;
      PassesOn(calm, start, mid, trace, secret, guarded - {output}, output);
    }

    // -------------------------------------------------------------- capturing

    /**
      stageFileSnapshot: on success the private blob is an exact copy of what the path named at the final
      check, a moment of this call.
    */
    method StageFileSnapshot(path: Path, pending: Path, blob: Path, account: Owner, deadline: nat)
      returns (captured: Option<Snapshot>, ghost checked: nat)
      requires Valid() && path !in secret && pending in secret && blob in secret && pending != blob
      modifies `names, `files, `guarded, `trace
      ensures Valid() && old(trace) <= trace && OnlySecret(old(Acts()), Acts(), secret)
      ensures captured.Some? ==>
                && |old(trace)| <= checked < |trace| && Shows(trace[checked], path, captured.value)
                && blob in names && names[blob] in guarded && IsBlobOf(files[names[blob]], captured.value)
                && pending !in names
      ensures calm && links && old(CanCapture(path, pending, blob, deadline)) ==> captured.Some?
      ensures calm && path in old(names) && captured.None? ==> pending !in names && blob !in names
    {
      hide OwnActs, NothingReplaced, OnlySecret, Evolves, IsBlobOf, Shows;
      OneSecret(Acts(), Acts(), Act(names, names - {pending}), secret, pending);
      if path !in names {
        return None, 0;
      }
      var source := names[path];
      Outside();
      captured, checked := CopyAndKeep(path, pending, blob, source, account, deadline);
      if captured.None? {
        ghost var acts := Acts();
        EmptyDirectory(pending, blob);
        SecretOn(old(Acts()), acts, Acts(), secret);
      }
    }

    /** The private directory is emptied; what cannot be removed stays there. */
    method EmptyDirectory(pending: Path, blob: Path)
      requires Valid() && pending in secret && blob in secret && pending != blob
      modifies `names, `files, `trace
      ensures Valid() && old(trace) <= trace && OnlySecret(old(Acts()), Acts(), secret)
      ensures calm ==> pending !in names && blob !in names
    {
      hide OwnActs, NothingReplaced, OnlySecret, Evolves;
      var first := UnlinkSecret(pending);
      assert pending in secret - {blob};
      ghost var mid := Acts();
      var second := UnlinkSecret(blob);
      SecretOn(old(Acts()), mid, Acts(), secret);
    }

    /** Copies the opened source to the pending name, and that to the blob. */
    method CopyAndKeep(path: Path, pending: Path, blob: Path, source: Inode, account: Owner, deadline: nat)
      returns (captured: Option<Snapshot>, ghost checked: nat)
      requires Valid() && path !in secret && pending in secret && blob in secret && pending != blob
      requires source in files
      modifies `names, `files, `guarded, `trace
      ensures Valid() && old(trace) <= trace && OnlySecret(old(Acts()), Acts(), secret)
      ensures captured.Some? ==>
                && |old(trace)| <= checked < |trace| && Shows(trace[checked], path, captured.value)
                && blob in names && names[blob] in guarded && IsBlobOf(files[names[blob]], captured.value)
                && pending !in names
      ensures (calm && links && old(CanCapture(path, pending, blob, deadline)) && old(names)[path] == source)
          ==> captured.Some?
    {
      hide OwnActs, NothingReplaced, OnlySecret, Shows, CopyActs;
      var metadata := files[source];
      checked := 0;
      var created;
      ghost var c;
      created, c := CreateCopy(pending, account);
      CreatedSecret(old(Acts()), Acts(), pending, c, secret);
      if created.None? {
        return None, 0;
      }
      var copy := created.value;
      captured := CopyCaptured(path, pending, source, copy, metadata, deadline);
      checked := |trace| - 1;
      if captured.Some? {
        ghost var mid := Acts();
        var kept := KeepCopy(pending, blob, copy);
        SecretOn(old(Acts()), mid, Acts(), secret);
        if !kept {
          captured := None;
        }
      }
    }

    /** The copy loop of a capture: an unchanged source was copied byte for byte. */
    method CopyCaptured(
      path: Path, pending: Path, source: Inode, copy: Inode, metadata: File, deadline: nat)
      returns (captured: Option<Snapshot>)
      requires Valid() && copy in guarded && source != copy && Follows(files, source, metadata, copy, [])
      modifies `names, `files, `trace
      ensures Valid() && Passes(calm, old(trace), trace, secret, guarded - {copy}, copy)
      ensures captured.Some? ==>
                && Shows(trace[|trace| - 1], path, captured.value) && names[path] == source
                && IsContent(files[copy], captured.value.digest, captured.value.size)
      ensures (calm && path in names && names[path] == source && old(files)[source] == metadata
               && |metadata.bytes| + 1 < deadline) ==> captured.Some?
    {
      var hashed: Bytes := [];
      var time := deadline;
      PassesSelf(calm, trace, secret, guarded - {copy}, copy);
      var chunk: Option<Bytes> := Some([]);
      while true
        invariant Valid() && Passes(calm, old(trace), trace, secret, guarded - {copy}, copy)
        invariant Follows(files, source, metadata, copy, hashed)
        invariant calm ==> |hashed| + time >= deadline
        decreases time
      {
        hide OwnActs, NothingReplaced, Passes, Follows;
        if time == 0 {
          FollowsCalm(calm, old(trace), trace, secret, guarded - {copy}, source, metadata, copy, hashed);
          return None;
        }
        time := time - 1;
        chunk := CopyNext(source, copy, metadata, hashed, old(trace));
        if chunk.None? {
          return None;
        }
        if chunk.value == [] {
          break;
        }
        hashed := hashed + chunk.value;
      }
      captured := LastCheck(path, source, copy, metadata, hashed, old(trace));
      FollowsCalm(calm, old(trace), trace, secret, guarded - {copy}, source, metadata, copy, hashed);
    }

    /** The next chunk of a copy that began with `start`; nothing at the end of the source. */
    method CopyNext(source: Inode, copy: Inode, metadata: File, hashed: Bytes, ghost start: seq<Moment>)
      returns (chunk: Option<Bytes>)
      requires Valid() && copy in guarded && source != copy && Follows(files, source, metadata, copy, hashed)
      requires Passes(calm, start, trace, secret, guarded - {copy}, copy)
      modifies `names, `files, `trace
      ensures Valid() && Passes(calm, start, trace, secret, guarded - {copy}, copy)
      ensures chunk.Some? ==> Follows(files, source, metadata, copy, hashed + chunk.value)
      ensures calm ==> chunk.Some?
      ensures chunk == Some([]) && files[source] == metadata ==> |hashed| == |metadata.bytes|
    {
      hide OwnActs, NothingReplaced;
      ghost var mid := trace;
      Outside();
      var bytes := Read(source, |hashed|);
      assert files[source] == metadata ==> hashed + bytes <= metadata.bytes;
      assert Patched(hashed, bytes, |hashed|) == hashed + bytes;
      hide Patched;
      var written, _ := WriteAll(copy, bytes, |hashed|);
      assert bytes[..|bytes|] == bytes;
      PassesOn(calm, start, mid, trace, secret, guarded - {copy}, copy);
      chunk := if written then Some(bytes) else None;
    }

    /** The stat of the descriptor and the lstat of the path after the copy. */
    method LastCheck(
      path: Path, source: Inode, copy: Inode, metadata: File, hashed: Bytes, ghost start: seq<Moment>)
      returns (captured: Option<Snapshot>)
      requires Valid() && copy in guarded && source != copy && Follows(files, source, metadata, copy, hashed)
      requires Passes(calm, start, trace, secret, guarded - {copy}, copy)
      modifies `names, `files, `trace
      ensures Valid() && Passes(calm, start, trace, secret, guarded - {copy}, copy)
      ensures Follows(files, source, metadata, copy, hashed)
      ensures captured.Some? ==>
                && Shows(trace[|trace| - 1], path, captured.value) && names[path] == source
                && IsContent(files[copy], captured.value.digest, captured.value.size)
      ensures (calm && path in names && names[path] == source && files[source] == metadata
               && |hashed| == |metadata.bytes|) ==> captured.Some?
    {
      hide OwnActs, NothingReplaced;
      var after := files[source];
      Outside();
      if !Unchanged(metadata, after) || path !in names || names[path] != source
        || !Unchanged(metadata, files[source]) || |hashed| != |metadata.bytes| {
        return None;
      }
      assert hashed == metadata.bytes;
      captured := Some(Snapshot(Sha256(hashed), |hashed|, metadata.mode, metadata.owner));
    }

    /** The pending copy becomes the blob. */
    method KeepCopy(pending: Path, blob: Path, copy: Inode) returns (ok: bool)
      requires Valid() && pending in secret && blob in secret && pending != blob && copy in guarded
      requires pending in names && names[pending] == copy
      modifies `names, `files, `guarded, `trace
      ensures Valid() && old(trace) <= trace && OnlySecret(old(Acts()), Acts(), secret)
      ensures guarded == old(guarded) && files[copy] == old(files)[copy]
      ensures ok ==> pending !in names && blob in names && names[blob] == copy
      ensures calm && links && blob !in old(names) ==> ok
    {
      hide OwnActs, NothingReplaced, OnlySecret;
      ok := LinkSecret(pending, blob, copy);
      assert pending in secret - {blob} && blob in secret - {pending};
      if ok {
        ghost var mid := Acts();
        ok := UnlinkSecret(pending);
        SecretOn(old(Acts()), mid, Acts(), secret);
        Outside();
        var fails: bool := *;
        ok := ok && (calm || !fails);
      }
    }

    method LinkSecret(pending: Path, blob: Path, copy: Inode) returns (ok: bool)
      requires Valid() && pending in secret && blob in secret && pending in names && names[pending] == copy
      requires copy in guarded
      modifies `names, `files, `guarded, `trace
      ensures Valid() && old(trace) <= trace && OnlySecret(old(Acts()), Acts(), secret)
      ensures guarded == old(guarded) && files[copy] == old(files)[copy]
      ensures ok ==> SameNames(old(names), names, secret - {blob}) && blob in names && names[blob] == copy
      ensures calm && links && blob !in old(names) ==> ok
    {
      hide OwnActs, NothingReplaced, OnlySecret;
      Outside();
      ghost var before := names;
      var linked := Link(pending, blob);
      ok := linked == Linked;
      assert Bound(before, names, blob, if ok then Some(copy) else None);
      OneSecret(old(Acts()), Acts(), Act(before, names), secret, blob);
    }

    method UnlinkSecret(path: Path) returns (ok: bool)
      requires Valid() && path in secret
      modifies `names, `files, `trace
      ensures Valid() && old(trace) <= trace && OnlySecret(old(Acts()), Acts(), secret)
      ensures Evolves(old(files), files, guarded) && SameNames(old(names), names, secret - {path})
      ensures ok || calm ==> path !in names
      ensures calm && path in old(names) ==> ok
    {
      hide OwnActs, NothingReplaced, OnlySecret;
      Outside();
      ghost var before := names;
      ok := Unlink(path);
      OneSecret(old(Acts()), Acts(), Act(before, before - {path}), secret, path);
    }

    // -------------------------------------------------------------- restoring

    /** removeSnapshotTemporary: it looks, and then unlinks whatever the name means by then. */
    method RemoveTemporary(path: Path, identity: Inode) returns (ok: bool, ghost r: Removing)
      requires Valid()
      modifies `names, `files, `trace
      ensures Valid() && old(trace) <= trace && Acts() == old(Acts()) + RemovalActs(path, identity, r)
      ensures r.look == old(names) && SameNames(r.look, r.now, secret)
      ensures names == (if Unlinks(path, identity, r) then r.now - {path} else r.now)
      ensures Beside(calm, old(trace), trace, secret - {path}, guarded, {})
      ensures ok == RemovalOk(path, identity, r)
      ensures calm && (path in old(names) ==> old(names)[path] == identity) ==> ok && Removed(old(names), names, path)
    {
      r := Removing(names, false, names, false);
      var fails: bool := *;
      if fails && !calm {
        return false, r.(lookRejects := true);
      }
      if path !in names {
        return true, r;
      }
      if names[path] != identity {
        return false, r;
      }
      Outside();
      r := r.(now := names);
      ok := Unlink(path);
      r := r.(unlinkRejects := !ok && path in r.now);
    }

    /** openSnapshotBlob: the descriptor of a blob whose bytes have just been verified. */
    method OpenSnapshotBlob(blob: Path, snapshot: Snapshot) returns (handle: Option<Inode>)
      requires Valid()
      ensures handle.Some? ==> blob in names && handle.value == names[blob] && IsBlobOf(files[handle.value], snapshot)
      ensures blob in names && IsBlobOf(files[names[blob]], snapshot) ==> handle.Some?
    {
      if blob !in names {
        return None;
      }
      var file := files[names[blob]];
      if |file.bytes| != snapshot.size || Sha256(file.bytes) != snapshot.digest {
        return None;
      }
      handle := Some(names[blob]);
    }

    /** copySnapshotBlob: a verified private copy under a new name, or the new name is removed again. */
    method CopySnapshotBlob(source: Inode, temporary: Path, snapshot: Snapshot, account: Owner)
      returns (copy: Option<Inode>, ghost c: Copying)
      requires Valid() && source in guarded && temporary in secret
      modifies `names, `files, `guarded, `trace
      ensures Valid() && Acts() == old(Acts()) + CopyActs(temporary, c)
      ensures SameName(c.removing.look, c.removing.now, temporary)
      ensures copy == if Copied(temporary, c) then Some(c.output) else None
      ensures copy.Some? ==>
                && c.output !in old(files) && c.output in guarded && IsBlobOf(files[c.output], snapshot)
                && temporary in names && names[temporary] == c.output
      ensures old(guarded) <= guarded && Beside(calm, old(trace), trace, secret - {temporary}, old(guarded), {})
      ensures calm ==> c.atCreate == old(names)
      ensures calm ==> Bound(old(names), names, temporary, copy)
      ensures calm && temporary !in old(names) && IsBlobOf(old(files)[source], snapshot) ==> copy.Some?
    {
      hide OwnActs, NothingReplaced, IsBlobOf, Beside, Passes, CopyActs, RemovalActs, Copied, Unlinks;
      hide RemovalOk, Bound, Removed;
      ghost var few := secret - {temporary};
      var created;
      created, c := CreateCopy(temporary, account);
      if created.None? {
        NotCopied(temporary, c);
        return None, c;
      }
      BesideKeeps(calm, old(trace), trace, few, old(guarded), {}, source);
      var output := created.value;
      ghost var mid := trace;
      var copied := CopyAndSync(source, output, snapshot);
      PassesBeside(calm, old(trace), mid, trace, few, secret, old(guarded), guarded - {output}, output, {});
      PassesNames(calm, mid, trace, secret, guarded - {output}, output);
      CopyEnds(temporary, c, c.removing);
      if copied {
        c := c.(copied := true);
        return created, c;
      }
      mid := trace;
      var removed;
      ghost var removing, staged := c.removing, names;
      removed, removing := RemoveTemporary(temporary, output);
      BesideOn(calm, old(trace), mid, trace, few, few, old(guarded), guarded, {}, {});
      CopyEnds(temporary, c, removing);
      if calm {
        BoundAndRemoved(old(names), staged, names, temporary, output);
      }
      c := c.(removing := removing);
      copy := None;
    }

    /** The exclusive create of a copy that is not written yet. */
    method CreateCopy(path: Path, account: Owner) returns (created: Option<Inode>, ghost c: Copying)
      requires Valid()
      modifies `names, `files, `guarded, `trace
      ensures Valid() && c.removing == Removing(c.atCreate, true, c.atCreate, true) && !c.copied
      ensures Acts() == old(Acts()) + CopyActs(path, c)
      ensures created == if Creates(path, c) then Some(c.output) else None
      ensures created.Some? ==>
                && c.output !in old(files) && c.output in files && files[c.output].bytes == []
                && path in names && names[path] == c.output
      ensures guarded == if created.Some? && path in secret then old(guarded) + {c.output} else old(guarded)
      ensures Beside(calm, old(trace), trace, secret - {path}, old(guarded), {})
      ensures calm ==> c.atCreate == old(names)
      ensures calm ==> Bound(old(names), names, path, created)
      ensures calm && path !in old(names) ==> created.Some?
    {
      hide OwnActs, NothingReplaced;
      Outside();
      c := Copying(names, true, 0, false, Removing(names, true, names, true));
      created := CreateExclusive(path, account);
      if created.Some? {
        c := c.(rejects := false, output := created.value);
      }
    }

    method CopyAndSync(source: Inode, output: Inode, snapshot: Snapshot) returns (ok: bool)
      requires Valid() && source in guarded && output in guarded && source != output && files[output].bytes == []
      modifies `names, `files, `trace
      ensures Valid() && Passes(calm, old(trace), trace, secret, guarded - {output}, output)
      ensures output in files && (ok ==> IsBlobOf(files[output], snapshot))
      ensures calm && IsBlobOf(old(files)[source], snapshot) ==> ok
    {
      hide OwnActs, NothingReplaced;
      ok := CopyVerifiedBytes(source, output, snapshot.digest, snapshot.size);
      Outside();
      var fails: bool := *;
      ok := ok && (calm || !fails);
    }

    /** chown and chmod of an open file. */
    method SetMetadata(handle: Inode, owner: Owner, mode: nat) returns (ok: bool)
      requires Valid() && handle in files
      modifies `names, `files, `trace
      ensures Valid() && Passes(calm, old(trace), trace, secret, guarded - {handle}, handle) && handle in files
      ensures |trace| > |old(trace)| && (calm ==> ok)
      ensures ok && Undisturbed(handle) ==>
                files[handle] == old(files)[handle].(owner := owner, mode := mode, stamp := files[handle].stamp)
    {
      hide OwnActs, NothingReplaced, Passes;
      Change(handle, (file: File) => file.(owner := owner));
      ghost var mid := trace;
      Change(handle, (file: File) => file.(mode := mode));
      PassesOn(calm, old(trace), mid, trace, secret, guarded - {handle}, handle);
      var fails: bool := *;
      ok := calm || !fails;
    }

    method Change(handle: Inode, change: File -> File)
      requires Valid() && handle in files && forall file :: change(file).stamp == file.stamp
      modifies `names, `files, `trace
      ensures Valid() && Passes(calm, old(trace), trace, secret, guarded - {handle}, handle) && handle in files
      ensures |trace| > |old(trace)|
      ensures Undisturbed(handle) ==> files[handle] == change(old(files)[handle]).(stamp := files[handle].stamp)
    {
      hide OwnActs, NothingReplaced;
      Outside();
      Store(handle, change(files[handle]));
    }

    /** The checks of an exclusive copy after its metadata were set. */
    method VerifyOutput(destination: Path, output: Inode, metadata: File, digest: Digest)
      returns (ok: bool, ghost shown: nat)
      requires Valid() && output in files && output !in guarded && Sha256(metadata.bytes) == digest
      modifies `names, `files, `trace
      ensures Valid() && Passes(calm, old(trace), trace, secret, guarded - {output}, output)
      ensures ok ==> |old(trace)| <= shown + 1 <= |trace| && ShowsCopy(trace[shown], destination, output, metadata)
      ensures (calm && destination in names && names[destination] == output
               && HasBytes(metadata, old(files)[output], metadata.bytes)) ==> ok
    {
      hide OwnActs, NothingReplaced, Passes;
      shown := 0;
      ghost var still, first := guarded - {output}, trace;
      var verified := files[output];
      Pause(output);
      var content := files[output].bytes;
      ghost var second := trace;
      Pause(output);
      PassesOn(calm, first, second, trace, secret, still, output);
      var held := files[output];
      second := trace;
      Pause(output);
      PassesOn(calm, first, second, trace, secret, still, output);
      PassesNames(calm, first, trace, secret, still, output);
      var fails: bool := *;
      ok := (calm || !fails) && Sha256(content) == digest && destination in names && names[destination] == output
        && Unchanged(verified, held) && Unchanged(held, files[output])
        && held.mode == metadata.mode && held.owner == metadata.owner;
      if ok {
        shown := |trace| - 1;
        assert files[output] == verified && content == verified.bytes;
      }
    }

    /** Others act; an unchanged stamp of the file means that they left it alone. */
    method Pause(handle: Inode)
      requires Valid() && handle in files
      modifies `names, `files, `trace
      ensures Valid() && Passes(calm, old(trace), trace, secret, guarded - {handle}, handle) && handle in files
      ensures files[handle] == old(files)[handle] || files[handle].stamp > old(files)[handle].stamp
      ensures calm ==> files[handle] == old(files)[handle]
    {
      hide OwnActs, NothingReplaced;
      Outside();
    }

    /** From the exclusively created output to a complete, verified file under the destination. */
    method FillOutput(destination: Path, source: Inode, output: Inode, digest: Digest, size: nat)
      returns (ok: bool, ghost shown: nat)
      requires Valid() && source in guarded && output in files && output !in guarded && files[output].bytes == []
      modifies `names, `files, `trace
      ensures Valid() && Passes(calm, old(trace), trace, secret, guarded - {output}, output)
      ensures ok ==>
                |old(trace)| <= shown < |trace| && ShowsCopy(trace[shown], destination, output, old(files)[source])
      ensures (calm && destination in old(names) && old(names)[destination] == output
               && IsContent(old(files)[source], digest, size)) ==> ok
    {
      hide OwnActs, NothingReplaced, ShowsCopy, Passes;
      var metadata := files[source];
      shown := 0;
      ok := CopyVerifiedBytes(source, output, digest, size);
      if !ok {
        return;
      }
      PassesNames(calm, old(trace), trace, secret, guarded - {output}, output);
      ghost var mid := trace;
      ok := SetMetadata(output, metadata.owner, metadata.mode);
      PassesNames(calm, mid, trace, secret, guarded - {output}, output);
      PassesOn(calm, old(trace), mid, trace, secret, guarded - {output}, output);
      if !ok {
        return;
      }
      mid := trace;
      ok, shown := VerifyOutput(destination, output, metadata, digest);
      PassesNames(calm, mid, trace, secret, guarded - {output}, output);
      PassesOn(calm, old(trace), mid, trace, secret, guarded - {output}, output);
    }

    /** The fallback of a publication: an exclusive copy, which is removed again when it fails. */
    method CopyToDestination(
      destination: Path, source: Inode, digest: Digest, size: nat, account: Owner)
      returns (published: Option<Inode>, ghost c: Copying, ghost shown: nat)
      requires Valid() && destination !in secret && source in guarded
      modifies `names, `files, `guarded, `trace
      ensures Valid() && Acts() == old(Acts()) + CopyActs(destination, c)
      ensures published == if Copied(destination, c) then Some(c.output) else None
      ensures guarded == old(guarded) && Beside(calm, old(trace), trace, secret, guarded, {})
      ensures published.Some? ==>
                && |old(trace)| <= shown < |trace|
                && ShowsCopy(trace[shown], destination, published.value, old(files)[source])
      ensures calm ==> Bound(old(names), names, destination, published)
      ensures calm && destination !in old(names) && IsContent(old(files)[source], digest, size) ==> published.Some?
      ensures calm && destination in old(names) ==> published.None?
    {
      hide OwnActs, NothingReplaced, IsContent, ShowsCopy, Beside, Passes, CopyActs, RemovalActs, Copied, Unlinks;
      hide RemovalOk, Bound, Removed;
      shown := 0;
      assert secret - {destination} == secret;
      var created;
      created, c := CreateCopy(destination, account);
      if created.None? {
        NotCopied(destination, c);
        return None, c, shown;
      }
      BesideKeeps(calm, old(trace), trace, secret, guarded, {}, source);
      var output := created.value;
      ghost var mid := trace;
      assert guarded - {output} == guarded;
      var filled;
      filled, shown := FillOutput(destination, source, output, digest, size);
      PassesBeside(calm, old(trace), mid, trace, secret, secret, guarded, guarded, output, {});
      PassesNames(calm, mid, trace, secret, guarded, output);
      CopyEnds(destination, c, c.removing);
      if filled {
        c := c.(copied := true);
        return created, c, shown;
      }
      mid := trace;
      var removed;
      ghost var removing, staged := c.removing, names;
      removed, removing := RemoveTemporary(destination, output);
      BesideOn(calm, old(trace), mid, trace, secret, secret, guarded, guarded, {}, {});
      CopyEnds(destination, c, removing);
      if calm {
        BoundAndRemoved(old(names), staged, names, destination, output);
      }
      c := c.(removing := removing);
      published := None;
    }

    /**
      publishSnapshotNoReplace: a link, or a copy to an exclusively created path. When it succeeds there
      is a moment at which the destination, free just before, names a file like the temporary.
    */
    method PublishNoReplace(
      temporary: Path, destination: Path, source: Inode, digest: Digest, size: nat, account: Owner)
      returns (published: Option<Inode>, ghost p: Publishing, ghost shown: nat)
      requires Valid() && temporary in secret && destination !in secret && source in guarded
      requires temporary in names && names[temporary] == source
      modifies `names, `files, `guarded, `trace
      ensures Valid() && Acts() == old(Acts()) + PublicationActs(destination, source, p)
      ensures published == Published(destination, source, p)
      ensures published.Some? ==>
                && |old(trace)| <= shown < |trace|
                && ShowsCopy(trace[shown], destination, published.value, old(files)[source])
      ensures Beside(calm, old(trace), trace, secret, old(guarded) - {source}, {})
      ensures old(guarded) - {source} <= guarded
      ensures calm ==> Bound(old(names), names, destination, published)
      ensures calm && destination !in old(names) && IsContent(old(files)[source], digest, size) ==> published.Some?
      ensures calm && destination in old(names) ==> published.None?
    {
      hide OwnActs, NothingReplaced, IsContent, Beside, ShowsCopy, CopyActs, Bound;
      shown := 0;
      var outcome;
      outcome, p := LinkDestination(temporary, destination, source);
      published := None;
      BoundSelf(names, destination);
      if outcome == Linked {
        shown := |trace| - 1;
        published := Some(source);
      } else if outcome == LinkUnsupported {
        ghost var mid, c := trace, p.copying;
        published, c, shown := CopyToDestination(destination, source, digest, size, account);
        p := p.(copying := c);
        BesideOn(calm, old(trace), mid, trace, secret, secret, old(guarded) - {source}, guarded, {}, {});
      }
    }

    /** The attempt to link; an unsupported link leaves everything to the copy. */
    method LinkDestination(temporary: Path, destination: Path, source: Inode)
      returns (outcome: LinkOutcome, ghost p: Publishing)
      requires Valid() && temporary in secret && destination !in secret && source in guarded
      requires temporary in names && names[temporary] == source
      modifies `names, `files, `guarded, `trace
      ensures Valid() && |old(trace)| <= |trace| && p.link == outcome
      ensures outcome.Linked? ==>
                && Links(destination, p) && |old(trace)| < |trace|
                && ShowsCopy(trace[|trace| - 1], destination, source, old(files)[source])
      ensures Acts() == old(Acts()) + if outcome.Linked? then PublicationActs(destination, source, p) else []
      ensures Beside(calm, old(trace), trace, secret, old(guarded) - {source}, {})
      ensures source in files && files[source] == old(files)[source]
      ensures guarded == if outcome.Linked? then old(guarded) - {source} else old(guarded)
      ensures calm && outcome.Linked? ==> Bound(old(names), names, destination, Some(source))
      ensures calm && !outcome.Linked? ==> names == old(names)
      ensures calm && destination !in old(names) ==> !outcome.LinkFailed?
      ensures calm && destination in old(names) ==> !outcome.Linked?
    {
      hide OwnActs, NothingReplaced;
      Outside();
      ghost var before := names;
      outcome := Link(temporary, destination);
      p := Publishing(before, outcome, Copying(before, true, 0, false, Removing(before, true, before, true)));
    }

    /** From the private copy to the destination; `p` is None when a call before the publication rejects. */
    method PublishCopy(temporary: Path, destination: Path, output: Inode, snapshot: Snapshot, account: Owner)
      returns (published: Option<Inode>, ghost p: Option<Publishing>, ghost shown: nat)
      requires Valid() && temporary in secret && destination !in secret && output in guarded
      requires temporary in names && names[temporary] == output && IsBlobOf(files[output], snapshot)
      modifies `names, `files, `guarded, `trace
      ensures Valid()
      ensures Acts() == old(Acts()) + (if p.Some? then PublicationActs(destination, output, p.value) else [])
      ensures published == if p.Some? then Published(destination, output, p.value) else None
      ensures published.Some? ==>
                && |old(trace)| <= shown < |trace| && Shows(trace[shown], destination, snapshot)
                && trace[shown].names[destination] == published.value
      ensures Beside(calm, old(trace), trace, secret, old(guarded) - {output}, {output})
      ensures old(guarded) - {output} <= guarded
      ensures calm ==> Bound(old(names), names, destination, published)
      ensures calm ==> (published.Some? <==> destination !in old(names))
    {
      hide OwnActs, NothingReplaced, Passes, Beside, PublicationActs;
      shown, published, p := 0, None, None;
      ghost var still := guarded - {output};
      BesideSelf(calm, trace, secret, still, {output});
      var changed := SetMetadata(output, snapshot.owner, snapshot.mode);
      PassesNames(calm, old(trace), trace, secret, still, output);
      PassesBeside(calm, old(trace), old(trace), trace, secret, secret, still, still, output, {output});
      if changed {
        ghost var mid, q := trace, *;
        published, q, shown :=
          PublishNoReplace(temporary, destination, output, snapshot.digest, snapshot.size, account);
        p := Some(q);
        BesideOn(calm, old(trace), mid, trace, secret, secret, still, still, {output}, {});
      }
    }

    /** Publishes the private copy and removes its temporary name. */
    method PublishTemporary(temporary: Path, destination: Path, output: Inode, snapshot: Snapshot, account: Owner)
      returns (published: Option<Inode>, removed: bool, ghost p: Option<Publishing>, ghost r: Removing,
               ghost shown: nat)
      requires Valid() && temporary in secret && destination !in secret && output in guarded
      requires temporary in names && names[temporary] == output && IsBlobOf(files[output], snapshot)
      modifies `names, `files, `guarded, `trace
      ensures Valid() && SameName(r.look, r.now, temporary)
      ensures Acts() == old(Acts()) + ((if p.Some? then PublicationActs(destination, output, p.value) else [])
                                       + RemovalActs(temporary, output, r))
      ensures published == if p.Some? then Published(destination, output, p.value) else None
      ensures published.Some? ==>
                && |old(trace)| <= shown < |trace| && Shows(trace[shown], destination, snapshot)
                && trace[shown].names[destination] == published.value
      ensures removed ==> temporary !in names
      ensures Beside(calm, old(trace), trace, secret - {temporary}, old(guarded) - {output}, {output})
      ensures calm ==> removed && (published.Some? <==> destination !in old(names))
      ensures calm ==> exists n :: Bound(old(names), n, destination, published) && Removed(n, names, temporary)
    {
      hide OwnActs, NothingReplaced, IsBlobOf, PublicationActs, Beside, Shows;
      ghost var few, still := secret - {temporary}, guarded - {output};
      published, p, shown := PublishCopy(temporary, destination, output, snapshot, account);
      BesideNames(calm, old(trace), trace, secret, still, {output});
      BesideSelf(calm, old(trace), few, still, {output});
      BesideOn(calm, old(trace), old(trace), trace, few, secret, still, still, {output}, {output});
      ghost var mid := trace;
      removed, r := RemoveTemporary(temporary, output);
      BesideOn(calm, old(trace), mid, trace, few, few, still, guarded, {output}, {});
      BesideNames(calm, mid, trace, few, guarded, {});
    }

    /**
      restoreSnapshotBlob: when it succeeds there is a moment of this call at which the destination, free
      just before, names a file with exactly the captured bytes, mode and owner.
    */
    method RestoreSnapshotBlob(
      snapshot: Snapshot, blob: Path, temporary: Path, destination: Path, account: Owner)
      returns (ok: bool, ghost r: Restoring, ghost shown: nat)
      requires Valid() && temporary in secret && destination !in secret && (blob in names ==> names[blob] in guarded)
      modifies `names, `files, `guarded, `trace
      ensures Valid() && old(trace) <= trace && KeepsPrivate(temporary, r)
      ensures Acts() == old(Acts()) + RestorationActs(temporary, destination, r)
      ensures ok ==>
                && Restored(temporary, destination, r).Some? && temporary !in names
                && |old(trace)| <= shown < |trace| && Shows(trace[shown], destination, snapshot)
                && trace[shown].names[destination] == Restored(temporary, destination, r).value
      ensures Beside(calm, old(trace), trace, secret - {temporary}, old(guarded), {})
      ensures calm ==> Bound(old(names), names, destination, if ok then Restored(temporary, destination, r) else None)
      ensures calm && destination in old(names) ==> !ok
      ensures calm && destination !in old(names) && old(CanRestore(snapshot, blob, temporary)) ==> ok
    {
      hide OwnActs, NothingReplaced, IsBlobOf, CopyActs, PublicationActs, RemovalActs, Beside, Shows, Bound, Removed;
      BesideSelf(calm, trace, secret - {temporary}, guarded, {});
      shown, ok := 0, false;
      r := Restoring(
        Copying(names, true, 0, false, Removing(names, true, names, true)), None, Removing(names, true, names, true));
      NoCopyActs(temporary, r.copying);
      BoundSelf(names, destination);
      var source := OpenSnapshotBlob(blob, snapshot);
      if source.None? {
        return;
      }
      ghost var few, still := secret - {temporary}, guarded;
      var copy;
      ghost var c;
      copy, c := CopySnapshotBlob(source.value, temporary, snapshot, account);
      r := r.(copying := c);
      if calm {
        BoundElsewhere(old(names), names, temporary, copy, destination);
      }
      BesideNames(calm, old(trace), trace, few, still, {});
      if copy.Some? {
        ghost var mid, staged, held, publishing, removing := trace, names, guarded - {copy.value}, None, r.removing;
        var published, removed;
        published, removed, publishing, removing, shown :=
          PublishTemporary(temporary, destination, copy.value, snapshot, account);
        r := r.(publishing := publishing, removing := removing);
        BesideOn(calm, old(trace), mid, trace, few, few, still, held, {}, {copy.value});
        var synced: bool := *;
        ok := published.Some? && (synced || calm) && removed;
        if calm {
          ghost var n :| Bound(staged, n, destination, published) && Removed(n, names, temporary);
          BoundBetween(old(names), staged, n, names, temporary, copy.value, destination, published);
        }
      }
      BesideNames(calm, old(trace), trace, few, still, {});
    }

    /** A capture and a later restoration, as when a deletion is rolled back, with others acting in between. */
    method CaptureThenRestore(
      path: Path, pending: Path, blob: Path, temporary: Path, destination: Path, account: Owner, deadline: nat)
      returns (ok: bool, ghost checked: nat, ghost shown: nat)
      requires Valid() && path !in secret && destination !in secret
      requires pending in secret && blob in secret && temporary in secret && pending != blob
      modifies `names, `files, `guarded, `trace
      ensures Valid()
      ensures ok ==>
                && |old(trace)| <= checked < shown < |trace|
                && SameFile(trace[checked], path, trace[shown], destination)
    {
      hide OwnActs, NothingReplaced, Evolves, IsBlobOf, SameFile, Shows, RestorationActs, OnlySecret;
      ok, shown := false, 0;
      var captured;
      captured, checked := StageFileSnapshot(path, pending, blob, account, deadline);
      if captured.Some? {
        Outside();
        ghost var mid := trace;
        ghost var r;
        ok, r, shown := RestoreSnapshotBlob(captured.value, blob, temporary, destination, account);
        assert mid <= trace;
        if ok {
          RestoredIsCaptured(captured.value, trace[checked], path, trace[shown], destination);
        }
      }
    }
  }
}
