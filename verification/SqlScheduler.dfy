/**
  The single-worker scheduler of the PostgreSQL adapter (src/runtime/sql-postgres.ts). Requests
  queue behind at most one worker; count and byte reservations are held until the worker's
  retirement is confirmed, however requests, aborts, timeouts, messages, errors, exits and
  termination results interleave. Every callback is one step up to its next await.
*/
module SqlScheduler {
  type Id = nat

  datatype Outcome = Verdict(valid: bool) | Unavailable | Unsupported | Cancelled

  /** What creating the worker does: it runs, the factory throws, or posting the request throws. */
  datatype Spawn = Runs | FactoryThrows | PostThrows

  /** `Running` until an exit event or a resolved termination confirms that the thread is gone. */
  datatype Worker = NoWorker | Running | Dead

  /** The race between the termination and its timer inside the settle continuation. */
  datatype Race = NoRace | Undecided | Decided(retired: bool)

  datatype Task = Task(
    bytes: nat, spawn: Spawn, terminateThrows: bool,
    settled: bool, released: bool, worker: Worker, terminating: bool, race: Race,
    result: Outcome, delivered: seq<Outcome>)

  datatype Limits = Limits(maxPending: nat, maxOutstandingBytes: nat, maxSourceBytes: nat)

  datatype State = State(tasks: seq<Task>, queue: seq<Id>, active: set<Id>, pending: int, bytes: int)

  const Idle := State([], [], {}, 0, 0)

  datatype Event =
    | Submit(bytes: nat, supported: bool, aborted: bool, spawn: Spawn, terminateThrows: bool)
    | Abort(id: Id)
    | Timeout(id: Id)
    | Message(id: Id, valid: bool)
    | WorkerError(id: Id)
    | Exit(id: Id)
    | TerminationResolved(id: Id)
    | TerminationRejected(id: Id)
    | RetirementTimeout(id: Id)
    | Continue(id: Id)

  // ---------------------------------------------------------------- the adapter's methods

  function Put(s: State, id: Id, t: Task): State
    requires id < |s.tasks|
  {
    s.(tasks := s.tasks[id := t])
  }

  function Deliver(s: State, id: Id, outcome: Outcome): (r: State)
    ensures |r.tasks| == |s.tasks|
  {
    if id < |s.tasks| then
      Put(s, id, s.tasks[id].(delivered := s.tasks[id].delivered + [outcome]))
    else s
  }

  /** #release without the dispatch that follows it. */
  function Free(s: State, id: Id): State
    requires id < |s.tasks|
  {
    var t := s.tasks[id];
    State(s.tasks[id := t.(released := true)], s.queue, s.active - {id}, s.pending - 1, s.bytes - t.bytes)
  }

  function Without(queue: seq<Id>, id: Id): seq<Id> {
    if queue == [] then []
    else if queue[0] == id then queue[1..]
    else [queue[0]] + Without(queue[1..], id)
  }

  /** The start of a retirement: terminate may itself throw, which counts as not retired. */
  function Retiring(t: Task, result: Outcome): Task {
    t.(settled := true, result := result, terminating := !t.terminateThrows,
       race := if t.terminateThrows then Decided(false) else Undecided)
  }

  /** #dispatch; a factory that throws settles its task on the spot and dispatches the next. */
  function Dispatch(s: State): (r: State)
    ensures |r.tasks| == |s.tasks|
    decreases |s.queue|
  {
    if s.active != {} || s.queue == [] then s
    else
      var id := s.queue[0];
      var next := s.(queue := s.queue[1..]);
      if id >= |s.tasks| || s.tasks[id].settled then Dispatch(next)
      else
        var t := s.tasks[id];
        var taken := next.(active := {id});
        match t.spawn
        case Runs => Put(taken, id, t.(worker := Running))
        case PostThrows => Put(taken, id, Retiring(t.(worker := Running), Unavailable))
        case FactoryThrows =>
          Deliver(Dispatch(Free(Put(taken, id, t.(settled := true, result := Unavailable)), id)), id, Unavailable)
  }

  function Release(s: State, id: Id): (r: State)
    ensures |r.tasks| == |s.tasks|
  {
    if id >= |s.tasks| || s.tasks[id].released then s else Dispatch(Free(s, id))
  }

  function Settle(s: State, id: Id, result: Outcome): State {
    if id >= |s.tasks| || s.tasks[id].settled then s
    else
      var t := s.tasks[id];
      var cut := s.(queue := Without(s.queue, id));
      if t.worker != NoWorker && !t.released then Put(cut, id, Retiring(t, result))
      else Deliver(Release(Put(cut, id, t.(settled := true, result := result)), id), id, result)
  }

  /** The worker thread is known to be gone: an exit event or a resolved termination. */
  function Confirm(s: State, id: Id): State
    requires id < |s.tasks|
  {
    Put(s, id, s.tasks[id].(worker := Dead))
  }

  function Decide(s: State, id: Id, retired: bool): (r: State)
    requires id < |s.tasks|
    ensures |r.tasks| == |s.tasks|
  {
    if s.tasks[id].race == Undecided then Put(s, id, s.tasks[id].(race := Decided(retired))) else s
  }

  function Fits(limits: Limits, s: State, bytes: nat): bool {
    bytes <= limits.maxSourceBytes && s.pending < limits.maxPending && s.bytes + bytes <= limits.maxOutstandingBytes
  }

  function Enqueued(s: State, e: Event): State
    requires e.Submit?
  {
    var task := Task(e.bytes, e.spawn, e.terminateThrows, false, false, NoWorker, false, NoRace, Unavailable, []);
    State(s.tasks + [task], s.queue + [|s.tasks|], s.active, s.pending + 1, s.bytes + e.bytes)
  }

  /** validate: the immediate answer of a request that is not queued, if any. */
  function Refusal(limits: Limits, s: State, e: Event): seq<Outcome>
    requires e.Submit?
  {
    if !e.supported then [Unsupported] else if !Fits(limits, s, e.bytes) then [Unavailable] else []
  }

  function Step(limits: Limits, s: State, e: Event): State {
    if e.Submit? then
      if Refusal(limits, s, e) != [] then s
      else
        var queued := Enqueued(s, e);
        Dispatch(if e.aborted then Settle(queued, |s.tasks|, Cancelled) else queued)
    else if e.id >= |s.tasks| then s
    else
      var t := s.tasks[e.id];
      match e
      case Abort(id) => Settle(s, id, Cancelled)
      case Timeout(id) => Settle(s, id, Unavailable)
      case Message(id, valid) => if t.worker == NoWorker then s else Settle(s, id, Verdict(valid))
      case WorkerError(id) => if t.worker == NoWorker then s else Settle(s, id, Unavailable)
      case Exit(id) => if t.worker == NoWorker then s else Settle(Release(Confirm(s, id), id), id, Unavailable)
      case TerminationResolved(id) =>
        if !t.terminating then s
        else Release(Confirm(Decide(Put(s, id, t.(terminating := false)), id, true), id), id)
      case TerminationRejected(id) =>
        if !t.terminating then s else Decide(Put(s, id, t.(terminating := false)), id, false)
      case RetirementTimeout(id) => Decide(s, id, false)
      case Continue(id) =>
        if t.race.Decided? && t.delivered == [] then
          Deliver(s, id, if t.result == Cancelled then Cancelled
                         else if t.race.retired then t.result else Unavailable)
        else s
  }

  function Run(limits: Limits, s: State, events: seq<Event>): State
    decreases |events|
  {
    if events == [] then s else Run(limits, Step(limits, s, events[0]), events[1..])
  }

  // ---------------------------------------------------------------- the invariant

  ghost function Unreleased(tasks: seq<Task>): nat {
    if tasks == [] then 0
    else Unreleased(tasks[..|tasks| - 1]) + (if tasks[|tasks| - 1].released then 0 else 1)
  }

  ghost function Reserved(tasks: seq<Task>): nat {
    if tasks == [] then 0
    else Reserved(tasks[..|tasks| - 1]) + (if tasks[|tasks| - 1].released then 0 else tasks[|tasks| - 1].bytes)
  }

  /** A task in the middle of a settlement: released, its promise still open. */
  ghost predicate Owed(t: Task) {
    t.released && t.delivered == [] && t.race == NoRace && !t.terminating && t.worker != Running
  }

  ghost predicate TaskOk(t: Task, queued: bool, active: bool) {
    && (t.released <==> !queued && !active)
    && !(queued && active)
    && (queued ==> !t.settled && t.worker == NoWorker)
    && (active ==> t.worker == Running)
    && (t.worker == Running ==> active)
    && (t.settled <==> t.race != NoRace || t.delivered != [])
    && |t.delivered| <= 1
    && (t.delivered != [] && t.race != NoRace ==> t.race.Decided?)
    && (t.race == NoRace ==> !t.terminating && (t.settled <==> t.released))
    && (t.race != NoRace ==> t.worker != NoWorker)
    && (t.race == Undecided ==> t.terminating)
    && (t.race == Decided(true) ==> t.worker == Dead)
    && (t.delivered != [] && t.delivered[0].Verdict? ==> t.worker == Dead)
  }

  /** Everything but the queue's claim to an active task; `owed` tasks are being settled. */
  ghost predicate Sound(limits: Limits, s: State, owed: set<Id>) {
    && (forall id :: 0 <= id < |s.tasks| && id !in owed ==> TaskOk(s.tasks[id], id in s.queue, id in s.active))
    && (forall id :: id in owed ==> id < |s.tasks| && Owed(s.tasks[id]) && id !in s.queue && id !in s.active)
    && (forall id :: id in s.queue ==> id < |s.tasks|)
    && Distinct(s.queue)
    && (forall id :: id in s.active ==> id < |s.tasks|)
    && (forall a, b :: a in s.active && b in s.active ==> a == b)
    && s.pending == Unreleased(s.tasks) <= limits.maxPending
    && s.bytes == Reserved(s.tasks) <= limits.maxOutstandingBytes
  }

  ghost predicate Inv(limits: Limits, s: State) {
    Sound(limits, s, {}) && (s.queue != [] ==> s.active != {})
  }

  lemma {:induction false} Updated(tasks: seq<Task>, id: Id, t: Task)
    requires id < |tasks| && t.bytes == tasks[id].bytes
    ensures Unreleased(tasks[id := t]) + (if tasks[id].released then 0 else 1)
         == Unreleased(tasks) + (if t.released then 0 else 1)
    ensures Reserved(tasks[id := t]) + (if tasks[id].released then 0 else t.bytes)
         == Reserved(tasks) + (if t.released then 0 else t.bytes)
  {
    var n := |tasks| - 1;
    if id < n {
      Updated(tasks[..n], id, t);
      assert tasks[id := t][..n] == tasks[..n][id := t];
    } else {
      assert tasks[id := t][..n] == tasks[..n];
    }
  }

  function Held(t: Task): nat { if t.released then 0 else 1 }

  function HeldBytes(t: Task): nat { if t.released then 0 else t.bytes }

  ghost predicate Distinct(queue: seq<Id>) {
    forall i, k :: 0 <= i < k < |queue| ==> queue[i] != queue[k]
  }

  /** One task changes, together with its own place in the queue and the active set. */
  lemma ChangeOne(limits: Limits, s: State, n: State, id: Id, owed: set<Id>, owed': set<Id>)
    requires Sound(limits, s, owed) && id < |s.tasks| == |n.tasks|
    requires n.tasks == s.tasks[id := n.tasks[id]] && n.tasks[id].bytes == s.tasks[id].bytes
    requires forall k :: k != id ==> (k in n.queue <==> k in s.queue) && (k in n.active <==> k in s.active)
    requires Distinct(n.queue) && forall a, b :: a in n.active && b in n.active ==> a == b
    requires forall k :: k != id ==> (k in owed' <==> k in owed)
    requires if id in owed' then Owed(n.tasks[id]) && id !in n.queue && id !in n.active
             else TaskOk(n.tasks[id], id in n.queue, id in n.active)
    requires n.pending == s.pending + Held(n.tasks[id]) - Held(s.tasks[id]) <= limits.maxPending
    requires n.bytes == s.bytes + HeldBytes(n.tasks[id]) - HeldBytes(s.tasks[id]) <= limits.maxOutstandingBytes
    ensures Sound(limits, n, owed')
  {
    Updated(s.tasks, id, n.tasks[id]);
    hide TaskOk, Owed;
    forall k | 0 <= k < |n.tasks| && k !in owed'
      ensures TaskOk(n.tasks[k], k in n.queue, k in n.active)
    {
      if k != id { assert TaskOk(s.tasks[k], k in s.queue, k in s.active); }
    }
  }

  lemma {:induction false} WithoutOne(queue: seq<Id>, id: Id)
    requires Distinct(queue)
    ensures Distinct(Without(queue, id))
    ensures forall k :: k in Without(queue, id) <==> k in queue && k != id
  {
    if queue != [] {
      WithoutOne(queue[1..], id);
      assert queue == [queue[0]] + queue[1..];
      assert queue[0] !in queue[1..];
      assert Without(queue, id) == if queue[0] == id then queue[1..] else [queue[0]] + Without(queue[1..], id);
    }
  }

  /** Paying an owed promise. */
  lemma DeliverKeeps(limits: Limits, s: State, id: Id, outcome: Outcome, owed: set<Id>)
    requires Sound(limits, s, owed) && id in owed && s.tasks[id].settled
    requires outcome.Verdict? ==> s.tasks[id].worker == Dead
    ensures Sound(limits, Deliver(s, id, outcome), owed - {id})
  {
    ChangeOne(limits, s, Deliver(s, id, outcome), id, owed, owed - {id});
  }

  ghost predicate SameOutside(s: State, n: State, queue: seq<Id>) {
    && |n.tasks| == |s.tasks|
    && forall id :: 0 <= id < |s.tasks| && id !in queue ==> n.tasks[id] == s.tasks[id]
  }

  ghost predicate Dispatched(limits: Limits, s: State, n: State, owed: set<Id>) {
    && Sound(limits, n, owed)
    && (n.queue != [] ==> n.active != {})
    && SameOutside(s, n, s.queue)
  }

  /** Taking the head of the queue, up to the point where its worker exists or its factory threw. */
  lemma TakeHead(limits: Limits, s: State, owed: set<Id>, n: State)
    requires Sound(limits, s, owed) && s.active == {} && s.queue != []
    requires var id := s.queue[0];
             && id < |s.tasks| && |n.tasks| == |s.tasks|
             && n.tasks == s.tasks[id := n.tasks[id]] && n.tasks[id].bytes == s.tasks[id].bytes
             && n.queue == s.queue[1..]
             && (if n.tasks[id].released then Owed(n.tasks[id]) && n.active == {}
                 else TaskOk(n.tasks[id], false, true) && n.active == {id})
             && n.pending == s.pending + Held(n.tasks[id]) - Held(s.tasks[id])
             && n.bytes == s.bytes + HeldBytes(n.tasks[id]) - HeldBytes(s.tasks[id])
    ensures Sound(limits, n, if n.tasks[s.queue[0]].released then owed + {s.queue[0]} else owed)
    ensures s.queue[0] !in owed
  {
    var id := s.queue[0];
    assert id in s.queue;
    assert TaskOk(s.tasks[id], true, false);
    assert s.queue == [id] + s.queue[1..];
    ChangeOne(limits, s, n, id, owed, if n.tasks[id].released then owed + {id} else owed);
  }

  lemma {:induction false} DispatchKeeps(limits: Limits, s: State, owed: set<Id>)
    requires Sound(limits, s, owed)
    ensures Dispatched(limits, s, Dispatch(s), owed)
    decreases |s.queue|
  {
    if s.active == {} && s.queue != [] {
      var id := s.queue[0];
      assert id in s.queue;
      assert TaskOk(s.tasks[id], true, false);
      var t := s.tasks[id];
      var taken := s.(queue := s.queue[1..], active := {id});
      match t.spawn
      case Runs =>
        TakeHead(limits, s, owed, Put(taken, id, t.(worker := Running)));
      case PostThrows =>
        TakeHead(limits, s, owed, Put(taken, id, Retiring(t.(worker := Running), Unavailable)));
      case FactoryThrows =>
        var freed := Free(Put(taken, id, t.(settled := true, result := Unavailable)), id);
        assert freed.tasks[id] == t.(settled := true, result := Unavailable, released := true);
        assert freed.active == {};
        TakeHead(limits, s, owed, freed);
        DispatchKeeps(limits, freed, owed + {id});
        var next := Dispatch(freed);
        assert id !in freed.queue && next.tasks[id] == freed.tasks[id];
        DeliverKeeps(limits, next, id, Unavailable, owed + {id});
        assert owed + {id} - {id} == owed;
    }
  }

  /** A queued task leaves the queue settled, and its promise is paid at once. */
  lemma SettleQueued(limits: Limits, s: State, id: Id, result: Outcome)
    requires Sound(limits, s, {}) && id in s.queue && !result.Verdict?
    ensures Inv(limits, Settle(s, id, result))
    ensures SameOutside(s, Settle(s, id, result), s.queue)
  {
    var t := s.tasks[id];
    assert TaskOk(t, true, false);
    var cut := s.(queue := Without(s.queue, id));
    WithoutOne(s.queue, id);
    var put := Put(cut, id, t.(settled := true, result := result));
    var freed := Free(put, id);
    ChangeOne(limits, s, freed, id, {}, {id});
    DispatchKeeps(limits, freed, {id});
    assert Release(put, id) == Dispatch(freed);
    var next := Dispatch(freed);
    assert next.tasks[id] == freed.tasks[id];
    DeliverKeeps(limits, next, id, result, {id});
    assert {id} - {id} == {};
    assert Settle(s, id, result) == Deliver(next, id, result);
  }

  /** A running task starts its retirement. */
  lemma SettleRunning(limits: Limits, s: State, id: Id, result: Outcome)
    requires Inv(limits, s) && id in s.active && !s.tasks[id].settled
    ensures Inv(limits, Settle(s, id, result))
  {
    var t := s.tasks[id];
    assert TaskOk(t, false, true);
    WithoutOne(s.queue, id);
    WithoutNone(s.queue, id);
    ChangeOne(limits, s, Settle(s, id, result), id, {}, {});
  }

  lemma {:induction false} WithoutNone(queue: seq<Id>, id: Id)
    requires id !in queue
    ensures Without(queue, id) == queue
  {
    if queue != [] { WithoutNone(queue[1..], id); }
  }

  lemma SettleKeeps(limits: Limits, s: State, id: Id, result: Outcome)
    requires Inv(limits, s) && id < |s.tasks|
    requires result.Verdict? ==> s.tasks[id].worker != NoWorker
    ensures Inv(limits, Settle(s, id, result))
  {
    assert TaskOk(s.tasks[id], id in s.queue, id in s.active);
    if !s.tasks[id].settled {
      if id in s.queue {
        SettleQueued(limits, s, id, result);
      } else {
        SettleRunning(limits, s, id, result);
      }
    }
  }

  /** The active task's thread is gone: the reservation ends and the next request is dispatched. */
  lemma FreeActive(limits: Limits, s: State, id: Id, t: Task)
    requires Inv(limits, s) && id in s.active && t.bytes == s.tasks[id].bytes && !t.released
    requires s.tasks[id].settled ==> TaskOk(t.(released := true), false, false)
    requires !s.tasks[id].settled ==> Owed(t.(released := true))
    ensures var freed := Free(Put(s, id, t), id);
            && Dispatched(limits, freed, Dispatch(freed), if s.tasks[id].settled then {} else {id})
            && Dispatch(freed).tasks[id] == t.(released := true)
  {
    var freed := Free(Put(s, id, t), id);
    assert TaskOk(s.tasks[id], id in s.queue, true);
    var owed := if s.tasks[id].settled then {} else {id};
    ChangeOne(limits, s, freed, id, {}, owed);
    DispatchKeeps(limits, freed, owed);
  }

  lemma ExitKeeps(limits: Limits, s: State, id: Id)
    requires Inv(limits, s) && id < |s.tasks| && s.tasks[id].worker != NoWorker
    ensures Inv(limits, Settle(Release(Confirm(s, id), id), id, Unavailable))
  {
    var t := s.tasks[id];
    assert TaskOk(t, id in s.queue, id in s.active);
    var dead := t.(worker := Dead);
    if t.released {
      ChangeOne(limits, s, Confirm(s, id), id, {}, {});
    } else {
      FreeActive(limits, s, id, dead);
      var next := Release(Confirm(s, id), id);
      if !t.settled {
        var put := Put(next, id, dead.(released := true, settled := true, result := Unavailable));
        assert Inv(limits, Settle(next, id, Unavailable)) by {
          WithoutNone(next.queue, id);
          assert Settle(next, id, Unavailable) == Deliver(put, id, Unavailable);
          ChangeOne(limits, next, Deliver(put, id, Unavailable), id, {id}, {});
        }
      }
    }
  }

  lemma ResolvedKeeps(limits: Limits, s: State, id: Id)
    requires Inv(limits, s) && id < |s.tasks| && s.tasks[id].terminating
    ensures var quiet := Put(s, id, s.tasks[id].(terminating := false));
            Inv(limits, Release(Confirm(Decide(quiet, id, true), id), id))
  {
    var t := s.tasks[id];
    assert TaskOk(t, id in s.queue, id in s.active);
    var quiet := Put(s, id, t.(terminating := false));
    var gone := t.(terminating := false, worker := Dead, race := if t.race == Undecided then Decided(true) else t.race);
    assert Confirm(Decide(quiet, id, true), id) == Put(s, id, gone);
    if t.released {
      ChangeOne(limits, s, Put(s, id, gone), id, {}, {});
    } else {
      FreeActive(limits, s, id, gone);
    }
  }

  lemma RejectedKeeps(limits: Limits, s: State, id: Id)
    requires Inv(limits, s) && id < |s.tasks| && s.tasks[id].terminating
    ensures Inv(limits, Decide(Put(s, id, s.tasks[id].(terminating := false)), id, false))
  {
    var t := s.tasks[id];
    assert TaskOk(t, id in s.queue, id in s.active);
    ChangeOne(limits, s, Decide(Put(s, id, t.(terminating := false)), id, false), id, {}, {});
  }

  lemma TimerKeeps(limits: Limits, s: State, id: Id)
    requires Inv(limits, s) && id < |s.tasks|
    ensures Inv(limits, Decide(s, id, false))
  {
    assert TaskOk(s.tasks[id], id in s.queue, id in s.active);
    if s.tasks[id].race == Undecided {
      ChangeOne(limits, s, Decide(s, id, false), id, {}, {});
    }
  }

  lemma ContinueKeeps(limits: Limits, s: State, id: Id)
    requires Inv(limits, s) && id < |s.tasks|
    ensures Inv(limits, Step(limits, s, Continue(id)))
  {
    assert TaskOk(s.tasks[id], id in s.queue, id in s.active);
    if s.tasks[id].race.Decided? && s.tasks[id].delivered == [] {
      ChangeOne(limits, s, Step(limits, s, Continue(id)), id, {}, {});
    }
  }

  lemma EnqueueKeeps(limits: Limits, s: State, e: Event)
    requires Inv(limits, s) && e.Submit? && Fits(limits, s, e.bytes)
    ensures Sound(limits, Enqueued(s, e), {})
  {
    var n := Enqueued(s, e);
    var id := |s.tasks|;
    assert n.tasks[..id] == s.tasks;
    assert forall i :: 0 <= i < |s.queue| ==> s.queue[i] in s.queue && s.queue[i] < id;
    forall k | 0 <= k < |n.tasks| ensures TaskOk(n.tasks[k], k in n.queue, k in n.active) {
      if k < id {
        assert TaskOk(s.tasks[k], k in s.queue, k in s.active);
      } else {
        assert n.queue[|s.queue|] == id;
      }
    }
  }

  lemma SubmitKeeps(limits: Limits, s: State, e: Event)
    requires Inv(limits, s) && e.Submit?
    ensures Inv(limits, Step(limits, s, e))
  {
    if Refusal(limits, s, e) == [] {
      EnqueueKeeps(limits, s, e);
      var queued := Enqueued(s, e);
      if e.aborted {
        assert queued.queue[|s.queue|] == |s.tasks|;
        SettleQueued(limits, queued, |s.tasks|, Cancelled);
        DispatchKeeps(limits, Settle(queued, |s.tasks|, Cancelled), {});
      } else {
        DispatchKeeps(limits, queued, {});
      }
    }
  }

  lemma StepKeeps(limits: Limits, s: State, e: Event)
    requires Inv(limits, s)
    ensures Inv(limits, Step(limits, s, e))
  {
    hide Inv, Settle, Release, Confirm, Decide, Dispatch, Put;
    match e
    case Submit(_, _, _, _, _) => SubmitKeeps(limits, s, e);
    case Abort(id) => if id < |s.tasks| { SettleKeeps(limits, s, id, Cancelled); }
    case Timeout(id) => if id < |s.tasks| { SettleKeeps(limits, s, id, Unavailable); }
    case Message(id, valid) =>
      if id < |s.tasks| && s.tasks[id].worker != NoWorker { SettleKeeps(limits, s, id, Verdict(valid)); }
    case WorkerError(id) => if id < |s.tasks| { SettleKeeps(limits, s, id, Unavailable); }
    case Exit(id) => if id < |s.tasks| && s.tasks[id].worker != NoWorker { ExitKeeps(limits, s, id); }
    case TerminationResolved(id) => if id < |s.tasks| && s.tasks[id].terminating { ResolvedKeeps(limits, s, id); }
    case TerminationRejected(id) => if id < |s.tasks| && s.tasks[id].terminating { RejectedKeeps(limits, s, id); }
    case RetirementTimeout(id) => if id < |s.tasks| { TimerKeeps(limits, s, id); }
    case Continue(id) => if id < |s.tasks| { ContinueKeeps(limits, s, id); }
  }

  /** Every interleaving of every callback keeps the scheduler's invariant. */
  lemma {:induction false} EveryInterleavingKeeps(limits: Limits, s: State, events: seq<Event>)
    requires Inv(limits, s)
    ensures Inv(limits, Run(limits, s, events))
    decreases |events|
  {
    if events != [] {
      StepKeeps(limits, s, events[0]);
      EveryInterleavingKeeps(limits, Step(limits, s, events[0]), events[1..]);
    }
  }

  /** What a caller of the adapter can rely on in any state it can reach. */
  lemma SchedulerGuarantees(limits: Limits, events: seq<Event>)
    ensures var s := Run(limits, Idle, events);
            && s.pending == Unreleased(s.tasks) <= limits.maxPending
            && s.bytes == Reserved(s.tasks) <= limits.maxOutstandingBytes
            && (forall a, b | 0 <= a < |s.tasks| && 0 <= b < |s.tasks| ::
                  s.tasks[a].worker == Running && s.tasks[b].worker == Running ==> a == b)
            && (s.queue != [] ==> s.active != {})
            && (forall id :: 0 <= id < |s.tasks| ==> |s.tasks[id].delivered| <= 1)
            && (forall id | 0 <= id < |s.tasks| && s.tasks[id].delivered != [] ::
                  s.tasks[id].delivered[0].Verdict? ==> s.tasks[id].worker == Dead)
            && (forall id :: 0 <= id < |s.tasks| && !s.tasks[id].settled ==> id in s.queue || id in s.active)
  {
    EveryInterleavingKeeps(limits, Idle, events);
    var s := Run(limits, Idle, events);
    forall id | 0 <= id < |s.tasks| ensures TaskOk(s.tasks[id], id in s.queue, id in s.active) {
    }
  }

  /** No capacity is lost: whenever no worker is outstanding, nothing is reserved. */
  lemma IdleReservesNothing(limits: Limits, events: seq<Event>)
    requires Run(limits, Idle, events).active == {}
    ensures var s := Run(limits, Idle, events);
            s.pending == 0 && s.bytes == 0
  {
    EveryInterleavingKeeps(limits, Idle, events);
    var s := Run(limits, Idle, events);
    assert forall id :: 0 <= id < |s.tasks| ==> TaskOk(s.tasks[id], false, false);
    AllReleased(s.tasks);
  }

  lemma {:induction false} AllReleased(tasks: seq<Task>)
    requires forall id :: 0 <= id < |tasks| ==> tasks[id].released
    ensures Unreleased(tasks) == 0 && Reserved(tasks) == 0
  {
    if tasks != [] { AllReleased(tasks[..|tasks| - 1]); }
  }

  /** A delivered outcome is final: no later event, in any order, delivers again or changes it. */
  lemma {:induction false} OutcomesAreFinal(limits: Limits, s: State, events: seq<Event>, id: Id)
    requires Inv(limits, s) && id < |s.tasks| && s.tasks[id].delivered != []
    ensures var n := Run(limits, s, events);
            id < |n.tasks| && n.tasks[id].delivered == s.tasks[id].delivered
    decreases |events|
  {
    if events != [] {
      StepKeeps(limits, s, events[0]);
      StepOnlyDelivers(limits, s, events[0], id);
      var n := Step(limits, s, events[0]);
      assert TaskOk(n.tasks[id], id in n.queue, id in n.active);
      assert TaskOk(s.tasks[id], id in s.queue, id in s.active);
      OutcomesAreFinal(limits, n, events[1..], id);
    }
  }

  lemma {:induction false} DispatchOnlyDelivers(s: State, id: Id)
    requires id < |s.tasks|
    ensures s.tasks[id].delivered <= Dispatch(s).tasks[id].delivered
    decreases |s.queue|
  {
    if s.active == {} && s.queue != [] {
      var head := s.queue[0];
      var next := s.(queue := s.queue[1..]);
      if head >= |s.tasks| || s.tasks[head].settled {
        DispatchOnlyDelivers(next, id);
      } else if s.tasks[head].spawn == FactoryThrows {
        DispatchOnlyDelivers(
          Free(Put(next.(active := {head}), head, s.tasks[head].(settled := true, result := Unavailable)), head), id);
      }
    }
  }

  lemma SettleOnlyDelivers(s: State, at: Id, result: Outcome, id: Id)
    requires id < |s.tasks|
    ensures |Settle(s, at, result).tasks| == |s.tasks|
    ensures s.tasks[id].delivered <= Settle(s, at, result).tasks[id].delivered
  {
    if at < |s.tasks| && !s.tasks[at].settled {
      var t := s.tasks[at];
      var put := Put(s.(queue := Without(s.queue, at)), at, t.(settled := true, result := result));
      ReleaseOnlyDelivers(put, at, id);
    }
  }

  lemma ReleaseOnlyDelivers(s: State, at: Id, id: Id)
    requires id < |s.tasks|
    ensures s.tasks[id].delivered <= Release(s, at).tasks[id].delivered
  {
    if at < |s.tasks| && !s.tasks[at].released { DispatchOnlyDelivers(Free(s, at), id); }
  }

  /** A step only ever appends to what a promise has been given. */
  lemma StepOnlyDelivers(limits: Limits, s: State, e: Event, id: Id)
    requires id < |s.tasks|
    ensures id < |Step(limits, s, e).tasks|
    ensures s.tasks[id].delivered <= Step(limits, s, e).tasks[id].delivered
  {
    hide Dispatch;
    if e.Submit? {
      if Refusal(limits, s, e) == [] {
        var queued := Enqueued(s, e);
        SettleOnlyDelivers(queued, |s.tasks|, Cancelled, id);
        DispatchOnlyDelivers(Settle(queued, |s.tasks|, Cancelled), id);
        DispatchOnlyDelivers(queued, id);
      }
    } else if e.id < |s.tasks| {
      var t := s.tasks[e.id];
      match e
      case Abort(at) => SettleOnlyDelivers(s, at, Cancelled, id);
      case Timeout(at) => SettleOnlyDelivers(s, at, Unavailable, id);
      case Message(at, valid) => SettleOnlyDelivers(s, at, Verdict(valid), id);
      case WorkerError(at) => SettleOnlyDelivers(s, at, Unavailable, id);
      case Exit(at) =>
        ReleaseOnlyDelivers(Confirm(s, at), at, id);
        SettleOnlyDelivers(Release(Confirm(s, at), at), at, Unavailable, id);
      case TerminationResolved(at) =>
        ReleaseOnlyDelivers(Confirm(Decide(Put(s, at, t.(terminating := false)), at, true), at), at, id);
      case TerminationRejected(at) =>
      case RetirementTimeout(at) =>
      case Continue(at) =>
    }
  }
}
