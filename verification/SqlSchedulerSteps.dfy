/**
  The adapter object: its queue, active set and counters, and one method per callback, each run
  to its next await, proved against `SqlScheduler`.
*/
module SqlSchedulerSteps {
  import opened SqlScheduler

  class PostgresSqlAdapter {
    const limits: Limits
    var tasks: seq<Task>
    var queue: seq<Id>
    var active: set<Id>
    var pending: int
    var bytes: int

    constructor (limits: Limits)
      ensures this.limits == limits && Now() == Idle
    {
      this.limits := limits;
      tasks, queue, active, pending, bytes := [], [], {}, 0, 0;
    }

    ghost function Now(): State
      reads this
    {
      State(tasks, queue, active, pending, bytes)
    }

    method SetTask(id: Id, t: Task)
      requires id < |tasks|
      modifies `tasks
      ensures Now() == Put(old(Now()), id, t)
    {
      tasks := tasks[id := t];
    }

    method Resolve(id: Id, outcome: Outcome)
      modifies `tasks
      ensures Now() == Deliver(old(Now()), id, outcome)
    {
      if id < |tasks| {
        SetTask(id, tasks[id].(delivered := tasks[id].delivered + [outcome]));
      }
    }

    method GiveUpReservation(id: Id)
      requires id < |tasks|
      modifies this
      ensures Now() == Free(old(Now()), id)
    {
      tasks := tasks[id := tasks[id].(released := true)];
      active := active - {id};
      pending := pending - 1;
      bytes := bytes - tasks[id].bytes;
    }

    method DispatchNext()
      modifies this
      ensures Now() == Dispatch(old(Now()))
      decreases |queue|
    {
      if active != {} || queue == [] {
        return;
      }
      var id := queue[0];
      queue := queue[1..];
      if id >= |tasks| || tasks[id].settled {
        DispatchNext();
        return;
      }
      active := {id};
      var t := tasks[id];
      match t.spawn
      case Runs =>
        SetTask(id, t.(worker := Running));
      case PostThrows =>
        SetTask(id, Retiring(t.(worker := Running), Unavailable));
      case FactoryThrows =>
        SetTask(id, t.(settled := true, result := Unavailable));
        GiveUpReservation(id);
        DispatchNext();
        Resolve(id, Unavailable);
    }

    method ReleaseTask(id: Id)
      modifies this
      ensures Now() == Release(old(Now()), id)
    {
      if id >= |tasks| || tasks[id].released {
        return;
      }
      GiveUpReservation(id);
      DispatchNext();
    }

    /** Array.indexOf and splice: the first occurrence leaves the queue. */
    method CutFromQueue(id: Id)
      modifies `queue
      ensures queue == Without(old(queue), id)
    {
      var i := 0;
      while i < |queue| && queue[i] != id
        invariant i <= |queue|
        invariant Without(queue, id) == queue[..i] + Without(queue[i..], id)
      {
        assert queue[i..][1..] == queue[i + 1..];
        assert queue[..i + 1] == queue[..i] + [queue[i]];
        i := i + 1;
      }
      if i < |queue| {
        assert queue[i..][1..] == queue[i + 1..];
        queue := queue[..i] + queue[i + 1..];
      } else {
        assert queue[..i] == queue && queue[i..] == [];
      }
    }

    method SettleTask(id: Id, result: Outcome)
      modifies this
      ensures Now() == Settle(old(Now()), id, result)
    {
      if id >= |tasks| || tasks[id].settled {
        return;
      }
      CutFromQueue(id);
      var t := tasks[id];
      if t.worker != NoWorker && !t.released {
        SetTask(id, Retiring(t, result));
      } else {
        SetTask(id, t.(settled := true, result := result));
        ReleaseTask(id);
        Resolve(id, result);
      }
    }

    method Validate(e: Event) returns (answer: seq<Outcome>)
      requires e.Submit?
      modifies this
      ensures Now() == Step(limits, old(Now()), e)
      ensures answer == Refusal(limits, old(Now()), e)
    {
      hide Dispatch, Settle;
      if !e.supported {
        return [Unsupported];
      }
      if e.bytes > limits.maxSourceBytes || pending >= limits.maxPending ||
         bytes + e.bytes > limits.maxOutstandingBytes {
        return [Unavailable];
      }
      var id := |tasks|;
      pending := pending + 1;
      bytes := bytes + e.bytes;
      tasks := tasks
        + [Task(e.bytes, e.spawn, e.terminateThrows, false, false, NoWorker, false, NoRace, Unavailable, [])];
      queue := queue + [id];
      if e.aborted {
        SettleTask(id, Cancelled);
      }
      DispatchNext();
      return [];
    }

    /** The race inside settle: the first answer of termination and timer decides it. */
    method DecideRace(id: Id, retired: bool)
      requires id < |tasks|
      modifies `tasks
      ensures Now() == Decide(old(Now()), id, retired)
    {
      if tasks[id].race == Undecided {
        SetTask(id, tasks[id].(race := Decided(retired)));
      }
    }

    /** Abort listener, timers, worker events, and the continuations of the termination promise. */
    method Handle(e: Event)
      requires !e.Submit?
      modifies this
      ensures Now() == Step(limits, old(Now()), e)
    {
      hide Dispatch, Settle, Release;
      if e.id >= |tasks| {
        return;
      }
      var t := tasks[e.id];
      match e
      case Abort(id) => SettleTask(id, Cancelled);
      case Timeout(id) => SettleTask(id, Unavailable);
      case Message(id, valid) => if t.worker != NoWorker { SettleTask(id, Verdict(valid)); }
      case WorkerError(id) => if t.worker != NoWorker { SettleTask(id, Unavailable); }
      case Exit(id) =>
        if t.worker != NoWorker {
          SetTask(id, t.(worker := Dead));
          ReleaseTask(id);
          SettleTask(id, Unavailable);
        }
      case TerminationResolved(id) =>
        if t.terminating {
          SetTask(id, t.(terminating := false));
          DecideRace(id, true);
          SetTask(id, tasks[id].(worker := Dead));
          ReleaseTask(id);
        }
      case TerminationRejected(id) =>
        if t.terminating {
          SetTask(id, t.(terminating := false));
          DecideRace(id, false);
        }
      case RetirementTimeout(id) => DecideRace(id, false);
      case Continue(id) =>
        if t.race.Decided? && t.delivered == [] {
          Resolve(id, if t.result == Cancelled then Cancelled else if t.race.retired then t.result else Unavailable);
        }
    }
  }
}
