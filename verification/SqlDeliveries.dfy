/**
  What the PostgreSQL adapter delivers (src/runtime/sql-postgres.ts), told by the callbacks of a whole run
  and not by the scheduler's state: which callback settles a request and with what answer, which one
  decides whether its worker is known to be gone, and when the caller learns of it.
*/
module SqlDeliveries {
  import opened SqlScheduler

  ghost predicate Settled(s: State, id: Id) {
    id < |s.tasks| && s.tasks[id].settled
  }

  /** The answer with which a callback settles this request, while `upcoming` is the next request's number. */
  function AnswerOf(e: Event, upcoming: nat, id: Id): Outcome {
    if e == Abort(id) || (e.Submit? && e.aborted && id == upcoming) then Cancelled
    else if e.Message? && e.id == id then Verdict(e.valid)
    else Unavailable
  }

  /** The first of these decides whether the worker counts as gone. */
  predicate Decides(e: Event, id: Id) {
    e == TerminationResolved(id) || e == TerminationRejected(id) || e == RetirementTimeout(id)
  }

  /** What is delivered after the race: the answer if the worker is gone; a cancellation in any case. */
  function Final(answer: Outcome, retired: bool): Outcome {
    if retired || answer == Cancelled then answer else Unavailable
  }

  // ---------------------------------------------------------------- one callback

  /** What its turn makes of a task in the queue. */
  ghost predicate Turned(t: Task, t': Task) {
    || t' == t
    || (!t.settled && t.spawn == Runs && t' == t.(worker := Running))
    || (!t.settled && t.spawn == PostThrows && t' == Retiring(t.(worker := Running), Unavailable))
    || (!t.settled && t.spawn == FactoryThrows
        && t' == t.(settled := true, result := Unavailable, released := true,
                    delivered := t.delivered + [Unavailable]))
  }

  lemma {:induction false} DispatchTurns(s: State, id: Id)
    requires id < |s.tasks|
    ensures Turned(s.tasks[id], Dispatch(s).tasks[id])
    ensures Dispatch(s).tasks[id] != s.tasks[id] ==> id in s.queue
    decreases |s.queue|
  {
    if s.active == {} && s.queue != [] {
      var head := s.queue[0];
      var next := s.(queue := s.queue[1..]);
      if head >= |s.tasks| || s.tasks[head].settled {
        DispatchTurns(next, id);
      } else if s.tasks[head].spawn == FactoryThrows {
        DispatchTurns(
          Free(Put(next.(active := {head}), head, s.tasks[head].(settled := true, result := Unavailable)), head), id);
      }
    }
  }

  /** How a task that was open can look after a callback. */
  ghost predicate SettledWith(t: Task, answer: Outcome) {
    && t.settled && t.result == answer
    && (t.race == NoRace ==> t.delivered == [answer] && t.released && !answer.Verdict?)
    && (t.race != NoRace ==>
          && t.delivered == [] && !t.released
          && t.race == if t.terminateThrows then Decided(false) else Undecided)
    && (t.terminating <==> t.race == Undecided)
  }

  ghost predicate Open(t: Task) {
    !t.settled && t.race == NoRace && t.delivered == [] && !t.terminating && !t.released
  }

  /** How a settled task goes on. */
  ghost predicate GoesOn(t: Task, e: Event, id: Id, t': Task) {
    && t'.settled && t'.result == t.result && t'.terminateThrows == t.terminateThrows
    && t'.race == (if t.race == Undecided && Decides(e, id) then Decided(e.TerminationResolved?) else t.race)
    && t'.delivered == (if e == Continue(id) && t.race.Decided? && t.delivered == []
                        then [Final(t.result, t.race.retired)] else t.delivered)
    && (t'.terminating <==> t.terminating && e != TerminationResolved(id) && e != TerminationRejected(id))
    && (t'.released <==> t.released || e == Exit(id) || (e == TerminationResolved(id) && t.terminating))
  }

  /** This callback settles the request, while it is open. */
  predicate Settles(t: Task, e: Event, id: Id) {
    || e == Abort(id) || e == Timeout(id)
    || (t.worker != NoWorker && ((e.Message? && e.id == id) || e == WorkerError(id) || e == Exit(id)))
  }

  ghost predicate TaskSteps(s: State, e: Event, id: Id, next: State) {
    && id < |next.tasks|
    && var t' := next.tasks[id];
       if id < |s.tasks| && s.tasks[id].settled then GoesOn(s.tasks[id], e, id, t')
       else
         && (if t'.settled then SettledWith(t', AnswerOf(e, |s.tasks|, id)) else Open(t'))
         && (id < |s.tasks| ==>
               && t'.terminateThrows == s.tasks[id].terminateThrows && t'.spawn == s.tasks[id].spawn
               && (Settles(s.tasks[id], e, id) ==> t'.settled)
               && (t'.settled && t'.spawn == Runs ==> Settles(s.tasks[id], e, id)))
  }

  lemma OpenTask(limits: Limits, s: State, id: Id)
    requires Sound(limits, s, {}) && id < |s.tasks|
    ensures TaskOk(s.tasks[id], id in s.queue, id in s.active)
    ensures !s.tasks[id].settled ==> Open(s.tasks[id])
  {
  }

  /** The event is about another request, or about none that exists. */
  predicate AboutAnother(s: State, e: Event, id: Id) {
    if e.Submit? then id < |s.tasks| else e.id != id
  }

  /** A callback about another request changes this one by its turn only. */
  lemma OtherSteps(limits: Limits, s: State, e: Event, id: Id, next: State)
    requires Sound(limits, s, {}) && id < |s.tasks| <= |next.tasks|
    requires AboutAnother(s, e, id) && Turned(s.tasks[id], next.tasks[id])
    ensures TaskSteps(s, e, id, next)
  {
    OpenTask(limits, s, id);
  }

  lemma TurnedTwice(t: Task, t1: Task, t2: Task)
    requires Turned(t, t1) && Turned(t1, t2)
    ensures Turned(t, t2)
  {
  }

  /** Settling a task that is not yet settled. */
  lemma SettleSteps(limits: Limits, s: State, at: Id, result: Outcome, id: Id)
    requires Sound(limits, s, {}) && at < |s.tasks| && id < |s.tasks|
    requires result.Verdict? ==> s.tasks[at].worker != NoWorker
    ensures |Settle(s, at, result).tasks| == |s.tasks|
    ensures var t, t' := s.tasks[id], Settle(s, at, result).tasks[id];
            if at == id && !t.settled then
              SettledWith(t', result) && t'.terminateThrows == t.terminateThrows && t'.spawn == t.spawn
            else Turned(t, t')
  {
    OpenTask(limits, s, at);
    var t := s.tasks[at];
    if !t.settled && (t.worker == NoWorker || t.released) {
      var put := Put(s.(queue := Without(s.queue, at)), at, t.(settled := true, result := result));
      DispatchTurns(Free(put, at), id);
    }
  }

  lemma SettleTaskSteps(limits: Limits, s: State, e: Event, result: Outcome, id: Id)
    requires Inv(limits, s) && !e.Submit? && e.id < |s.tasks| && id < |s.tasks|
    requires e.Message? || e.WorkerError? ==> s.tasks[e.id].worker != NoWorker
    requires result == AnswerOf(e, |s.tasks|, e.id) && (e.Abort? || e.Timeout? || e.Message? || e.WorkerError?)
    ensures |Settle(s, e.id, result).tasks| == |s.tasks| && TaskSteps(s, e, id, Settle(s, e.id, result))
  {
    SettleSteps(limits, s, e.id, result, id);
    OpenTask(limits, s, id);
    var next := Settle(s, e.id, result);
    hide Settle, Inv, Sound;
    if id != e.id {
      OtherSteps(limits, s, e, id, next);
    }
  }

  lemma ExitSteps(limits: Limits, s: State, at: Id, id: Id)
    requires Inv(limits, s) && at < |s.tasks| && id < |s.tasks| && s.tasks[at].worker != NoWorker
    ensures var next := Settle(Release(Confirm(s, at), at), at, Unavailable);
            |next.tasks| == |s.tasks| && TaskSteps(s, Exit(at), id, next)
  {
    var e, confirmed := Exit(at), Confirm(s, at);
    OpenTask(limits, s, at);
    OpenTask(limits, s, id);
    if !s.tasks[at].released {
      DispatchTurns(Free(confirmed, at), id);
      DispatchTurns(Free(confirmed, at), at);
    }
    var released := Release(confirmed, at);
    var next := Settle(released, at, Unavailable);
    assert released.tasks[at] == s.tasks[at].(worker := Dead, released := true);
    assert id != at ==> next.tasks[id] == released.tasks[id];
    if id != at {
      hide Settle, Release, Confirm, Inv, Sound;
      OtherSteps(limits, s, e, id, next);
    }
  }

  lemma ResolvedSteps(limits: Limits, s: State, at: Id, id: Id)
    requires Inv(limits, s) && at < |s.tasks| && id < |s.tasks| && s.tasks[at].terminating
    ensures var quiet := Put(s, at, s.tasks[at].(terminating := false));
            var next := Release(Confirm(Decide(quiet, at, true), at), at);
            |next.tasks| == |s.tasks| && TaskSteps(s, TerminationResolved(at), id, next)
  {
    var quiet := Put(s, at, s.tasks[at].(terminating := false));
    var confirmed := Confirm(Decide(quiet, at, true), at);
    OpenTask(limits, s, at);
    OpenTask(limits, s, id);
    if !confirmed.tasks[at].released {
      DispatchTurns(Free(confirmed, at), id);
      DispatchTurns(Free(confirmed, at), at);
    }
    var next := Release(confirmed, at);
    if id != at {
      hide Release, Inv, Sound;
      OtherSteps(limits, s, TerminationResolved(at), id, next);
    }
  }

  lemma SubmitSteps(limits: Limits, s: State, e: Event, id: Id)
    requires Inv(limits, s) && e.Submit? && id < |Step(limits, s, e).tasks|
    ensures TaskSteps(s, e, id, Step(limits, s, e))
  {
    var next := Step(limits, s, e);
    if Refusal(limits, s, e) != [] {
      OtherSteps(limits, s, e, id, next);
    } else {
      var n, queued := |s.tasks|, Enqueued(s, e);
      EnqueueKeeps(limits, s, e);
      assert queued.tasks[..n] == s.tasks;
      if e.aborted {
        SettleSteps(limits, queued, n, Cancelled, id);
        DispatchTurns(Settle(queued, n, Cancelled), id);
      } else {
        DispatchTurns(queued, id);
      }
      if id < n {
        if e.aborted {
          TurnedTwice(s.tasks[id], Settle(queued, n, Cancelled).tasks[id], next.tasks[id]);
        }
        hide Settle, Dispatch, Inv, Sound;
        OtherSteps(limits, s, e, id, next);
      }
    }
  }

  /** What one callback does to any request. */
  lemma StepTasks(limits: Limits, s: State, e: Event, id: Id)
    requires Inv(limits, s) && id < |Step(limits, s, e).tasks|
    ensures TaskSteps(s, e, id, Step(limits, s, e))
  {
    if e.Submit? {
      SubmitSteps(limits, s, e, id);
    } else if e.id >= |s.tasks| {
      OtherSteps(limits, s, e, id, s);
    } else {
      AddressedSteps(limits, s, e, id);
    }
  }

  /** A callback without an effect: nothing has happened yet that it could answer. */
  lemma IdleSteps(limits: Limits, s: State, e: Event, id: Id)
    requires Inv(limits, s) && !e.Submit? && e.id < |s.tasks| && id < |s.tasks|
    requires || ((e.Message? || e.WorkerError? || e.Exit?) && s.tasks[e.id].worker == NoWorker)
             || (e.TerminationResolved? && !s.tasks[e.id].terminating)
    ensures TaskSteps(s, e, id, s)
  {
    OpenTask(limits, s, e.id);
    OpenTask(limits, s, id);
    hide Inv, Sound;
    if id != e.id { OtherSteps(limits, s, e, id, s); }
  }

  /** The race and the end of it. */
  lemma RaceSteps(limits: Limits, s: State, e: Event, id: Id)
    requires Inv(limits, s) && (e.TerminationRejected? || e.RetirementTimeout? || e.Continue?)
    requires e.id < |s.tasks| && id < |s.tasks|
    ensures |Step(limits, s, e).tasks| == |s.tasks| && TaskSteps(s, e, id, Step(limits, s, e))
  {
    OpenTask(limits, s, e.id);
    OpenTask(limits, s, id);
    hide Inv, Sound;
    if id != e.id { OtherSteps(limits, s, e, id, Step(limits, s, e)); }
  }

  lemma AddressedSteps(limits: Limits, s: State, e: Event, id: Id)
    requires Inv(limits, s) && !e.Submit? && e.id < |s.tasks| && id < |s.tasks|
    ensures |Step(limits, s, e).tasks| == |s.tasks| && TaskSteps(s, e, id, Step(limits, s, e))
  {
    hide Inv, Settle, Release, Confirm, Decide, Put, Deliver, TaskSteps;
    var t := s.tasks[e.id];
    match e
    case Abort(at) => SettleTaskSteps(limits, s, e, Cancelled, id);
    case Timeout(at) => SettleTaskSteps(limits, s, e, Unavailable, id);
    case Message(at, valid) =>
      if t.worker == NoWorker {
        IdleSteps(limits, s, e, id);
      } else {
        SettleTaskSteps(limits, s, e, Verdict(valid), id);
      }
    case WorkerError(at) =>
      if t.worker == NoWorker { IdleSteps(limits, s, e, id); } else { SettleTaskSteps(limits, s, e, Unavailable, id); }
    case Exit(at) => if t.worker == NoWorker { IdleSteps(limits, s, e, id); } else { ExitSteps(limits, s, at, id); }
    case TerminationResolved(at) =>
      if t.terminating { ResolvedSteps(limits, s, at, id); } else { IdleSteps(limits, s, e, id); }
    case TerminationRejected(at) => RaceSteps(limits, s, e, id);
    case RetirementTimeout(at) => RaceSteps(limits, s, e, id);
    case Continue(at) => RaceSteps(limits, s, e, id);
  }

  // ---------------------------------------------------------------- whole runs

  /** The state before the n-th callback of a run from the start. */
  function At(limits: Limits, events: seq<Event>, n: nat): State
    requires n <= |events|
  {
    Run(limits, Idle, events[..n])
  }

  lemma {:induction false} RunSnoc(limits: Limits, s: State, events: seq<Event>, e: Event)
    ensures Run(limits, s, events + [e]) == Step(limits, Run(limits, s, events), e)
    decreases |events|
  {
    if events == [] {
      assert [] + [e] == [e] && [e][1..] == [];
      assert Run(limits, s, [e]) == Run(limits, Step(limits, s, e), []);
    } else {
      assert (events + [e])[1..] == events[1..] + [e];
      hide Step;
      RunSnoc(limits, Step(limits, s, events[0]), events[1..], e);
    }
  }

  lemma AtNext(limits: Limits, events: seq<Event>, n: nat)
    requires n < |events|
    ensures At(limits, events, n + 1) == Step(limits, At(limits, events, n), events[n])
    ensures Inv(limits, At(limits, events, n))
  {
    assert events[..n + 1] == events[..n] + [events[n]];
    RunSnoc(limits, Idle, events[..n], events[n]);
    EveryInterleavingKeeps(limits, Idle, events[..n]);
  }

  /** The k-th callback settles the request. */
  ghost predicate SettledAt(limits: Limits, events: seq<Event>, k: nat, id: Id) {
    k < |events| && !Settled(At(limits, events, k), id) && Settled(At(limits, events, k + 1), id)
  }

  /** The answer it is settled with. */
  ghost function AnswerAt(limits: Limits, events: seq<Event>, k: nat, id: Id): Outcome
    requires k < |events|
  {
    AnswerOf(events[k], |At(limits, events, k).tasks|, id)
  }

  /** Among the callbacks between k and n, the m-th is the first to decide about the worker. */
  predicate DecidedAt(events: seq<Event>, k: nat, n: nat, m: nat, id: Id) {
    && k < m < n <= |events| && Decides(events[m], id)
    && forall j :: k < j < m ==> !Decides(events[j], id)
  }

  predicate Pending(events: seq<Event>, k: nat, n: nat, id: Id) {
    n <= |events| && forall j :: k < j < n ==> !Decides(events[j], id)
  }

  /** The continuation of the request runs between k and n. */
  predicate Continued(events: seq<Event>, k: nat, n: nat, id: Id) {
    n <= |events| && exists j :: k < j < n && events[j] == Continue(id)
  }

  predicate StillTerminating(events: seq<Event>, k: nat, n: nat, id: Id) {
    && n <= |events|
    && forall j :: k < j < n ==> events[j] != TerminationResolved(id) && events[j] != TerminationRejected(id)
  }

  /** Between k and n the worker exits, or the termination that was asked for at k is confirmed. */
  predicate Gone(events: seq<Event>, k: nat, n: nat, id: Id, asked: bool) {
    n <= |events| && exists j :: k < j < n && GoneAt(events, k, j, id, asked)
  }

  predicate GoneAt(events: seq<Event>, k: nat, j: nat, id: Id, asked: bool)
    requires j < |events|
  {
    || events[j] == Exit(id)
    || (asked && events[j] == TerminationResolved(id) && StillTerminating(events, k, j, id))
  }

  /** Where a request stands before the n-th callback that the k-th settled with this answer. */
  ghost predicate Follows(events: seq<Event>, k: nat, n: nat, id: Id, raced: bool, answer: Outcome, t: Task) {
    && t.settled && t.result == answer
    && (t.terminating <==> raced && !t.terminateThrows && StillTerminating(events, k, n, id))
    && (t.released <==> !raced || Gone(events, k, n, id, !t.terminateThrows))
    && if !raced then t.race == NoRace && t.delivered == [answer]
       else if t.terminateThrows then
         && t.race == Decided(false)
         && t.delivered == if Continued(events, k, n, id) then [Final(answer, false)] else []
       else if Pending(events, k, n, id) then t.race == Undecided && t.delivered == []
       else exists m :: DecidedAt(events, k, n, m, id) && Raced(events, m, n, id, answer, t)
  }

  ghost predicate Raced(events: seq<Event>, m: nat, n: nat, id: Id, answer: Outcome, t: Task)
    requires m < n <= |events|
  {
    && t.race == Decided(events[m].TerminationResolved?)
    && t.delivered == if Continued(events, m, n, id) then [Final(answer, events[m].TerminationResolved?)] else []
  }

  lemma ContinuedNext(events: seq<Event>, k: nat, n: nat, id: Id)
    requires k < n < |events|
    ensures Continued(events, k, n + 1, id) <==> Continued(events, k, n, id) || events[n] == Continue(id)
  {
    if Continued(events, k, n + 1, id) {
      var j :| k < j < n + 1 && events[j] == Continue(id);
    }
    if Continued(events, k, n, id) {
      var j :| k < j < n && events[j] == Continue(id);
      assert k < j < n + 1;
    }
  }

  lemma GoneNext(events: seq<Event>, k: nat, n: nat, id: Id, asked: bool)
    requires k < n < |events|
    ensures Gone(events, k, n + 1, id, asked) <==> Gone(events, k, n, id, asked) || GoneAt(events, k, n, id, asked)
  {
    hide GoneAt;
    if Gone(events, k, n + 1, id, asked) {
      var j :| k < j < n + 1 && GoneAt(events, k, j, id, asked);
    }
    if Gone(events, k, n, id, asked) {
      var j :| k < j < n && GoneAt(events, k, j, id, asked);
      assert k < j < n + 1;
    }
  }

  lemma FollowsNext(
    events: seq<Event>, k: nat, n: nat, id: Id, raced: bool, answer: Outcome, t: Task, t': Task)
    requires k < n < |events| && Follows(events, k, n, id, raced, answer, t) && GoesOn(t, events[n], id, t')
    ensures Follows(events, k, n + 1, id, raced, answer, t')
  {
    var e := events[n];
    GoneNext(events, k, n, id, !t.terminateThrows);
    if raced && t.terminateThrows {
      ContinuedNext(events, k, n, id);
    } else if raced && Pending(events, k, n, id) {
      if Decides(e, id) {
        assert DecidedAt(events, k, n + 1, n, id);
        assert !Continued(events, n, n + 1, id);
        assert Raced(events, n, n + 1, id, answer, t');
      }
    } else if raced {
      var m :| DecidedAt(events, k, n, m, id) && Raced(events, m, n, id, answer, t);
      ContinuedNext(events, m, n, id);
      assert DecidedAt(events, k, n + 1, m, id) && Raced(events, m, n + 1, id, answer, t');
      assert !Pending(events, k, n + 1, id);
    }
  }

  /** The request was settled by this callback, and stands where the callbacks since then have brought it. */
  ghost predicate Told(limits: Limits, events: seq<Event>, k: nat, n: nat, id: Id) {
    && k < n <= |events| && SettledAt(limits, events, k, id) && id < |At(limits, events, n).tasks|
    && var first, t := At(limits, events, k + 1).tasks[id], At(limits, events, n).tasks[id];
       && Follows(events, k, n, id, first.race != NoRace, AnswerAt(limits, events, k, id), t)
       && t.terminateThrows == first.terminateThrows
       && (AnswerAt(limits, events, k, id).Verdict? ==> first.race != NoRace)
  }

  /** Just settled, nothing has happened since. */
  lemma ToldAtOnce(limits: Limits, events: seq<Event>, k: nat, id: Id)
    requires SettledAt(limits, events, k, id)
    ensures Told(limits, events, k, k + 1, id)
  {
    hide At, Step, Inv;
    AtNext(limits, events, k);
    StepTasks(limits, At(limits, events, k), events[k], id);
    FollowsAtOnce(events, k, id, AnswerAt(limits, events, k, id), At(limits, events, k + 1).tasks[id]);
  }

  lemma FollowsAtOnce(events: seq<Event>, k: nat, id: Id, answer: Outcome, t: Task)
    requires k < |events| && SettledWith(t, answer)
    ensures Follows(events, k, k + 1, id, t.race != NoRace, answer, t)
    ensures answer.Verdict? ==> t.race != NoRace
  {
    assert !Continued(events, k, k + 1, id) && Pending(events, k, k + 1, id);
    assert StillTerminating(events, k, k + 1, id) && !Gone(events, k, k + 1, id, !t.terminateThrows);
  }

  lemma ToldNext(limits: Limits, events: seq<Event>, k: nat, n: nat, id: Id)
    requires n < |events| && Told(limits, events, k, n, id)
    ensures Told(limits, events, k, n + 1, id)
  {
    var s := At(limits, events, n);
    AtNext(limits, events, n);
    TasksStay(limits, s, events[n]);
    StepTasks(limits, s, events[n], id);
    hide At, Step, Inv, SettledAt;
    var raced := At(limits, events, k + 1).tasks[id].race != NoRace;
    FollowsNext(events, k, n, id, raced, AnswerAt(limits, events, k, id), s.tasks[id],
                At(limits, events, n + 1).tasks[id]);
  }

  lemma TasksStay(limits: Limits, s: State, e: Event)
    requires Inv(limits, s)
    ensures |Step(limits, s, e).tasks| >= |s.tasks|
  {
    if 0 < |s.tasks| { StepOnlyDelivers(limits, s, e, |s.tasks| - 1); }
  }

  /** Every settled request was settled by one of the callbacks. */
  lemma {:induction false} EverySettlementIsTold(limits: Limits, events: seq<Event>, n: nat, id: Id) returns (k: nat)
    requires n <= |events| && Settled(At(limits, events, n), id)
    ensures Told(limits, events, k, n, id)
  {
    hide Told, Settled;
    NothingAtFirst(limits, events, id);
    if Settled(At(limits, events, n - 1), id) {
      k := EverySettlementIsTold(limits, events, n - 1, id);
      ToldNext(limits, events, k, n - 1, id);
    } else {
      k := n - 1;
      ToldAtOnce(limits, events, k, id);
    }
  }

  lemma NothingAtFirst(limits: Limits, events: seq<Event>, id: Id)
    ensures !Settled(At(limits, events, 0), id)
  {
    assert events[..0] == [];
  }

  lemma {:induction false} ToldSince(limits: Limits, events: seq<Event>, k: nat, n: nat, id: Id)
    requires SettledAt(limits, events, k, id) && k < n <= |events|
    ensures Told(limits, events, k, n, id)
  {
    hide Told, SettledAt;
    if n == k + 1 {
      ToldAtOnce(limits, events, k, id);
    } else {
      ToldSince(limits, events, k, n - 1, id);
      ToldNext(limits, events, k, n - 1, id);
    }
  }

  /** The worker's answer settled the request, and its retirement was the first thing to be decided. */
  ghost predicate EarnedAt(limits: Limits, events: seq<Event>, id: Id, valid: bool, k: nat, m: nat) {
    && SettledAt(limits, events, k, id) && events[k] == Message(id, valid)
    && DecidedAt(events, k, |events|, m, id) && events[m] == TerminationResolved(id)
    && !At(limits, events, k + 1).tasks[id].terminateThrows && Continued(events, m, |events|, id)
  }

  ghost predicate Earned(limits: Limits, events: seq<Event>, id: Id, valid: bool) {
    exists k, m :: EarnedAt(limits, events, id, valid, k, m)
  }

  /** An abort settled the request, before it was queued or later. */
  ghost predicate Cancels(limits: Limits, events: seq<Event>, id: Id, k: nat) {
    && SettledAt(limits, events, k, id)
    && (|| events[k] == Abort(id)
        || (events[k].Submit? && events[k].aborted && id == |At(limits, events, k).tasks|))
  }

  lemma EarnedIsHeard(limits: Limits, events: seq<Event>, id: Id, valid: bool, k: nat, m: nat)
    requires EarnedAt(limits, events, id, valid, k, m) && Told(limits, events, k, |events|, id)
    ensures At(limits, events, |events|).tasks[id].delivered == [Verdict(valid)]
  {
    hide At, SettledAt, Continued;
    var t := At(limits, events, |events|).tasks[id];
    var answer := AnswerAt(limits, events, k, id);
    var m' :| DecidedAt(events, k, |events|, m', id) && Raced(events, m', |events|, id, answer, t);
    assert m' == m;
  }

  lemma HeardIsEarned(limits: Limits, events: seq<Event>, id: Id, k: nat)
    requires Told(limits, events, k, |events|, id)
    ensures var heard := At(limits, events, |events|).tasks[id].delivered;
            && (forall valid :: heard == [Verdict(valid)] ==> Earned(limits, events, id, valid))
            && (Cancels(limits, events, id, k) ==> heard == [] || heard == [Cancelled])
            && (heard == [Cancelled] ==> Cancels(limits, events, id, k))
            && (heard == [] || heard == [Cancelled] || heard == [Unavailable]
                || heard == [Verdict(true)] || heard == [Verdict(false)])
  {
    hide At, SettledAt, Continued;
    var t := At(limits, events, |events|).tasks[id];
    var answer := AnswerAt(limits, events, k, id);
    if valid :| t.delivered == [Verdict(valid)] {
      var m :| DecidedAt(events, k, |events|, m, id) && Raced(events, m, |events|, id, answer, t);
      assert EarnedAt(limits, events, id, valid, k, m);
    }
  }

  /**
    What a caller hears, by the callbacks of the whole run: a verdict exactly when it is the worker's own
    answer, which settled the request, and the worker's retirement was confirmed before the timer or a
    rejection decided about it; a cancellation exactly when an abort settled it; and otherwise, if
    anything, that no validation is available.
  */
  lemma DeliveriesMean(limits: Limits, events: seq<Event>, id: Id)
    requires id < |Run(limits, Idle, events).tasks|
    ensures var heard := Run(limits, Idle, events).tasks[id].delivered;
            && (forall valid :: heard == [Verdict(valid)] <==> Earned(limits, events, id, valid))
            && (heard == [Cancelled] <==> heard != [] && exists k :: Cancels(limits, events, id, k))
            && (heard == [] || heard == [Cancelled] || heard == [Unavailable]
                || heard == [Verdict(true)] || heard == [Verdict(false)])
  {
    var n := |events|;
    assert events[..n] == events && Run(limits, Idle, events) == At(limits, events, n);
    var t := At(limits, events, n).tasks[id];
    AtOpen(limits, events, id);
    hide Run, At, EarnedAt, Told, Cancels, SettledAt;
    forall valid | Earned(limits, events, id, valid) ensures t.delivered == [Verdict(valid)] {
      var k, m :| EarnedAt(limits, events, id, valid, k, m);
      EarnedSettles(limits, events, id, valid, k, m);
      ToldSince(limits, events, k, n, id);
      EarnedIsHeard(limits, events, id, valid, k, m);
    }
    if k: nat :| Cancels(limits, events, id, k) {
      CancelSettles(limits, events, id, k);
      ToldSince(limits, events, k, n, id);
      HeardIsEarned(limits, events, id, k);
    }
    if t.settled {
      var k := EverySettlementIsTold(limits, events, n, id);
      HeardIsEarned(limits, events, id, k);
    }
  }

  lemma EarnedSettles(limits: Limits, events: seq<Event>, id: Id, valid: bool, k: nat, m: nat)
    requires EarnedAt(limits, events, id, valid, k, m)
    ensures SettledAt(limits, events, k, id) && k < |events|
  {
    hide At;
  }

  lemma CancelSettles(limits: Limits, events: seq<Event>, id: Id, k: nat)
    requires Cancels(limits, events, id, k)
    ensures SettledAt(limits, events, k, id) && k < |events|
  {
    hide At;
  }

  lemma AtOpen(limits: Limits, events: seq<Event>, id: Id)
    requires id < |At(limits, events, |events|).tasks|
    ensures var t := At(limits, events, |events|).tasks[id];
            !t.settled ==> t.delivered == []
  {
    EveryInterleavingKeeps(limits, Idle, events[..|events|]);
    OpenTask(limits, At(limits, events, |events|), id);
  }

  /** A running request is settled by exactly these callbacks: its abort, its timer and its worker's events. */
  lemma SettledByExactly(limits: Limits, events: seq<Event>, n: nat, id: Id)
    requires n < |events| && id < |At(limits, events, n).tasks|
    requires !At(limits, events, n).tasks[id].settled && At(limits, events, n).tasks[id].spawn == Runs
    ensures SettledAt(limits, events, n, id) <==> Settles(At(limits, events, n).tasks[id], events[n], id)
  {
    AtNext(limits, events, n);
    TasksStay(limits, At(limits, events, n), events[n]);
    StepTasks(limits, At(limits, events, n), events[n], id);
    hide At, Step, Inv;
  }

  /**
    A settled request holds its reservation until its worker is known to be gone: it has exited, or the
    termination that was asked for at the settlement has been confirmed. Without a worker it ends at once.
  */
  lemma ReservationEndsExactly(limits: Limits, events: seq<Event>, id: Id) returns (k: nat)
    requires Settled(Run(limits, Idle, events), id)
    ensures SettledAt(limits, events, k, id)
    ensures var first, t := At(limits, events, k + 1).tasks[id], Run(limits, Idle, events).tasks[id];
            t.released <==> first.race == NoRace || Gone(events, k, |events|, id, !first.terminateThrows)
  {
    assert events[..|events|] == events && Run(limits, Idle, events) == At(limits, events, |events|);
    hide Run, At;
    k := EverySettlementIsTold(limits, events, |events|, id);
  }

  /** The caller hears at once if there is no worker, and otherwise when the settlement goes on after the race. */
  lemma HeardExactly(limits: Limits, events: seq<Event>, id: Id) returns (k: nat)
    requires Settled(Run(limits, Idle, events), id)
    ensures SettledAt(limits, events, k, id)
    ensures var first, n := At(limits, events, k + 1).tasks[id], |events|;
            Run(limits, Idle, events).tasks[id].delivered != [] <==>
              || first.race == NoRace
              || (first.terminateThrows && Continued(events, k, n, id))
              || (!first.terminateThrows && exists m :: DecidedAt(events, k, n, m, id) && Continued(events, m, n, id))
  {
    assert events[..|events|] == events && Run(limits, Idle, events) == At(limits, events, |events|);
    hide Run, At, SettledAt;
    k := EverySettlementIsTold(limits, events, |events|, id);
    var n, first, t := |events|, At(limits, events, k + 1).tasks[id], At(limits, events, |events|).tasks[id];
    if first.race != NoRace && !first.terminateThrows && !Pending(events, k, n, id) {
      var m :| DecidedAt(events, k, n, m, id) && Raced(events, m, n, id, AnswerAt(limits, events, k, id), t);
      forall m' | DecidedAt(events, k, n, m', id) ensures m' == m {
        assert !(m < m') && !(m' < m);
      }
      hide Continued;
    }
  }

  // ---------------------------------------------------------------- the queue

  ghost predicate Increasing(queue: seq<Id>) {
    forall i, j :: 0 <= i < j < |queue| ==> queue[i] < queue[j]
  }

  /** The queue is in order of submission, and everything that has a worker was submitted before it. */
  ghost predicate InOrder(s: State) {
    && Increasing(s.queue)
    && forall k :: k in s.queue ==> k < |s.tasks| && AfterTheStarted(s.tasks, k)
  }

  ghost predicate AfterTheStarted(tasks: seq<Task>, k: Id) {
    forall id :: 0 <= id < |tasks| && tasks[id].worker != NoWorker ==> id < k
  }

  lemma {:induction false} WithoutInOrder(queue: seq<Id>, id: Id)
    requires Increasing(queue)
    ensures Increasing(Without(queue, id)) && forall k :: k in Without(queue, id) ==> k in queue
  {
    if queue != [] && queue[0] != id {
      WithoutInOrder(queue[1..], id);
      var rest := Without(queue[1..], id);
      forall i | 0 <= i < |rest| ensures queue[0] < rest[i] {
        assert rest[i] in queue[1..];
        var j :| 0 <= j < |queue[1..]| && queue[1..][j] == rest[i];
        assert queue[j + 1] == rest[i];
      }
    }
  }

  /** Tasks that get no new workers and a queue that only loses members stay in order. */
  lemma StaysInOrder(s: State, n: State)
    requires InOrder(s) && |n.tasks| == |s.tasks| && Increasing(n.queue)
    requires forall k :: k in n.queue ==> k in s.queue
    requires forall id :: 0 <= id < |s.tasks| && n.tasks[id].worker != NoWorker ==> s.tasks[id].worker != NoWorker
    ensures InOrder(n)
  {
  }

  /** The head leaves the queue, and may get a worker. */
  lemma HeadLeavesInOrder(s: State, n: State)
    requires InOrder(s) && s.queue != [] && n.queue == s.queue[1..] && |n.tasks| == |s.tasks|
    requires forall id :: 0 <= id < |s.tasks| && n.tasks[id].worker != NoWorker ==>
               s.tasks[id].worker != NoWorker || id == s.queue[0]
    ensures InOrder(n)
  {
    forall k | k in n.queue ensures k in s.queue && s.queue[0] < k {
      var i :| 0 <= i < |n.queue| && n.queue[i] == k;
      assert s.queue[i + 1] == k;
    }
    forall k | k in n.queue ensures AfterTheStarted(n.tasks, k) {
      assert AfterTheStarted(s.tasks, k);
    }
  }

  lemma {:induction false} DispatchInOrder(s: State)
    requires InOrder(s)
    ensures InOrder(Dispatch(s))
    decreases |s.queue|
  {
    hide InOrder;
    if s.active == {} && s.queue != [] {
      var head, next := s.queue[0], s.(queue := s.queue[1..]);
      if head >= |s.tasks| || s.tasks[head].settled {
        HeadLeavesInOrder(s, next);
        DispatchInOrder(next);
      } else if s.tasks[head].spawn == FactoryThrows {
        var settled := s.tasks[head].(settled := true, result := Unavailable);
        var freed := Free(Put(next.(active := {head}), head, settled), head);
        HeadLeavesInOrder(s, freed);
        DispatchInOrder(freed);
        DeliverInOrder(Dispatch(freed), head, Unavailable);
      } else {
        HeadLeavesInOrder(s, Dispatch(s));
      }
    }
  }

  lemma DeliverInOrder(s: State, id: Id, outcome: Outcome)
    requires InOrder(s)
    ensures InOrder(Deliver(s, id, outcome))
  {
    StaysInOrder(s, Deliver(s, id, outcome));
  }

  lemma SettleInOrder(s: State, id: Id, result: Outcome)
    requires InOrder(s)
    ensures InOrder(Settle(s, id, result))
  {
    if id < |s.tasks| && !s.tasks[id].settled {
      WithoutInOrder(s.queue, id);
      var t, cut := s.tasks[id], s.(queue := Without(s.queue, id));
      StaysInOrder(s, Put(cut, id, Retiring(t, result)));
      var put := Put(cut, id, t.(settled := true, result := result));
      StaysInOrder(s, put);
      hide Dispatch, InOrder;
      ReleaseInOrder(put, id);
      DeliverInOrder(Release(put, id), id, result);
    }
  }

  lemma ReleaseInOrder(s: State, id: Id)
    requires InOrder(s)
    ensures InOrder(Release(s, id))
  {
    if id < |s.tasks| && !s.tasks[id].released {
      StaysInOrder(s, Free(s, id));
      DispatchInOrder(Free(s, id));
    }
  }

  lemma ConfirmInOrder(s: State, id: Id)
    requires InOrder(s) && id < |s.tasks| && s.tasks[id].worker != NoWorker
    ensures InOrder(Confirm(s, id))
  {
    StaysInOrder(s, Confirm(s, id));
  }

  lemma ResolvedInOrder(limits: Limits, s: State, id: Id)
    requires Inv(limits, s) && InOrder(s) && id < |s.tasks| && s.tasks[id].terminating
    ensures InOrder(Release(Confirm(Decide(Put(s, id, s.tasks[id].(terminating := false)), id, true), id), id))
  {
    OpenTask(limits, s, id);
    var confirmed := Confirm(Decide(Put(s, id, s.tasks[id].(terminating := false)), id, true), id);
    StaysInOrder(s, confirmed);
    hide InOrder, Inv, Confirm, Decide, Put;
    ReleaseInOrder(confirmed, id);
  }

  lemma SubmitInOrder(limits: Limits, s: State, e: Event)
    requires InOrder(s) && e.Submit?
    ensures InOrder(Step(limits, s, e))
  {
    if Refusal(limits, s, e) == [] {
      var queued := Enqueued(s, e);
      EnqueuedInOrder(s, e);
      hide InOrder, Settle, Dispatch, Refusal;
      SettleInOrder(queued, |s.tasks|, Cancelled);
      DispatchInOrder(Settle(queued, |s.tasks|, Cancelled));
      DispatchInOrder(queued);
    }
  }

  lemma EnqueuedInOrder(s: State, e: Event)
    requires InOrder(s) && e.Submit?
    ensures InOrder(Enqueued(s, e))
  {
    var queued := Enqueued(s, e);
    forall i | 0 <= i < |s.queue| ensures s.queue[i] < |s.tasks| { assert s.queue[i] in s.queue; }
    forall k | k in queued.queue ensures k < |queued.tasks| && AfterTheStarted(queued.tasks, k) {
      if k in s.queue { assert AfterTheStarted(s.tasks, k); }
    }
  }

  lemma StepInOrder(limits: Limits, s: State, e: Event)
    requires Inv(limits, s) && InOrder(s)
    ensures InOrder(Step(limits, s, e))
  {
    if e.Submit? {
      SubmitInOrder(limits, s, e);
    } else if e.id < |s.tasks| {
      var id, t := e.id, s.tasks[e.id];
      if e.TerminationRejected? || e.RetirementTimeout? || e.Continue? { StaysInOrder(s, Step(limits, s, e)); }
      hide InOrder, Settle, Release, Dispatch, Inv;
      match e
      case Abort(_) => SettleInOrder(s, id, Cancelled);
      case Timeout(_) => SettleInOrder(s, id, Unavailable);
      case Message(_, valid) => SettleInOrder(s, id, Verdict(valid));
      case WorkerError(_) => SettleInOrder(s, id, Unavailable);
      case Exit(_) =>
        if t.worker != NoWorker {
          ConfirmInOrder(s, id);
          ReleaseInOrder(Confirm(s, id), id);
          SettleInOrder(Release(Confirm(s, id), id), id, Unavailable);
        }
      case TerminationResolved(_) => if t.terminating { ResolvedInOrder(limits, s, id); }
      case _ =>
    }
  }

  lemma {:induction false} RunInOrder(limits: Limits, s: State, events: seq<Event>)
    requires Inv(limits, s) && InOrder(s)
    ensures InOrder(Run(limits, s, events))
    decreases |events|
  {
    if events != [] {
      hide Inv, InOrder, Step;
      StepKeeps(limits, s, events[0]);
      StepInOrder(limits, s, events[0]);
      RunInOrder(limits, Step(limits, s, events[0]), events[1..]);
    }
  }

  /** Workers are started in the order of submission: nothing overtakes a request that still waits. */
  lemma WorkersStartInOrder(limits: Limits, events: seq<Event>, waiting: Id, later: Id)
    requires waiting < later < |Run(limits, Idle, events).tasks| && waiting in Run(limits, Idle, events).queue
    ensures Run(limits, Idle, events).tasks[later].worker == NoWorker
  {
    RunInOrder(limits, Idle, events);
  }

  /**
    In every reachable state a request is refused exactly if it is not supported, or too large, or the
    requests whose reservations are held are too many or too large with it. Otherwise it is entered.
  */
  lemma RefusedExactly(limits: Limits, events: seq<Event>, e: Event)
    requires e.Submit?
    ensures var s := Run(limits, Idle, events);
            var full := || e.bytes > limits.maxSourceBytes
                        || Unreleased(s.tasks) >= limits.maxPending
                        || Reserved(s.tasks) + e.bytes > limits.maxOutstandingBytes;
            && Refusal(limits, s, e) == (if !e.supported then [Unsupported] else if full then [Unavailable] else [])
            && |Step(limits, s, e).tasks| == |s.tasks| + if e.supported && !full then 1 else 0
  {
    EveryInterleavingKeeps(limits, Idle, events);
    var s := Run(limits, Idle, events);
    hide Run, Dispatch, Inv;
    if Refusal(limits, s, e) == [] && e.aborted { SettleLength(Enqueued(s, e), |s.tasks|, Cancelled); }
    SchedulerGuarantees(limits, events);
  }

  lemma SettleLength(s: State, id: Id, result: Outcome)
    ensures |Settle(s, id, result).tasks| == |s.tasks|
  {
  }
}
