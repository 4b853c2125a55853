/**
  When a preview receipt is accepted (src/patch/engine.ts), told by the events of a whole run: what was
  previewed, what has happened to the receipt since, and what the validation saw when it looked and when
  it read.
*/
module PreviewValidation {
  import opened Options
  import opened PreviewReceipts

  /** The state before the n-th event of a run from the start. */
  function At(events: seq<Event>, n: nat): State
    requires n <= |events|
  {
    Run(Start, events[..n])
  }

  lemma {:induction false} RunSnoc(s: State, events: seq<Event>, e: Event)
    ensures Run(s, events + [e]) == Step(Run(s, events), e)
    ensures Feasible(s, events + [e]) ==> Feasible(s, events) && Possible(Run(s, events), e)
    decreases |events|
  {
    if events == [] {
      assert [] + [e] == [e] && [e][1..] == [];
      assert Run(s, [e]) == Run(Step(s, e), []);
    } else {
      assert (events + [e])[1..] == events[1..] + [e];
      hide Step, Possible;
      RunSnoc(Step(s, events[0]), events[1..], e);
    }
  }

  lemma {:induction false} FeasiblePrefix(events: seq<Event>, n: nat)
    requires Feasible(Start, events) && n <= |events|
    ensures Feasible(Start, events[..n])
    decreases |events| - n
  {
    if n == |events| {
      assert events[..n] == events;
    } else {
      FeasiblePrefix(events, n + 1);
      assert events[..n + 1] == events[..n] + [events[n]];
      RunSnoc(Start, events[..n], events[n]);
    }
  }

  lemma StartIsFine()
    ensures Inv(Start)
  {
  }

  /** What holds of the state that an event of a feasible run finds. */
  lemma AtNext(events: seq<Event>, n: nat)
    requires Feasible(Start, events) && n < |events|
    ensures At(events, n + 1) == Step(At(events, n), events[n])
    ensures Possible(At(events, n), events[n]) && Inv(At(events, n))
  {
    hide Inv, Step, Possible, Run;
    FeasiblePrefix(events, n);
    FeasiblePrefix(events, n + 1);
    assert events[..n + 1] == events[..n] + [events[n]];
    RunSnoc(Start, events[..n], events[n]);
    StartIsFine();
    EveryRunKeeps(Start, events[..n]);
  }

  // ---------------------------------------------------------------- while a receipt is stored

  /** The store has room: at most so many receipts of one session, and at most so many bytes. */
  predicate Room(s: State, r: Receipt, candidateBytes: nat) {
    && candidateBytes <= MAX_CANDIDATE_BYTES
    && Outstanding(s.receipts, r.session) < MAX_SESSION_RECEIPTS
    && Retained(s.receipts, r.session) + r.payload <= MAX_SESSION_BYTES
  }

  ghost predicate StoredBy(events: seq<Event>, p: nat, r: Receipt) {
    p < |events| && events[p].Preview? && events[p].receipt == r && Room(At(events, p), r, events[p].candidateBytes)
  }

  /**
    The event takes this receipt out of the store: its timer, a look at it after its time, a discarding of
    its preview, or the end of a batch that held it and did not fail safely with the file as previewed.
  */
  ghost predicate Removes(s: State, e: Event, r: Receipt) {
    match e
    case Expire(token) => token == r.token
    case Look(_, _, token, q) => token == r.token && q.now > r.expiresAt
    case Discard(tokens) => r.token in tokens
    case Release(batch, current) =>
      && LetsGo(s, batch, r.token)
      && !(s.batches[batch].safe && !s.batches[batch].completed && current == Some(r.source))
    case _ => false
  }

  /** The batch has ended and this is the next token that it lets go of. */
  predicate LetsGo(s: State, batch: BatchId, token: Token) {
    && batch in s.batches && s.batches[batch].ended
    && s.batches[batch].holds != [] && s.batches[batch].holds[0].token == token
  }

  /** Since the p-th event, and before the n-th, nothing has removed the receipt. */
  ghost predicate Kept(events: seq<Event>, p: nat, n: nat, r: Receipt) {
    n <= |events| && forall j :: p < j < n ==> !Removes(At(events, j), events[j], r)
  }

  /** The hold knows the receipt that is stored under its token, if any. */
  ghost predicate Knows(receipts: seq<Receipt>, hold: Hold) {
    forall r :: r in receipts && r.token == hold.token ==> hold.receipt == Some(r)
  }

  ghost predicate HoldsKnow(s: State) {
    forall b, hold :: b in s.batches && hold in s.batches[b].holds ==> Knows(s.receipts, hold)
  }

  lemma FoundIsStored(s: State, r: Receipt)
    requires Stored(s) && r in s.receipts
    ensures Find(s.receipts, r.token) == Some(r)
  {
    FindFinds(s.receipts, r.token);
    var found := Find(s.receipts, r.token).value;
    var i :| 0 <= i < |s.receipts| && s.receipts[i] == r;
    var k :| 0 <= k < |s.receipts| && s.receipts[k] == found;
    assert i == k;
  }

  /** Events that add no receipts and no holds. */
  lemma KnowStill(s: State, next: State)
    requires HoldsKnow(s) && forall r :: r in next.receipts ==> r in s.receipts
    requires forall b, hold :: b in next.batches && hold in next.batches[b].holds ==>
               b in s.batches && hold in s.batches[b].holds
    ensures HoldsKnow(next)
  {
    forall b, hold | b in next.batches && hold in next.batches[b].holds ensures Knows(next.receipts, hold) {
      assert Knows(s.receipts, hold);
    }
  }

  /** A new batch looks up what it holds. */
  lemma BeginKnows(s: State, batch: BatchId, tokens: seq<Token>)
    requires Inv(s) && HoldsKnow(s) && batch !in s.batches
    ensures HoldsKnow(Reserve(s, batch, tokens))
  {
    var next := Reserve(s, batch, tokens);
    if CanReserve(s, tokens) {
      HoldsOfReserve(s, batch, tokens);
      forall b, hold | b in next.batches && hold in next.batches[b].holds ensures Knows(next.receipts, hold) {
        if b == batch {
          var i :| 0 <= i < |tokens| && hold == next.batches[batch].holds[i];
          forall r | r in s.receipts && r.token == hold.token ensures hold.receipt == Some(r) {
            FoundIsStored(s, r);
          }
        } else {
          assert Knows(s.receipts, hold);
        }
      }
    }
  }

  /** A new receipt has a token that nobody holds. */
  lemma PreviewKnows(s: State, receipt: Receipt, candidateBytes: nat)
    requires Inv(s) && HoldsKnow(s) && receipt.token !in s.used
    ensures HoldsKnow(StorePreview(s, receipt, candidateBytes))
  {
    var next := StorePreview(s, receipt, candidateBytes);
    forall b, hold | b in next.batches && hold in next.batches[b].holds ensures Knows(next.receipts, hold) {
      assert Knows(s.receipts, hold);
      var i :| 0 <= i < |s.batches[b].holds| && s.batches[b].holds[i] == hold;
      assert s.batches[b].holds[i].token in s.used;
    }
  }

  /** The receipts that an event leaves were there before, unless it stores one. */
  lemma OthersAddNothing(s: State, e: Event)
    requires !e.Preview?
    ensures forall r :: r in Step(s, e).receipts ==> r in s.receipts
  {
    match e {
      case Look(_, _, t, _) => WithoutRemoves(s.receipts, t);
      case Expire(t) => WithoutRemoves(s.receipts, t);
      case Discard(tokens) => DiscardRemoves(s.receipts, tokens);
      case Release(batch, _) =>
        if batch in s.batches && s.batches[batch].holds != [] {
          WithoutRemoves(s.receipts, s.batches[batch].holds[0].token);
        }
      case _ =>
    }
    hide Without, Find, DiscardAll, HoldsOf, CanReserve;
  }

  lemma OthersHoldNoMore(s: State, e: Event, b: BatchId, hold: Hold)
    requires !e.Begin? && b in Step(s, e).batches && hold in Step(s, e).batches[b].holds
    ensures b in s.batches && hold in s.batches[b].holds
  {
    hide Without, Find, DiscardAll, Reusable;
  }

  lemma StepKnows(s: State, e: Event)
    requires Inv(s) && Possible(s, e) && HoldsKnow(s)
    ensures HoldsKnow(Step(s, e))
  {
    match e
    case Begin(batch, tokens) => BeginKnows(s, batch, tokens);
    case Preview(receipt, candidateBytes) => PreviewKnows(s, receipt, candidateBytes);
    case _ =>
      var next := Step(s, e);
      OthersAddNothing(s, e);
      forall b, hold | b in next.batches && hold in next.batches[b].holds
        ensures b in s.batches && hold in s.batches[b].holds
      {
        OthersHoldNoMore(s, e, b, hold);
      }
      hide Step, Inv, Knows;
      KnowStill(s, next);
  }

  lemma {:induction false} RunKnows(events: seq<Event>, n: nat)
    requires Feasible(Start, events) && n <= |events|
    ensures HoldsKnow(At(events, n))
  {
    if n == 0 {
      assert events[..0] == [];
    } else {
      hide At, Inv, Step, HoldsKnow, Possible;
      RunKnows(events, n - 1);
      AtNext(events, n - 1);
      StepKnows(At(events, n - 1), events[n - 1]);
    }
  }

  /** While the receipt is stored, an event drops its token exactly when it removes the receipt. */
  lemma DropsMeansRemoves(s: State, e: Event, r: Receipt)
    requires Inv(s) && Possible(s, e) && HoldsKnow(s) && r in s.receipts
    ensures Drops(s, e, r.token) <==> Removes(s, e, r)
  {
    FoundIsStored(s, r);
    if e.Release? && LetsGo(s, e.batch, r.token) {
      var hold := s.batches[e.batch].holds[0];
      assert hold in s.batches[e.batch].holds && Knows(s.receipts, hold);
    }
    if e.Look? && e.token == r.token {
      var holds := s.batches[e.caller.value].holds;
      var i :| 0 <= i < |holds| && holds[i].token == r.token;
    }
    hide Find, Stored, WithinLimits, Remembered, Attended, HoldsKnow;
  }

  /** One event stores or removes a receipt exactly so. */
  lemma StepStores(s: State, e: Event, r: Receipt)
    requires Inv(s) && Possible(s, e) && HoldsKnow(s)
    ensures r in Step(s, e).receipts
       <==> (r in s.receipts && !Removes(s, e, r)) || (e.Preview? && e.receipt == r && Room(s, r, e.candidateBytes))
  {
    if r in s.receipts {
      DropsMeansRemoves(s, e, r);
      StepSurvives(s, e, r);
    } else if !e.Preview? {
      OthersAddNothing(s, e);
    }
  }

  lemma KeptNext(events: seq<Event>, p: nat, n: nat, r: Receipt)
    requires p < n < |events|
    ensures Kept(events, p, n + 1, r) <==> Kept(events, p, n, r) && !Removes(At(events, n), events[n], r)
  {
    hide At, Removes;
  }

  /** Some preview stored the receipt before the n-th event, and nothing has removed it since. */
  ghost predicate IsStored(events: seq<Event>, n: nat, r: Receipt) {
    exists p: nat :: p < n && StoredBy(events, p, r) && Kept(events, p, n, r)
  }

  lemma IsStoredNext(events: seq<Event>, n: nat, r: Receipt)
    requires n < |events|
    ensures IsStored(events, n + 1, r) <==>
              (IsStored(events, n, r) && !Removes(At(events, n), events[n], r)) || StoredBy(events, n, r)
  {
    hide At, Removes, StoredBy;
    if p: nat :| p < n + 1 && StoredBy(events, p, r) && Kept(events, p, n + 1, r) {
      if p < n { KeptNext(events, p, n, r); }
    }
    if p: nat :| p < n && StoredBy(events, p, r) && Kept(events, p, n, r) {
      KeptNext(events, p, n, r);
    }
    assert Kept(events, n, n + 1, r);
  }

  /** A receipt is in the store exactly if some preview stored it and nothing has removed it since. */
  lemma {:induction false} StoredExactly(events: seq<Event>, n: nat, r: Receipt)
    requires Feasible(Start, events) && n <= |events|
    ensures r in At(events, n).receipts <==> IsStored(events, n, r)
  {
    if n == 0 {
      assert events[..0] == [];
    } else {
      hide At, Step, Inv, HoldsKnow, Possible, Removes, Room, Feasible, IsStored;
      StoredExactly(events, n - 1, r);
      AtNext(events, n - 1);
      RunKnows(events, n - 1);
      StepStores(At(events, n - 1), events[n - 1], r);
      IsStoredNext(events, n - 1, r);
    }
  }

  // ---------------------------------------------------------------- a validation

  /** Between the l-th event and the n-th this call neither looks nor reads. */
  predicate Awaits(events: seq<Event>, l: nat, n: nat, call: Call) {
    && n <= |events|
    && forall j :: l < j < n && (events[j].Look? || events[j].Read?) ==> events[j].call != call
  }

  lemma LookingStep(s: State, e: Event, call: Call)
    requires (e.Look? || e.Read?) ==> e.call != call
    ensures call in Step(s, e).looking <==> call in s.looking
    ensures call in s.looking ==> Step(s, e).looking[call] == s.looking[call]
  {
    hide DiscardAll, Looked, Without, Find, HoldsOf, CanReserve, Fits, Reusable;
  }

  lemma {:induction false} LookingStays(events: seq<Event>, l: nat, n: nat, call: Call)
    requires Feasible(Start, events) && l < n <= |events| && Awaits(events, l, n, call)
    ensures call in At(events, n).looking <==> call in At(events, l + 1).looking
    ensures call in At(events, n).looking ==> At(events, n).looking[call] == At(events, l + 1).looking[call]
  {
    if l + 1 < n {
      hide At, Inv, Possible, Step;
      LookingStays(events, l, n - 1, call);
      AtNext(events, n - 1);
      LookingStep(At(events, n - 1), events[n - 1], call);
    }
  }

  /** What a validation accepts: this receipt, for a look and a read at these events. */
  ghost predicate Accepts(events: seq<Event>, l: nat, n: nat, r: Receipt)
    requires l < |events| && n < |events| && events[l].Look? && events[n].Read?
  {
    var q, c := events[l].request, events[n].contents;
    && IsStored(events, l, r)
    && r.token == events[l].token && q.now <= r.expiresAt
    && r.path == q.path && r.session == q.session && r.workspace == q.workspace
    && c.configuration == Some(r.configuration) && c.source == Some(r.source)
  }

  lemma LookFinds(s: State, e: Event, r: Receipt)
    requires Inv(s) && e.Look? && Possible(s, e)
    ensures (e.call in Step(s, e).looking && Step(s, e).looking[e.call].receipt == r) <==>
              && r in s.receipts && r.token == e.token && e.request.now <= r.expiresAt
              && r.path == e.request.path && r.session == e.request.session && r.workspace == e.request.workspace
  {
    FindFinds(s.receipts, e.token);
    if r in s.receipts && r.token == e.token { FoundIsStored(s, r); }
    var holds := s.batches[e.caller.value].holds;
    var i :| 0 <= i < |holds| && holds[i].token == e.token;
    hide Find, Stored, WithinLimits, Remembered, Attended, Without;
  }

  /**
    A validation succeeds exactly with a receipt that a preview stored and nothing removed before the look,
    if it had not expired then, if it was made for the path, session and workspace of the request, and if
    configuration and file are those of the preview when they are read. Events of all kinds may happen in
    between.
  */
  lemma ValidatesExactly(events: seq<Event>, l: nat, n: nat, r: Receipt)
    requires Feasible(Start, events) && l < n < |events|
    requires events[l].Look? && events[n].Read? && events[n].call == events[l].call
    requires Awaits(events, l, n, events[l].call)
    ensures Validated(At(events, n), events[n].call, events[n].contents) == Some(r) <==> Accepts(events, l, n, r)
  {
    var call := events[l].call;
    AtNext(events, l);
    LookingStays(events, l, n, call);
    LookFinds(At(events, l), events[l], r);
    StoredExactly(events, l, r);
    hide At, Step, Inv, Possible, Feasible, StoredBy, Kept;
  }

  /** A token is given to a batch exactly if the batch names it once and no other batch still holds it. */
  lemma ReservesExactly(events: seq<Event>, n: nat)
    requires Feasible(Start, events) && n < |events| && events[n].Begin?
    ensures var s, tokens := At(events, n), events[n].tokens;
            events[n].batch in At(events, n + 1).batches <==>
              && (forall i, j :: 0 <= i < j < |tokens| ==> tokens[i] != tokens[j])
              && forall b, t :: b in s.batches && t in tokens ==> !HeldBy(s.batches[b], t)
  {
    AtNext(events, n);
    var s, tokens := At(events, n), events[n].tokens;
    hide At;
    forall t | t in tokens ensures t !in s.reserved <==> forall b :: b in s.batches ==> !HeldBy(s.batches[b], t) {
      ReservedIsHeld(s, t);
    }
    hide HeldBy, Inv;
  }

  lemma ReservedIsHeld(s: State, t: Token)
    requires Inv(s)
    ensures t !in s.reserved <==> forall b :: b in s.batches ==> !HeldBy(s.batches[b], t)
  {
    hide Stored, WithinLimits, Remembered, Attended;
  }

  /** The token that has just expired is remembered, and of the earlier ones only the oldest may be forgotten. */
  lemma ExpiredIsRemembered(s: State, token: Token)
    requires Inv(s)
    ensures var next := ExpireOne(s, token);
            && token in next.expired
            && forall t :: t in s.expired && t !in next.expired ==>
                 t == s.expired[0] && |s.expired| == MAX_EXPIRED && token !in s.expired
  {
    var expired := if token in s.expired then s.expired else s.expired + [token];
    if |expired| > MAX_EXPIRED {
      assert expired[1..][|expired| - 2] == token;
      forall t | t in s.expired && t != s.expired[0] ensures t in expired[1..] {
        var i :| 0 <= i < |s.expired| && s.expired[i] == t;
        assert expired[1..][i - 1] == t;
      }
    } else {
      assert token in expired by { if token !in s.expired { assert expired[|s.expired|] == token; } }
    }
    hide WithinLimits, Reserved, Remembered, Attended;
  }
}
