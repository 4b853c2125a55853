/**
  Preview receipts (src/patch/engine.ts): a preview stores its candidate under a random token, and a
  later batch commits it. Each event below runs without an await in between; a validation is two
  events, finding the receipt and, after the awaits for the configuration and the file, comparing them.
  Batches, expiry timers and validations interleave in any order. Maps keep their insertion order.

  `used` and `spent` only record history: the tokens ever created or named by a request, and the
  tokens released by a completed batch.
*/
module PreviewReceipts {
  import opened Options

  type Token = string
  type Session = string
  type Path = string
  type Hash = string
  type BatchId = nat
  type Call = nat

  const MAX_CANDIDATE_BYTES := 4 * 1024 * 1024
  const MAX_SESSION_BYTES := 16 * 1024 * 1024
  const MAX_SESSION_RECEIPTS := 32
  const MAX_EXPIRED := 1024

  datatype Receipt = Receipt(
    token: Token, session: Session, path: Path, source: Hash, payload: nat, workspace: string,
    configuration: string, expiresAt: nat)

  /** A token a batch still holds, with the receipt it named when the batch began. */
  datatype Hold = Hold(token: Token, receipt: Option<Receipt>)

  datatype Batch = Batch(holds: seq<Hold>, ended: bool, completed: bool, safe: bool)

  /** A validation that has found its receipt and awaits the configuration and the file. */
  datatype Looking = Looking(caller: Option<BatchId>, receipt: Receipt)

  datatype State = State(
    receipts: seq<Receipt>, expired: seq<Token>, reserved: map<Token, BatchId>, batches: map<BatchId, Batch>,
    looking: map<Call, Looking>, used: set<Token>, spent: set<Token>)

  datatype Event =
    | Preview(receipt: Receipt, candidateBytes: nat)
    | Expire(token: Token)
    | Begin(batch: BatchId, tokens: seq<Token>)
    | Look(call: Call, caller: Option<BatchId>, token: Token, request: Request)
    | Read(call: Call, contents: Contents)
    | End(batch: BatchId, completed: bool, safe: bool)
    | Release(batch: BatchId, current: Option<Hash>)
    | Discard(tokens: seq<Token>)

  /** What a validation compares the receipt with when it finds it. */
  datatype Request = Request(path: Path, session: Session, workspace: string, now: nat)

  /** What it has read since: None when the configuration or the file cannot be read. */
  datatype Contents = Contents(configuration: Option<string>, source: Option<Hash>)

  // ---------------------------------------------------------------- the stored receipts

  function Find(receipts: seq<Receipt>, token: Token): Option<Receipt> {
    if receipts == [] then None
    else if receipts[0].token == token then Some(receipts[0])
    else Find(receipts[1..], token)
  }

  function Without(receipts: seq<Receipt>, token: Token): seq<Receipt> {
    if receipts == [] then []
    else (if receipts[0].token == token then [] else [receipts[0]]) + Without(receipts[1..], token)
  }

  function Outstanding(receipts: seq<Receipt>, session: Session): nat {
    if receipts == [] then 0
    else (if receipts[0].session == session then 1 else 0) + Outstanding(receipts[1..], session)
  }

  function Retained(receipts: seq<Receipt>, session: Session): nat {
    if receipts == [] then 0
    else (if receipts[0].session == session then receipts[0].payload else 0) + Retained(receipts[1..], session)
  }

  predicate Holds(receipts: seq<Receipt>, token: Token) {
    exists r :: r in receipts && r.token == token
  }

  // ---------------------------------------------------------------- the events

  /** previewPayloadBytes. */
  predicate Fits(s: State, receipt: Receipt, candidateBytes: nat) {
    && candidateBytes <= MAX_CANDIDATE_BYTES
    && Outstanding(s.receipts, receipt.session) < MAX_SESSION_RECEIPTS
    && Retained(s.receipts, receipt.session) + receipt.payload <= MAX_SESSION_BYTES
  }

  function StorePreview(s: State, receipt: Receipt, candidateBytes: nat): State {
    if Fits(s, receipt, candidateBytes) then
      s.(receipts := s.receipts + [receipt], used := s.used + {receipt.token})
    else s.(used := s.used + {receipt.token})
  }

  /** expirePreviewReceipt. */
  function ExpireOne(s: State, token: Token): State {
    var expired := if token in s.expired then s.expired else s.expired + [token];
    s.(receipts := Without(s.receipts, token), expired := if |expired| > MAX_EXPIRED then expired[1..] else expired)
  }

  predicate Distinct(tokens: seq<Token>) {
    forall i, j :: 0 <= i < j < |tokens| ==> tokens[i] != tokens[j]
  }

  predicate CanReserve(s: State, tokens: seq<Token>) {
    Distinct(tokens) && forall t :: t in tokens ==> t !in s.reserved
  }

  function HoldsOf(receipts: seq<Receipt>, tokens: seq<Token>): seq<Hold> {
    seq(|tokens|, i requires 0 <= i < |tokens| => Hold(tokens[i], Find(receipts, tokens[i])))
  }

  function Reserve(s: State, batch: BatchId, tokens: seq<Token>): State {
    var used := s.used + set t | t in tokens;
    if !CanReserve(s, tokens) then s.(used := used)
    else
      s.(reserved := s.reserved + map t | t in tokens :: batch,
         batches := s.batches[batch := Batch(HoldsOf(s.receipts, tokens), false, false, true)],
         used := used)
  }

  predicate ReservedByAnother(s: State, caller: Option<BatchId>, token: Token) {
    token in s.reserved && caller != Some(s.reserved[token])
  }

  /** validatePreviewReceipt up to its first await: the receipt it goes on with. */
  function Looked(s: State, caller: Option<BatchId>, token: Token, q: Request): Option<Receipt> {
    if ReservedByAnother(s, caller, token) then None
    else
      match Find(s.receipts, token)
      case None => None
      case Some(r) =>
        if r.expiresAt >= q.now && r.path == q.path && r.session == q.session && r.workspace == q.workspace
        then Some(r) else None
  }

  function LookUp(s: State, call: Call, caller: Option<BatchId>, token: Token, q: Request): State {
    var found := Looked(s, caller, token, q);
    var next := s.(used := s.used + {token},
                   looking := if found.Some? then s.looking[call := Looking(caller, found.value)] else s.looking);
    if !ReservedByAnother(s, caller, token) && Find(s.receipts, token).Some?
       && Find(s.receipts, token).value.expiresAt < q.now
    then next.(receipts := Without(s.receipts, token)) else next
  }

  /** The rest of validatePreviewReceipt: the receipt on success. */
  function Validated(s: State, call: Call, c: Contents): Option<Receipt> {
    if call !in s.looking then None
    else
      var r := s.looking[call].receipt;
      if c.configuration == Some(r.configuration) && c.source == Some(r.source) then Some(r) else None
  }

  function EndBatch(s: State, batch: BatchId, completed: bool, safe: bool): State {
    if batch in s.batches && !s.batches[batch].ended then
      s.(batches := s.batches[batch := s.batches[batch].(ended := true, completed := completed, safe := safe)])
    else s
  }

  predicate Reusable(b: Batch, hold: Hold, current: Option<Hash>) {
    b.safe && !b.completed && (hold.receipt.Some? ==> current == Some(hold.receipt.value.source))
  }

  /** The release of the next token of an ended batch. */
  function ReleaseNext(s: State, batch: BatchId, current: Option<Hash>): State {
    if batch !in s.batches || !s.batches[batch].ended || s.batches[batch].holds == [] then s
    else
      var b := s.batches[batch];
      var hold := b.holds[0];
      s.(receipts :=
           if hold.receipt.Some? && !Reusable(b, hold, current) then Without(s.receipts, hold.token) else s.receipts,
         reserved := s.reserved - {hold.token},
         batches := s.batches[batch := b.(holds := b.holds[1..])],
         spent := if b.completed then s.spent + {hold.token} else s.spent)
  }

  /** discardPreparedPreviews. */
  function DiscardAll(receipts: seq<Receipt>, tokens: seq<Token>): seq<Receipt>
    decreases |tokens|
  {
    if tokens == [] then receipts else DiscardAll(Without(receipts, tokens[0]), tokens[1..])
  }

  function Step(s: State, e: Event): State {
    match e
    case Preview(receipt, candidateBytes) => StorePreview(s, receipt, candidateBytes)
    case Expire(token) => ExpireOne(s, token)
    case Begin(batch, tokens) => Reserve(s, batch, tokens)
    case Look(call, caller, token, q) => LookUp(s, call, caller, token, q)
    case Read(call, _) => s.(looking := s.looking - {call})
    case End(batch, completed, safe) => EndBatch(s, batch, completed, safe)
    case Release(batch, current) => ReleaseNext(s, batch, current)
    case Discard(tokens) => s.(receipts := DiscardAll(s.receipts, tokens))
  }

  /**
    Tokens are random, batches and calls are new. Receipts are validated only by a running batch, for a
    token that it has reserved, and the batch awaits its validations before it ends.
  */
  predicate Possible(s: State, e: Event) {
    match e
    case Preview(receipt, _) => receipt.token !in s.used
    case Begin(batch, _) => batch !in s.batches
    case Look(call, caller, token, _) =>
      && call !in s.looking
      && caller.Some? && caller.value in s.batches && !s.batches[caller.value].ended
      && HeldBy(s.batches[caller.value], token)
    case End(batch, _, _) => forall call :: call in s.looking ==> s.looking[call].caller != Some(batch)
    case _ => true
  }

  function Run(s: State, events: seq<Event>): State
    decreases |events|
  {
    if events == [] then s else Run(Step(s, events[0]), events[1..])
  }

  predicate Feasible(s: State, events: seq<Event>)
    decreases |events|
  {
    events != [] ==> Possible(s, events[0]) && Feasible(Step(s, events[0]), events[1..])
  }

  const Start := State([], [], map[], map[], map[], {}, {})

  // ---------------------------------------------------------------- the invariant

  ghost predicate Stored(s: State) {
    && (forall i, j :: 0 <= i < j < |s.receipts| ==> s.receipts[i].token != s.receipts[j].token)
    && (forall r :: r in s.receipts ==> r.token in s.used && r.token !in s.spent)
    && s.spent <= s.used
    && |s.expired| <= MAX_EXPIRED
  }

  ghost predicate WithinLimits(receipts: seq<Receipt>) {
    forall session: Session ::
      Outstanding(receipts, session) <= MAX_SESSION_RECEIPTS && Retained(receipts, session) <= MAX_SESSION_BYTES
  }

  predicate HeldBy(b: Batch, token: Token) {
    exists i :: 0 <= i < |b.holds| && b.holds[i].token == token
  }

  /** Every reserved token is held by the batch it is reserved for. */
  ghost predicate OwnersHold(s: State) {
    forall t :: t in s.reserved ==> s.reserved[t] in s.batches && HeldBy(s.batches[s.reserved[t]], t)
  }

  /** Every token that a batch holds is reserved for it. */
  ghost predicate HoldsOwned(s: State) {
    forall b, i :: b in s.batches && 0 <= i < |s.batches[b].holds| ==>
      s.batches[b].holds[i].token in s.reserved && s.reserved[s.batches[b].holds[i].token] == b
  }

  ghost predicate HoldsDiffer(s: State) {
    forall b, i, j :: b in s.batches && 0 <= i < j < |s.batches[b].holds| ==>
      s.batches[b].holds[i].token != s.batches[b].holds[j].token
  }

  /** A token is reserved by a batch exactly while that batch holds it. */
  ghost predicate Reserved(s: State) {
    OwnersHold(s) && HoldsOwned(s) && HoldsDiffer(s)
  }

  /** A token without a receipt when its batch began has none later. */
  ghost predicate Remembered(s: State) {
    forall b, i :: b in s.batches && 0 <= i < |s.batches[b].holds| ==>
      && s.batches[b].holds[i].token in s.used
      && (s.batches[b].holds[i].receipt.None? ==> !Holds(s.receipts, s.batches[b].holds[i].token))
  }

  /** A validation under way belongs to a running batch that holds the token. */
  ghost predicate Attended(s: State) {
    forall call :: call in s.looking ==>
      && s.looking[call].caller.Some? && s.looking[call].caller.value in s.batches
      && !s.batches[s.looking[call].caller.value].ended
      && HeldBy(s.batches[s.looking[call].caller.value], s.looking[call].receipt.token)
  }

  ghost predicate Inv(s: State) {
    Stored(s) && WithinLimits(s.receipts) && Reserved(s) && Remembered(s) && Attended(s)
  }

  // ---------------------------------------------------------------- removing receipts

  lemma {:induction false} WithoutRemoves(receipts: seq<Receipt>, token: Token)
    ensures forall r :: r in Without(receipts, token) <==> r in receipts && r.token != token
  {
    if receipts != [] {
      WithoutRemoves(receipts[1..], token);
      assert forall r :: r in receipts <==> r == receipts[0] || r in receipts[1..];
    }
  }

  lemma {:induction false} WithoutShrinks(receipts: seq<Receipt>, token: Token, session: Session)
    ensures Outstanding(Without(receipts, token), session) <= Outstanding(receipts, session)
    ensures Retained(Without(receipts, token), session) <= Retained(receipts, session)
  {
    if receipts != [] {
      WithoutShrinks(receipts[1..], token, session);
      var rest := Without(receipts[1..], token);
      assert Without(receipts, token) == (if receipts[0].token == token then [] else [receipts[0]]) + rest;
      if receipts[0].token != token { assert ([receipts[0]] + rest)[1..] == rest; } else { assert [] + rest == rest; }
    }
  }

  predicate DistinctTokens(receipts: seq<Receipt>) {
    forall i, j :: 0 <= i < j < |receipts| ==> receipts[i].token != receipts[j].token
  }

  lemma {:induction false} WithoutStaysDistinct(receipts: seq<Receipt>, token: Token)
    requires DistinctTokens(receipts)
    ensures DistinctTokens(Without(receipts, token))
  {
    if receipts != [] {
      WithoutStaysDistinct(receipts[1..], token);
      WithoutRemoves(receipts[1..], token);
      var rest := Without(receipts[1..], token);
      forall i | 0 <= i < |rest| ensures rest[i].token != receipts[0].token {
        assert rest[i] in receipts[1..];
        var j :| 0 <= j < |receipts[1..]| && receipts[1..][j] == rest[i];
        assert receipts[j + 1] == rest[i];
      }
    }
  }

  lemma {:induction false} FindFinds(receipts: seq<Receipt>, token: Token)
    ensures Find(receipts, token).Some? ==>
              Find(receipts, token).value in receipts && Find(receipts, token).value.token == token
    ensures Find(receipts, token).None? <==> !Holds(receipts, token)
  {
    if receipts != [] {
      FindFinds(receipts[1..], token);
      assert forall r :: r in receipts <==> r == receipts[0] || r in receipts[1..];
    }
  }

  /** Removing receipts, one token at a time, keeps the invariant. */
  lemma RemovalKeeps(s: State, token: Token)
    requires Inv(s)
    ensures Inv(s.(receipts := Without(s.receipts, token)))
  {
    var next := s.(receipts := Without(s.receipts, token));
    WithoutRemoves(s.receipts, token);
    WithoutStaysDistinct(s.receipts, token);
    forall session: Session ensures Outstanding(next.receipts, session) <= MAX_SESSION_RECEIPTS
                                 && Retained(next.receipts, session) <= MAX_SESSION_BYTES
    {
      WithoutShrinks(s.receipts, token, session);
    }
    assert Stored(next) by { assert DistinctTokens(next.receipts); }
    forall b, i | b in next.batches && 0 <= i < |next.batches[b].holds| && next.batches[b].holds[i].receipt.None?
      ensures !Holds(next.receipts, next.batches[b].holds[i].token)
    {
      assert !Holds(s.receipts, next.batches[b].holds[i].token);
    }
  }

  lemma {:induction false} DiscardKeeps(s: State, tokens: seq<Token>)
    requires Inv(s)
    ensures Inv(s.(receipts := DiscardAll(s.receipts, tokens)))
    decreases |tokens|
  {
    if tokens != [] {
      RemovalKeeps(s, tokens[0]);
      DiscardKeeps(s.(receipts := Without(s.receipts, tokens[0])), tokens[1..]);
    }
  }

  // ---------------------------------------------------------------- each event keeps the invariant

  lemma {:induction false} AppendCounts(receipts: seq<Receipt>, r: Receipt, session: Session)
    ensures Outstanding(receipts + [r], session)
         == Outstanding(receipts, session) + if r.session == session then 1 else 0
    ensures Retained(receipts + [r], session)
         == Retained(receipts, session) + if r.session == session then r.payload else 0
  {
    if receipts == [] {
      assert [] + [r] == [r] && [r][1..] == [];
    } else {
      assert (receipts + [r])[1..] == receipts[1..] + [r];
      AppendCounts(receipts[1..], r, session);
    }
  }

  lemma PreviewKeeps(s: State, receipt: Receipt, candidateBytes: nat)
    requires Inv(s) && receipt.token !in s.used
    ensures Inv(StorePreview(s, receipt, candidateBytes))
  {
    var next := StorePreview(s, receipt, candidateBytes);
    if Fits(s, receipt, candidateBytes) {
      forall session: Session ensures Outstanding(next.receipts, session) <= MAX_SESSION_RECEIPTS
                                   && Retained(next.receipts, session) <= MAX_SESSION_BYTES
      {
        AppendCounts(s.receipts, receipt, session);
      }
      forall i | 0 <= i < |s.receipts| ensures s.receipts[i].token != receipt.token {
        assert s.receipts[i] in s.receipts;
      }
      assert Stored(next);
      forall b, i | b in next.batches && 0 <= i < |next.batches[b].holds| && next.batches[b].holds[i].receipt.None?
        ensures !Holds(next.receipts, next.batches[b].holds[i].token)
      {
        assert !Holds(s.receipts, next.batches[b].holds[i].token);
      }
    }
  }

  lemma ExpireKeeps(s: State, token: Token)
    requires Inv(s)
    ensures Inv(ExpireOne(s, token))
  {
    RemovalKeeps(s, token);
    var removed := s.(receipts := Without(s.receipts, token));
    var next := ExpireOne(s, token);
    assert next == removed.(expired := next.expired) && |next.expired| <= MAX_EXPIRED;
    hide Without, WithinLimits;
    assert Stored(next) && Reserved(next) && Remembered(next) && Attended(next);
  }

  lemma HoldsOfReserve(s: State, batch: BatchId, tokens: seq<Token>)
    requires CanReserve(s, tokens)
    ensures var next := Reserve(s, batch, tokens);
            && batch in next.batches && |next.batches[batch].holds| == |tokens|
            && forall i :: 0 <= i < |tokens| ==>
                 next.batches[batch].holds[i] == Hold(tokens[i], Find(s.receipts, tokens[i]))
  {
  }

  /** The batch has just taken these tokens. */
  ghost predicate Took(s: State, next: State, batch: BatchId, tokens: seq<Token>) {
    && batch !in s.batches && batch in next.batches && CanReserve(s, tokens)
    && next.reserved == s.reserved + (map t | t in tokens :: batch)
    && next.batches == s.batches[batch := next.batches[batch]]
    && |next.batches[batch].holds| == |tokens|
    && forall k :: 0 <= k < |tokens| ==> next.batches[batch].holds[k].token == tokens[k]
  }

  lemma TookOwners(s: State, next: State, batch: BatchId, tokens: seq<Token>)
    requires OwnersHold(s) && Took(s, next, batch, tokens)
    ensures OwnersHold(next)
  {
    forall t | t in next.reserved
      ensures next.reserved[t] in next.batches && HeldBy(next.batches[next.reserved[t]], t)
    {
      if t in tokens {
        var i :| 0 <= i < |tokens| && tokens[i] == t;
        assert next.batches[batch].holds[i].token == t;
      } else {
        assert t in s.reserved && s.reserved[t] != batch;
      }
    }
  }

  /** Every hold, of the new batch and of the others, is reserved for its batch. */
  lemma TookHold(s: State, next: State, batch: BatchId, tokens: seq<Token>, b: BatchId, i: nat)
    requires HoldsOwned(s) && Took(s, next, batch, tokens) && b in next.batches && i < |next.batches[b].holds|
    ensures var token := next.batches[b].holds[i].token;
            token in next.reserved && next.reserved[token] == b
  {
    if b == batch {
      assert tokens[i] in tokens;
    } else {
      var token := s.batches[b].holds[i].token;
      assert next.batches[b] == s.batches[b] && token in s.reserved && s.reserved[token] == b;
    }
  }

  lemma TookHolds(s: State, next: State, batch: BatchId, tokens: seq<Token>)
    requires HoldsOwned(s) && Took(s, next, batch, tokens)
    ensures HoldsOwned(next)
  {
    forall b, i | b in next.batches && 0 <= i < |next.batches[b].holds|
      ensures next.batches[b].holds[i].token in next.reserved && next.reserved[next.batches[b].holds[i].token] == b
    {
      hide HoldsOwned, Took;
      TookHold(s, next, batch, tokens, b, i);
    }
  }

  lemma TookDiffer(s: State, next: State, batch: BatchId, tokens: seq<Token>)
    requires HoldsDiffer(s) && Took(s, next, batch, tokens)
    ensures HoldsDiffer(next)
  {
    forall b, i, j | b in next.batches && 0 <= i < j < |next.batches[b].holds|
      ensures next.batches[b].holds[i].token != next.batches[b].holds[j].token
    {
      if b != batch { assert next.batches[b] == s.batches[b]; }
    }
  }

  lemma ReserveTakes(s: State, batch: BatchId, tokens: seq<Token>)
    requires batch !in s.batches && CanReserve(s, tokens)
    ensures Took(s, Reserve(s, batch, tokens), batch, tokens)
  {
    HoldsOfReserve(s, batch, tokens);
  }

  lemma ReserveReserves(s: State, batch: BatchId, tokens: seq<Token>)
    requires Reserved(s) && batch !in s.batches && CanReserve(s, tokens)
    ensures Reserved(Reserve(s, batch, tokens))
  {
    hide OwnersHold, HoldsOwned, HoldsDiffer, Took, Reserve;
    var next := Reserve(s, batch, tokens);
    ReserveTakes(s, batch, tokens);
    TookOwners(s, next, batch, tokens);
    TookHolds(s, next, batch, tokens);
    TookDiffer(s, next, batch, tokens);
  }

  lemma ReserveRemembers(s: State, batch: BatchId, tokens: seq<Token>)
    requires Remembered(s) && CanReserve(s, tokens)
    ensures Remembered(Reserve(s, batch, tokens))
  {
    var next := Reserve(s, batch, tokens);
    HoldsOfReserve(s, batch, tokens);
    assert next.receipts == s.receipts;
    forall i | 0 <= i < |tokens| && Find(s.receipts, tokens[i]).None? ensures !Holds(next.receipts, tokens[i]) {
      FindFinds(s.receipts, tokens[i]);
    }
    hide Find, Holds;
    forall b, i | b in next.batches && 0 <= i < |next.batches[b].holds|
      ensures next.batches[b].holds[i].token in next.used
      ensures next.batches[b].holds[i].receipt.None? ==> !Holds(next.receipts, next.batches[b].holds[i].token)
    {
      if b == batch { assert tokens[i] in tokens; } else { assert b in s.batches; }
    }
  }

  /** Events that keep the running batches and their holds keep the validations attended. */
  lemma AttendedSame(s: State, next: State)
    requires Attended(s) && next.looking == s.looking
    requires forall b :: b in s.batches && !s.batches[b].ended ==>
               b in next.batches && !next.batches[b].ended && next.batches[b].holds == s.batches[b].holds
    ensures Attended(next)
  {
    forall call | call in next.looking
      ensures HeldBy(next.batches[next.looking[call].caller.value], next.looking[call].receipt.token)
    {
      assert s.looking[call].caller.value in s.batches;
    }
  }

  /** Events that keep the holds and add no receipts keep reservations and memories. */
  lemma SameHolds(s: State, next: State)
    requires Reserved(s) && Remembered(s) && next.reserved == s.reserved && next.batches.Keys == s.batches.Keys
    requires forall b :: b in s.batches ==> next.batches[b].holds == s.batches[b].holds
    requires s.used <= next.used && forall r :: r in next.receipts ==> r in s.receipts
    ensures Reserved(next) && Remembered(next)
  {
    assert forall b, t :: b in s.batches && HeldBy(s.batches[b], t) ==> HeldBy(next.batches[b], t);
  }

  lemma ReserveKeeps(s: State, batch: BatchId, tokens: seq<Token>)
    requires Inv(s) && batch !in s.batches
    ensures Inv(Reserve(s, batch, tokens))
  {
    var next := Reserve(s, batch, tokens);
    assert Stored(next) && next.receipts == s.receipts;
    AttendedSame(s, next);
    hide WithinLimits, Remembered, Attended;
    if CanReserve(s, tokens) {
      ReserveReserves(s, batch, tokens);
      ReserveRemembers(s, batch, tokens);
    }
    hide Reserved, CanReserve;
  }

  lemma LookKeeps(s: State, call: Call, caller: Option<BatchId>, token: Token, q: Request)
    requires Inv(s) && Possible(s, Look(call, caller, token, q))
    ensures Inv(LookUp(s, call, caller, token, q))
  {
    var next := LookUp(s, call, caller, token, q);
    RemovalKeeps(s, token);
    WithoutRemoves(s.receipts, token);
    FindFinds(s.receipts, token);
    assert Attended(next);
    SameHolds(s, next);
    hide Without, WithinLimits, Find, Reserved, Remembered, Attended;
    assert Stored(next);
  }

  lemma ReadKeeps(s: State, call: Call)
    requires Inv(s)
    ensures Inv(s.(looking := s.looking - {call}))
  {
    var next := s.(looking := s.looking - {call});
    assert Attended(next);
    SameHolds(s, next);
    hide WithinLimits, Reserved, Remembered, Attended;
  }

  lemma EndAttended(s: State, batch: BatchId, completed: bool, safe: bool)
    requires Attended(s) && Possible(s, End(batch, completed, safe))
    ensures Attended(EndBatch(s, batch, completed, safe))
  {
  }

  /** Ending a batch changes its flags only. */
  lemma EndShape(s: State, batch: BatchId, completed: bool, safe: bool)
    ensures var next := EndBatch(s, batch, completed, safe);
            && next == s.(batches := next.batches) && next.batches.Keys == s.batches.Keys
            && forall b :: b in s.batches ==> next.batches[b].holds == s.batches[b].holds
  {
  }

  lemma StoredSame(s: State, next: State)
    requires Stored(s) && next == s.(batches := next.batches)
    ensures Stored(next)
  {
  }

  lemma EndKeeps(s: State, batch: BatchId, completed: bool, safe: bool)
    requires Inv(s) && Possible(s, End(batch, completed, safe))
    ensures Inv(EndBatch(s, batch, completed, safe))
  {
    hide EndBatch, Attended, Possible, Stored, WithinLimits, Reserved, Remembered;
    var next := EndBatch(s, batch, completed, safe);
    EndShape(s, batch, completed, safe);
    EndAttended(s, batch, completed, safe);
    SameHolds(s, next);
    StoredSame(s, next);
  }

  lemma ReleaseShape(s: State, batch: BatchId, current: Option<Hash>)
    requires batch in s.batches && s.batches[batch].ended && s.batches[batch].holds != []
    ensures var b, next := s.batches[batch], ReleaseNext(s, batch, current);
            && next.reserved == s.reserved - {b.holds[0].token}
            && next.batches == s.batches[batch := b.(holds := b.holds[1..])]
  {
  }

  lemma ReleaseOwners(s: State, next: State, batch: BatchId)
    requires Reserved(s) && batch in s.batches && s.batches[batch].holds != []
    requires next.reserved == s.reserved - {s.batches[batch].holds[0].token}
    requires next.batches == s.batches[batch := s.batches[batch].(holds := s.batches[batch].holds[1..])]
    ensures OwnersHold(next)
  {
    forall t | t in next.reserved
      ensures next.reserved[t] in next.batches && HeldBy(next.batches[next.reserved[t]], t)
    {
      var owner := s.reserved[t];
      var i :| 0 <= i < |s.batches[owner].holds| && s.batches[owner].holds[i].token == t;
      if owner == batch {
        assert i > 0 && next.batches[batch].holds[i - 1].token == t;
      } else {
        assert next.batches[owner].holds[i].token == t;
      }
    }
  }

  /** After the release of the first hold of a batch its other holds stay. */
  lemma ReleaseReserved(s: State, batch: BatchId, current: Option<Hash>)
    requires Reserved(s) && batch in s.batches && s.batches[batch].ended && s.batches[batch].holds != []
    ensures Reserved(ReleaseNext(s, batch, current))
  {
    var next := ReleaseNext(s, batch, current);
    ReleaseShape(s, batch, current);
    hide ReleaseNext, HeldBy;
    ReleaseOwners(s, next, batch);
    forall c, i | c in next.batches && 0 <= i < |next.batches[c].holds|
      ensures next.batches[c].holds[i].token in next.reserved && next.reserved[next.batches[c].holds[i].token] == c
    {
      var k := if c == batch then i + 1 else i;
      assert next.batches[c].holds[i] == s.batches[c].holds[k];
      assert s.batches[c].holds[k].token in s.reserved && s.reserved[s.batches[c].holds[k].token] == c;
    }
  }

  lemma ReleaseStored(s: State, batch: BatchId, current: Option<Hash>)
    requires Inv(s) && batch in s.batches && s.batches[batch].ended && s.batches[batch].holds != []
    ensures var next := ReleaseNext(s, batch, current);
            Stored(next) && WithinLimits(next.receipts) && forall r :: r in next.receipts ==> r in s.receipts
  {
    var b := s.batches[batch];
    var hold := b.holds[0];
    var next := ReleaseNext(s, batch, current);
    RemovalKeeps(s, hold.token);
    WithoutRemoves(s.receipts, hold.token);
    assert b.completed ==> !Holds(next.receipts, hold.token) by {
      if hold.receipt.None? { assert !Holds(s.receipts, hold.token); }
    }
    hide Without, WithinLimits, Reserved, Remembered, Attended;
    assert hold.token in s.used by { HoldsAreUsed(s, batch); }
  }

  lemma HoldsAreUsed(s: State, batch: BatchId)
    requires Inv(s) && batch in s.batches && s.batches[batch].holds != []
    ensures s.batches[batch].holds[0].token in s.used
  {
  }

  lemma ReleaseRemembers(s: State, next: State, batch: BatchId)
    requires Remembered(s) && batch in s.batches && s.batches[batch].holds != []
    requires next.batches == s.batches[batch := s.batches[batch].(holds := s.batches[batch].holds[1..])]
    requires s.used <= next.used && forall r :: r in next.receipts ==> r in s.receipts
    ensures Remembered(next)
  {
    forall c, i | c in next.batches && 0 <= i < |next.batches[c].holds|
      ensures next.batches[c].holds[i].token in next.used
      ensures next.batches[c].holds[i].receipt.None? ==> !Holds(next.receipts, next.batches[c].holds[i].token)
    {
      var k := if c == batch then i + 1 else i;
      assert next.batches[c].holds[i] == s.batches[c].holds[k];
    }
  }

  lemma ReleaseKeeps(s: State, batch: BatchId, current: Option<Hash>)
    requires Inv(s)
    ensures Inv(ReleaseNext(s, batch, current))
  {
    if batch in s.batches && s.batches[batch].ended && s.batches[batch].holds != [] {
      var next := ReleaseNext(s, batch, current);
      assert next.looking == s.looking && next.used == s.used;
      ReleaseShape(s, batch, current);
      ReleaseStored(s, batch, current);
      hide Stored, WithinLimits, ReleaseNext;
      ReleaseReserved(s, batch, current);
      AttendedSame(s, next);
      ReleaseRemembers(s, next, batch);
    }
  }

  lemma StepKeeps(s: State, e: Event)
    requires Inv(s) && Possible(s, e)
    ensures Inv(Step(s, e))
  {
    match e
    case Preview(receipt, candidateBytes) => PreviewKeeps(s, receipt, candidateBytes);
    case Expire(token) => ExpireKeeps(s, token);
    case Begin(batch, tokens) => ReserveKeeps(s, batch, tokens);
    case Look(call, caller, token, q) => LookKeeps(s, call, caller, token, q);
    case Read(call, _) => ReadKeeps(s, call);
    case End(batch, completed, safe) => EndKeeps(s, batch, completed, safe);
    case Release(batch, current) => ReleaseKeeps(s, batch, current);
    case Discard(tokens) => DiscardKeeps(s, tokens);
  }

  // ---------------------------------------------------------------- whole runs

  lemma {:induction false} EveryRunKeeps(s: State, events: seq<Event>)
    requires Inv(s) && Feasible(s, events)
    ensures Inv(Run(s, events))
    decreases |events|
  {
    if events != [] {
      hide Inv, Step;
      StepKeeps(s, events[0]);
      EveryRunKeeps(Step(s, events[0]), events[1..]);
    }
  }

  /** However the events interleave: the limits hold, and two batches never hold the same token. */
  lemma ReceiptsStayBoundedAndExclusive(
    events: seq<Event>, session: Session, a: BatchId, b: BatchId, token: Token)
    requires Feasible(Start, events)
    ensures var s := Run(Start, events);
            && Outstanding(s.receipts, session) <= MAX_SESSION_RECEIPTS
            && Retained(s.receipts, session) <= MAX_SESSION_BYTES
            && (a in s.batches && b in s.batches && HeldBy(s.batches[a], token) && HeldBy(s.batches[b], token) ==>
                  a == b)
            && (a in s.batches && HeldBy(s.batches[a], token) ==> token in s.reserved && s.reserved[token] == a)
  {
    EveryRunKeeps(Start, events);
  }

  /** A token that a completed batch released is never found or validated again, whatever happens later. */
  lemma SpentIsNeverValidated(
    before: seq<Event>, batch: BatchId, current: Option<Hash>, later: seq<Event>,
    caller: Option<BatchId>, q: Request, call: Call, c: Contents)
    requires Feasible(Start, before)
    requires var s := Run(Start, before);
             batch in s.batches && s.batches[batch].ended && s.batches[batch].completed && s.batches[batch].holds != []
    requires Feasible(Step(Run(Start, before), Release(batch, current)), later)
    ensures var s := Run(Start, before);
            var end, token := Run(Step(s, Release(batch, current)), later), s.batches[batch].holds[0].token;
            && Looked(end, caller, token, q).None?
            && (Validated(end, call, c).Some? ==> Validated(end, call, c).value.token != token)
  {
    var s := Run(Start, before);
    var token := s.batches[batch].holds[0].token;
    var released := Step(s, Release(batch, current));
    EveryRunKeeps(Start, before);
    StepKeeps(s, Release(batch, current));
    ReleasedIsUnseen(s, batch, current);
    SpentStaysUnseen(released, later, token);
    var end := Run(released, later);
    EveryRunKeeps(released, later);
    hide Run, Step, Feasible;
    FindFinds(end.receipts, token);
  }

  /** No validation under way has found the token. */
  ghost predicate Unseen(s: State, token: Token) {
    token in s.spent && forall call :: call in s.looking ==> s.looking[call].receipt.token != token
  }

  lemma ReleasedIsUnseen(s: State, batch: BatchId, current: Option<Hash>)
    requires Inv(s) && batch in s.batches && s.batches[batch].ended && s.batches[batch].completed
    requires s.batches[batch].holds != []
    ensures Unseen(Step(s, Release(batch, current)), s.batches[batch].holds[0].token)
  {
    var token := s.batches[batch].holds[0].token;
    forall call | call in s.looking ensures s.looking[call].receipt.token != token {
      var caller := s.looking[call].caller.value;
      assert s.reserved[token] == batch && caller != batch;
    }
  }

  lemma {:induction false} SpentStaysUnseen(s: State, events: seq<Event>, token: Token)
    requires Inv(s) && Feasible(s, events) && Unseen(s, token)
    ensures Unseen(Run(s, events), token)
    decreases |events|
  {
    if events != [] {
      StepKeeps(s, events[0]);
      UnseenStep(s, events[0], token);
      hide Inv, Step, Unseen;
      SpentStaysUnseen(Step(s, events[0]), events[1..], token);
    }
  }

  lemma UnseenStep(s: State, e: Event, token: Token)
    requires Inv(s) && Possible(s, e) && Unseen(s, token)
    ensures Unseen(Step(s, e), token)
  {
    if e.Look? { FindFinds(s.receipts, e.token); }
    hide Without, Find, WithinLimits, Reserved, Remembered, HoldsOf, CanReserve, DiscardAll;
  }

  /** While a batch holds a token, only that batch finds or validates its receipt. */
  lemma OnlyTheHolderValidates(
    events: seq<Event>, batch: BatchId, token: Token, caller: Option<BatchId>, q: Request, call: Call, c: Contents)
    requires Feasible(Start, events)
    requires batch in Run(Start, events).batches && HeldBy(Run(Start, events).batches[batch], token)
    ensures var s := Run(Start, events);
            && (Looked(s, caller, token, q).Some? ==> caller == Some(batch))
            && (Validated(s, call, c).Some? && Validated(s, call, c).value.token == token ==>
                  s.looking[call].caller == Some(batch))
  {
    EveryRunKeeps(Start, events);
    hide Run, Feasible;
  }

  // ---------------------------------------------------------------- survival

  /** The event removes the receipt of this token. */
  predicate Drops(s: State, e: Event, token: Token) {
    match e
    case Expire(t) => t == token
    case Look(_, caller, t, q) =>
      && t == token && !ReservedByAnother(s, caller, t)
      && Find(s.receipts, t).Some? && Find(s.receipts, t).value.expiresAt < q.now
    case Release(batch, current) =>
      && Releases(s, e, batch, token)
      && s.batches[batch].holds[0].receipt.Some?
      && !Reusable(s.batches[batch], s.batches[batch].holds[0], current)
    case Discard(tokens) => token in tokens
    case _ => false
  }

  /** The event ends this batch's hold on the token. */
  predicate Releases(s: State, e: Event, batch: BatchId, token: Token) {
    && e.Release? && e.batch == batch && batch in s.batches && s.batches[batch].ended
    && s.batches[batch].holds != [] && s.batches[batch].holds[0].token == token
  }

  lemma {:induction false} DiscardRemoves(receipts: seq<Receipt>, tokens: seq<Token>)
    ensures forall r :: r in DiscardAll(receipts, tokens) <==> r in receipts && r.token !in tokens
    decreases |tokens|
  {
    if tokens != [] {
      WithoutRemoves(receipts, tokens[0]);
      DiscardRemoves(Without(receipts, tokens[0]), tokens[1..]);
    }
  }

  /** One event keeps a stored receipt unless it drops it, and never brings one back. */
  lemma StepSurvives(s: State, e: Event, receipt: Receipt)
    requires Inv(s) && Possible(s, e) && receipt.token in s.used
    ensures receipt in Step(s, e).receipts <==> receipt in s.receipts && !Drops(s, e, receipt.token)
  {
    var token := receipt.token;
    FindFinds(s.receipts, token);
    match e {
      case Look(_, _, t, _) => WithoutRemoves(s.receipts, t);
      case Expire(t) => WithoutRemoves(s.receipts, t);
      case Discard(tokens) => DiscardRemoves(s.receipts, tokens);
      case Release(batch, _) =>
        if batch in s.batches && s.batches[batch].holds != [] {
          WithoutRemoves(s.receipts, s.batches[batch].holds[0].token);
        }
      case _ =>
    }
    hide WithinLimits, Reserved, Remembered, Attended, DiscardAll, HoldsOf, CanReserve;
  }

  ghost predicate NeverDropped(s: State, events: seq<Event>, token: Token) {
    forall k :: 0 <= k < |events| ==> !Drops(Run(s, events[..k]), events[k], token)
  }

  lemma {:induction false} RunOn(s: State, events: seq<Event>, k: nat)
    requires k < |events|
    ensures Run(s, events[..k + 1]) == Run(Step(s, events[0]), events[1..][..k])
    decreases k
  {
    assert events[..k + 1][0] == events[0] && events[..k + 1][1..] == events[1..][..k];
  }

  lemma NeverDroppedOn(s: State, events: seq<Event>, token: Token)
    requires events != []
    ensures NeverDropped(s, events, token)
       <==> !Drops(s, events[0], token) && NeverDropped(Step(s, events[0]), events[1..], token)
  {
    assert events[..0] == [];
    forall k | 0 <= k < |events| - 1 ensures Run(s, events[..k + 1]) == Run(Step(s, events[0]), events[1..][..k]) {
      RunOn(s, events, k);
    }
    hide Drops, Step, Run;
    var rest := events[1..];
    assert forall k :: 0 <= k < |rest| ==> rest[k] == events[k + 1];
    assert Run(s, events[..0]) == s by { RunNothing(s); }
    if NeverDropped(s, events, token) {
      forall k | 0 <= k < |rest| ensures !Drops(Run(Step(s, events[0]), rest[..k]), rest[k], token) {
        assert !Drops(Run(s, events[..k + 1]), events[k + 1], token);
      }
      assert !Drops(Run(s, events[..0]), events[0], token);
    }
    if !Drops(s, events[0], token) && NeverDropped(Step(s, events[0]), rest, token) {
      forall k | 0 <= k < |events| ensures !Drops(Run(s, events[..k]), events[k], token) {
        if k > 0 { assert !Drops(Run(Step(s, events[0]), rest[..k - 1]), rest[k - 1], token); }
      }
    }
  }

  lemma RunNothing(s: State)
    ensures Run(s, []) == s
  {
  }

  /** Over a whole run a stored receipt survives exactly when no event drops it. */
  lemma {:induction false} SurvivesExactly(s: State, events: seq<Event>, receipt: Receipt)
    requires Inv(s) && Feasible(s, events) && receipt in s.receipts
    ensures receipt in Run(s, events).receipts <==> NeverDropped(s, events, receipt.token)
    decreases |events|
  {
    if events != [] {
      assert receipt.token in s.used;
      StepKeeps(s, events[0]);
      StepSurvives(s, events[0], receipt);
      NeverDroppedOn(s, events, receipt.token);
      var next := Step(s, events[0]);
      UsedStays(s, events[0], receipt.token);
      hide Inv, Step, Drops, NeverDropped;
      if receipt in next.receipts {
        SurvivesExactly(next, events[1..], receipt);
      } else {
        GoneStays(next, events[1..], receipt);
      }
    }
  }

  lemma UsedStays(s: State, e: Event, token: Token)
    requires token in s.used
    ensures token in Step(s, e).used
  {
  }

  lemma {:induction false} GoneStays(s: State, events: seq<Event>, receipt: Receipt)
    requires Inv(s) && Feasible(s, events) && receipt !in s.receipts && receipt.token in s.used
    ensures receipt !in Run(s, events).receipts
    decreases |events|
  {
    if events != [] {
      StepKeeps(s, events[0]);
      StepSurvives(s, events[0], receipt);
      UsedStays(s, events[0], receipt.token);
      hide Inv, Step, Drops;
      GoneStays(Step(s, events[0]), events[1..], receipt);
    }
  }

  /** At this point of the run the batch lets go of the token. */
  ghost predicate ReleasedAt(s: State, events: seq<Event>, k: nat, batch: BatchId, token: Token) {
    k < |events| && Releases(Run(s, events[..k]), events[k], batch, token)
  }

  /** The batch still remembers, for this token, the receipt it found when it began. */
  ghost predicate Remembers(s: State, batch: BatchId, receipt: Receipt) {
    batch in s.batches && exists i :: 0 <= i < |s.batches[batch].holds|
                                      && s.batches[batch].holds[i] == Hold(receipt.token, Some(receipt))
  }

  lemma RemembersOrReleases(s: State, e: Event, batch: BatchId, receipt: Receipt)
    requires Inv(s) && Possible(s, e) && Remembers(s, batch, receipt)
    ensures Remembers(Step(s, e), batch, receipt) || Releases(s, e, batch, receipt.token)
  {
    var i :| 0 <= i < |s.batches[batch].holds| && s.batches[batch].holds[i] == Hold(receipt.token, Some(receipt));
    var next := Step(s, e);
    if e.Release? && e.batch == batch && s.batches[batch].ended {
      if i > 0 { assert next.batches[batch].holds[i - 1] == Hold(receipt.token, Some(receipt)); }
    } else {
      assert next.batches[batch].holds[i] == Hold(receipt.token, Some(receipt));
    }
  }

  lemma ReleasesItsReceipt(s: State, e: Event, batch: BatchId, receipt: Receipt)
    requires Inv(s) && Remembers(s, batch, receipt) && Releases(s, e, batch, receipt.token)
    ensures s.batches[batch].holds[0] == Hold(receipt.token, Some(receipt))
  {
    var i :| 0 <= i < |s.batches[batch].holds| && s.batches[batch].holds[i] == Hold(receipt.token, Some(receipt));
    var holds := s.batches[batch].holds;
    assert forall j :: 0 < j < |holds| ==> holds[0].token != holds[j].token;
  }

  /** Until it lets go of the token the batch remembers the receipt. */
  lemma {:induction false} HeldUntilReleased(s: State, events: seq<Event>, batch: BatchId, receipt: Receipt)
    returns (k: nat)
    requires Inv(s) && Feasible(s, events) && Remembers(s, batch, receipt)
    requires !Remembers(Run(s, events), batch, receipt)
    ensures ReleasedAt(s, events, k, batch, receipt.token)
    ensures Remembers(Run(s, events[..k]), batch, receipt) && Inv(Run(s, events[..k]))
    decreases |events|
  {
    RunNothing(s);
    assert events != [] && events[..0] == [];
    StepKeeps(s, events[0]);
    RemembersOrReleases(s, events[0], batch, receipt);
    hide Inv, Step, Remembers, Releases, Possible;
    if Releases(s, events[0], batch, receipt.token) {
      k := 0;
    } else {
      k := HeldUntilReleased(Step(s, events[0]), events[1..], batch, receipt);
      RunOn(s, events, k);
      assert events[1..][k] == events[k + 1];
      k := k + 1;
    }
  }

  lemma BegunRemembers(s: State, batch: BatchId, tokens: seq<Token>, receipt: Receipt)
    requires Inv(s) && CanReserve(s, tokens) && receipt.token in tokens && receipt in s.receipts
    ensures Remembers(Reserve(s, batch, tokens), batch, receipt) && receipt in Reserve(s, batch, tokens).receipts
  {
    HoldsOfReserve(s, batch, tokens);
    FindFinds(s.receipts, receipt.token);
    var found := Find(s.receipts, receipt.token).value;
    var i :| 0 <= i < |s.receipts| && s.receipts[i] == receipt;
    var j :| 0 <= j < |s.receipts| && s.receipts[j] == found;
    assert i == j;
    var k :| 0 <= k < |tokens| && tokens[k] == receipt.token;
    assert Reserve(s, batch, tokens).batches[batch].holds[k] == Hold(receipt.token, Some(receipt));
  }

  /**
    The life of a receipt over the whole run of a batch that names it, from its begin until it has let go
    of the token, whatever other batches, timers and validations do: it survives exactly when no event
    drops it, and at its release the batch drops it unless the batch failed safely and the file still has
    the previewed hash.
  */
  lemma SurvivesItsBatch(s: State, batch: BatchId, tokens: seq<Token>, events: seq<Event>, receipt: Receipt)
    returns (k: nat)
    requires Inv(s) && batch !in s.batches && CanReserve(s, tokens)
    requires receipt.token in tokens && receipt in s.receipts
    requires var begun := Step(s, Begin(batch, tokens));
             Feasible(begun, events) && !Remembers(Run(begun, events), batch, receipt)
    ensures var begun := Step(s, Begin(batch, tokens));
            && ReleasedAt(begun, events, k, batch, receipt.token)
            && (receipt in Run(begun, events).receipts <==> NeverDropped(begun, events, receipt.token))
            && var b := Run(begun, events[..k]).batches[batch];
               Drops(Run(begun, events[..k]), events[k], receipt.token) <==>
                 !(b.safe && !b.completed && events[k].current == Some(receipt.source))
  {
    hide *;
    var begun := Step(s, Begin(batch, tokens));
    BegunKeeps(s, batch, tokens, receipt);
    SurvivesExactly(begun, events, receipt);
    k := HeldUntilReleased(begun, events, batch, receipt);
    DropsAt(begun, events, k, batch, receipt);
  }

  lemma BegunKeeps(s: State, batch: BatchId, tokens: seq<Token>, receipt: Receipt)
    requires Inv(s) && batch !in s.batches && CanReserve(s, tokens)
    requires receipt.token in tokens && receipt in s.receipts
    ensures var begun := Step(s, Begin(batch, tokens));
            Inv(begun) && Remembers(begun, batch, receipt) && receipt in begun.receipts
  {
    hide Inv, Remembers, Reserve, CanReserve;
    ReserveKeeps(s, batch, tokens);
    BegunRemembers(s, batch, tokens, receipt);
  }

  lemma DropsAt(s: State, events: seq<Event>, k: nat, batch: BatchId, receipt: Receipt)
    requires ReleasedAt(s, events, k, batch, receipt.token)
    requires Remembers(Run(s, events[..k]), batch, receipt) && Inv(Run(s, events[..k]))
    ensures k < |events| && events[k].Release? && batch in Run(s, events[..k]).batches
    ensures var b := Run(s, events[..k]).batches[batch];
            Drops(Run(s, events[..k]), events[k], receipt.token) <==>
              !(b.safe && !b.completed && events[k].current == Some(receipt.source))
  {
    hide Inv, Remembers, Run, Drops;
    DropsItsReceipt(Run(s, events[..k]), events[k], batch, receipt);
  }

  lemma DropsItsReceipt(s: State, e: Event, batch: BatchId, receipt: Receipt)
    requires Inv(s) && Remembers(s, batch, receipt) && Releases(s, e, batch, receipt.token)
    ensures var b := s.batches[batch];
            Drops(s, e, receipt.token) <==> !(b.safe && !b.completed && e.current == Some(receipt.source))
  {
    ReleasesItsReceipt(s, e, batch, receipt);
    hide Inv, Remembers;
  }

  // ---------------------------------------------------------------- the flags of a batch

  /** If the batch has ended, then with these flags. */
  predicate EndedAs(s: State, batch: BatchId, completed: bool, safe: bool) {
    batch in s.batches &&
    (s.batches[batch].ended ==> s.batches[batch].completed == completed && s.batches[batch].safe == safe)
  }

  predicate EndsAs(events: seq<Event>, batch: BatchId, completed: bool, safe: bool) {
    forall k :: 0 <= k < |events| && events[k].End? && events[k].batch == batch ==>
      events[k].completed == completed && events[k].safe == safe
  }

  lemma EndedStep(s: State, e: Event, batch: BatchId, completed: bool, safe: bool)
    requires EndedAs(s, batch, completed, safe) && Possible(s, e)
    requires e.End? && e.batch == batch ==> e.completed == completed && e.safe == safe
    ensures EndedAs(Step(s, e), batch, completed, safe)
  {
  }

  /** The flags of the batch are those of its end event. */
  lemma {:induction false} FlagsOfTheEnd(
    s: State, events: seq<Event>, k: nat, batch: BatchId, completed: bool, safe: bool)
    requires k <= |events| && Feasible(s, events)
    requires EndedAs(s, batch, completed, safe) && EndsAs(events, batch, completed, safe)
    ensures EndedAs(Run(s, events[..k]), batch, completed, safe)
    decreases |events|
  {
    if k == 0 {
      RunNothing(s);
      assert events[..0] == [];
    } else {
      EndedStep(s, events[0], batch, completed, safe);
      RunOn(s, events, k - 1);
      assert forall j :: 0 <= j < |events[1..]| ==> events[1..][j] == events[j + 1];
      hide EndedAs, Step, Possible;
      FlagsOfTheEnd(Step(s, events[0]), events[1..], k - 1, batch, completed, safe);
    }
  }
}
