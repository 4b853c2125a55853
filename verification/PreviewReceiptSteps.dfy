/**
  The preview receipt maps as the code updates them (src/patch/engine.ts): every method runs between
  two awaits and does what its event says. A validation is two of them, with the receipt it found in
  between.
*/
module PreviewReceiptSteps {
  import opened Options
  import opened PreviewReceipts

  class PreviewReceiptStore {
    var receipts: seq<Receipt>
    var expired: seq<Token>
    var reserved: map<Token, BatchId>
    ghost var batches: map<BatchId, Batch>
    ghost var looking: map<Call, Looking>
    ghost var used: set<Token>
    ghost var spent: set<Token>

    constructor ()
      ensures Now() == Start
    {
      receipts, expired, reserved := [], [], map[];
      batches, looking, used, spent := map[], map[], {}, {};
    }

    ghost function Now(): State
      reads this
    {
      State(receipts, expired, reserved, batches, looking, used, spent)
    }

    /** previewPayloadBytes: whether the session can store one more candidate. */
    method PreviewPayloadBytes(session: Session, candidateBytes: nat, payload: nat) returns (fits: bool)
      ensures fits <==>
                && candidateBytes <= MAX_CANDIDATE_BYTES
                && Outstanding(receipts, session) < MAX_SESSION_RECEIPTS
                && Retained(receipts, session) + payload <= MAX_SESSION_BYTES
    {
      var outstanding, retained, i := 0, 0, 0;
      while i < |receipts|
        invariant i <= |receipts|
        invariant Outstanding(receipts, session) == outstanding + Outstanding(receipts[i..], session)
        invariant Retained(receipts, session) == retained + Retained(receipts[i..], session)
      {
        assert receipts[i..][1..] == receipts[i + 1..];
        if receipts[i].session == session {
          outstanding := outstanding + 1;
          retained := retained + receipts[i].payload;
        }
        i := i + 1;
      }
      fits := candidateBytes <= MAX_CANDIDATE_BYTES && outstanding < MAX_SESSION_RECEIPTS
              && retained + payload <= MAX_SESSION_BYTES;
    }

    /** The storing part of patchPreview. */
    method PatchPreview(receipt: Receipt, candidateBytes: nat) returns (stored: bool)
      modifies this
      ensures Now() == StorePreview(old(Now()), receipt, candidateBytes)
      ensures stored == Fits(old(Now()), receipt, candidateBytes)
    {
      used := used + {receipt.token};
      stored := PreviewPayloadBytes(receipt.session, candidateBytes, receipt.payload);
      if stored {
        receipts := receipts + [receipt];
      }
    }

    /** previewReceipts.delete(token). */
    method Delete(token: Token)
      modifies `receipts
      ensures receipts == Without(old(receipts), token)
    {
      var kept: seq<Receipt> := [];
      var i := 0;
      while i < |receipts|
        invariant i <= |receipts| && receipts == old(receipts)
        invariant Without(receipts, token) == kept + Without(receipts[i..], token)
      {
        assert receipts[i..][0] == receipts[i] && receipts[i..][1..] == receipts[i + 1..];
        if receipts[i].token != token {
          kept := kept + [receipts[i]];
        }
        i := i + 1;
      }
      assert receipts[i..] == [];
      receipts := kept;
    }

    method ExpirePreviewReceipt(token: Token)
      modifies this
      ensures Now() == ExpireOne(old(Now()), token)
    {
      Delete(token);
      if token !in expired {
        expired := expired + [token];
      }
      if |expired| > MAX_EXPIRED {
        expired := expired[1..];
      }
    }

    method MarkReserved(batch: BatchId, tokens: seq<Token>)
      modifies `reserved
      ensures reserved == old(reserved) + map t | t in tokens :: batch
    {
      var i := 0;
      while i < |tokens|
        invariant i <= |tokens|
        invariant forall t :: t in reserved <==> t in old(reserved) || t in tokens[..i]
        invariant forall t :: t in reserved ==> reserved[t] == if t in tokens[..i] then batch else old(reserved)[t]
      {
        reserved := reserved[tokens[i] := batch];
        assert forall t :: t in tokens[..i + 1] <==> t in tokens[..i] || t == tokens[i];
        i := i + 1;
      }
      assert tokens[..i] == tokens;
    }

    /** The first part of withReservedPreviewReceipts: reserves all tokens of a batch, or none. */
    method ReserveReceipts(batch: BatchId, tokens: seq<Token>) returns (ok: bool, holds: seq<Hold>)
      modifies this
      ensures Now() == Reserve(old(Now()), batch, tokens)
      ensures ok == CanReserve(old(Now()), tokens)
      ensures ok ==> holds == HoldsOf(old(receipts), tokens)
    {
      ok := (forall i, j :: 0 <= i < j < |tokens| ==> tokens[i] != tokens[j])
            && forall t :: t in tokens ==> t !in reserved;
      assert ok == CanReserve(Now(), tokens);
      hide CanReserve, HoldsOf;
      used := used + set t | t in tokens;
      holds := [];
      if ok {
        holds := HoldsOf(receipts, tokens);
        MarkReserved(batch, tokens);
        batches := batches[batch := Batch(holds, false, false, true)];
      }
    }

    /** The last part of withReservedPreviewReceipts, for the next token it holds. */
    method ReleaseReceipt(batch: BatchId, hold: Hold, completed: bool, safe: bool, current: Option<Hash>)
      requires batch in batches && batches[batch].ended && batches[batch].holds != []
      requires hold == batches[batch].holds[0]
      requires completed == batches[batch].completed && safe == batches[batch].safe
      modifies this
      ensures Now() == ReleaseNext(old(Now()), batch, current)
    {
      var reusable := safe && !completed;
      if hold.receipt.Some? && reusable {
        reusable := current == Some(hold.receipt.value.source);
      }
      if !reusable && hold.receipt.Some? {
        Delete(hold.token);
      }
      reserved := reserved - {hold.token};
      if completed {
        spent := spent + {hold.token};
      }
      batches := batches[batch := batches[batch].(holds := batches[batch].holds[1..])];
    }

    /** validatePreviewReceipt up to its first await. */
    method LookUpPreviewReceipt(call: Call, caller: Option<BatchId>, token: Token, q: Request)
      returns (found: Option<Receipt>)
      modifies this
      ensures Now() == LookUp(old(Now()), call, caller, token, q)
      ensures found == Looked(old(Now()), caller, token, q)
    {
      used := used + {token};
      if token in reserved && caller != Some(reserved[token]) {
        return None;
      }
      found := Find(receipts, token);
      if found.None? {
        return;
      }
      if found.value.expiresAt < q.now {
        Delete(token);
        return None;
      }
      if found.value.path != q.path || found.value.session != q.session || found.value.workspace != q.workspace {
        return None;
      }
      looking := looking[call := Looking(caller, found.value)];
    }

    /** The rest of validatePreviewReceipt, with the receipt that this call has found. */
    method ValidatePreviewReceipt(call: Call, receipt: Receipt, c: Contents) returns (valid: Option<Receipt>)
      requires call in looking && looking[call].receipt == receipt
      modifies this
      ensures Now() == Step(old(Now()), Read(call, c))
      ensures valid == Validated(old(Now()), call, c)
    {
      looking := looking - {call};
      if c.configuration != Some(receipt.configuration) {
        return None;
      }
      if c.source != Some(receipt.source) {
        return None;
      }
      valid := Some(receipt);
    }

    method DiscardPreparedPreviews(tokens: seq<Token>)
      modifies `receipts
      ensures receipts == DiscardAll(old(receipts), tokens)
      ensures forall r :: r in receipts <==> r in old(receipts) && r.token !in tokens
    {
      var i := 0;
      while i < |tokens|
        invariant i <= |tokens|
        invariant DiscardAll(old(receipts), tokens) == DiscardAll(receipts, tokens[i..])
      {
        assert tokens[i..][0] == tokens[i] && tokens[i..][1..] == tokens[i + 1..];
        Delete(tokens[i]);
        i := i + 1;
      }
      DiscardRemoves(old(receipts), tokens);
    }
  }
}
