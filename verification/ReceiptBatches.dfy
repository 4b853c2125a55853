/**
  A patch batch and the preview receipts it commits (src/patch/engine.ts): the run of the batch decides
  with which flags its receipts are released.
*/
module ReceiptBatches {
  import opened Options
  import P = PatchBatch
  import R = PreviewReceipts

  /** The batch ends with the flags that its run left. */
  ghost predicate EndsWithRun(events: seq<R.Event>, batch: R.BatchId, run: P.BatchRun) {
    R.EndsAs(events, batch, run.receiptsSpent, run.receiptsSafe)
  }

  /**
    Whatever rejects in a batch and whatever happens to the receipts meanwhile: a receipt that outlives a
    batch that named it belongs to one that failed and was recorded as rolled back, or never began to
    mutate. Then every batch path but one that slipped is as it was, and the previewed file still had the
    previewed hash when the batch let go of the token.
  */
  lemma ReceiptOutlivesOnlyAFailedBatch(
    orig: P.Files, entries: seq<P.Entry>, f: P.RunFaults,
    s: R.State, batch: R.BatchId, tokens: seq<R.Token>, events: seq<R.Event>, receipt: R.Receipt) returns (k: nat)
    requires P.WellFormed(entries) && |entries| == |f.entries| == |f.undos|
    requires R.Inv(s) && batch !in s.batches && R.CanReserve(s, tokens)
    requires receipt.token in tokens && receipt in s.receipts
    requires var begun := R.Step(s, R.Begin(batch, tokens));
             R.Feasible(begun, events) && !R.Remembers(R.Run(begun, events), batch, receipt)
    requires EndsWithRun(events, batch, P.RunBatch(orig, entries, f))
    requires receipt in R.Run(R.Step(s, R.Begin(batch, tokens)), events).receipts
    ensures var run := P.RunBatch(orig, entries, f);
            && run.outcome.Failed? && (run.recorded || f.aborted || !P.Planned(entries))
            && (forall i :: 0 <= i < |entries| && !(P.Slipped(run) && i == run.running.at) ==>
                  P.SameAt(orig, P.Last(orig, run.trace), entries[i].path))
    ensures R.ReleasedAt(R.Step(s, R.Begin(batch, tokens)), events, k, batch, receipt.token)
    ensures events[k].current == Some(receipt.source)
  {
    var run := P.RunBatch(orig, entries, f);
    var begun := R.Step(s, R.Begin(batch, tokens));
    P.BatchSettles(orig, entries, f);
    P.ReceiptsFollowTheOutcome(orig, entries, f);
    assert R.EndedAs(begun, batch, run.receiptsSpent, run.receiptsSafe);
    hide P.RunBatch, P.AllWhole, P.StandsAt, P.SameAt, P.Planned, P.WellFormed;
    hide R.Inv, R.Run, R.Step, R.Feasible, R.Remembers, R.CanReserve, R.Drops, R.EndsAs;
    k := R.SurvivesItsBatch(s, batch, tokens, events, receipt);
    R.FlagsOfTheEnd(begun, events, k, batch, run.receiptsSpent, run.receiptsSafe);
  }
}
