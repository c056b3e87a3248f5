/** The life of a memory candidate, alone and interleaved with replays. */
module MemoryCandidates {
  import opened Basics
  import opened Text
  import opened PackChat
  import opened PackChatReplay

  const SHARED_RECALL := "shared_recall"
  const CALVIN_CANDIDATE := "calvin_candidate"

  /**
   What processing a candidate meets: the answer of the duplicate check, the Open Brain connection, the two
   outside calls, and the texts made of the candidate.
   */
  datatype Surroundings = Surroundings(
    duplicate: bool, openBrain: bool, storeSucceeds: bool, promotionSucceeds: bool,
    distilled: string, contentKey: string, promotion: string, now: int)

  /** The key the row was listed with, unless that is blank. */
  function KeyOf(listed: CandidateRow, w: Surroundings): string {
    var key := listed.dedupeKey.GetOr("");
    if Trim(key, Whitespace) != "" then key else w.contentKey
  }

  /** One candidate of process_memory_candidates, decided on the row as it was listed. */
  function ProcessedAs(id: string, listed: CandidateRow, current: CandidateRow, w: Surroundings): CandidateRow {
    var key := Some(KeyOf(listed, w));
    var text := Some(w.distilled);
    if listed.sensitivity != NORMAL then Processed(current, HeldForReview, None, None, key, None, w.now)
    else if listed.retention == SHARED_RECALL then
      if w.duplicate then Processed(current, DuplicateOpenbrain, text, None, key, None, w.now)
      else if !w.openBrain then Processed(current, WaitingOpenbrain, text, None, key, None, w.now)
      else if w.storeSucceeds then Processed(current, CapturedOpenbrain, text, Some(RefOf(id)), key, None, w.now)
      else Processed(current, RetryPending, text, None, key, None, w.now)
    else if listed.retention == CALVIN_CANDIDATE then
      var status := if w.promotionSucceeds then PromotionPending else RetryPending;
      Processed(current, status, text, None, key, Some(w.promotion), w.now)
    else Processed(current, IgnoredEphemeral, text, None, key, None, w.now)
  }

  function RefOf(id: string): string { "openbrain:" + id }

  datatype Op =
    | Ingest(event: BusEvent)
    | Process(id: string, listed: CandidateRow, w: Surroundings)
    | Mark(target: string, trigger: string, reconsolidated: Option<string> -> string, now: int)
    | Approve(runId: string, id: string)
    | Discard(runId: string, id: string, now: int)

  function ApplyTo(rows: map<string, CandidateRow>, op: Op): map<string, CandidateRow> {
    match op
    case Ingest(_) => rows
    case Process(id, listed, w) => if id in rows then rows[id := ProcessedAs(id, listed, rows[id], w)] else rows
    case Mark(target, trigger, f, now) =>
      if target != trigger && target in rows && Settled(rows[target].status) then
        rows[target := Marked(rows[target], f, now)]
      else rows
    case Approve(runId, id) =>
      if id in rows && OfRun(rows[id], runId) && Approvable(rows[id].status) then rows[id := Approved(rows[id])]
      else rows
    case Discard(runId, id, now) =>
      if id in rows && OfRun(rows[id], runId) && Discardable(rows[id].status) then
        rows[id := DiscardedRow(rows[id], now)]
      else rows
  }

  function Applied(s: Store, op: Op, classify: Classifier): Store {
    if op.Ingest? then Ingested(s, op.event, classify) else s.(candidates := ApplyTo(s.candidates, op))
  }

  function After(s: Store, ops: seq<Op>, classify: Classifier): Store {
    if ops == [] then s else Applied(After(s, ops[..|ops| - 1], classify), ops[|ops| - 1], classify)
  }

  /**
   What one processing step leaves in its row: decided by the row as listed and the answers it got, whatever the row
   had become in the meantime.
   */
  lemma ProcessingMeans(rows: map<string, CandidateRow>, id: string, listed: CandidateRow, w: Surroundings)
    requires id in rows
    ensures var before, after := rows[id], ApplyTo(rows, Process(id, listed, w))[id];
            var normal, shared := listed.sensitivity == "normal", listed.retention == "shared_recall";
            var calvin := listed.retention == "calvin_candidate";
            && (after.status.HeldForReview? <==> !normal)
            && (after.status.DuplicateOpenbrain? <==> normal && shared && w.duplicate)
            && (after.status.WaitingOpenbrain? <==> normal && shared && !w.duplicate && !w.openBrain)
            && (after.status.CapturedOpenbrain? <==>
                  normal && shared && !w.duplicate && w.openBrain && w.storeSucceeds)
            && (after.status.PromotionPending? <==> normal && calvin && w.promotionSucceeds)
            && (after.status.IgnoredEphemeral? <==> normal && !shared && !calvin)
            && (after.status.RetryPending? <==>
                  normal && ((shared && !w.duplicate && w.openBrain && !w.storeSucceeds)
                             || (calvin && !w.promotionSucceeds)))
            && after.distilled == (if normal then Some(w.distilled) else before.distilled)
            && after.openbrainRef
               == (if after.status.CapturedOpenbrain? then Some("openbrain:" + id) else before.openbrainRef)
            && after.contract == (if normal && calvin then Some(w.promotion) else before.contract)
            && after.dedupeKey
               == (if listed.dedupeKey.Some? && Trim(listed.dedupeKey.value, Whitespace) != "" then listed.dedupeKey
                   else Some(w.contentKey))
            && after.processedAt == Some(w.now) && SameOrigin(before, after)
  {
  }

  /** The statuses an operation looks for, by name. */
  predicate AwaitsOperator(status: Status) { status in {HeldForReview, WaitingOpenbrain, RetryPending} }

  predicate IsDone(status: Status) {
    status in {CapturedOpenbrain, PromotionPending, DuplicateOpenbrain, IgnoredEphemeral}
  }

  /** What the other three operations do to the rows: each to one row at most, and only from certain statuses. */
  lemma OperationsMean(rows: map<string, CandidateRow>, id: string, runId: string, trigger: string,
                       f: Option<string> -> string, now: int)
    ensures ApplyTo(rows, Approve(runId, id))
         == if id in rows && rows[id].source.runId == Some(runId) && AwaitsOperator(rows[id].status) then
              rows[id := rows[id].(status := Pending, sensitivity := "normal", processedAt := None)]
            else rows
    ensures ApplyTo(rows, Discard(runId, id, now))
         == if id in rows && rows[id].source.runId == Some(runId)
               && rows[id].status !in {CapturedOpenbrain, PromotionPending} then
              rows[id := rows[id].(status := Discarded, processedAt := Some(now))]
            else rows
    ensures ApplyTo(rows, Mark(id, trigger, f, now))
         == if id in rows && id != trigger && IsDone(rows[id].status) then
              rows[id := rows[id].(status := NeedsReconsolidation, contract := Some(f(rows[id].contract)),
                                   processedAt := Some(now))]
            else rows
  {
  }

  // Replays never disturb candidates, whatever processing happens in between

  lemma AppliedGrows(s: Store, op: Op, classify: Classifier)
    ensures Grows(s, Applied(s, op, classify))
  {
    if op.Ingest? { IngestGrows(s, op.event, classify); }
  }

  lemma {:induction false} AbsorbedForGood(s: Store, ops: seq<Op>, classify: Classifier, e: BusEvent)
    requires Absorbed(s, e)
    ensures Absorbed(After(s, ops, classify), e)
  {
    if ops != [] {
      var init := ops[..|ops| - 1];
      AbsorbedForGood(s, init, classify, e);
      AppliedGrows(After(s, init, classify), ops[|ops| - 1], classify);
      AbsorbedStays(After(s, init, classify), After(s, ops, classify), e);
    }
  }

  /** However the candidates were processed since, ingesting an event again leaves every row but updated_at alone. */
  lemma ReplayDuringProcessing(s: Store, e: BusEvent, ops: seq<Op>, classify: Classifier)
    ensures var later := After(Ingested(s, e, classify), ops, classify);
            var again := Ingested(later, e, classify);
            && again.candidates == later.candidates && again.messages == later.messages
            && again.threads.Keys == later.threads.Keys
            && forall t :: t in later.threads ==>
                 var touch := if Appends(e) && e.threadId == Some(t) then Some(e.emittedAt) else None;
                 again.threads[t] == WithTouches(later.threads[t], touch)
  {
    IngestGrows(s, e, classify);
    AbsorbedForGood(Ingested(s, e, classify), ops, classify, e);
    IngestOfAbsorbed(After(Ingested(s, e, classify), ops, classify), e, classify);
  }

  // The status machine

  /** Processing finds the row still listed, as it does when nothing ran between listing and processing. */
  predicate Guarded(s: Store, op: Op) {
    op.Process? && op.id in s.candidates ==> Listed(s.candidates[op.id].status)
  }

  predicate GuardedRun(s: Store, ops: seq<Op>, classify: Classifier) {
    ops == [] || (GuardedRun(s, ops[..|ops| - 1], classify)
                  && Guarded(After(s, ops[..|ops| - 1], classify), ops[|ops| - 1]))
  }

  lemma OpKeepsRow(s: Store, op: Op, classify: Classifier, id: string)
    requires id in s.candidates
    ensures id in Applied(s, op, classify).candidates
    ensures var row, row' := s.candidates[id], Applied(s, op, classify).candidates[id];
            && row'.source == row.source
            && (row.openbrainRef.Some? ==> row'.openbrainRef.Some?)
            && (row.distilled.Some? ==> row'.distilled.Some?)
  {
    if op.Ingest? { IngestGrows(s, op.event, classify); }
  }

  /** No run of operations, guarded or not, clears an Open Brain reference or a distillation. */
  lemma {:induction false} NeverCleared(s: Store, ops: seq<Op>, classify: Classifier, id: string)
    requires id in s.candidates
    ensures id in After(s, ops, classify).candidates
    ensures var row, row' := s.candidates[id], After(s, ops, classify).candidates[id];
            && (row.openbrainRef.Some? ==> row'.openbrainRef.Some?)
            && (row.distilled.Some? ==> row'.distilled.Some?)
  {
    if ops != [] {
      NeverCleared(s, ops[..|ops| - 1], classify, id);
      OpKeepsRow(After(s, ops[..|ops| - 1], classify), ops[|ops| - 1], classify, id);
    }
  }

  /** A discarded row changes its status in exactly one way: an unguarded processing step. */
  lemma DiscardedLeavesExactlyWhen(s: Store, op: Op, classify: Classifier, id: string)
    requires id in s.candidates && s.candidates[id].status.Discarded?
    ensures id in Applied(s, op, classify).candidates
    ensures !Applied(s, op, classify).candidates[id].status.Discarded? <==> op.Process? && op.id == id
  {
    if op.Ingest? { IngestGrows(s, op.event, classify); }
  }

  lemma {:induction false} DiscardedIsFinal(s: Store, ops: seq<Op>, classify: Classifier, id: string)
    requires id in s.candidates && s.candidates[id].status.Discarded? && GuardedRun(s, ops, classify)
    ensures id in After(s, ops, classify).candidates && After(s, ops, classify).candidates[id].status.Discarded?
  {
    if ops != [] {
      var init := ops[..|ops| - 1];
      DiscardedIsFinal(s, init, classify, id);
      DiscardedLeavesExactlyWhen(After(s, init, classify), ops[|ops| - 1], classify, id);
    }
  }

  predicate Kept(status: Status) { status.CapturedOpenbrain? || status.PromotionPending? }

  /** The candidate goes to Open Brain: an ordinary shared one that is no duplicate, and the store takes it. */
  predicate Stores(listed: CandidateRow, w: Surroundings) {
    && listed.sensitivity == NORMAL && listed.retention == SHARED_RECALL
    && !w.duplicate && w.openBrain && w.storeSucceeds
  }

  /** The candidate goes to Calvin: an ordinary one of that class, and the promotion is accepted. */
  predicate Promotes(listed: CandidateRow, w: Surroundings) {
    listed.sensitivity == NORMAL && listed.retention == CALVIN_CANDIDATE && w.promotionSucceeds
  }

  /** A processing step that meets a kept row and neither stores nor promotes it. */
  predicate Overwrites(s: Store, op: Op, id: string) {
    && id in s.candidates && Kept(s.candidates[id].status)
    && op.Process? && op.id == id && !Stores(op.listed, op.w) && !Promotes(op.listed, op.w)
  }

  /** A kept row leaves for anything but needs_reconsolidation in exactly one way: a processing step overwrites it. */
  lemma KeptLeavesExactlyWhen(s: Store, op: Op, classify: Classifier, id: string)
    requires id in s.candidates && Kept(s.candidates[id].status)
    ensures id in Applied(s, op, classify).candidates
    ensures var status := Applied(s, op, classify).candidates[id].status;
            !Kept(status) && !status.NeedsReconsolidation? <==> Overwrites(s, op, id)
  {
    if op.Ingest? { IngestGrows(s, op.event, classify); }
  }

  /** In every run, a kept row stays kept until it is marked for reconsolidation or overwritten. */
  lemma {:induction false} KeptUntil(s: Store, ops: seq<Op>, classify: Classifier, id: string) returns (k: nat)
    requires id in s.candidates && Kept(s.candidates[id].status)
    ensures id in After(s, ops, classify).candidates
    ensures k <= |ops| + 1
    ensures k == |ops| + 1 ==> Kept(After(s, ops, classify).candidates[id].status)
    ensures k <= |ops| ==> 0 < k && LeavesAt(s, ops, classify, id, k)
  {
    NeverCleared(s, ops, classify, id);
    if ops == [] {
      k := 1;
    } else {
      var init := ops[..|ops| - 1];
      k := KeptUntil(s, init, classify, id);
      if k <= |init| {
        assert ops[..k] == init[..k] && ops[..k - 1] == init[..k - 1];
      } else {
        KeptLeavesExactlyWhen(After(s, init, classify), ops[|ops| - 1], classify, id);
        k := if Kept(After(s, ops, classify).candidates[id].status) then |ops| + 1 else |ops|;
        assert ops[..|ops|] == ops;
      }
    }
  }

  /** The k-th step marks the row for reconsolidation or overwrites it. */
  predicate LeavesAt(s: Store, ops: seq<Op>, classify: Classifier, id: string, k: nat)
    requires 0 < k <= |ops|
  {
    || MarkedAt(s, ops, classify, id, k)
    || Overwrites(After(s, ops[..k - 1], classify), ops[k - 1], id)
  }

  predicate MarkedAt(s: Store, ops: seq<Op>, classify: Classifier, id: string, k: nat)
    requires 0 < k <= |ops|
  {
    && id in After(s, ops[..k], classify).candidates
    && After(s, ops[..k], classify).candidates[id].status.NeedsReconsolidation?
  }

  /** In every run, a kept candidate that ends up discarded was first marked for reconsolidation or overwritten. */
  lemma DiscardedOnlyAfterLeaving(s: Store, ops: seq<Op>, classify: Classifier, id: string) returns (k: nat)
    requires id in s.candidates && Kept(s.candidates[id].status)
    requires id in After(s, ops, classify).candidates && After(s, ops, classify).candidates[id].status.Discarded?
    ensures 0 < k < |ops| && LeavesAt(s, ops, classify, id, k)
  {
    k := KeptUntil(s, ops, classify, id);
    assert ops[..|ops|] == ops;
  }

  /**
   The converse: from a row that is kept after some run, one more operation and the operator's discard end in a
   discarded row that this operation did not mark if and only if the operation overwrites the row.
   */
  lemma DiscardedUnmarkedExactly(s: Store, ops: seq<Op>, op: Op, runId: string, t: int, classify: Classifier,
                                 id: string)
    requires id in After(s, ops, classify).candidates
    requires Kept(After(s, ops, classify).candidates[id].status) && OfRun(After(s, ops, classify).candidates[id], runId)
    ensures var run := ops + [op, Discard(runId, id, t)];
            && id in After(s, run, classify).candidates
            && (After(s, run, classify).candidates[id].status.Discarded? && !MarkedAt(s, run, classify, id, |ops| + 1)
                <==> Overwrites(After(s, ops, classify), op, id))
  {
    var run := ops + [op, Discard(runId, id, t)];
    var before := After(s, ops, classify);
    assert run[..|run| - 1] == run[..|ops| + 1] == ops + [op] && (ops + [op])[..|ops|] == ops;
    assert After(s, run[..|ops| + 1], classify) == Applied(before, op, classify);
    KeptLeavesExactlyWhen(before, op, classify, id);
    OpKeepsRow(before, op, classify, id);
  }

  lemma {:induction false} GuardedAt(s: Store, ops: seq<Op>, classify: Classifier, k: nat)
    requires GuardedRun(s, ops, classify) && 0 < k <= |ops|
    ensures Guarded(After(s, ops[..k - 1], classify), ops[k - 1])
  {
    if k < |ops| {
      var init := ops[..|ops| - 1];
      GuardedAt(s, init, classify, k);
      assert init[..k - 1] == ops[..k - 1];
    }
  }

  /** Where processing finds its rows listed, nothing is overwritten, so reconsolidation was the only way. */
  lemma DiscardedOnlyAfterReconsolidation(s: Store, ops: seq<Op>, classify: Classifier, id: string) returns (k: nat)
    requires id in s.candidates && Kept(s.candidates[id].status) && GuardedRun(s, ops, classify)
    requires id in After(s, ops, classify).candidates && After(s, ops, classify).candidates[id].status.Discarded?
    ensures 0 < k < |ops| && MarkedAt(s, ops, classify, id, k)
  {
    k := DiscardedOnlyAfterLeaving(s, ops, classify, id);
    GuardedAt(s, ops, classify, k);
  }

  // What the operator's two decisions come to

  /** Approval lists the run's held candidates beside those already listed; processing will not hold them again. */
  lemma ApprovalReleasesExactlyTheHeld(s: Store, runId: string, id: string, w: Surroundings, classify: Classifier)
    requires id in s.candidates
    ensures var row, row' := s.candidates[id], Applied(s, Approve(runId, id), classify).candidates[id];
            && (Listed(row'.status) <==> Listed(row.status) || (row.status.HeldForReview? && OfRun(row, runId)))
            && (row.status.HeldForReview? && OfRun(row, runId) ==>
                  !ProcessedAs(id, row', row', w).status.HeldForReview?)
            && (ProcessedAs(id, row, row, w).status.HeldForReview? <==> row.sensitivity != NORMAL)
  {
  }

  /** A discard takes exactly the run's own candidates off the list and off review, and never one that is kept. */
  lemma DiscardTakesExactlyTheOpen(s: Store, runId: string, id: string, t: int, classify: Classifier)
    requires id in s.candidates
    ensures var row, row' := s.candidates[id], Applied(s, Discard(runId, id, t), classify).candidates[id];
            && (row'.status.Discarded? <==> row.status.Discarded? || (OfRun(row, runId) && !Kept(row.status)))
            && (Listed(row'.status) <==> Listed(row.status) && !OfRun(row, runId))
            && (Kept(row'.status) <==> Kept(row.status))
  {
  }

  // Where the guard comes from, and what happens without it

  /** Nothing touches a listed row that waits its turn: marks pass over it, and other rows are other rows. */
  lemma ListedRowWaits(s: Store, op: Op, classify: Classifier, id: string)
    requires id in s.candidates && Listed(s.candidates[id].status)
    requires op.Ingest? || op.Mark? || (op.Process? && op.id != id)
    ensures id in Applied(s, op, classify).candidates && Applied(s, op, classify).candidates[id] == s.candidates[id]
  {
    if op.Ingest? { IngestGrows(s, op.event, classify); }
  }

  /** A batch over distinct listed rows, with the reconsolidation marks it makes and any replays, but no operator. */
  ghost predicate Batch(s: Store, ops: seq<Op>) {
    && (forall i :: 0 <= i < |ops| ==> ops[i].Ingest? || ops[i].Mark? || ops[i].Process?)
    && (forall i :: 0 <= i < |ops| && ops[i].Process? ==>
          ops[i].id in s.candidates && Listed(s.candidates[ops[i].id].status))
    && (forall i, j :: 0 <= i < j < |ops| && ops[i].Process? && ops[j].Process? ==> ops[i].id != ops[j].id)
  }

  lemma {:induction false} RowWaitsThrough(s: Store, ops: seq<Op>, classify: Classifier, id: string)
    requires Batch(s, ops) && id in s.candidates && Listed(s.candidates[id].status)
    requires forall i :: 0 <= i < |ops| && ops[i].Process? ==> ops[i].id != id
    ensures id in After(s, ops, classify).candidates && After(s, ops, classify).candidates[id] == s.candidates[id]
  {
    if ops != [] {
      RowWaitsThrough(s, ops[..|ops| - 1], classify, id);
      ListedRowWaits(After(s, ops[..|ops| - 1], classify), ops[|ops| - 1], classify, id);
    }
  }

  /** A batch that no operator interrupts processes every row while it is still listed. */
  lemma {:induction false} BatchIsGuarded(s: Store, ops: seq<Op>, classify: Classifier)
    requires Batch(s, ops)
    ensures GuardedRun(s, ops, classify)
  {
    if ops != [] {
      var init, last := ops[..|ops| - 1], ops[|ops| - 1];
      BatchIsGuarded(s, init, classify);
      if last.Process? {
        RowWaitsThrough(s, init, classify, last.id);
      }
    }
  }

  /** An operator's discard that falls between listing and processing is undone, whatever the outcome. */
  lemma StaleListingRevives(s: Store, runId: string, id: string, w: Surroundings, t: int, classify: Classifier)
    requires id in s.candidates && Listed(s.candidates[id].status) && s.candidates[id].source.runId == Some(runId)
    ensures var ops := [Discard(runId, id, t), Process(id, s.candidates[id], w)];
            && id in After(s, ops[..1], classify).candidates
            && After(s, ops[..1], classify).candidates[id].status.Discarded?
            && id in After(s, ops, classify).candidates && !After(s, ops, classify).candidates[id].status.Discarded?
  {
    var ops := [Discard(runId, id, t), Process(id, s.candidates[id], w)];
    assert ops[..1][..0] == [] && After(s, [], classify) == s;
    assert After(s, ops[..1], classify) == Applied(s, ops[0], classify);
    DiscardedLeavesExactlyWhen(After(s, ops[..1], classify), ops[1], classify, id);
  }

  /** What the two calls of a processing step answer when it stores the candidate, or fails to. */
  function StoreAnswers(succeeds: bool, w: Surroundings): Surroundings {
    w.(duplicate := false, openBrain := true, storeSucceeds := succeeds)
  }

  /**
   Two overlapping batches list one candidate; the first stores it and the second fails to. The candidate was
   captured, is not any more, and the operator can discard it without any reconsolidation.
   */
  lemma OverlappingBatchesLoseACapture(s: Store, runId: string, id: string, w: Surroundings, t: int,
                                       classify: Classifier)
    requires id in s.candidates && Listed(s.candidates[id].status) && OfRun(s.candidates[id], runId)
    requires s.candidates[id].sensitivity == NORMAL && s.candidates[id].retention == SHARED_RECALL
    ensures var row := s.candidates[id];
            var ops := [Process(id, row, StoreAnswers(true, w)), Process(id, row, StoreAnswers(false, w)),
                        Discard(runId, id, t)];
            && id in After(s, ops[..1], classify).candidates && id in After(s, ops, classify).candidates
            && After(s, ops[..1], classify).candidates[id].status.CapturedOpenbrain?
            && Overwrites(After(s, ops[..1], classify), ops[1], id)
            && After(s, ops, classify).candidates[id].status.Discarded?
            && forall k :: 0 < k <= 3 ==> !MarkedAt(s, ops, classify, id, k)
  {
    var row := s.candidates[id];
    var ops := [Process(id, row, StoreAnswers(true, w)), Process(id, row, StoreAnswers(false, w)),
                Discard(runId, id, t)];
    ThreeOps(s, ops, classify);
    CapturedAndLost(s, runId, id, w, t, classify);
    NeverMarked(s, ops, classify, id);
  }

  lemma CapturedAndLost(s: Store, runId: string, id: string, w: Surroundings, t: int, classify: Classifier)
    requires id in s.candidates && OfRun(s.candidates[id], runId)
    requires s.candidates[id].sensitivity == NORMAL && s.candidates[id].retention == SHARED_RECALL
    ensures var row := s.candidates[id];
            var first := Applied(s, Process(id, row, StoreAnswers(true, w)), classify);
            var second := Applied(first, Process(id, row, StoreAnswers(false, w)), classify);
            var third := Applied(second, Discard(runId, id, t), classify);
            && id in first.candidates && first.candidates[id].status == CapturedOpenbrain
            && id in second.candidates && second.candidates[id].status == RetryPending
            && id in third.candidates && third.candidates[id].status == Discarded
            && Overwrites(first, Process(id, row, StoreAnswers(false, w)), id)
  {
    var row := s.candidates[id];
    SharedOutcome(s, id, row, StoreAnswers(true, w), classify);
    var first := Applied(s, Process(id, row, StoreAnswers(true, w)), classify);
    SharedOutcome(first, id, row, StoreAnswers(false, w), classify);
    DiscardOutcome(Applied(first, Process(id, row, StoreAnswers(false, w)), classify), runId, id, t, classify);
  }

  lemma DiscardOutcome(s: Store, runId: string, id: string, t: int, classify: Classifier)
    requires id in s.candidates && OfRun(s.candidates[id], runId) && Discardable(s.candidates[id].status)
    ensures var rows := Applied(s, Discard(runId, id, t), classify).candidates;
            id in rows && rows[id].status == Discarded
  {
  }

  lemma NeverMarked(s: Store, ops: seq<Op>, classify: Classifier, id: string)
    requires |ops| == 3
    requires forall k :: 0 < k <= 3 ==> id in After(s, ops[..k], classify).candidates
    requires !After(s, ops[..1], classify).candidates[id].status.NeedsReconsolidation?
    requires !After(s, ops[..2], classify).candidates[id].status.NeedsReconsolidation?
    requires !After(s, ops[..3], classify).candidates[id].status.NeedsReconsolidation?
    ensures forall k :: 0 < k <= 3 ==> !MarkedAt(s, ops, classify, id, k)
  {
  }

  lemma SharedOutcome(s: Store, id: string, listed: CandidateRow, w: Surroundings, classify: Classifier)
    requires id in s.candidates && listed.sensitivity == NORMAL && listed.retention == SHARED_RECALL
    requires !w.duplicate && w.openBrain
    ensures var rows := Applied(s, Process(id, listed, w), classify).candidates;
            && id in rows && rows[id].source == s.candidates[id].source
            && rows[id].status == if w.storeSucceeds then CapturedOpenbrain else RetryPending
  {
  }

  lemma ThreeOps(s: Store, ops: seq<Op>, classify: Classifier)
    requires |ops| == 3
    ensures var first := Applied(s, ops[0], classify);
            var second := Applied(first, ops[1], classify);
            && After(s, ops[..1], classify) == first && After(s, ops[..2], classify) == second
            && After(s, ops[..3], classify) == After(s, ops, classify) == Applied(second, ops[2], classify)
  {
    assert ops[..3] == ops && ops[..2][..1] == ops[..1];
    TwoOps(s, ops[..2], classify);
  }

  lemma TwoOps(s: Store, ops: seq<Op>, classify: Classifier)
    requires |ops| == 2
    ensures After(s, ops[..1], classify) == Applied(s, ops[0], classify)
    ensures After(s, ops, classify) == Applied(Applied(s, ops[0], classify), ops[1], classify)
  {
    assert ops[..1][..0] == [];
  }
}
