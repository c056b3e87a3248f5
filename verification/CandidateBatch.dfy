/** The processing loop over the store, the operator's calls, and what the duplicate check is worth. */
module CandidateBatch {
  import opened Basics
  import opened PackChat
  import opened PackChatReplay
  import opened MemoryCandidates

  // The duplicate check

  /** openbrain_duplicate_exists: another captured row with this key. */
  predicate DuplicateExists(rows: map<string, CandidateRow>, id: string, key: string) {
    exists other :: other in rows && other != id && CapturedUnder(rows[other], key)
  }

  predicate CapturedUnder(row: CandidateRow, key: string) {
    row.status.CapturedOpenbrain? && row.dedupeKey == Some(key)
  }

  /** No two captured rows have one dedupe key. */
  ghost predicate DistinctCaptures(rows: map<string, CandidateRow>) {
    forall a, b, key ::
      a in rows && b in rows && CapturedUnder(rows[a], key) && CapturedUnder(rows[b], key) ==> a == b
  }

  /** The step stores a candidate beside a captured one with the same key. */
  predicate CapturesTwice(s: Store, op: Op) {
    && op.Process? && op.id in s.candidates && Stores(op.listed, op.w)
    && DuplicateExists(s.candidates, op.id, KeyOf(op.listed, op.w))
  }

  /** What one step can add to the captured rows: the row it stores, under the key it computed. */
  lemma OnlyStoringCaptures(s: Store, op: Op, classify: Classifier, id: string, key: string)
    requires id in Applied(s, op, classify).candidates
    ensures CapturedUnder(Applied(s, op, classify).candidates[id], key) ==>
              || (id in s.candidates && CapturedUnder(s.candidates[id], key) && !(op.Process? && op.id == id))
              || (op.Process? && op.id == id && Stores(op.listed, op.w) && key == KeyOf(op.listed, op.w))
  {
    if op.Ingest? && id in s.candidates { IngestGrows(s, op.event, classify); }
  }

  /** One step keeps the captured rows' keys distinct if and only if it does not store a duplicate. */
  lemma DistinctExactly(s: Store, op: Op, classify: Classifier)
    requires DistinctCaptures(s.candidates)
    ensures DistinctCaptures(Applied(s, op, classify).candidates) <==> !CapturesTwice(s, op)
  {
    var rows, rows' := s.candidates, Applied(s, op, classify).candidates;
    if CapturesTwice(s, op) {
      var key := KeyOf(op.listed, op.w);
      var other :| other in rows && other != op.id && CapturedUnder(rows[other], key);
      assert CapturedUnder(rows'[other], key) && CapturedUnder(rows'[op.id], key);
    } else {
      forall a, b, key | a in rows' && b in rows' && CapturedUnder(rows'[a], key) && CapturedUnder(rows'[b], key)
        ensures a == b
      {
        OnlyStoringCaptures(s, op, classify, a, key);
        OnlyStoringCaptures(s, op, classify, b, key);
      }
    }
  }

  lemma AfterNext(s: Store, ops: seq<Op>, classify: Classifier, k: nat)
    requires k < |ops|
    ensures After(s, ops[..k + 1], classify) == Applied(After(s, ops[..k], classify), ops[k], classify)
  {
    assert ops[..k + 1][..k] == ops[..k];
  }

  /** The k-th step of the run stores a duplicate. */
  predicate CapturesTwiceAt(s: Store, ops: seq<Op>, classify: Classifier, k: nat)
    requires k < |ops|
  {
    CapturesTwice(After(s, ops[..k], classify), ops[k])
  }

  ghost predicate DistinctAt(s: Store, ops: seq<Op>, classify: Classifier, k: nat)
    requires k <= |ops|
  {
    DistinctCaptures(After(s, ops[..k], classify).candidates)
  }

  lemma NextDistinctExactly(s: Store, ops: seq<Op>, classify: Classifier, k: nat)
    requires k < |ops| && DistinctAt(s, ops, classify, k)
    ensures DistinctAt(s, ops, classify, k + 1) <==> !CapturesTwiceAt(s, ops, classify, k)
  {
    AfterNext(s, ops, classify, k);
    DistinctExactly(After(s, ops[..k], classify), ops[k], classify);
  }

  lemma {:induction false} DistinctUpTo(s: Store, ops: seq<Op>, classify: Classifier, k: nat)
    requires k <= |ops| && DistinctCaptures(s.candidates)
    requires forall i :: 0 <= i < k ==> !CapturesTwiceAt(s, ops, classify, i)
    ensures DistinctAt(s, ops, classify, k)
    decreases k
  {
    if k == 0 {
      assert ops[..0] == [];
    } else {
      DistinctUpTo(s, ops, classify, k - 1);
      NextDistinctExactly(s, ops, classify, k - 1);
    }
  }

  /** Along a run the keys are distinct at every point if and only if no step stores a duplicate. */
  lemma DistinctThroughoutExactly(s: Store, ops: seq<Op>, classify: Classifier)
    requires DistinctCaptures(s.candidates)
    ensures (forall k :: 0 <= k <= |ops| ==> DistinctAt(s, ops, classify, k))
            <==> forall k :: 0 <= k < |ops| ==> !CapturesTwiceAt(s, ops, classify, k)
  {
    if forall k :: 0 <= k <= |ops| ==> DistinctAt(s, ops, classify, k) {
      forall k | 0 <= k < |ops| ensures !CapturesTwiceAt(s, ops, classify, k) {
        NextDistinctExactly(s, ops, classify, k);
      }
    }
    if forall k :: 0 <= k < |ops| ==> !CapturesTwiceAt(s, ops, classify, k) {
      forall k | 0 <= k <= |ops| ensures DistinctAt(s, ops, classify, k) {
        DistinctUpTo(s, ops, classify, k);
      }
    }
  }

  /** The check of the k-th step was answered in the state before some step, and no candidate was processed since. */
  predicate Checked(s: Store, ops: seq<Op>, classify: Classifier, k: nat)
    requires k < |ops| && ops[k].Process?
  {
    exists j :: 0 <= j <= k && AnsweredAt(s, ops, classify, k, j)
  }

  predicate AnsweredAt(s: Store, ops: seq<Op>, classify: Classifier, k: nat, j: nat)
    requires j <= k < |ops| && ops[k].Process?
  {
    && (forall i :: j <= i < k ==> !ops[i].Process?)
    && ops[k].w.duplicate
       == DuplicateExists(After(s, ops[..j], classify).candidates, ops[k].id, KeyOf(ops[k].listed, ops[k].w))
  }

  /** No processing step comes between another one and its duplicate check: batches do not overlap. */
  ghost predicate OneAtATime(s: Store, ops: seq<Op>, classify: Classifier) {
    forall k :: 0 <= k < |ops| && ops[k].Process? ==> Checked(s, ops, classify, k)
  }

  /** Replays, marks and operators never make a key captured, so the answer "no duplicate" lasts. */
  lemma {:induction false} NoDuplicateLasts(
      s: Store, ops: seq<Op>, classify: Classifier, j: nat, k: nat, id: string, key: string)
    requires j <= k <= |ops| && forall i :: j <= i < k ==> !ops[i].Process?
    requires !DuplicateExists(After(s, ops[..j], classify).candidates, id, key)
    ensures !DuplicateExists(After(s, ops[..k], classify).candidates, id, key)
    decreases k
  {
    if j < k {
      NoDuplicateLasts(s, ops, classify, j, k - 1, id, key);
      AfterNext(s, ops, classify, k - 1);
      var before := After(s, ops[..k - 1], classify);
      var after := After(s, ops[..k], classify);
      forall other | other in after.candidates && other != id ensures !CapturedUnder(after.candidates[other], key) {
        OnlyStoringCaptures(before, ops[k - 1], classify, other, key);
      }
    }
  }

  /** While batches do not overlap, no two captured rows ever share a dedupe key. */
  lemma CapturesStayDistinct(s: Store, ops: seq<Op>, classify: Classifier)
    requires DistinctCaptures(s.candidates) && OneAtATime(s, ops, classify)
    ensures DistinctCaptures(After(s, ops, classify).candidates)
  {
    forall k | 0 <= k < |ops| ensures !CapturesTwiceAt(s, ops, classify, k) {
      if ops[k].Process? && !ops[k].w.duplicate {
        assert Checked(s, ops, classify, k);
        var j :| 0 <= j <= k && AnsweredAt(s, ops, classify, k, j);
        NoDuplicateLasts(s, ops, classify, j, k, ops[k].id, KeyOf(ops[k].listed, ops[k].w));
      }
    }
    DistinctUpTo(s, ops, classify, |ops|);
    assert ops[..|ops|] == ops;
  }

  /** Two batches that check one key before either stores capture it twice. */
  lemma OverlappingChecksCaptureTwice(s: Store, a: string, b: string, w: Surroundings, classify: Classifier)
    requires a in s.candidates && b in s.candidates && a != b
    requires Stores(s.candidates[a], w) && Stores(s.candidates[b], w)
    requires KeyOf(s.candidates[a], w) == KeyOf(s.candidates[b], w)
    ensures var ops := [Process(a, s.candidates[a], w), Process(b, s.candidates[b], w)];
            && CapturesTwice(After(s, ops[..1], classify), ops[1])
            && !DistinctCaptures(After(s, ops, classify).candidates)
  {
    var ops := [Process(a, s.candidates[a], w), Process(b, s.candidates[b], w)];
    TwoOps(s, ops, classify);
    var first := Applied(s, ops[0], classify);
    var key, rows := KeyOf(s.candidates[a], w), Applied(first, ops[1], classify).candidates;
    assert CapturedUnder(first.candidates[a], key);
    assert CapturedUnder(rows[a], key) && CapturedUnder(rows[b], key);
  }

  // The processing loop

  /**
   What is outside the table for one candidate: the answers it gets and the texts made of it, all but the duplicate
   check, which the loop asks for itself; and what its text triggers.
   */
  datatype Outside = Outside(
    answers: Surroundings, candidateTriggers: set<string>, eventTriggers: set<string>,
    reconsolidated: Option<string> -> string, now: int)

  datatype Summary = Summary(
    scanned: nat, captured: nat, promotions: nat, reconsolidations: nat, held: nat, ignored: nat, duplicates: nat,
    retryPending: nat)
  {
    /** The candidates counted, each under its outcome. */
    function Outcomes(): nat { captured + promotions + held + ignored + duplicates + retryPending }
  }

  const EMPTY := Summary(0, 0, 0, 0, 0, 0, 0, 0)

  /** The summary counts a candidate that waits for Open Brain among those held for review. */
  function Counted(sum: Summary, status: Status): Summary {
    match status
    case CapturedOpenbrain => sum.(captured := sum.captured + 1)
    case PromotionPending => sum.(promotions := sum.promotions + 1)
    case HeldForReview => sum.(held := sum.held + 1)
    case WaitingOpenbrain => sum.(held := sum.held + 1)
    case IgnoredEphemeral => sum.(ignored := sum.ignored + 1)
    case DuplicateOpenbrain => sum.(duplicates := sum.duplicates + 1)
    case _ => sum.(retryPending := sum.retryPending + 1)
  }

  /** The store's update, as one change of the table. */
  method Update(store: PackChatStore, id: string, status: Status, distilled: Option<string>,
                openbrainRef: Option<string>, dedupeKey: Option<string>, contract: Option<string>, now: int)
    modifies store`candidates
    ensures store.candidates ==
            if id in old(store.candidates) then
              old(store.candidates)[id := Processed(old(store.candidates)[id], status, distilled, openbrainRef,
                                                    dedupeKey, contract, now)]
            else old(store.candidates)
  {
    store.UpdateMemoryCandidateProcessing(id, status, distilled, openbrainRef, dedupeKey, contract, now);
    if id in store.candidates {
      assert store.candidates[id]
          == Processed(old(store.candidates)[id], status, distilled, openbrainRef, dedupeKey, contract, now);
    }
    assert store.candidates.Keys == old(store.candidates).Keys;
  }

  /** Each branch of the processing loop ends in one update of the candidate's row and one count. */
  method ProcessCandidate(store: PackChatStore, id: string, listed: CandidateRow, w: Surroundings, sum: Summary)
      returns (sum': Summary)
    modifies store`candidates
    ensures store.candidates == ApplyTo(old(store.candidates), Process(id, listed, w))
    ensures sum' == Counted(sum, ProcessedAs(id, listed, listed, w).status)
  {
    sum' := sum;
    var key := Some(KeyOf(listed, w));
    if listed.sensitivity != NORMAL {
      Update(store, id, HeldForReview, None, None, key, None, w.now);
      sum' := sum'.(held := sum'.held + 1);
      return;
    }
    var distilled := Some(w.distilled);
    if listed.retention == SHARED_RECALL {
      if w.duplicate {
        Update(store, id, DuplicateOpenbrain, distilled, None, key, None, w.now);
        sum' := sum'.(duplicates := sum'.duplicates + 1);
      } else if w.openBrain {
        if w.storeSucceeds {
          Update(store, id, CapturedOpenbrain, distilled, Some(RefOf(id)), key, None, w.now);
          sum' := sum'.(captured := sum'.captured + 1);
        } else {
          Update(store, id, RetryPending, distilled, None, key, None, w.now);
          sum' := sum'.(retryPending := sum'.retryPending + 1);
        }
      } else {
        Update(store, id, WaitingOpenbrain, distilled, None, key, None, w.now);
        sum' := sum'.(held := sum'.held + 1);
      }
    } else if listed.retention == CALVIN_CANDIDATE {
      if w.promotionSucceeds {
        Update(store, id, PromotionPending, distilled, None, key, Some(w.promotion), w.now);
        sum' := sum'.(promotions := sum'.promotions + 1);
      } else {
        Update(store, id, RetryPending, distilled, None, key, Some(w.promotion), w.now);
        sum' := sum'.(retryPending := sum'.retryPending + 1);
      }
    } else {
      Update(store, id, IgnoredEphemeral, distilled, None, key, None, w.now);
      sum' := sum'.(ignored := sum'.ignored + 1);
    }
  }

  /** Every operation of a run is a call on the store, and the store then holds what the run says. */
  method Perform(store: PackChatStore, op: Op, classify: Classifier)
    modifies store
    ensures store.Rows() == Applied(old(store.Rows()), op, classify)
  {
    match op
    case Ingest(e) => store.IngestWireEnvelope(e, classify);
    case Process(id, listed, w) => var _ := ProcessCandidate(store, id, listed, w, EMPTY);
    case Mark(target, trigger, f, now) => var _ := store.MarkNeedsReconsolidation(target, trigger, f, now);
    case Approve(runId, id) =>
      var approved := store.ApproveForProcessing(runId, id);
      assert approved ==> store.candidates[id] == Approved(old(store.candidates)[id]);
      assert approved ==> store.candidates == old(store.candidates)[id := Approved(old(store.candidates)[id])];
    case Discard(runId, id, now) =>
      var discarded := store.DiscardCandidate(runId, id, now);
      assert discarded ==> store.candidates[id] == DiscardedRow(old(store.candidates)[id], now);
      assert discarded ==>
               store.candidates == old(store.candidates)[id := DiscardedRow(old(store.candidates)[id], now)];
  }

  predicate Marks(rows: map<string, CandidateRow>, target: string, trigger: string) {
    target != trigger && target in rows && Settled(rows[target].status)
  }

  /** What the steps of a run come to: outcomes of processing, and marks that found a settled row. */
  function Tallied(s: Store, ops: seq<Op>, classify: Classifier): Summary {
    if ops == [] then EMPTY
    else
      var init, op := ops[..|ops| - 1], ops[|ops| - 1];
      var sum := Tallied(s, init, classify);
      if op.Process? then Counted(sum, ProcessedAs(op.id, op.listed, op.listed, op.w).status)
      else if op.Mark? && Marks(After(s, init, classify).candidates, op.target, op.trigger) then
        sum.(reconsolidations := sum.reconsolidations + 1)
      else sum
  }

  /** The processing steps of a run. */
  function Steps(ops: seq<Op>): (steps: seq<Op>)
    ensures forall op <- steps :: op.Process?
  {
    if ops == [] then []
    else
      var init, op := Steps(ops[..|ops| - 1]), ops[|ops| - 1];
      if op.Process? then init + [op] else init
  }

  lemma {:induction false} EveryOutcomeIsCounted(s: Store, ops: seq<Op>, classify: Classifier)
    ensures Tallied(s, ops, classify).Outcomes() == |Steps(ops)|
  {
    if ops != [] { EveryOutcomeIsCounted(s, ops[..|ops| - 1], classify); }
  }

  /** How many processing steps end in one of the statuses. */
  function Ending(ops: seq<Op>, statuses: set<Status>): nat {
    if ops == [] then 0
    else
      var op := ops[|ops| - 1];
      Ending(ops[..|ops| - 1], statuses)
      + if op.Process? && ProcessedAs(op.id, op.listed, op.listed, op.w).status in statuses then 1 else 0
  }

  /** What each number of the summary counts; those that wait for Open Brain are among the held. */
  lemma {:induction false} SummaryMeans(s: Store, ops: seq<Op>, classify: Classifier)
    ensures var sum := Tallied(s, ops, classify);
            && sum.captured == Ending(ops, {CapturedOpenbrain}) && sum.promotions == Ending(ops, {PromotionPending})
            && sum.held == Ending(ops, {HeldForReview, WaitingOpenbrain})
            && sum.ignored == Ending(ops, {IgnoredEphemeral}) && sum.duplicates == Ending(ops, {DuplicateOpenbrain})
            && sum.retryPending == Ending(ops, {RetryPending})
  {
    if ops != [] { SummaryMeans(s, ops[..|ops| - 1], classify); }
  }

  lemma {:induction false} StepsHold(ops: seq<Op>, k: nat)
    requires k < |ops| && ops[k].Process?
    ensures ops[k] in Steps(ops)
  {
    if k < |ops| - 1 { StepsHold(ops[..|ops| - 1], k); }
  }

  /** A batch so far: where its steps lead from the listing on, and what they come to. */
  ghost predicate Trace(start: Store, ops: seq<Op>, classify: Classifier, rows: map<string, CandidateRow>,
                        sum: Summary)
  {
    && start.(candidates := rows) == After(start, ops, classify)
    && sum == Tallied(start, ops, classify)
    && OneAtATime(start, ops, classify) && Batch(start, ops)
  }

  lemma MarkExtends(start: Store, ops: seq<Op>, op: Op, classify: Classifier, rows: map<string, CandidateRow>,
                    sum: Summary)
    requires Trace(start, ops, classify, rows, sum) && op.Mark?
    ensures var sum' := if Marks(rows, op.target, op.trigger) then sum.(reconsolidations := sum.reconsolidations + 1)
                        else sum;
            Trace(start, ops + [op], classify, ApplyTo(rows, op), sum')
    ensures Steps(ops + [op]) == Steps(ops)
  {
    assert (ops + [op])[..|ops|] == ops;
    StillOneAtATime(start, ops, op, classify);
  }

  lemma ProcessExtends(start: Store, ops: seq<Op>, op: Op, classify: Classifier, rows: map<string, CandidateRow>,
                       sum: Summary)
    requires Trace(start, ops, classify, rows, sum) && op.Process?
    requires op.w.duplicate == DuplicateExists(rows, op.id, KeyOf(op.listed, op.w))
    requires op.id in start.candidates && Listed(start.candidates[op.id].status)
    requires forall step <- Steps(ops) :: step.id != op.id
    ensures Trace(start, ops + [op], classify, ApplyTo(rows, op),
                  Counted(sum, ProcessedAs(op.id, op.listed, op.listed, op.w).status))
    ensures Steps(ops + [op]) == Steps(ops) + [op]
  {
    assert (ops + [op])[..|ops|] == ops;
    StillOneAtATime(start, ops, op, classify);
    StillBatch(start, ops, op);
  }

  lemma StillBatch(start: Store, ops: seq<Op>, op: Op)
    requires Batch(start, ops) && op.Process?
    requires op.id in start.candidates && Listed(start.candidates[op.id].status)
    requires forall step <- Steps(ops) :: step.id != op.id
    ensures Batch(start, ops + [op])
  {
    forall k | 0 <= k < |ops| && ops[k].Process? ensures ops[k].id != op.id { StepsHold(ops, k); }
  }

  lemma StillOneAtATime(start: Store, ops: seq<Op>, op: Op, classify: Classifier)
    requires OneAtATime(start, ops, classify)
    requires op.Process? ==>
               op.w.duplicate
               == DuplicateExists(After(start, ops, classify).candidates, op.id, KeyOf(op.listed, op.w))
    ensures OneAtATime(start, ops + [op], classify)
  {
    var longer := ops + [op];
    forall k | 0 <= k < |longer| && longer[k].Process? ensures Checked(start, longer, classify, k) {
      if k < |ops| {
        assert Checked(start, ops, classify, k);
        var j :| 0 <= j <= k && AnsweredAt(start, ops, classify, k, j);
        assert longer[..j] == ops[..j];
        assert AnsweredAt(start, longer, classify, k, j);
      } else {
        assert longer[..k] == ops;
        assert AnsweredAt(start, longer, classify, k, k);
      }
    }
  }

  // Reconsolidation triggers

  /** Every settled row among the targets is marked; the trigger itself and all other rows stay. */
  function Reconsolidated(rows: map<string, CandidateRow>, targets: set<string>, trigger: string, o: Outside)
      : map<string, CandidateRow>
  {
    map t | t in rows ::
      if t in targets && Marks(rows, t, trigger) then Marked(rows[t], o.reconsolidated, o.now) else rows[t]
  }

  function FromEvents(rows: map<string, CandidateRow>, events: set<string>): set<string> {
    set t | t in rows && rows[t].source.eventId in events
  }

  lemma OneMoreTarget(rows: map<string, CandidateRow>, done: set<string>, target: string, trigger: string, o: Outside)
    ensures ApplyTo(Reconsolidated(rows, done, trigger, o), Mark(target, trigger, o.reconsolidated, o.now))
         == Reconsolidated(rows, done + {target}, trigger, o)
  {
  }

  lemma MoreTargets(rows: map<string, CandidateRow>, a: set<string>, b: set<string>, trigger: string, o: Outside)
    ensures Reconsolidated(Reconsolidated(rows, a, trigger, o), b, trigger, o)
         == Reconsolidated(rows, a + b, trigger, o)
  {
  }

  lemma SourcesStay(rows: map<string, CandidateRow>, done: set<string>, trigger: string, o: Outside,
                    events: set<string>)
    ensures FromEvents(Reconsolidated(rows, done, trigger, o), events) == FromEvents(rows, events)
  {
  }

  lemma OneMoreEvent(rows: map<string, CandidateRow>, targets: set<string>, events: set<string>, left: set<string>,
                     event: string)
    requires event in left && left <= events
    ensures targets + FromEvents(rows, events - left) + FromEvents(rows, {event})
         == targets + FromEvents(rows, events - (left - {event}))
  {
  }

  /** Whatever the order, exactly the other settled rows that the candidate names are marked. */
  lemma ReconsolidationMeans(rows: map<string, CandidateRow>, trigger: string, o: Outside)
    ensures var after := Reconsolidated(rows, o.candidateTriggers + FromEvents(rows, o.eventTriggers), trigger, o);
            && after.Keys == rows.Keys
            && forall t :: t in rows ==>
                 var row := rows[t];
                 var named := t in o.candidateTriggers || row.source.eventId in o.eventTriggers;
                 after[t] == if named && t != trigger && IsDone(row.status) then
                               row.(status := NeedsReconsolidation, contract := Some(o.reconsolidated(row.contract)),
                                    processedAt := Some(o.now))
                             else row
  {
  }

  /** Marks the targets one by one, in any order. */
  method MarkAll(store: PackChatStore, targets: set<string>, trigger: string, o: Outside, sum: Summary,
                 ghost start: Store, ghost ops: seq<Op>, ghost classify: Classifier)
      returns (sum': Summary, ghost ops': seq<Op>)
    requires Trace(start, ops, classify, store.candidates, sum)
    modifies store`candidates
    ensures store.candidates == Reconsolidated(old(store.candidates), targets, trigger, o)
    ensures Trace(start, ops', classify, store.candidates, sum') && Steps(ops') == Steps(ops)
  {
    sum', ops' := sum, ops;
    var left := targets;
    assert store.candidates == Reconsolidated(store.candidates, {}, trigger, o);
    while left != {}
      invariant left <= targets
      invariant store.candidates == Reconsolidated(old(store.candidates), targets - left, trigger, o)
      invariant Trace(start, ops', classify, store.candidates, sum') && Steps(ops') == Steps(ops)
      decreases left
    {
      var target :| target in left;
      ghost var op := Mark(target, trigger, o.reconsolidated, o.now);
      MarkExtends(start, ops', op, classify, store.candidates, sum');
      OneMoreTarget(old(store.candidates), targets - left, target, trigger, o);
      var updated := store.MarkNeedsReconsolidation(target, trigger, o.reconsolidated, o.now);
      if updated { sum' := sum'.(reconsolidations := sum'.reconsolidations + 1); }
      assert targets - (left - {target}) == targets - left + {target};
      left, ops' := left - {target}, ops' + [op];
    }
    assert targets - left == targets;
  }

  /** The targets named as candidates, then those named by their source events. */
  method ApplyTriggers(store: PackChatStore, trigger: string, o: Outside, sum: Summary,
                       ghost start: Store, ghost ops: seq<Op>, ghost classify: Classifier)
      returns (sum': Summary, ghost ops': seq<Op>)
    requires Trace(start, ops, classify, store.candidates, sum)
    modifies store`candidates
    ensures store.candidates
         == Reconsolidated(old(store.candidates),
                           o.candidateTriggers + FromEvents(old(store.candidates), o.eventTriggers),
                           trigger, o)
    ensures Trace(start, ops', classify, store.candidates, sum') && Steps(ops') == Steps(ops)
  {
    sum', ops' := MarkAll(store, o.candidateTriggers, trigger, o, sum, start, ops, classify);
    var left := o.eventTriggers;
    ghost var rows := old(store.candidates);
    assert o.candidateTriggers + FromEvents(rows, {}) == o.candidateTriggers;
    while left != {}
      invariant left <= o.eventTriggers
      invariant store.candidates
             == Reconsolidated(rows, o.candidateTriggers + FromEvents(rows, o.eventTriggers - left), trigger, o)
      invariant Trace(start, ops', classify, store.candidates, sum') && Steps(ops') == Steps(ops)
      decreases left
    {
      var event :| event in left;
      ghost var done := o.candidateTriggers + FromEvents(rows, o.eventTriggers - left);
      var found := FromEvents(store.candidates, {event});
      SourcesStay(rows, done, trigger, o, {event});
      sum', ops' := MarkAll(store, found, trigger, o, sum', start, ops', classify);
      MoreTargets(rows, done, found, trigger, o);
      OneMoreEvent(rows, o.candidateTriggers, o.eventTriggers, left, event);
      left := left - {event};
    }
    assert o.eventTriggers - left == o.eventTriggers;
  }

  function Asked(rows: map<string, CandidateRow>, id: string, listed: CandidateRow, o: Outside): Surroundings {
    o.answers.(duplicate := DuplicateExists(rows, id, KeyOf(listed, o.answers)))
  }

  /** The processing step of a candidate: its own row as it was listed, and its own answers. */
  predicate StepFor(op: Op, id: string, listed: CandidateRow, o: Outside) {
    op.Process? && op.id == id && op.listed == listed && op.w == o.answers.(duplicate := op.w.duplicate)
  }

  /** One batch over the rows as they were listed: marks, duplicate check and outcome, candidate by candidate. */
  method ProcessMemoryCandidates(store: PackChatStore, batch: seq<string>, outside: seq<Outside>,
                                 ghost classify: Classifier)
      returns (sum: Summary, ghost ops: seq<Op>)
    requires |outside| == |batch| && forall i, j :: 0 <= i < j < |batch| ==> batch[i] != batch[j]
    requires forall id :: id in batch ==> id in store.candidates && Listed(store.candidates[id].status)
    modifies store`candidates
    ensures store.Rows() == After(old(store.Rows()), ops, classify)
    ensures Batch(old(store.Rows()), ops) && OneAtATime(old(store.Rows()), ops, classify)
    ensures |Steps(ops)| == |batch|
    ensures forall i :: 0 <= i < |batch| ==>
              StepFor(Steps(ops)[i], batch[i], old(store.candidates)[batch[i]], outside[i])
    ensures sum == Tallied(old(store.Rows()), ops, classify).(scanned := |batch|) && sum.Outcomes() == |batch|
    ensures DistinctCaptures(old(store.candidates)) ==> DistinctCaptures(store.candidates)
  {
    var listed := store.candidates;
    ghost var start := store.Rows();
    sum, ops := EMPTY, [];
    for i := 0 to |batch|
      invariant Trace(start, ops, classify, store.candidates, sum) && |Steps(ops)| == i
      invariant forall j :: 0 <= j < i ==> StepFor(Steps(ops)[j], batch[j], listed[batch[j]], outside[j])
    {
      var id, o := batch[i], outside[i];
      sum, ops := ApplyTriggers(store, id, o, sum, start, ops, classify);
      var w := Asked(store.candidates, id, listed[id], o);
      ProcessExtends(start, ops, Process(id, listed[id], w), classify, store.candidates, sum);
      sum := ProcessCandidate(store, id, listed[id], w, sum);
      ops := ops + [Process(id, listed[id], w)];
    }
    EveryOutcomeIsCounted(start, ops, classify);
    if DistinctCaptures(start.candidates) { CapturesStayDistinct(start, ops, classify); }
    sum := sum.(scanned := |batch|);
  }
}
