/**
 The local replica of PackChat: threads, messages and memory candidates, as the
 ingest of bus events and the memory-candidate operations change them.
 */
module PackChat {
  import opened Basics
  import opened Text
  import opened Retrieval

  const DEFAULT_TITLE := "Remote PackChat thread"
  const OPEN := "open"
  const GENERAL := "general"
  const SYSTEM_ROLE := "system"
  const NORMAL := "normal"

  datatype EventKind =
    | ThreadOpened | ThreadRosterSynced | MessageAppended | CheckpointResolved | BeliefRevised | DriftDetected

  /** The JSON metadata of an event: its text, and the three string members the ingest looks up. */
  datatype Metadata = Metadata(text: string, title: Option<string>, status: Option<string>, kind: Option<string>)

  datatype BusEvent = BusEvent(
    eventId: string,
    kind: EventKind,
    threadId: Option<string>,
    runId: Option<string>,
    specId: Option<string>,
    messageId: Option<string>,
    checkpointId: Option<string>,
    role: Option<string>,
    agent: Option<string>,
    runtimeId: Option<string>,
    contentPreview: string,
    content: Option<string>,
    metadata: Metadata,
    emittedAt: int)

  datatype ThreadRow = ThreadRow(
    runId: Option<string>, specId: Option<string>, title: string, status: string, kind: string, metadata: string,
    createdAt: int, updatedAt: int)

  datatype MessageRow = MessageRow(
    threadId: string, role: string, agent: Option<string>, runtimeId: Option<string>, content: string,
    checkpointId: Option<string>, createdAt: int)

  datatype Status =
    | Pending | RetryPending | WaitingOpenbrain | HeldForReview
    | CapturedOpenbrain | PromotionPending | DuplicateOpenbrain | IgnoredEphemeral
    | NeedsReconsolidation | Discarded

  /** What the classifiers read off an event; settled by substring lists that are not modelled. */
  datatype Classification = Classification(
    retention: string, intent: string, sensitivity: string, contract: Option<string>)

  type Classifier = BusEvent -> Classification

  datatype CandidateRow = CandidateRow(
    source: BusEvent,
    distilled: Option<string>,
    dedupeKey: Option<string>,
    retention: string,
    intent: string,
    sensitivity: string,
    status: Status,
    openbrainRef: Option<string>,
    contract: Option<string>,
    processedAt: Option<int>)

  datatype Store = Store(
    threads: map<string, ThreadRow>,
    messages: map<string, MessageRow>,
    candidates: map<string, CandidateRow>)

  // Ingest

  /** INSERT OR IGNORE on a primary key. */
  function InsertOrIgnore<V>(rows: map<string, V>, key: string, row: V): map<string, V> {
    if key in rows then rows else rows[key := row]
  }

  function ThreadRowOf(e: BusEvent): ThreadRow {
    ThreadRow(
      e.runId, e.specId, e.metadata.title.GetOr(DEFAULT_TITLE), e.metadata.status.GetOr(OPEN),
      e.metadata.kind.GetOr(GENERAL), e.metadata.text, e.emittedAt, e.emittedAt)
  }

  function ContentOf(e: BusEvent): string { e.content.GetOr(e.contentPreview) }

  function MessageRowOf(e: BusEvent, threadId: string): MessageRow {
    MessageRow(threadId, e.role.GetOr(SYSTEM_ROLE), e.agent, e.runtimeId, ContentOf(e), e.checkpointId, e.emittedAt)
  }

  function CandidateId(messageId: string): string { "memcand-" + messageId }

  predicate SourceTaken(candidates: map<string, CandidateRow>, eventId: string) {
    exists id :: id in candidates && candidates[id].source.eventId == eventId
  }

  /** Whether the event yields a candidate at all. */
  predicate Captures(e: BusEvent) {
    e.kind.MessageAppended? && e.messageId.Some? && Trim(ContentOf(e), Whitespace) != ""
  }

  function CandidateRowOf(e: BusEvent, classify: Classifier): CandidateRow {
    var c := classify(e);
    var key := Some(DedupeKey(ContentOf(e)));
    CandidateRow(e, None, key, c.retention, c.intent, c.sensitivity, Pending, None, c.contract, None)
  }

  /** INSERT OR IGNORE with two unique keys: the candidate's own id and its source event. */
  function WithCandidate(candidates: map<string, CandidateRow>, e: BusEvent, classify: Classifier)
      : map<string, CandidateRow>
  {
    if !Captures(e) then candidates
    else
      var id := CandidateId(e.messageId.value);
      if id in candidates || SourceTaken(candidates, e.eventId) then candidates
      else candidates[id := CandidateRowOf(e, classify)]
  }

  /** The event appends a message to a thread: the only kind that touches updated_at. */
  predicate Appends(e: BusEvent) { e.kind.MessageAppended? && e.threadId.Some? && e.messageId.Some? }

  predicate OpensThread(e: BusEvent) { (e.kind.ThreadOpened? || e.kind.ThreadRosterSynced?) && e.threadId.Some? }

  function Ingested(s: Store, e: BusEvent, classify: Classifier): Store {
    if OpensThread(e) then s.(threads := InsertOrIgnore(s.threads, e.threadId.value, ThreadRowOf(e)))
    else if Appends(e) then
      var t := e.threadId.value;
      var threads := InsertOrIgnore(s.threads, t, ThreadRowOf(e));
      Store(
        threads[t := threads[t].(updatedAt := e.emittedAt)],
        InsertOrIgnore(s.messages, e.messageId.value, MessageRowOf(e, t)),
        WithCandidate(s.candidates, e, classify))
    else s
  }

  // Memory candidates

  function Processed(row: CandidateRow, status: Status, distilled: Option<string>, openbrainRef: Option<string>,
                     dedupeKey: Option<string>, contract: Option<string>, now: int): CandidateRow {
    row.(status := status, distilled := distilled.Or(row.distilled), openbrainRef := openbrainRef.Or(row.openbrainRef),
         dedupeKey := dedupeKey.Or(row.dedupeKey), contract := contract.Or(row.contract), processedAt := Some(now))
  }

  predicate Listed(status: Status) { status.Pending? || status.RetryPending? || status.WaitingOpenbrain? }

  predicate Settled(status: Status) {
    status.CapturedOpenbrain? || status.PromotionPending? || status.DuplicateOpenbrain? || status.IgnoredEphemeral?
  }

  predicate Approvable(status: Status) { status.HeldForReview? || status.WaitingOpenbrain? || status.RetryPending? }

  predicate Discardable(status: Status) { !status.CapturedOpenbrain? && !status.PromotionPending? }

  predicate OfRun(row: CandidateRow, runId: string) { row.source.runId == Some(runId) }

  /** SQL's COALESCE: a value that is given replaces the stored one. */
  predicate Coalesced(before: Option<string>, given: Option<string>, after: Option<string>) {
    if given.Some? then after == given else after == before
  }

  /** Where a candidate comes from and how it was classified. */
  predicate SameOrigin(a: CandidateRow, b: CandidateRow) {
    a.source == b.source && a.retention == b.retention && a.intent == b.intent && a.sensitivity == b.sensitivity
  }

  /** What processing has found out about a candidate. */
  predicate SameTexts(a: CandidateRow, b: CandidateRow) {
    && a.distilled == b.distilled && a.openbrainRef == b.openbrainRef
    && a.dedupeKey == b.dedupeKey && a.contract == b.contract
  }

  lemma FirstRowWins(before: map<string, ThreadRow>, after: map<string, ThreadRow>, e: BusEvent)
    requires after.Keys == before.Keys + if e.threadId.Some? then {e.threadId.value} else {}
    requires forall t :: t in before ==> after[t] == before[t]
    requires forall t :: t in after && t !in before ==> after[t] == ThreadRowOf(e)
    ensures after == if e.threadId.Some? then InsertOrIgnore(before, e.threadId.value, ThreadRowOf(e)) else before
  {
  }

  class PackChatStore {
    var threads: map<string, ThreadRow>
    var messages: map<string, MessageRow>
    var candidates: map<string, CandidateRow>

    constructor ()
      ensures Rows() == Store(map[], map[], map[])
    {
      threads, messages, candidates := map[], map[], map[];
    }

    function Rows(): Store
      reads this
    {
      Store(threads, messages, candidates)
    }

    method IngestWireEnvelope(e: BusEvent, classify: Classifier)
      modifies this
      ensures Rows() == Ingested(old(Rows()), e, classify)
    {
      match e.kind
      case ThreadOpened => IngestRemoteThread(e); FirstRowWins(old(threads), threads, e);
      case ThreadRosterSynced => IngestRemoteThread(e); FirstRowWins(old(threads), threads, e);
      case MessageAppended => IngestRemoteMessage(e, classify);
      case _ =>
    }

    /** Rows that are there stay as they are; a thread not seen before gets its row from this event. */
    method IngestRemoteThread(e: BusEvent)
      modifies this`threads
      ensures threads.Keys == old(threads).Keys + if e.threadId.Some? then {e.threadId.value} else {}
      ensures forall t :: t in old(threads) ==> threads[t] == old(threads)[t]
      ensures forall t :: t in threads && t !in old(threads) ==> threads[t] == ThreadRowOf(e)
    {
      if e.threadId.None? { return; }
      var threadId := e.threadId.value;
      if threadId !in threads {
        var m := e.metadata;
        threads := threads[threadId := ThreadRow(
          e.runId, e.specId, m.title.GetOr(DEFAULT_TITLE), m.status.GetOr(OPEN), m.kind.GetOr(GENERAL), m.text,
          e.emittedAt, e.emittedAt)];
      }
    }

    method IngestRemoteMessage(e: BusEvent, classify: Classifier)
      requires e.kind.MessageAppended?
      modifies this
      ensures Rows() == Ingested(old(Rows()), e, classify)
    {
      if e.threadId.None? || e.messageId.None? { return; }
      var threadId, messageId := e.threadId.value, e.messageId.value;
      IngestRemoteThread(e);
      FirstRowWins(old(threads), threads, e);
      messages := InsertOrIgnore(messages, messageId, MessageRowOf(e, threadId));
      threads := threads[threadId := threads[threadId].(updatedAt := e.emittedAt)];
      CaptureMemoryCandidate(e, classify);
    }

    method CaptureMemoryCandidate(e: BusEvent, classify: Classifier)
      modifies this`candidates
      ensures candidates == WithCandidate(old(candidates), e, classify)
    {
      if !e.kind.MessageAppended? || e.messageId.None? { return; }
      if Trim(ContentOf(e), Whitespace) == "" { return; }
      var id := CandidateId(e.messageId.value);
      if id !in candidates && !SourceTaken(candidates, e.eventId) {
        candidates := candidates[id := CandidateRowOf(e, classify)];
      }
    }

    /** The UPDATE has no guard on the row's current status; values that are not given stay as they were. */
    method UpdateMemoryCandidateProcessing(id: string, status: Status, distilled: Option<string>,
                                           openbrainRef: Option<string>, dedupeKey: Option<string>,
                                           contract: Option<string>, now: int)
      modifies this`candidates
      ensures candidates.Keys == old(candidates).Keys
      ensures forall other :: other in candidates && other != id ==> candidates[other] == old(candidates)[other]
      ensures id in candidates ==>
                var before, after := old(candidates)[id], candidates[id];
                && after.status == status && after.processedAt == Some(now) && SameOrigin(before, after)
                && Coalesced(before.distilled, distilled, after.distilled)
                && Coalesced(before.openbrainRef, openbrainRef, after.openbrainRef)
                && Coalesced(before.dedupeKey, dedupeKey, after.dedupeKey)
                && Coalesced(before.contract, contract, after.contract)
    {
      if id in candidates {
        var row := Processed(candidates[id], status, distilled, openbrainRef, dedupeKey, contract, now);
        candidates := candidates[id := row];
      }
    }

    method MarkNeedsReconsolidation(target: string, trigger: string, reconsolidated: Option<string> -> string, now: int)
        returns (updated: bool)
      modifies this`candidates
      ensures updated <==> target != trigger && target in old(candidates) && Settled(old(candidates)[target].status)
      ensures updated ==>
                candidates == old(candidates)[target := Marked(old(candidates)[target], reconsolidated, now)]
      ensures !updated ==> candidates == old(candidates)
    {
      if target == trigger || target !in candidates { return false; }
      updated := Settled(candidates[target].status);
      if updated {
        candidates := candidates[target := Marked(candidates[target], reconsolidated, now)];
      }
    }

    /** An approved candidate is listed again, and nothing marks it as sensitive any more. */
    method ApproveForProcessing(runId: string, id: string) returns (approved: bool)
      modifies this`candidates
      ensures approved <==>
              id in old(candidates) && OfRun(old(candidates)[id], runId) && Approvable(old(candidates)[id].status)
      ensures !approved ==> candidates == old(candidates)
      ensures candidates.Keys == old(candidates).Keys
      ensures forall other :: other in candidates && other != id ==> candidates[other] == old(candidates)[other]
      ensures approved ==>
                var before, after := old(candidates)[id], candidates[id];
                && after.status.Pending? && after.sensitivity == NORMAL && after.processedAt.None?
                && SameTexts(before, after) && after.source == before.source
                && after.retention == before.retention && after.intent == before.intent
    {
      approved := id in candidates && candidates[id].source.runId == Some(runId) && Approvable(candidates[id].status);
      if approved {
        candidates := candidates[id := candidates[id].(status := Pending, sensitivity := NORMAL, processedAt := None)];
      }
    }

    /** Only what was already captured or promoted is safe from the operator. */
    method DiscardCandidate(runId: string, id: string, now: int) returns (discarded: bool)
      modifies this`candidates
      ensures discarded <==>
              id in old(candidates) && OfRun(old(candidates)[id], runId) && Discardable(old(candidates)[id].status)
      ensures !discarded ==> candidates == old(candidates)
      ensures candidates.Keys == old(candidates).Keys
      ensures forall other :: other in candidates && other != id ==> candidates[other] == old(candidates)[other]
      ensures discarded ==>
                var before, after := old(candidates)[id], candidates[id];
                && after.status.Discarded? && after.processedAt == Some(now)
                && SameTexts(before, after) && SameOrigin(before, after)
    {
      discarded := id in candidates && candidates[id].source.runId == Some(runId) && Discardable(candidates[id].status);
      if discarded {
        candidates := candidates[id := candidates[id].(status := Discarded, processedAt := Some(now))];
      }
    }
  }

  function Marked(row: CandidateRow, reconsolidated: Option<string> -> string, now: int): CandidateRow {
    row.(status := NeedsReconsolidation, contract := Some(reconsolidated(row.contract)), processedAt := Some(now))
  }

  function Approved(row: CandidateRow): CandidateRow {
    row.(status := Pending, sensitivity := NORMAL, processedAt := None)
  }

  function DiscardedRow(row: CandidateRow, now: int): CandidateRow {
    row.(status := Discarded, processedAt := Some(now))
  }
}
