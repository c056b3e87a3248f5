/** Replaying bus events into the replica. */
module PackChatReplay {
  import opened Basics
  import opened Text
  import opened PackChat
  import Retrieval

  function Replayed(s: Store, log: seq<BusEvent>, classify: Classifier): Store {
    if log == [] then s
    else Ingested(Replayed(s, log[..|log| - 1], classify), log[|log| - 1], classify)
  }

  /** Everything the event inserts is already there, or shut out by a row that is. */
  ghost predicate Absorbed(s: Store, e: BusEvent) {
    && (OpensThread(e) || Appends(e) ==> e.threadId.value in s.threads)
    && (Appends(e) ==>
          && e.messageId.value in s.messages
          && (Captures(e) ==> CandidateId(e.messageId.value) in s.candidates || SourceTaken(s.candidates, e.eventId)))
  }

  /** Rows are never removed and candidates keep their source, as every operation on the store does. */
  ghost predicate Grows(s: Store, s': Store) {
    && s.threads.Keys <= s'.threads.Keys && s.messages.Keys <= s'.messages.Keys
    && (forall id :: id in s.messages ==> s'.messages[id] == s.messages[id])
    && (forall id :: id in s.candidates ==> id in s'.candidates && s'.candidates[id].source == s.candidates[id].source)
  }

  lemma IngestGrows(s: Store, e: BusEvent, classify: Classifier)
    ensures Grows(s, Ingested(s, e, classify)) && Absorbed(Ingested(s, e, classify), e)
    ensures forall id :: id in s.candidates ==> Ingested(s, e, classify).candidates[id] == s.candidates[id]
  {
    if Appends(e) && Captures(e) {
      var after := Ingested(s, e, classify).candidates;
      if SourceTaken(s.candidates, e.eventId) {
        var id :| id in s.candidates && s.candidates[id].source.eventId == e.eventId;
        assert id in after;
      }
    }
  }

  lemma AbsorbedStays(s: Store, s': Store, e: BusEvent)
    requires Grows(s, s') && Absorbed(s, e)
    ensures Absorbed(s', e)
  {
    if SourceTaken(s.candidates, e.eventId) {
      var id :| id in s.candidates && s.candidates[id].source.eventId == e.eventId;
      assert id in s'.candidates;
    }
  }

  /** All that an absorbed event still changes is its thread's updated_at. */
  lemma IngestOfAbsorbed(s: Store, e: BusEvent, classify: Classifier)
    requires Absorbed(s, e)
    ensures Ingested(s, e, classify) ==
            if Appends(e) then
              s.(threads := s.threads[e.threadId.value := s.threads[e.threadId.value].(updatedAt := e.emittedAt)])
            else s
  {
  }

  lemma {:induction false} ReplayAbsorbs(s: Store, log: seq<BusEvent>, classify: Classifier)
    ensures forall e :: e in log ==> Absorbed(Replayed(s, log, classify), e)
  {
    if log != [] {
      var init, last := log[..|log| - 1], log[|log| - 1];
      var before := Replayed(s, init, classify);
      assert log == init + [last];
      ReplayAbsorbs(s, init, classify);
      IngestGrows(before, last, classify);
      forall e | e in init ensures Absorbed(Replayed(s, log, classify), e) {
        AbsorbedStays(before, Replayed(s, log, classify), e);
      }
    }
  }

  // updated_at

  /** The event appends a message, and says which one and to which thread. */
  predicate AppendsTo(e: BusEvent, thread: string) {
    e.kind.MessageAppended? && e.threadId == Some(thread) && e.messageId.Some?
  }

  /** When the log last appended a message to the thread. */
  function LastTouch(log: seq<BusEvent>, thread: string): Option<int> {
    if log == [] then None
    else
      var last := log[|log| - 1];
      if AppendsTo(last, thread) then Some(last.emittedAt) else LastTouch(log[..|log| - 1], thread)
  }

  lemma {:induction false} UpdatedAtLastTouch(s: Store, log: seq<BusEvent>, classify: Classifier, thread: string)
    requires LastTouch(log, thread).Some?
    ensures thread in Replayed(s, log, classify).threads
    ensures Replayed(s, log, classify).threads[thread].updatedAt == LastTouch(log, thread).value
  {
    var last := log[|log| - 1];
    if !(Appends(last) && last.threadId == Some(thread)) {
      UpdatedAtLastTouch(s, log[..|log| - 1], classify, thread);
    }
  }

  function WithTouches(row: ThreadRow, touch: Option<int>): ThreadRow { row.(updatedAt := touch.GetOr(row.updatedAt)) }

  /** Replaying absorbed events rewrites updated_at to the segment's last touch and nothing else. */
  lemma {:induction false} ReplayOfAbsorbed(s: Store, seg: seq<BusEvent>, classify: Classifier)
    requires forall e :: e in seg ==> Absorbed(s, e)
    ensures var r := Replayed(s, seg, classify);
            && r.messages == s.messages && r.candidates == s.candidates && r.threads.Keys == s.threads.Keys
            && forall t :: t in s.threads ==> r.threads[t] == WithTouches(s.threads[t], LastTouch(seg, t))
  {
    if seg != [] {
      var init, last := seg[..|seg| - 1], seg[|seg| - 1];
      assert seg == init + [last];
      ReplayOfAbsorbed(s, init, classify);
      var before := Replayed(s, init, classify);
      assert Grows(s, before);
      AbsorbedStays(s, before, last);
      IngestOfAbsorbed(before, last, classify);
    }
  }

  /**
   Replaying any events of an already ingested log changes no message, no candidate and no thread
   but for updated_at; and it changes nothing at all exactly when, for every thread it touches,
   its last touch is the log's last touch.
   */
  lemma SegmentReplay(s: Store, log: seq<BusEvent>, seg: seq<BusEvent>, classify: Classifier)
    requires forall e :: e in seg ==> e in log
    ensures var once := Replayed(s, log, classify);
            var again := Replayed(once, seg, classify);
            && again.messages == once.messages && again.candidates == once.candidates
            && again.threads.Keys == once.threads.Keys
            && (forall t :: t in once.threads ==> again.threads[t] == WithTouches(once.threads[t], LastTouch(seg, t)))
            && (again == once <==> forall t :: LastTouch(seg, t).Some? ==> LastTouch(seg, t) == LastTouch(log, t))
  {
    var once := Replayed(s, log, classify);
    var again := Replayed(once, seg, classify);
    ReplayAbsorbs(s, log, classify);
    ReplayOfAbsorbed(once, seg, classify);
    forall t | LastTouch(seg, t).Some?
      ensures t in once.threads && LastTouch(log, t) == Some(once.threads[t].updatedAt)
    {
      TouchedInLog(log, seg, t);
      UpdatedAtLastTouch(s, log, classify, t);
    }
    if forall t :: LastTouch(seg, t).Some? ==> LastTouch(seg, t) == LastTouch(log, t) {
      forall t | t in once.threads ensures again.threads[t] == once.threads[t] {}
      assert again.threads == once.threads;
    }
  }

  lemma {:induction false} TouchedInLog(log: seq<BusEvent>, seg: seq<BusEvent>, t: string)
    requires (forall e :: e in seg ==> e in log) && LastTouch(seg, t).Some?
    ensures LastTouch(log, t).Some?
  {
    var last := seg[|seg| - 1];
    assert last in log;
    if Appends(last) && last.threadId == Some(t) {
      TouchOf(log, last, t);
    } else {
      TouchedInLog(log, seg[..|seg| - 1], t);
    }
  }

  lemma {:induction false} TouchOf(log: seq<BusEvent>, e: BusEvent, t: string)
    requires e in log && Appends(e) && e.threadId == Some(t)
    ensures LastTouch(log, t).Some?
  {
    var init, last := log[..|log| - 1], log[|log| - 1];
    assert log == init + [last];
    if last != e { TouchOf(init, e, t); }
  }

  lemma {:induction false} LastTouchOfSuffix(a: seq<BusEvent>, b: seq<BusEvent>, t: string)
    ensures LastTouch(a + b, t) == LastTouch(b, t).Or(LastTouch(a, t))
  {
    if b == [] {
      assert a + b == a;
    } else {
      assert (a + b)[..|a + b| - 1] == a + b[..|b| - 1];
      LastTouchOfSuffix(a, b[..|b| - 1], t);
    }
  }

  /** The documented promise: replaying a log, and then any suffix of it, is replaying it once. */
  lemma SuffixReplayIsIdempotent(s: Store, a: seq<BusEvent>, b: seq<BusEvent>, classify: Classifier)
    ensures Replayed(Replayed(s, a + b, classify), b, classify) == Replayed(s, a + b, classify)
  {
    forall t | LastTouch(b, t).Some? ensures LastTouch(b, t) == LastTouch(a + b, t) {
      LastTouchOfSuffix(a, b, t);
    }
    SegmentReplay(s, a + b, b, classify);
  }

  /** Redelivering only the first of two messages to a thread turns its updated_at back. */
  lemma PrefixReplayTurnsBack(s: Store, e1: BusEvent, e2: BusEvent, classify: Classifier)
    requires Appends(e1) && Appends(e2) && e1.threadId == e2.threadId && e1.emittedAt != e2.emittedAt
    ensures var once := Replayed(s, [e1, e2], classify);
            Replayed(once, [e1], classify) != once
  {
    var t := e1.threadId.value;
    assert [e1][..0] == [] && [e1, e2][..1] == [e1];
    assert LastTouch([e1], t) == Some(e1.emittedAt) && LastTouch([e1, e2], t) == Some(e2.emittedAt);
    SegmentReplay(s, [e1, e2], [e1], classify);
  }

  // Whose row it is

  predicate Names(e: BusEvent, thread: string) {
    e.threadId == Some(thread) && (e.kind.ThreadOpened? || e.kind.ThreadRosterSynced? || AppendsTo(e, thread))
  }

  /** The first event of the log that names the thread. */
  function Founder(log: seq<BusEvent>, thread: string): Option<BusEvent> {
    if log == [] then None
    else
      Founder(log[..|log| - 1], thread).Or(if Names(log[|log| - 1], thread) then Some(log[|log| - 1]) else None)
  }

  /** A thread's row as the event that founds it describes it. */
  predicate FoundedBy(row: ThreadRow, e: BusEvent) {
    && row.runId == e.runId && row.specId == e.specId && row.createdAt == e.emittedAt
    && row.title == (if e.metadata.title.Some? then e.metadata.title.value else "Remote PackChat thread")
    && row.status == (if e.metadata.status.Some? then e.metadata.status.value else "open")
    && row.kind == (if e.metadata.kind.Some? then e.metadata.kind.value else "general")
    && row.metadata == e.metadata.text
  }

  /**
   The thread table after any log: a thread is there if it was or if an event names it. Its row is the one it had,
   or as the first event that names it describes it; and updated_at is the time of its last message, if it has any.
   */
  lemma {:induction false} ThreadsAfterReplay(s: Store, log: seq<BusEvent>, classify: Classifier, thread: string)
    ensures var after := Replayed(s, log, classify).threads;
            var founder, touch := Founder(log, thread), LastTouch(log, thread);
            && (thread in after <==> thread in s.threads || founder.Some?)
            && (touch.Some? ==> thread in after && after[thread].updatedAt == touch.value)
            && (thread in s.threads ==>
                  && after[thread] == s.threads[thread].(updatedAt := after[thread].updatedAt)
                  && (touch.None? ==> after[thread] == s.threads[thread]))
            && (thread in after && thread !in s.threads ==>
                  && FoundedBy(after[thread], founder.value)
                  && (touch.None? ==> after[thread].updatedAt == founder.value.emittedAt))
  {
    if log != [] {
      var init := log[..|log| - 1];
      ThreadsAfterReplay(s, init, classify, thread);
    }
  }

  /** The first event of the log that appends the message. */
  function Author(log: seq<BusEvent>, message: string): Option<BusEvent> {
    if log == [] then None
    else
      var last := log[|log| - 1];
      var own := if last.threadId.Some? && AppendsTo(last, last.threadId.value) && last.messageId == Some(message)
                 then Some(last) else None;
      Author(log[..|log| - 1], message).Or(own)
  }

  /** A message's row as the event that appends it describes it. */
  predicate WrittenBy(row: MessageRow, e: BusEvent) {
    && e.threadId == Some(row.threadId) && row.agent == e.agent && row.runtimeId == e.runtimeId
    && row.role == (if e.role.Some? then e.role.value else "system")
    && row.content == (if e.content.Some? then e.content.value else e.contentPreview)
    && row.checkpointId == e.checkpointId && row.createdAt == e.emittedAt
  }

  /** The message table after any log: each message as it was, or as the first event that appends it describes it. */
  lemma {:induction false} MessagesAfterReplay(s: Store, log: seq<BusEvent>, classify: Classifier, message: string)
    ensures var after, author := Replayed(s, log, classify).messages, Author(log, message);
            && (message in after <==> message in s.messages || author.Some?)
            && (message in s.messages ==> after[message] == s.messages[message])
            && (message in after && message !in s.messages ==> WrittenBy(after[message], author.value))
  {
    if log != [] { MessagesAfterReplay(s, log[..|log| - 1], classify, message); }
  }

  // Whose candidate it is

  /** The event appends a message that is not blank. */
  predicate Remembers(e: BusEvent) {
    && e.threadId.Some? && AppendsTo(e, e.threadId.value)
    && Trim(if e.content.Some? then e.content.value else e.contentPreview, Whitespace) != ""
  }

  /** A candidate as it is first captured: classified, keyed by its content, and nothing done with it yet. */
  predicate CapturedFrom(row: CandidateRow, e: BusEvent, classify: Classifier) {
    && row.source == e && row.status.Pending?
    && row.dedupeKey == Some(Retrieval.DedupeKey(if e.content.Some? then e.content.value else e.contentPreview))
    && Classification(row.retention, row.intent, row.sensitivity, row.contract) == classify(e)
    && row.distilled.None? && row.openbrainRef.None? && row.processedAt.None?
  }

  ghost predicate SourcesApart(s: Store) {
    forall a, b :: a in s.candidates && b in s.candidates && a != b ==>
      s.candidates[a].source.eventId != s.candidates[b].source.eventId
  }

  lemma OneCapture(s: Store, e: BusEvent, classify: Classifier, id: string)
    ensures id in s.candidates ==>
              id in Ingested(s, e, classify).candidates && Ingested(s, e, classify).candidates[id] == s.candidates[id]
    ensures id in Ingested(s, e, classify).candidates && id !in s.candidates ==>
              && Remembers(e) && id == "memcand-" + e.messageId.value
              && CapturedFrom(Ingested(s, e, classify).candidates[id], e, classify)
    ensures SourcesApart(s) ==> SourcesApart(Ingested(s, e, classify))
  {
  }

  /**
   The candidate table after any log. Candidates that were there stay as they were; a new one was captured from an
   event of the log, under that message's id; every event that has something to remember has a candidate, its own or
   one with its message's id; and no two candidates come from one event.
   */
  lemma {:induction false} CandidatesAfterReplay(s: Store, log: seq<BusEvent>, classify: Classifier, id: string)
    ensures var after := Replayed(s, log, classify).candidates;
            && (id in s.candidates ==> id in after && after[id] == s.candidates[id])
            && (id in after && id !in s.candidates ==>
                  exists e :: e in log && Remembers(e) && id == "memcand-" + e.messageId.value
                              && CapturedFrom(after[id], e, classify))
            && (forall e :: e in log && Remembers(e) ==>
                  || "memcand-" + e.messageId.value in after
                  || exists other :: other in after && after[other].source.eventId == e.eventId)
    ensures SourcesApart(s) ==> SourcesApart(Replayed(s, log, classify))
  {
    ReplayAbsorbs(s, log, classify);
    if log != [] {
      var init, last := log[..|log| - 1], log[|log| - 1];
      assert log == init + [last];
      CandidatesAfterReplay(s, init, classify, id);
      OneCapture(Replayed(s, init, classify), last, classify, id);
    }
    forall e | e in log && Remembers(e)
      ensures "memcand-" + e.messageId.value in Replayed(s, log, classify).candidates
              || SourceTaken(Replayed(s, log, classify).candidates, e.eventId)
    {
      assert Absorbed(Replayed(s, log, classify), e);
    }
  }
}
