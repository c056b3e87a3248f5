/** The durable write queue in front of the Calvin archive: its rows, its marks and one drain. */
module WriteQueue {
  import opened Basics
  import opened Sorting

  const BATCH_LIMIT := 25
  const I64_MAX := 0x7FFF_FFFF_FFFF_FFFF
  const INVALID_ROW := "invalid queue row"

  datatype Status = Pending | RetryPending | Confirmed

  /** A row of calvin_write_queue; its queue_id is its position in the table. */
  datatype Row = Row(
    request: string, decodes: bool, status: Status, attempts: int, nextAttemptAt: int, lastError: Option<string>,
    createdAt: int, updatedAt: int, confirmedAt: Option<int>)

  /** A row as the drain's query returned it. */
  datatype Listed = Listed(id: nat, row: Row)

  /** What one listed row meets: the answer to the send, whether the mark was saved, and the clock at the mark. */
  datatype Answer = Answer(error: Option<string>, saved: bool, at: int)

  /**
   History kept for the proofs: every send with its outcome and whether that was written to the row, and every row
   that could not be sent.
   */
  datatype Event = Sent(id: nat, accepted: bool, recorded: bool) | Unsendable(id: nat, recorded: bool)

  datatype Queue = Queue(rows: seq<Row>, log: seq<Event>)

  function NewRow(request: string, now: int): Row {
    Row(request, true, Pending, 0, now, None, now, now, None)
  }

  function Enqueued(q: Queue, request: string, now: int): Queue {
    q.(rows := q.rows + [NewRow(request, now)])
  }

  function Pow2(n: nat): nat { if n == 0 then 1 else 2 * Pow2(n - 1) }

  function RetryDelay(attempts: int): int { Pow2(Max(1, Min(attempts, 6))) }

  /** The delays in seconds, one by one. */
  function DelayFor(attempts: int): int {
    if attempts <= 1 then 2 else if attempts == 2 then 4 else if attempts == 3 then 8
    else if attempts == 4 then 16 else if attempts == 5 then 32 else 64
  }

  lemma DelayTable(attempts: int)
    ensures RetryDelay(attempts) == DelayFor(attempts)
  {
    assert Pow2(2) == 4 && Pow2(4) == 16 && Pow2(6) == 64;
  }

  function ConfirmedRow(row: Row, at: int): Row {
    row.(status := Confirmed, updatedAt := at, confirmedAt := Some(at), lastError := None)
  }

  /** The attempts are the ones the drain listed, not the ones now in the row. */
  function RetriedRow(row: Row, listedAttempts: int, error: string, at: int): Row {
    var attempts := Min(listedAttempts + 1, I64_MAX);
    row.(status := RetryPending, attempts := attempts, nextAttemptAt := at + RetryDelay(attempts),
         lastError := Some(error), updatedAt := at)
  }

  function Failure(l: Listed, a: Answer): Option<string> {
    if l.row.decodes then a.error else Some(INVALID_ROW)
  }

  function Marked(row: Row, l: Listed, a: Answer): Row {
    match Failure(l, a)
    case None => ConfirmedRow(row, a.at)
    case Some(error) => RetriedRow(row, l.row.attempts, error, a.at)
  }

  /** One turn of the drain loop: send, then mark; neither mark looks at the row's present status. */
  function Settled(q: Queue, l: Listed, a: Answer): Queue {
    if l.id >= |q.rows| then q
    else
      Queue(
        if a.saved then q.rows[l.id := Marked(q.rows[l.id], l, a)] else q.rows,
        q.log + [if l.row.decodes then Sent(l.id, a.error.None?, a.saved) else Unsendable(l.id, a.saved)])
  }

  /** One turn: the listed row is confirmed if its send was accepted, and tried again later if it was not. */
  lemma SettledMeans(q: Queue, l: Listed, a: Answer)
    requires l.id < |q.rows|
    ensures var after := Settled(q, l, a).rows;
            && |after| == |q.rows| && (forall k :: 0 <= k < |after| && k != l.id ==> after[k] == q.rows[k])
            && (!a.saved ==> after == q.rows)
            && (a.saved ==>
                  && (after[l.id].status == if l.row.decodes && a.error.None? then Confirmed else RetryPending)
                  && (l.row.decodes && a.error.None? ==>
                        && after[l.id].confirmedAt == Some(a.at) && after[l.id].lastError.None?
                        && after[l.id].attempts == q.rows[l.id].attempts)
                  && (l.row.decodes && a.error.Some? ==> after[l.id].lastError == a.error)
                  && (!l.row.decodes ==> after[l.id].lastError == Some("invalid queue row"))
                  && after[l.id].updatedAt == a.at)
  {
  }

  // The batch a drain loads

  predicate Unconfirmed(row: Row) { !row.status.Confirmed? }

  predicate Due(row: Row, now: int) { Unconfirmed(row) && row.nextAttemptAt <= now }

  function DueRows(rows: seq<Row>, now: int): seq<Listed> {
    if rows == [] then []
    else
      var k := |rows| - 1;
      DueRows(rows[..k], now) + if Due(rows[k], now) then [Listed(k, rows[k])] else []
  }

  predicate OlderFirst(a: Listed, b: Listed) { a.row.createdAt <= b.row.createdAt }

  function Batch(rows: seq<Row>, now: int): seq<Listed> {
    TopK(DueRows(rows, now), BATCH_LIMIT, OlderFirst)
  }

  /** Settles the batch in order and gives up at the first mark that cannot be saved. */
  function Drained(q: Queue, batch: seq<Listed>, answers: nat -> Answer): Queue
    decreases batch
  {
    if batch == [] then q
    else
      var a := answers(batch[0].id);
      var q' := Settled(q, batch[0], a);
      if a.saved then Drained(q', batch[1..], answers) else q'
  }

  function ConfirmedBy(batch: seq<Listed>, answers: nat -> Answer): nat {
    if batch == [] then 0
    else (if Failure(batch[0], answers(batch[0].id)).None? then 1 else 0) + ConfirmedBy(batch[1..], answers)
  }

  class DurableQueue {
    var rows: seq<Row>
    ghost var log: seq<Event>

    ghost function Value(): Queue
      reads this
    {
      Queue(rows, log)
    }

    constructor ()
      ensures Value() == Queue([], [])
    {
      rows := [];
      log := [];
    }

    /** The rows before stay as they are; the new one waits at the end, due at once and never tried. */
    method Enqueue(request: string, now: int)
      modifies this`rows
      ensures |rows| == |old(rows)| + 1 && rows[..|old(rows)|] == old(rows)
      ensures var row := rows[|old(rows)|];
              && row.request == request && row.decodes && row.status.Pending? && row.attempts == 0
              && row.createdAt == row.updatedAt == row.nextAttemptAt == now && Due(row, now)
              && row.lastError.None? && row.confirmedAt.None?
      ensures Value() == Enqueued(old(Value()), request, now)
    {
      rows := rows + [NewRow(request, now)];
    }

    /** Confirms the row, whatever it was, and touches nothing a later retry would have to know. */
    method MarkConfirmed(id: nat, at: int)
      modifies this`rows
      ensures |rows| == |old(rows)| && forall k :: 0 <= k < |rows| && k != id ==> rows[k] == old(rows)[k]
      ensures id < |rows| ==>
                var before, row := old(rows)[id], rows[id];
                && row.status.Confirmed? && row.confirmedAt == Some(at) && row.updatedAt == at && row.lastError.None?
                && row.request == before.request && row.decodes == before.decodes && row.createdAt == before.createdAt
                && row.attempts == before.attempts && row.nextAttemptAt == before.nextAttemptAt
    {
      if id < |rows| {
        rows := rows[id := rows[id].(status := Confirmed, updatedAt := at, confirmedAt := Some(at), lastError := None)];
      }
    }

    method MarkRetry(id: nat, attempts: int, error: string, at: int)
      modifies this`rows
      ensures rows == if id >= |old(rows)| then old(rows)
                      else old(rows)[id := RetriedRow(old(rows)[id], attempts, error, at)]
      ensures id < |rows| ==>
                var before, row := old(rows)[id], rows[id];
                && row.status.RetryPending? && row.lastError == Some(error) && row.updatedAt == at
                && row.attempts == (if attempts < 0x7FFF_FFFF_FFFF_FFFF then attempts + 1 else 0x7FFF_FFFF_FFFF_FFFF)
                && row.nextAttemptAt == at + DelayFor(row.attempts)
                && row.request == before.request && row.decodes == before.decodes
                && row.createdAt == before.createdAt && row.confirmedAt == before.confirmedAt
    {
      var nextAttempts := if attempts < I64_MAX then attempts + 1 else I64_MAX;
      var delay := RetryDelay(nextAttempts);
      DelayTable(nextAttempts);
      if id < |rows| {
        rows := rows[id := rows[id].(status := RetryPending, attempts := nextAttempts, nextAttemptAt := at + delay,
                                     lastError := Some(error), updatedAt := at)];
      }
    }

    /** The body of the drain loop; `confirmed` says whether the write counts as processed. */
    method SettleOne(l: Listed, a: Answer) returns (confirmed: bool)
      requires l.id < |rows|
      modifies this
      ensures Value() == Settled(old(Value()), l, a)
      ensures confirmed <==> a.saved && Failure(l, a).None?
    {
      confirmed := false;
      if !l.row.decodes {
        log := log + [Unsendable(l.id, a.saved)];
        if a.saved { MarkRetry(l.id, l.row.attempts, INVALID_ROW, a.at); }
        return;
      }
      log := log + [Sent(l.id, a.error.None?, a.saved)];
      if a.error.None? {
        if a.saved {
          MarkConfirmed(l.id, a.at);
          confirmed := true;
        }
      } else if a.saved {
        MarkRetry(l.id, l.row.attempts, a.error.value, a.at);
      }
    }

    /** One drain. It fails when a mark cannot be saved, and otherwise reports how many rows it confirmed. */
    method DrainOnce(now: int, answers: nat -> Answer) returns (processed: Option<nat>)
      modifies this
      ensures Value() == Drained(old(Value()), Batch(old(rows), now), answers)
      ensures processed == if forall l <- Batch(old(rows), now) :: answers(l.id).saved
                           then Some(ConfirmedBy(Batch(old(rows), now), answers)) else None
    {
      var batch := Batch(rows, now);
      BatchIsDue(rows, now);
      ghost var start := Value();
      var count, i := 0, 0;
      while i < |batch|
        invariant 0 <= i <= |batch| && |rows| == |start.rows|
        invariant Drained(start, batch, answers) == Drained(Value(), batch[i..], answers)
        invariant forall k :: 0 <= k < i ==> answers(batch[k].id).saved
        invariant count + ConfirmedBy(batch[i..], answers) == ConfirmedBy(batch, answers)
      {
        assert batch[i..][0] == batch[i] && batch[i..][1..] == batch[i + 1..];
        var confirmed := SettleOne(batch[i], answers(batch[i].id));
        if !answers(batch[i].id).saved { return None; }
        count := count + if confirmed then 1 else 0;
        i := i + 1;
      }
      return Some(count);
    }
  }

  // What a batch is

  lemma {:induction false} DueRowsAreDue(rows: seq<Row>, now: int)
    ensures forall l :: l in DueRows(rows, now) <==> l.id < |rows| && l.row == rows[l.id] && Due(l.row, now)
    ensures Distinct(DueRows(rows, now))
  {
    if rows != [] {
      DueRowsAreDue(rows[..|rows| - 1], now);
    }
  }

  /** The rows of a batch are current, due and different from one another. */
  ghost predicate Current(rows: seq<Row>, batch: seq<Listed>) {
    && (forall l <- batch :: l.id < |rows| && rows[l.id] == l.row && Unconfirmed(l.row))
    && (forall i, j :: 0 <= i < j < |batch| ==> batch[i].id != batch[j].id)
  }

  lemma BatchIsDue(rows: seq<Row>, now: int)
    ensures Current(rows, Batch(rows, now))
    ensures forall l <- Batch(rows, now) :: l.row.status != Confirmed && l.row.nextAttemptAt <= now
    ensures |Batch(rows, now)| == Min(|DueRows(rows, now)|, BATCH_LIMIT)
    ensures Sorting.SortedBy(Batch(rows, now), OlderFirst)
  {
    var due := DueRows(rows, now);
    var sorted := Sort(due, OlderFirst);
    DueRowsAreDue(rows, now);
    SortKeepsDistinct(due, OlderFirst);
    SortKeepsElements(due, OlderFirst);
    SortSorts(due, OlderFirst);
    forall l | l in sorted ensures l in due {
      SortedMembership(due, OlderFirst, l);
    }
  }

  /** Every due row left out of the batch is at least as young as every row in it. */
  lemma BatchIsOldest(rows: seq<Row>, now: int, id: nat)
    requires id < |rows| && rows[id].status != Confirmed && rows[id].nextAttemptAt <= now
    requires Listed(id, rows[id]) !in Batch(rows, now)
    ensures |Batch(rows, now)| == 25
    ensures forall l <- Batch(rows, now) :: l.row.createdAt <= rows[id].createdAt
  {
    var due, l := DueRows(rows, now), Listed(id, rows[id]);
    DueRowsAreDue(rows, now);
    TopKIsBest(due, BATCH_LIMIT, OlderFirst);
    assert l in multiset(due);
    assert l in multiset(Omitted(due, BATCH_LIMIT, OlderFirst));
    assert forall older <- TopK(due, BATCH_LIMIT, OlderFirst) :: OlderFirst(older, l);
  }
}
