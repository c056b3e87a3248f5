/** What the write queue keeps over every run of any number of workers, and over one batch at a time. */
module WriteQueueRuns {
  import opened Basics
  import Sorting
  import opened WriteQueue

  /** `batches` is what each worker loaded and has not settled yet. */
  datatype System = System(queue: Queue, batches: map<nat, seq<Listed>>) {
    function InFlight(worker: nat): seq<Listed> {
      if worker in batches then batches[worker] else []
    }
  }

  datatype Op =
    | Enqueue(request: string, now: int)
    | Load(worker: nat, now: int)
    | Settle(worker: nat, answer: Answer)
    | Stop(worker: nat)

  function Applied(s: System, op: Op): System {
    match op
    case Enqueue(request, now) => s.(queue := Enqueued(s.queue, request, now))
    case Load(w, now) => s.(batches := s.batches[w := Batch(s.queue.rows, now)])
    case Settle(w, a) =>
      if s.InFlight(w) == [] then s
      else
        System(Settled(s.queue, s.InFlight(w)[0], a),
               s.batches[w := if a.saved then s.InFlight(w)[1..] else []])
    case Stop(w) => s.(batches := s.batches[w := []])
  }

  function After(s: System, ops: seq<Op>): System
    decreases ops
  {
    if ops == [] then s else After(Applied(s, ops[0]), ops[1..])
  }

  function Enqueues(ops: seq<Op>): nat {
    if ops == [] then 0 else (if ops[0].Enqueue? then 1 else 0) + Enqueues(ops[1..])
  }

  // No row is lost

  function CountOf(rows: seq<Row>, status: Status): nat {
    if rows == [] then 0
    else CountOf(rows[..|rows| - 1], status) + if rows[|rows| - 1].status == status then 1 else 0
  }

  lemma {:induction false} StatusesPartition(rows: seq<Row>)
    ensures CountOf(rows, Pending) + CountOf(rows, RetryPending) + CountOf(rows, Confirmed) == |rows|
  {
    if rows != [] { StatusesPartition(rows[..|rows| - 1]); }
  }

  /** Later rows extend earlier ones and never change what was asked for or when. */
  ghost predicate Extends(before: seq<Row>, after: seq<Row>) {
    && |before| <= |after|
    && forall id :: 0 <= id < |before| ==>
         && after[id].request == before[id].request && after[id].decodes == before[id].decodes
         && after[id].createdAt == before[id].createdAt
  }

  /** Over every run, pending + retry_pending + confirmed grows by exactly the number of enqueues. */
  lemma {:induction false} NoRowIsLost(s: System, ops: seq<Op>)
    ensures var rows := After(s, ops).queue.rows;
            && Extends(s.queue.rows, rows)
            && CountOf(rows, Pending) + CountOf(rows, RetryPending) + CountOf(rows, Confirmed)
               == |s.queue.rows| + Enqueues(ops)
    decreases ops
  {
    if ops == [] {
      StatusesPartition(s.queue.rows);
    } else {
      NoRowIsLost(Applied(s, ops[0]), ops[1..]);
    }
  }

  /** A send the archive accepted, recorded in the row. */
  function Accepted(id: nat): Event { Sent(id, true, true) }

  /** How often a failure was recorded in the row. */
  function Failures(id: nat, log: seq<Event>): nat {
    multiset(log)[Sent(id, false, true)] + multiset(log)[Unsendable(id, true)]
  }

  ghost predicate ConfirmedAreDelivered(q: Queue) {
    forall id :: 0 <= id < |q.rows| && q.rows[id].status.Confirmed? ==> Accepted(id) in q.log
  }

  /** Whatever the workers do, a confirmed row had a send the archive accepted. */
  lemma {:induction false} EveryConfirmationHadASend(s: System, ops: seq<Op>)
    requires ConfirmedAreDelivered(s.queue)
    ensures ConfirmedAreDelivered(After(s, ops).queue)
    decreases ops
  {
    if ops != [] {
      EveryConfirmationHadASend(Applied(s, ops[0]), ops[1..]);
    }
  }

  /** A confirmed row leaves that status in exactly one way: a worker that had listed it records a failure. */
  lemma ConfirmedLeavesExactlyWhen(s: System, op: Op, id: nat)
    requires id < |s.queue.rows| && s.queue.rows[id].status.Confirmed?
    ensures |Applied(s, op).queue.rows| >= |s.queue.rows|
    ensures !Applied(s, op).queue.rows[id].status.Confirmed? <==>
            && op.Settle? && s.InFlight(op.worker) != [] && s.InFlight(op.worker)[0].id == id
            && op.answer.saved && Failure(s.InFlight(op.worker)[0], op.answer).Some?
  {
  }

  /** Two workers that list the same row make that happen. */
  lemma TwoWorkersUnconfirm(rows: seq<Row>, now: int, error: string)
    requires |rows| == 1 && Due(rows[0], now) && rows[0].decodes
    ensures var s := System(Queue(rows, []), map[]);
            var ops := [Load(1, now), Load(2, now), Settle(1, Answer(None, true, now)),
                        Settle(2, Answer(Some(error), true, now))];
            && |After(s, ops[..3]).queue.rows| == |After(s, ops).queue.rows| == 1
            && After(s, ops[..3]).queue.rows[0].status.Confirmed?
            && After(s, ops).queue.rows[0].status.RetryPending?
  {
    var s := System(Queue(rows, []), map[]);
    var l := Listed(0, rows[0]);
    assert Batch(rows, now) == [l] by {
      assert DueRows(rows, now) == [l] by { assert DueRows(rows[..0], now) == []; }
      assert Sorting.Sort([l], OlderFirst) == [l];
    }
    var first, second := Settle(1, Answer(None, true, now)), Settle(2, Answer(Some(error), true, now));
    var ops := [Load(1, now), Load(2, now), first, second];
    var loaded := s.(batches := map[1 := [l], 2 := [l]]);
    AfterConcat(s, ops[..3], ops[3..]);
    AfterConcat(s, ops[..2], [first]);
    AfterConcat(s, ops[..1], [Load(2, now)]);
    assert ops[..3] == ops[..2] + [first] && ops[..2] == ops[..1] + [Load(2, now)] && ops == ops[..3] + ops[3..];
    assert After(s, ops[..2]) == loaded;
  }

  lemma {:induction false} AfterConcat(s: System, a: seq<Op>, b: seq<Op>)
    ensures After(s, a + b) == After(After(s, a), b)
    decreases a
  {
    if a == [] {
      assert a + b == b;
    } else {
      assert (a + b)[0] == a[0] && (a + b)[1..] == a[1..] + b;
      AfterConcat(Applied(s, a[0]), a[1..], b);
    }
  }

  // Runs in which a worker finds its rows as it listed them

  predicate Guarded(s: System, op: Op) {
    op.Settle? && s.InFlight(op.worker) != [] ==>
      var l := s.InFlight(op.worker)[0];
      l.id < |s.queue.rows| && s.queue.rows[l.id] == l.row && Unconfirmed(l.row)
  }

  predicate GuardedRun(s: System, ops: seq<Op>)
    decreases ops
  {
    ops == [] || (Guarded(s, ops[0]) && GuardedRun(Applied(s, ops[0]), ops[1..]))
  }

  /**
   The row agrees with the history: how often it failed, when it is due again, and the one delivery that was
   recorded.
   */
  ghost predicate RowAgrees(row: Row, id: nat, log: seq<Event>) {
    && row.attempts == Min(Failures(id, log), I64_MAX)
    && multiset(log)[Accepted(id)] == (if row.status.Confirmed? then 1 else 0)
    && row.decodes
    && match row.status {
         case Pending =>
           row.attempts == 0 && row.nextAttemptAt == row.createdAt == row.updatedAt && row.confirmedAt.None?
         case RetryPending => row.attempts >= 1 && row.nextAttemptAt == row.updatedAt + RetryDelay(row.attempts)
                              && row.lastError.Some? && row.confirmedAt.None?
         case Confirmed => row.confirmedAt == Some(row.updatedAt) && row.lastError.None?
       }
  }

  /** Once a delivery is recorded, nothing is ever sent for that row again: every send is in the log. */
  ghost predicate NothingAfterConfirmation(log: seq<Event>) {
    forall i, j :: 0 <= i < j < |log| ==> log[i] != Accepted(log[j].id)
  }

  ghost predicate Faithful(q: Queue) {
    && (forall id :: 0 <= id < |q.rows| ==> RowAgrees(q.rows[id], id, q.log))
    && (forall e <- q.log :: e.id < |q.rows|)
    && NothingAfterConfirmation(q.log)
  }

  lemma EnqueueIsFaithful(q: Queue, request: string, now: int)
    requires Faithful(q)
    ensures Faithful(Enqueued(q, request, now))
  {
    var n := |q.rows|;
    assert Sent(n, false, true) !in multiset(q.log) && Unsendable(n, true) !in multiset(q.log)
           && Accepted(n) !in multiset(q.log);
  }

  lemma LoggingKeepsOrder(q: Queue, e: Event)
    requires NothingAfterConfirmation(q.log) && Accepted(e.id) !in multiset(q.log)
    ensures NothingAfterConfirmation(q.log + [e])
  {
    assert forall x :: x in q.log ==> x in multiset(q.log);
  }

  lemma SettledRowAgrees(q: Queue, l: Listed, a: Answer, id: nat)
    requires l.id < |q.rows| && q.rows[l.id] == l.row && Unconfirmed(l.row)
    requires id < |q.rows| && RowAgrees(q.rows[id], id, q.log)
    ensures RowAgrees(Settled(q, l, a).rows[id], id, Settled(q, l, a).log)
  {
  }

  lemma SettleIsFaithful(q: Queue, l: Listed, a: Answer)
    requires Faithful(q) && l.id < |q.rows| && q.rows[l.id] == l.row && Unconfirmed(l.row)
    ensures Faithful(Settled(q, l, a))
  {
    var q' := Settled(q, l, a);
    assert RowAgrees(q.rows[l.id], l.id, q.log);
    LoggingKeepsOrder(q, q'.log[|q.log|]);
    forall id | 0 <= id < |q.rows| ensures RowAgrees(q'.rows[id], id, q'.log) {
      assert RowAgrees(q.rows[id], id, q.log);
      SettledRowAgrees(q, l, a, id);
    }
  }

  lemma {:induction false} GuardedRunIsFaithful(s: System, ops: seq<Op>)
    requires Faithful(s.queue) && GuardedRun(s, ops)
    ensures Faithful(After(s, ops).queue)
    decreases ops
  {
    if ops != [] {
      match ops[0] {
        case Enqueue(request, now) => EnqueueIsFaithful(s.queue, request, now);
        case Settle(w, a) => if s.InFlight(w) != [] { SettleIsFaithful(s.queue, s.InFlight(w)[0], a); }
        case _ =>
      }
      GuardedRunIsFaithful(Applied(s, ops[0]), ops[1..]);
    }
  }

  lemma {:induction false} ConfirmedIsFinal(s: System, ops: seq<Op>, id: nat)
    requires GuardedRun(s, ops) && id < |s.queue.rows| && s.queue.rows[id].status.Confirmed?
    ensures id < |After(s, ops).queue.rows| && After(s, ops).queue.rows[id].status.Confirmed?
    decreases ops
  {
    if ops != [] {
      ConfirmedLeavesExactlyWhen(s, ops[0], id);
      ConfirmedIsFinal(Applied(s, ops[0]), ops[1..], id);
    }
  }

  /**
   After a row is confirmed, no run in which workers find their rows as listed sends it again, with whatever outcome.
   */
  lemma {:induction false} NoSendAfterConfirmation(s: System, ops: seq<Op>, id: nat)
    requires GuardedRun(s, ops) && id < |s.queue.rows| && s.queue.rows[id].status.Confirmed?
    ensures var before, after := s.queue.log, After(s, ops).queue.log;
            before <= after && forall i :: |before| <= i < |after| ==> after[i].id != id
    decreases ops
  {
    if ops != [] {
      StepAfterConfirmation(s, ops[0], id);
      NoSendAfterConfirmation(Applied(s, ops[0]), ops[1..], id);
    }
  }

  lemma StepAfterConfirmation(s: System, op: Op, id: nat)
    requires Guarded(s, op) && id < |s.queue.rows| && s.queue.rows[id].status.Confirmed?
    ensures var before, after := s.queue, Applied(s, op).queue;
            && id < |after.rows| && after.rows[id].status.Confirmed?
            && before.log <= after.log && forall i :: |before.log| <= i < |after.log| ==> after.log[i].id != id
  {
  }

  // One batch at a time, as one process drains

  /** A drain starts only when no batch is unfinished. */
  ghost predicate OneAtATime(s: System, op: Op) {
    op.Load? ==> forall w <- s.batches :: s.batches[w] == []
  }

  ghost predicate SequentialRun(s: System, ops: seq<Op>)
    decreases ops
  {
    ops == [] || (OneAtATime(s, ops[0]) && SequentialRun(Applied(s, ops[0]), ops[1..]))
  }

  ghost predicate InStep(s: System) {
    && (forall v, w :: v in s.batches && w in s.batches && s.batches[v] != [] && s.batches[w] != [] ==> v == w)
    && (forall w <- s.batches :: Current(s.queue.rows, s.batches[w]))
  }

  lemma StaysInStep(s: System, op: Op)
    requires InStep(s) && OneAtATime(s, op)
    ensures Guarded(s, op) && InStep(Applied(s, op))
  {
    if op.Load? {
      BatchIsDue(s.queue.rows, op.now);
    } else if op.Settle? && s.InFlight(op.worker) != [] {
      var batch := s.InFlight(op.worker);
      assert batch[0] in batch && forall l :: l in batch[1..] ==> l in batch;
    }
  }

  lemma {:induction false} SequentialIsGuarded(s: System, ops: seq<Op>)
    requires InStep(s) && SequentialRun(s, ops)
    ensures GuardedRun(s, ops)
    decreases ops
  {
    if ops != [] {
      StaysInStep(s, ops[0]);
      SequentialIsGuarded(Applied(s, ops[0]), ops[1..]);
    }
  }

  const EMPTY := System(Queue([], []), map[])

  /** From an empty table, a single drain loop keeps rows and history in agreement for ever. */
  lemma SequentialRunsAreFaithful(ops: seq<Op>)
    requires SequentialRun(EMPTY, ops)
    ensures Faithful(After(EMPTY, ops).queue)
    ensures |After(EMPTY, ops).queue.rows| == Enqueues(ops)
  {
    SequentialIsGuarded(EMPTY, ops);
    GuardedRunIsFaithful(EMPTY, ops);
    NoRowIsLost(EMPTY, ops);
    StatusesPartition(After(EMPTY, ops).queue.rows);
  }

  // Backoff

  lemma DelaysGrow(a: int, b: int)
    requires a <= b
    ensures 2 <= RetryDelay(a) <= RetryDelay(b) <= 64
    ensures 1 <= a < 6 ==> RetryDelay(a + 1) == 2 * RetryDelay(a)
    ensures RetryDelay(a) == 64 <==> a >= 6
  {
    assert Pow2(1) == 2 && Pow2(2) == 4 && Pow2(3) == 8 && Pow2(4) == 16 by { assert Pow2(0) == 1; }
    assert Pow2(5) == 32 && Pow2(6) == 64;
  }

  /** A minute and four seconds after its last change, an unconfirmed row is due. */
  lemma DueAfterCappedDelay(q: Queue, id: nat, now: int)
    requires Faithful(q) && id < |q.rows| && Unconfirmed(q.rows[id])
    requires now >= q.rows[id].updatedAt + 64
    ensures Due(q.rows[id], now)
  {
    assert RowAgrees(q.rows[id], id, q.log);
    DelaysGrow(q.rows[id].attempts, q.rows[id].attempts);
  }

  // A drain is a run, and drains of a healthy archive empty the queue

  /** What the drain loop does to a batch, as the steps of one worker. */
  function Settles(worker: nat, batch: seq<Listed>, answers: nat -> Answer): seq<Op>
    decreases batch
  {
    if batch == [] then []
    else
      var a := answers(batch[0].id);
      [Settle(worker, a)] + if a.saved then Settles(worker, batch[1..], answers) else []
  }

  lemma {:induction false} DrainIsARun(s: System, worker: nat, answers: nat -> Answer)
    ensures var batch := s.InFlight(worker);
            After(s, Settles(worker, batch, answers)).queue == Drained(s.queue, batch, answers)
    decreases |s.InFlight(worker)|
  {
    var batch := s.InFlight(worker);
    if batch != [] {
      var a := answers(batch[0].id);
      var s' := Applied(s, Settle(worker, a));
      if a.saved {
        DrainIsARun(s', worker, answers);
        assert Settles(worker, batch, answers)[1..] == Settles(worker, batch[1..], answers);
      }
    }
  }

  lemma {:induction false} SettlesAreGuarded(s: System, worker: nat, answers: nat -> Answer)
    requires InStep(s)
    ensures GuardedRun(s, Settles(worker, s.InFlight(worker), answers))
    decreases |s.InFlight(worker)|
  {
    var batch := s.InFlight(worker);
    if batch != [] {
      var a := answers(batch[0].id);
      StaysInStep(s, Settle(worker, a));
      if a.saved {
        SettlesAreGuarded(Applied(s, Settle(worker, a)), worker, answers);
        assert Settles(worker, batch, answers)[1..] == Settles(worker, batch[1..], answers);
      }
    }
  }

  lemma DrainIsFaithful(q: Queue, now: int, answers: nat -> Answer)
    requires Faithful(q)
    ensures Faithful(Drained(q, Batch(q.rows, now), answers))
  {
    var s := System(q, map[0 := Batch(q.rows, now)]);
    BatchIsDue(q.rows, now);
    SettlesAreGuarded(s, 0, answers);
    DrainIsARun(s, 0, answers);
    GuardedRunIsFaithful(s, Settles(0, s.InFlight(0), answers));
  }

  /** The archive accepts every send and the table every mark. */
  ghost predicate Healthy(answers: nat -> Answer) {
    forall id :: answers(id).error.None? && answers(id).saved
  }

  /** One turn of the loop that wakes every two seconds. */
  datatype Turn = Turn(now: int, answers: nat -> Answer)

  function Turns(q: Queue, turns: seq<Turn>): Queue
    decreases turns
  {
    if turns == [] then q
    else Turns(Drained(q, Batch(q.rows, turns[0].now), turns[0].answers), turns[1..])
  }

  function Outstanding(rows: seq<Row>): nat {
    CountOf(rows, Pending) + CountOf(rows, RetryPending)
  }

  lemma {:induction false} CountAfterConfirming(rows: seq<Row>, id: nat, row: Row, status: Status)
    requires id < |rows|
    ensures CountOf(rows[id := row], status)
            == CountOf(rows, status) - (if rows[id].status == status then 1 else 0)
               + if row.status == status then 1 else 0
    decreases |rows|
  {
    var k := |rows| - 1;
    if id == k {
      assert rows[id := row][..k] == rows[..k];
    } else {
      CountAfterConfirming(rows[..k], id, row, status);
      assert rows[id := row][..k] == rows[..k][id := row];
    }
  }

  /** Every unconfirmed row decodes and is due. */
  ghost predicate Ready(rows: seq<Row>, now: int) {
    forall row <- rows :: Unconfirmed(row) ==> row.decodes && Due(row, now)
  }

  lemma {:induction false} ReadyMeansDue(rows: seq<Row>, now: int)
    requires Ready(rows, now)
    ensures |DueRows(rows, now)| == Outstanding(rows)
  {
    if rows != [] {
      var k := |rows| - 1;
      assert forall row <- rows[..k] :: row in rows;
      ReadyMeansDue(rows[..k], now);
      assert rows[k] in rows;
    }
  }

  /** A healthy drain confirms exactly its batch. */
  lemma {:induction false} HealthyDrain(q: Queue, batch: seq<Listed>, answers: nat -> Answer)
    requires Current(q.rows, batch) && Healthy(answers) && forall l <- batch :: l.row.decodes
    ensures var rows := Drained(q, batch, answers).rows;
            && |rows| == |q.rows|
            && Outstanding(rows) == Outstanding(q.rows) - |batch|
            && forall id :: 0 <= id < |rows| ==> rows[id] == q.rows[id] || rows[id].status.Confirmed?
    decreases batch
  {
    if batch != [] {
      var l, a := batch[0], answers(batch[0].id);
      var q' := Settled(q, l, a);
      assert l in batch && forall x <- batch[1..] :: x in batch;
      CountAfterConfirming(q.rows, l.id, ConfirmedRow(l.row, a.at), Pending);
      CountAfterConfirming(q.rows, l.id, ConfirmedRow(l.row, a.at), RetryPending);
      HealthyDrain(q', batch[1..], answers);
    }
  }

  /** With a healthy archive and every row due, each turn confirms 25 rows or all that are left. */
  lemma {:induction false} HealthyTurnsDrain(q: Queue, turns: seq<Turn>)
    requires forall t <- turns :: Healthy(t.answers) && Ready(q.rows, t.now)
    ensures Outstanding(Turns(q, turns).rows) == SaturatingSub(Outstanding(q.rows), BATCH_LIMIT * |turns|)
    ensures |Turns(q, turns).rows| == |q.rows|
    decreases turns
  {
    if turns != [] {
      var t := turns[0];
      var batch := Batch(q.rows, t.now);
      var q' := Drained(q, batch, t.answers);
      BatchIsDue(q.rows, t.now);
      ReadyMeansDue(q.rows, t.now);
      HealthyDrain(q, batch, t.answers);
      forall u | u in turns[1..] ensures Healthy(u.answers) && Ready(q'.rows, u.now) {
        assert u in turns;
      }
      HealthyTurnsDrain(q', turns[1..]);
    }
  }

  lemma {:induction false} TurnsAreFaithful(q: Queue, turns: seq<Turn>)
    requires Faithful(q)
    ensures Faithful(Turns(q, turns))
    decreases turns
  {
    if turns != [] {
      DrainIsFaithful(q, turns[0].now, turns[0].answers);
      TurnsAreFaithful(Drained(q, Batch(q.rows, turns[0].now), turns[0].answers), turns[1..]);
    }
  }

  /** The clock has passed the longest backoff of every row. */
  ghost predicate LongAfter(rows: seq<Row>, now: int) {
    forall row <- rows :: now >= row.updatedAt + 64
  }

  /**
   Whatever happened before, once the archive stays healthy and the longest
   backoff has passed, all rows are confirmed after exactly the turns their
   number needs, each by one recorded delivery.
   */
  lemma QueueRecovers(ops: seq<Op>, turns: seq<Turn>)
    requires SequentialRun(EMPTY, ops)
    requires forall t <- turns :: Healthy(t.answers) && LongAfter(After(EMPTY, ops).queue.rows, t.now)
    ensures var before, after := After(EMPTY, ops).queue, Turns(After(EMPTY, ops).queue, turns);
            && |after.rows| == Enqueues(ops)
            && (Outstanding(after.rows) == 0 <==> Outstanding(before.rows) <= BATCH_LIMIT * |turns|)
            && (Outstanding(after.rows) == 0 ==>
                  forall id :: 0 <= id < |after.rows| ==> multiset(after.log)[Accepted(id)] == 1)
  {
    var before := After(EMPTY, ops).queue;
    var after := Turns(before, turns);
    SequentialRunsAreFaithful(ops);
    forall t | t in turns ensures Ready(before.rows, t.now) {
      LongAfterIsReady(before, t.now);
    }
    HealthyTurnsDrain(before, turns);
    TurnsAreFaithful(before, turns);
    if Outstanding(after.rows) == 0 {
      forall id | 0 <= id < |after.rows| ensures multiset(after.log)[Accepted(id)] == 1 {
        NoneOutstanding(after.rows, id);
        assert RowAgrees(after.rows[id], id, after.log);
      }
    }
  }

  lemma LongAfterIsReady(q: Queue, now: int)
    requires Faithful(q) && LongAfter(q.rows, now)
    ensures Ready(q.rows, now)
  {
    forall id | 0 <= id < |q.rows| && Unconfirmed(q.rows[id]) ensures q.rows[id].decodes && Due(q.rows[id], now) {
      assert RowAgrees(q.rows[id], id, q.log);
      DueAfterCappedDelay(q, id, now);
    }
  }

  lemma {:induction false} NoneOutstanding(rows: seq<Row>, id: nat)
    requires id < |rows| && Outstanding(rows) == 0
    ensures rows[id].status.Confirmed?
  {
    if id < |rows| - 1 { NoneOutstanding(rows[..|rows| - 1], id); }
  }

  // The statistics shown to the operator

  function Earliest(rows: seq<Row>): Option<int> {
    if rows == [] then None
    else
      var rest, row := Earliest(rows[..|rows| - 1]), rows[|rows| - 1];
      if !Unconfirmed(row) then rest
      else if rest.None? then Some(row.nextAttemptAt)
      else Some(Min(rest.value, row.nextAttemptAt))
  }

  lemma {:induction false} EarliestMeans(rows: seq<Row>, now: int)
    ensures DueRows(rows, now) == [] <==> Earliest(rows).None? || now < Earliest(rows).value
    ensures Earliest(rows).None? <==> Outstanding(rows) == 0
  {
    if rows != [] { EarliestMeans(rows[..|rows| - 1], now); }
  }

  /** The reported next attempt is exactly when a drain first finds something to do. */
  lemma NextAttemptIsWhenDrainsAct(rows: seq<Row>, now: int)
    ensures Batch(rows, now) == [] <==> Outstanding(rows) == 0 || now < Earliest(rows).GetOr(now)
  {
    EarliestMeans(rows, now);
    BatchIsDue(rows, now);
  }

  // A new write

  lemma DueCount(rows: seq<Row>, row: Row, now: int)
    ensures |DueRows(rows + [row], now)| == |DueRows(rows, now)| + if Due(row, now) then 1 else 0
  {
    assert (rows + [row])[..|rows|] == rows;
  }

  /** From its enqueueing on, a write is in the next batch unless 25 due rows are at least as old. */
  lemma NewWriteIsTaken(q: Queue, request: string, now: int, later: int)
    requires later >= now
    ensures var rows := Enqueued(q, request, now).rows;
            var mine := Listed(|q.rows|, rows[|q.rows|]);
            mine in Batch(rows, later)
              || (|Batch(rows, later)| == BATCH_LIMIT && forall l <- Batch(rows, later) :: l.row.createdAt <= now)
    ensures |DueRows(q.rows, later)| < BATCH_LIMIT ==>
              var rows := Enqueued(q, request, now).rows; Listed(|q.rows|, rows[|q.rows|]) in Batch(rows, later)
  {
    var rows := Enqueued(q, request, now).rows;
    var mine := Listed(|q.rows|, rows[|q.rows|]);
    DueCount(q.rows, NewRow(request, now), later);
    if mine !in Batch(rows, later) { BatchIsOldest(rows, later, |q.rows|); }
    if |DueRows(q.rows, later)| < BATCH_LIMIT { SmallBatchHasAll(rows, later, mine); }
  }

  lemma SmallBatchHasAll(rows: seq<Row>, now: int, l: Listed)
    requires |DueRows(rows, now)| <= BATCH_LIMIT && l.id < |rows| && l.row == rows[l.id] && Due(l.row, now)
    ensures l in Batch(rows, now)
  {
    var due := DueRows(rows, now);
    DueRowsAreDue(rows, now);
    Sorting.SortKeepsElements(due, OlderFirst);
    Sorting.SortedMembership(due, OlderFirst, l);
  }

  // What a drain reports

  /** The row was sent without an error. */
  predicate Delivered(l: Listed, answers: nat -> Answer) { l.row.decodes && answers(l.id).error.None? }

  lemma SettlingCounts(q: Queue, l: Listed, a: Answer)
    requires l.id < |q.rows| && Unconfirmed(q.rows[l.id]) && a.saved
    ensures CountOf(Settled(q, l, a).rows, Confirmed)
         == CountOf(q.rows, Confirmed) + if l.row.decodes && a.error.None? then 1 else 0
  {
    CountAfterConfirming(q.rows, l.id, Marked(q.rows[l.id], l, a), Confirmed);
  }

  lemma {:induction false} DrainingCounts(q: Queue, batch: seq<Listed>, answers: nat -> Answer)
    requires Current(q.rows, batch) && forall l <- batch :: answers(l.id).saved
    ensures CountOf(Drained(q, batch, answers).rows, Confirmed)
         == CountOf(q.rows, Confirmed) + ConfirmedBy(batch, answers)
    ensures ConfirmedBy(batch, answers) == |set l | l in batch && Delivered(l, answers)|
    decreases batch
  {
    if batch == [] {
      assert (set l | l in batch && Delivered(l, answers)) == {};
    } else {
      var l, rest := batch[0], batch[1..];
      var q' := Settled(q, l, answers(l.id));
      SettlingCounts(q, l, answers(l.id));
      RestStaysCurrent(q, batch, answers(l.id));
      DrainingCounts(q', rest, answers);
      OneMoreDelivered(l, rest, answers);
      assert batch == [l] + rest;
    }
  }

  lemma RestStaysCurrent(q: Queue, batch: seq<Listed>, a: Answer)
    requires batch != [] && Current(q.rows, batch)
    ensures Current(Settled(q, batch[0], a).rows, batch[1..]) && batch[0] !in batch[1..]
  {
    assert forall l <- batch[1..] :: l in batch && l.id != batch[0].id;
  }

  lemma OneMoreDelivered(l: Listed, rest: seq<Listed>, answers: nat -> Answer)
    requires l !in rest
    ensures |set x | x in [l] + rest && Delivered(x, answers)|
         == |set x | x in rest && Delivered(x, answers)| + if Delivered(l, answers) then 1 else 0
  {
    var others := set x | x in rest && Delivered(x, answers);
    assert (set x | x in [l] + rest && Delivered(x, answers)) == others + if Delivered(l, answers) then {l} else {};
  }

  /**
   A drain whose marks are all saved reports the number of rows that it sent without an error, and that is by how
   many the confirmed rows of the table grow.
   */
  lemma ReportedAreConfirmed(q: Queue, now: int, answers: nat -> Answer)
    requires forall l <- Batch(q.rows, now) :: answers(l.id).saved
    ensures var batch := Batch(q.rows, now);
            && ConfirmedBy(batch, answers) == |set l | l in batch && Delivered(l, answers)|
            && CountOf(Drained(q, batch, answers).rows, Confirmed)
               == CountOf(q.rows, Confirmed) + ConfirmedBy(batch, answers)
  {
    BatchIsDue(q.rows, now);
    DrainingCounts(q, Batch(q.rows, now), answers);
  }
}
