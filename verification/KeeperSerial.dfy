/**
 Interleavings that lose no update are serializable: whole handlers, one after
 another, leave the same file and give every request the answer it got, each at
 a place between its read and its answer.
 */
module KeeperSerial {
  import opened Basics
  import opened Keeper
  import opened KeeperSafety
  import opened KeeperProtocol

  // What a flight remembers

  function Copy(f: Flight): State { NormalizedState(Loaded(f.read, f.t1), f.t1) }

  predicate SavedOnce(f: Flight) { MustSave(Loaded(f.read, f.t1), f.t1) }

  /** What a flight holds is what its own read, normalization and decision gave it. */
  predicate Faithful(f: Flight) {
    match f.stage
    case Waiting => true
    case Dirty(state) => state == Copy(f) && SavedOnce(f) && f.seen == f.read
    case Ready(state) => state == Copy(f) && f.seen == if SavedOnce(f) then Some(Copy(f)) else f.read
    case Writing(next) =>
      Decision(Copy(f), f.req, f.t2) == Some(next) && f.seen == if SavedOnce(f) then Some(Copy(f)) else f.read
    case Done(answered) => answered == Decision(Copy(f), f.req, f.t2).Some?
  }

  predicate AllFaithful(sys: System) { forall id :: id in sys.flights ==> Faithful(sys.flights[id]) }

  lemma FlightStaysFaithful(sys: System, a: Action)
    requires a.id in sys.flights && Faithful(sys.flights[a.id])
    ensures a.id in Act(sys, a).flights && Faithful(Act(sys, a).flights[a.id])
  {
  }

  lemma StepStaysFaithful(sys: System, a: Action)
    requires AllFaithful(sys)
    ensures AllFaithful(Act(sys, a))
  {
    if a.id in sys.flights { FlightStaysFaithful(sys, a); }
    forall id | id in Act(sys, a).flights && id != a.id ensures Faithful(Act(sys, a).flights[id]) {
      assert id in sys.flights && Act(sys, a).flights[id] == sys.flights[id];
    }
  }

  lemma {:induction false} RunStaysFaithful(sys: System, actions: seq<Action>)
    requires AllFaithful(sys)
    ensures AllFaithful(Run(sys, actions))
    decreases actions
  {
    if actions != [] {
      StepStaysFaithful(sys, actions[0]);
      RunStaysFaithful(Act(sys, actions[0]), actions[1..]);
    }
  }

  function Rank(stage: Stage): nat {
    match stage case Waiting => 0 case Dirty(_) => 1 case Ready(_) => 2 case Writing(_) => 3 case Done(_) => 4
  }

  /** g is a later form of f: the stages advance, and what is fixed stays fixed. */
  predicate Continues(f: Flight, g: Flight) {
    && g.req == f.req && Rank(f.stage) <= Rank(g.stage)
    && (Rank(f.stage) >= 1 ==> g.read == f.read && g.t1 == f.t1)
    && (Rank(f.stage) >= 3 ==> g.t2 == f.t2)
    && (f.stage.Writing? ==> g.stage == f.stage || g.stage == Done(true))
    && (f.stage.Done? ==> g.stage == f.stage)
  }

  predicate Leads(sys: System, end: System) {
    forall id :: id in sys.flights ==> id in end.flights && Continues(sys.flights[id], end.flights[id])
  }

  lemma StepLeads(sys: System, a: Action, end: System)
    requires Leads(Act(sys, a), end)
    ensures Leads(sys, end)
  {
    forall id | id in sys.flights ensures id in end.flights && Continues(sys.flights[id], end.flights[id]) {
      StepContinues(sys, a, id);
      ContinuesOn(sys.flights[id], Act(sys, a).flights[id], end.flights[id]);
    }
  }

  lemma StepContinues(sys: System, a: Action, id: nat)
    requires id in sys.flights
    ensures id in Act(sys, a).flights && Continues(sys.flights[id], Act(sys, a).flights[id])
  {
  }

  lemma ContinuesOn(f: Flight, g: Flight, h: Flight)
    requires Continues(f, g) && Continues(g, h)
    ensures Continues(f, h)
  {
  }

  lemma {:induction false} RunLeads(sys: System, actions: seq<Action>, end: System)
    requires Leads(Run(sys, actions), end)
    ensures Leads(sys, end)
    decreases actions
  {
    if actions != [] {
      RunLeads(Act(sys, actions[0]), actions[1..], end);
      StepLeads(sys, actions[0], end);
    }
  }

  // Writes that lose nothing

  predicate WritesNormalized(sys: System, a: Action) {
    a.WriteNormalized? && a.id in sys.flights && sys.flights[a.id].stage.Dirty?
  }

  predicate WritesFinal(sys: System, a: Action) {
    a.WriteFinal? && a.id in sys.flights && sys.flights[a.id].stage.Writing?
  }

  /** A write that finds the file as its request last read or wrote it: no update is lost. */
  predicate CleanStep(sys: System, a: Action) {
    WritesNormalized(sys, a) || WritesFinal(sys, a) ==> sys.file == sys.flights[a.id].seen
  }

  predicate CleanRun(sys: System, actions: seq<Action>)
    decreases actions
  {
    actions == [] || (CleanStep(sys, actions[0]) && CleanRun(Act(sys, actions[0]), actions[1..]))
  }

  /** A clean write does to the file what its own request's whole handler would, at that point. */
  lemma CleanWriteIsAtomic(sys: System, a: Action)
    requires AllFaithful(sys) && CleanStep(sys, a)
    ensures WritesNormalized(sys, a) ==>
              var f := sys.flights[a.id]; Act(sys, a).file == Handled(sys.file, Inspect, f.t1, f.t1) == Some(Copy(f))
    ensures WritesFinal(sys, a) ==>
              var f := sys.flights[a.id]; Act(sys, a).file == Handled(sys.file, f.req, f.t1, f.t2) && Sees(sys.file, f)
    ensures !WritesNormalized(sys, a) && !WritesFinal(sys, a) ==> Act(sys, a).file == sys.file
  {
    if WritesFinal(sys, a) { FinalWriteIsAtomic(sys, a); }
  }

  lemma FinalWriteIsAtomic(sys: System, a: Action)
    requires AllFaithful(sys) && CleanStep(sys, a) && WritesFinal(sys, a)
    ensures var f := sys.flights[a.id]; Act(sys, a).file == Handled(sys.file, f.req, f.t1, f.t2) && Sees(sys.file, f)
  {
    SeesItsCopy(sys.flights[a.id]);
  }

  /** The file a flight last saw, its own saved normalization or the one it read, gives its copy again. */
  lemma SeesItsCopy(f: Flight)
    requires Faithful(f) && f.stage.Writing?
    ensures Sees(f.seen, f)
  {
    NormalizingTwice(Loaded(f.read, f.t1), f.t1);
  }

  /** A whole handler started on this file works on the copy the flight worked on. */
  predicate Sees(file: Option<State>, f: Flight) { NormalizedState(Loaded(file, f.t1), f.t1) == Copy(f) }

  // The serial order

  /** A whole handler in the serial order: a request itself, or the saving of its normalization. */
  datatype Served = Served(id: nat, own: bool, event: Event)

  function HandledOne(file: Option<State>, x: Served): Option<State> {
    Handled(file, x.event.req, x.event.t1, x.event.t2)
  }

  /** The file after whole handlers, one after another. */
  function AtomicFile(file: Option<State>, serial: seq<Served>): Option<State> { Fold(HandledOne, file, serial) }

  predicate Refused(end: System, id: nat) { id in end.flights && end.flights[id].stage == Done(false) }

  function Own(id: nat, f: Flight): Served { Served(id, true, Event(f.req, f.t1, f.t2)) }

  function Normalization(id: nat, f: Flight): Served { Served(id, false, Event(Inspect, f.t1, f.t1)) }

  /**
   What a step adds to the serial order, knowing how the run ends: a saving request
   comes where it writes, and a request that saves nothing where it last saw the file.
   */
  function ServedBy(sys: System, a: Action, end: System): seq<Served>
    requires Leads(Act(sys, a), end)
  {
    if WritesFinal(sys, a) then [Own(a.id, sys.flights[a.id])]
    else if WritesNormalized(sys, a) then
      var saved := [Normalization(a.id, sys.flights[a.id])];
      if Refused(end, a.id) then saved + [Own(a.id, end.flights[a.id])] else saved
    else if a.Read? && a.id in sys.flights && sys.flights[a.id].stage.Waiting?
            && !MustSave(Loaded(sys.file, a.now), a.now) && Refused(end, a.id) then [Own(a.id, end.flights[a.id])]
    else []
  }

  function Serial(sys: System, actions: seq<Action>, end: System): seq<Served>
    requires Leads(Run(sys, actions), end)
    decreases actions
  {
    if actions == [] then []
    else
      RunLeads(Act(sys, actions[0]), actions[1..], end);
      ServedBy(sys, actions[0], end) + Serial(Act(sys, actions[0]), actions[1..], end)
  }

  /**
   Every entry is some request's, with its clock readings, sees that request's copy and gives that request's answer.
   */
  predicate Answers(file: Option<State>, serial: seq<Served>, end: System) {
    Along(HandledOne, FitsIn(end), file, serial)
  }

  function FitsIn(end: System): (Option<State>, Served) -> bool { (file, x) => Fits(file, x, end) }

  predicate Fits(file: Option<State>, x: Served, end: System) {
    x.id in end.flights &&
    var f := end.flights[x.id];
    if x.own then f.stage.Done? && x == Own(x.id, f) && Sees(file, f) && Saves(file, x.event) == f.stage.answered
    else x == Normalization(x.id, f)
  }

  /** Whether a whole handler, run on this file, has something of its own to save. */
  predicate Saves(file: Option<State>, e: Event) {
    Decision(NormalizedState(Loaded(file, e.t1), e.t1), e.req, e.t2).Some?
  }

  lemma AnswersConcat(file: Option<State>, a: seq<Served>, b: seq<Served>, end: System)
    requires Answers(file, a, end) && Answers(AtomicFile(file, a), b, end)
    ensures Answers(file, a + b, end) && AtomicFile(file, a + b) == AtomicFile(AtomicFile(file, a), b)
  {
    FoldConcat(HandledOne, file, a, b);
    AlongConcat(HandledOne, FitsIn(end), file, a, b);
  }

  /** In the file the entries before it leave, every entry fits its request. */
  lemma AnswerAt(file: Option<State>, serial: seq<Served>, end: System, k: nat)
    requires Answers(file, serial, end) && k < |serial|
    ensures Fits(AtomicFile(file, serial[..k]), serial[k], end)
  {
    AlongMeans(HandledOne, FitsIn(end), file, serial, k);
  }

  /** A refused request, placed where it sees its copy, fits there and leaves that normalized file as it is. */
  lemma RefusedFits(file: Option<State>, id: nat, end: System)
    requires Refused(end, id) && Faithful(end.flights[id]) && Sees(file, end.flights[id])
    ensures var f := end.flights[id];
            && Fits(file, Own(id, f), end)
            && (file == Some(Copy(f)) || !MustSave(Loaded(file, f.t1), f.t1) ==>
                  Handled(file, f.req, f.t1, f.t2) == file)
  {
  }

  lemma FinalFits(file: Option<State>, id: nat, f: Flight, end: System)
    requires f.stage.Writing? && Faithful(f) && Sees(file, f)
    requires id in end.flights && Continues(f.(stage := Done(true)), end.flights[id])
    ensures Fits(file, Own(id, f), end)
  {
    var g := end.flights[id];
    assert g.stage == Done(true) && Own(id, f) == Own(id, g) && Copy(g) == Copy(f);
    assert Decision(Copy(f), f.req, f.t2).Some?;
  }

  lemma FinalAnswers(sys: System, a: Action, end: System)
    requires AllFaithful(sys) && CleanStep(sys, a) && Leads(Act(sys, a), end) && WritesFinal(sys, a)
    ensures Answers(sys.file, ServedBy(sys, a, end), end)
    ensures AtomicFile(sys.file, ServedBy(sys, a, end)) == Act(sys, a).file
  {
    var f := sys.flights[a.id];
    FinalWriteIsAtomic(sys, a);
    assert a.id in Act(sys, a).flights && Act(sys, a).flights[a.id] == f.(stage := Done(true));
    FinalFits(sys.file, a.id, f, end);
    OneServed(sys.file, Own(a.id, f), end);
  }

  lemma OneServed(file: Option<State>, x: Served, end: System)
    ensures AtomicFile(file, [x]) == HandledOne(file, x)
    ensures Answers(file, [x], end) <==> Fits(file, x, end)
  {
    AlongOne(HandledOne, FitsIn(end), file, x);
  }

  lemma NormalizedAnswers(sys: System, a: Action, end: System)
    requires AllFaithful(sys) && CleanStep(sys, a) && Leads(Act(sys, a), end) && WritesNormalized(sys, a)
    requires AllFaithful(end)
    ensures Answers(sys.file, ServedBy(sys, a, end), end)
    ensures AtomicFile(sys.file, ServedBy(sys, a, end)) == Act(sys, a).file
  {
    var f := sys.flights[a.id];
    StepLeads(sys, a, end);
    SavedAnswers(sys, a, end);
    if Refused(end, a.id) {
      SavedThenRefused(sys.file, [Normalization(a.id, f)], f, a.id, end);
    }
  }

  lemma SavedThenRefused(file: Option<State>, saved: seq<Served>, f: Flight, id: nat, end: System)
    requires Answers(file, saved, end) && AtomicFile(file, saved) == Some(Copy(f))
    requires Refused(end, id) && Faithful(end.flights[id]) && Continues(f, end.flights[id]) && Rank(f.stage) >= 1
    ensures var own := [Own(id, end.flights[id])];
            Answers(file, saved + own, end) && AtomicFile(file, saved + own) == Some(Copy(f))
  {
    RefusedAfterwards(f, id, end);
    AnswersConcat(file, saved, [Own(id, end.flights[id])], end);
  }

  lemma SavedAnswers(sys: System, a: Action, end: System)
    requires AllFaithful(sys) && CleanStep(sys, a) && Leads(sys, end) && WritesNormalized(sys, a)
    ensures var f := sys.flights[a.id];
            var saved := [Normalization(a.id, f)];
            && Answers(sys.file, saved, end)
            && AtomicFile(sys.file, saved) == Act(sys, a).file == Some(Copy(f))
  {
    CleanWriteIsAtomic(sys, a);
    SavedFits(sys.file, a.id, sys.flights[a.id], end);
  }

  lemma SavedFits(file: Option<State>, id: nat, f: Flight, end: System)
    requires id in end.flights && Continues(f, end.flights[id]) && Rank(f.stage) >= 1
    ensures Answers(file, [Normalization(id, f)], end)
    ensures AtomicFile(file, [Normalization(id, f)]) == Handled(file, Inspect, f.t1, f.t1)
  {
    OneServed(file, Normalization(id, f), end);
  }

  /** Right after its normalization was saved, a refused request finds its copy in the file. */
  lemma RefusedAfterwards(f: Flight, id: nat, end: System)
    requires Refused(end, id) && Faithful(end.flights[id]) && Continues(f, end.flights[id]) && Rank(f.stage) >= 1
    ensures var own := [Own(id, end.flights[id])];
            Answers(Some(Copy(f)), own, end) && AtomicFile(Some(Copy(f)), own) == Some(Copy(f))
  {
    NormalizingTwice(Loaded(f.read, f.t1), f.t1);
    RefusedFits(Some(Copy(f)), id, end);
    OneServed(Some(Copy(f)), Own(id, end.flights[id]), end);
  }

  lemma StepAnswers(sys: System, a: Action, end: System)
    requires AllFaithful(sys) && CleanStep(sys, a) && Leads(Act(sys, a), end) && AllFaithful(end)
    ensures Answers(sys.file, ServedBy(sys, a, end), end)
    ensures AtomicFile(sys.file, ServedBy(sys, a, end)) == Act(sys, a).file
  {
    if WritesFinal(sys, a) {
      FinalAnswers(sys, a, end);
    } else if WritesNormalized(sys, a) {
      NormalizedAnswers(sys, a, end);
    } else if ServedBy(sys, a, end) != [] {
      ReadAnswers(sys, a, end);
    }
  }

  lemma ReadAnswers(sys: System, a: Action, end: System)
    requires Leads(Act(sys, a), end) && AllFaithful(end)
    requires !WritesFinal(sys, a) && !WritesNormalized(sys, a) && ServedBy(sys, a, end) != []
    ensures Answers(sys.file, ServedBy(sys, a, end), end)
    ensures AtomicFile(sys.file, ServedBy(sys, a, end)) == Act(sys, a).file
  {
    assert a.id in Act(sys, a).flights;
    RefusedFits(sys.file, a.id, end);
    OneServed(sys.file, Own(a.id, end.flights[a.id]), end);
  }

  lemma {:induction false} SerialAnswers(sys: System, actions: seq<Action>, end: System)
    requires AllFaithful(sys) && CleanRun(sys, actions) && Leads(Run(sys, actions), end) && AllFaithful(end)
    ensures Answers(sys.file, Serial(sys, actions, end), end)
    ensures AtomicFile(sys.file, Serial(sys, actions, end)) == Run(sys, actions).file
    decreases actions
  {
    if actions != [] {
      var next := Act(sys, actions[0]);
      RunLeads(next, actions[1..], end);
      StepAnswers(sys, actions[0], end);
      StepStaysFaithful(sys, actions[0]);
      SerialAnswers(next, actions[1..], end);
      AnswersConcat(sys.file, ServedBy(sys, actions[0], end), Serial(next, actions[1..], end), end);
    }
  }

  // Each request once

  function Count(serial: seq<Served>, id: nat, own: bool): nat {
    if serial == [] then 0
    else (if serial[0].id == id && serial[0].own == own then 1 else 0) + Count(serial[1..], id, own)
  }

  lemma {:induction false} CountConcat(a: seq<Served>, b: seq<Served>, id: nat, own: bool)
    ensures Count(a + b, id, own) == Count(a, id, own) + Count(b, id, own)
  {
    if a == [] {
      assert a + b == b;
    } else {
      assert (a + b)[1..] == a[1..] + b;
      CountConcat(a[1..], b, id, own);
    }
  }

  /** The request has finished, or its normalization has been saved. */
  predicate Completed(f: Flight, own: bool) {
    if own then f.stage.Done? else Rank(f.stage) >= 2 && SavedOnce(f)
  }

  /** At the end the entry is in the serial order, but it has not been placed yet. */
  predicate Due(sys: System, end: System, id: nat, own: bool) {
    && id in end.flights && Completed(end.flights[id], own)
    && (id in sys.flights ==>
          var stage := sys.flights[id].stage;
          if own && end.flights[id].stage == Done(true) then !stage.Done? else Rank(stage) <= 1)
  }

  lemma CountTwo(x: Served, y: Served, id: nat, own: bool)
    ensures Count([x], id, own) == if x.id == id && x.own == own then 1 else 0
    ensures Count([x] + [y], id, own) == Count([x], id, own) + Count([y], id, own)
  {
    assert [x][1..] == [];
    CountConcat([x], [y], id, own);
  }

  /** What one step adds to the count is what it takes off the entries still due. */
  predicate CountsDown(sys: System, a: Action, end: System, id: nat, own: bool)
    requires Leads(Act(sys, a), end)
  {
    Count(ServedBy(sys, a, end), id, own)
    == (if Due(sys, end, id, own) then 1 else 0) - (if Due(Act(sys, a), end, id, own) then 1 else 0)
  }

  lemma FinalCount(sys: System, a: Action, end: System, id: nat, own: bool)
    requires Leads(Act(sys, a), end) && WritesFinal(sys, a)
    ensures CountsDown(sys, a, end, id, own)
  {
    assert a.id in Act(sys, a).flights;
    CountTwo(Own(a.id, sys.flights[a.id]), Own(a.id, sys.flights[a.id]), id, own);
  }

  lemma NormalizedCount(sys: System, a: Action, end: System, id: nat, own: bool)
    requires AllFaithful(sys) && Leads(Act(sys, a), end) && WritesNormalized(sys, a)
    ensures CountsDown(sys, a, end, id, own)
  {
    NormalizedServes(sys, a, end, id, own);
    if id == a.id {
      NormalizedDue(sys, a, end, own);
    } else {
      OthersStayDue(sys, a, end, id, own);
    }
  }

  lemma OthersStayDue(sys: System, a: Action, end: System, id: nat, own: bool)
    requires id != a.id
    ensures Due(Act(sys, a), end, id, own) <==> Due(sys, end, id, own)
  {
  }

  lemma NormalizedServes(sys: System, a: Action, end: System, id: nat, own: bool)
    requires Leads(Act(sys, a), end) && WritesNormalized(sys, a)
    ensures Count(ServedBy(sys, a, end), id, own)
         == if id == a.id && (own ==> Refused(end, a.id)) then 1 else 0
  {
    var saved := Normalization(a.id, sys.flights[a.id]);
    CountTwo(saved, saved, id, own);
    if Refused(end, a.id) {
      var last := Own(a.id, end.flights[a.id]);
      CountTwo(last, last, id, own);
      CountConcat([saved], [last], id, own);
    }
  }

  /** Saving the normalization settles that entry, and a refused request's own. */
  lemma NormalizedDue(sys: System, a: Action, end: System, own: bool)
    requires AllFaithful(sys) && Leads(Act(sys, a), end) && WritesNormalized(sys, a)
    ensures Due(sys, end, a.id, own) <==> if own then a.id in end.flights && end.flights[a.id].stage.Done? else true
    ensures Due(Act(sys, a), end, a.id, own) <==> own && a.id in end.flights && end.flights[a.id].stage == Done(true)
  {
    var f, f' := sys.flights[a.id], Act(sys, a).flights[a.id];
    StepLeads(sys, a, end);
    assert a.id in Act(sys, a).flights;
    var g := end.flights[a.id];
    assert Faithful(f) && Continues(f, g) && Continues(f', g) && Rank(f'.stage) == 2;
    assert SavedOnce(g);
  }

  lemma ReadCount(sys: System, a: Action, end: System, id: nat, own: bool)
    requires Leads(Act(sys, a), end) && a.Read? && a.id in sys.flights && sys.flights[a.id].stage.Waiting?
    ensures CountsDown(sys, a, end, id, own)
  {
    assert a.id in Act(sys, a).flights;
    CountTwo(Own(a.id, end.flights[a.id]), Own(a.id, end.flights[a.id]), id, own);
  }

  lemma StepCount(sys: System, a: Action, end: System, id: nat, own: bool)
    requires AllFaithful(sys) && Leads(Act(sys, a), end)
    ensures CountsDown(sys, a, end, id, own)
  {
    if WritesFinal(sys, a) {
      FinalCount(sys, a, end, id, own);
    } else if WritesNormalized(sys, a) {
      NormalizedCount(sys, a, end, id, own);
    } else if a.Read? && a.id in sys.flights && sys.flights[a.id].stage.Waiting? {
      ReadCount(sys, a, end, id, own);
    } else {
      assert id in sys.flights ==> id in Act(sys, a).flights;
    }
  }

  lemma {:induction false} SerialCount(sys: System, actions: seq<Action>, end: System, id: nat, own: bool)
    requires AllFaithful(sys) && Leads(Run(sys, actions), end)
    ensures Count(Serial(sys, actions, end), id, own)
            == (if Due(sys, end, id, own) then 1 else 0) - (if Due(Run(sys, actions), end, id, own) then 1 else 0)
    decreases actions
  {
    if actions != [] {
      var next := Act(sys, actions[0]);
      RunLeads(next, actions[1..], end);
      StepCount(sys, actions[0], end, id, own);
      StepStaysFaithful(sys, actions[0]);
      SerialCount(next, actions[1..], end, id, own);
      CountConcat(ServedBy(sys, actions[0], end), Serial(next, actions[1..], end), id, own);
    }
  }

  // Main results

  function Start(file: Option<State>): System { System(file, map[]) }

  /** The serial order of a run from its first request on. */
  function SerialOrder(file: Option<State>, actions: seq<Action>): seq<Served> {
    Serial(Start(file), actions, Run(Start(file), actions))
  }

  /**
   A run that loses no update is the serial run of its own requests: the serial order leaves the same file;
   every finished request and every saved normalization occurs in it exactly once, and nothing else does;
   and each request finds there the copy it worked on and gives there the answer it gave.
   */
  lemma CleanRunIsSerial(file: Option<State>, actions: seq<Action>)
    requires CleanRun(Start(file), actions)
    ensures var end, serial := Run(Start(file), actions), SerialOrder(file, actions);
            && end.file == AtomicFile(file, serial)
            && Answers(file, serial, end)
            && EachOnce(serial, end)
  {
    var end := Run(Start(file), actions);
    RunStaysFaithful(Start(file), actions);
    SerialAnswers(Start(file), actions, end);
    SerialServesOnce(file, actions);
  }

  /** Finished requests and saved normalizations occur once, all others not at all. */
  ghost predicate EachOnce(serial: seq<Served>, end: System) {
    forall id: nat, own ::
      Count(serial, id, own) == if id in end.flights && Completed(end.flights[id], own) then 1 else 0
  }

  lemma SerialServesOnce(file: Option<State>, actions: seq<Action>)
    ensures EachOnce(SerialOrder(file, actions), Run(Start(file), actions))
  {
    forall id: nat, own { SerialCount(Start(file), actions, Run(Start(file), actions), id, own); }
  }

  /** A request answered before another arrives also comes before it in the serial order. */
  lemma SerialOrderKeepsTime(file: Option<State>, first: seq<Action>, rest: seq<Action>, early: nat, late: nat)
    requires var mid := Run(Start(file), first);
             early in mid.flights && mid.flights[early].stage.Done? && late !in mid.flights
    ensures exists a, b :: SerialOrder(file, first + rest) == a + b && Separates(a, b, early, late)
  {
    var start, mid, end := Start(file), Run(Start(file), first), Run(Start(file), first + rest);
    RunConcat(start, first, rest);
    RunLeads(mid, rest, end);
    RunStaysFaithful(start, first);
    SerialConcat(start, first, rest, end);
    SplitSeparates(start, first, rest, end, early, late);
  }

  predicate Separates(a: seq<Served>, b: seq<Served>, early: nat, late: nat) {
    Count(a, early, true) == 1 && Count(b, early, true) == 0 && Count(a, late, true) == 0
  }

  lemma SplitSeparates(start: System, first: seq<Action>, rest: seq<Action>, end: System, early: nat, late: nat)
    requires start.flights == map[] && AllFaithful(Run(start, first)) && end == Run(Run(start, first), rest)
    requires Leads(Run(start, first), end)
    requires var mid := Run(start, first);
             early in mid.flights && mid.flights[early].stage.Done? && late !in mid.flights
    ensures Separates(Serial(start, first, end), Serial(Run(start, first), rest, end), early, late)
  {
    SerialCount(start, first, end, early, true);
    SerialCount(Run(start, first), rest, end, early, true);
    SerialCount(start, first, end, late, true);
  }

  lemma {:induction false} RunConcat(sys: System, a: seq<Action>, b: seq<Action>)
    ensures Run(sys, a + b) == Run(Run(sys, a), b)
    decreases a
  {
    if a == [] {
      assert a + b == b;
    } else {
      assert (a + b)[1..] == a[1..] + b;
      RunConcat(Act(sys, a[0]), a[1..], b);
    }
  }

  lemma {:induction false} SerialConcat(sys: System, a: seq<Action>, b: seq<Action>, end: System)
    requires Leads(Run(sys, a + b), end) && Leads(Run(sys, a), end) && Leads(Run(Run(sys, a), b), end)
    ensures Serial(sys, a + b, end) == Serial(sys, a, end) + Serial(Run(sys, a), b, end)
    decreases a
  {
    if a == [] {
      assert a + b == b;
    } else {
      assert (a + b)[1..] == a[1..] + b;
      SerialConcat(Act(sys, a[0]), a[1..], b, end);
    }
  }

  // What a timely agent keeps in every clean interleaving

  function EventsOf(serial: seq<Served>): seq<Event>
    decreases serial
  {
    if serial == [] then [] else [serial[0].event] + EventsOf(serial[1..])
  }

  lemma {:induction false} AtomicFileIsAfterEvents(s: State, serial: seq<Served>)
    ensures AtomicFile(Some(s), serial) == Some(AfterEvents(s, EventsOf(serial)))
    decreases serial
  {
    if serial != [] {
      var e := serial[0].event;
      HandledIsThere(s, e);
      assert EventsOf(serial)[1..] == EventsOf(serial[1..]);
      AtomicFileIsAfterEvents(Handle(s, e), serial[1..]);
    }
  }

  lemma HandledIsThere(s: State, e: Event)
    ensures Handled(Some(s), e.req, e.t1, e.t2) == Some(Handle(s, e))
  {
  }

  /**
   In every interleaving that loses no update, an agent whose heartbeats come in time, in the order in which
   the requests take effect, still has its files at the end.
   */
  lemma CleanRunsKeepFiles(s: State, actions: seq<Action>, agent: string, files: seq<string>, last: int)
    requires s.staleAfter > 0 && HoldsSince(s, agent, files, last)
    requires CleanRun(Start(Some(s)), actions)
    requires BeatsInTime(agent, last, s.staleAfter, EventsOf(SerialOrder(Some(s), actions)))
    ensures var end := Run(Start(Some(s)), actions);
            end.file.Some? && agent in end.file.value.active && end.file.value.active[agent].files == files
  {
    var serial := SerialOrder(Some(s), actions);
    CleanRunIsSerial(Some(s), actions);
    AtomicFileIsAfterEvents(s, serial);
    HeartbeatsKeepFiles(s, agent, files, last, EventsOf(serial));
  }
}
