/**
 Concurrent requests on the unlocked coordination file. Between its read and its
 writes a handler works on a private copy, so any number of reads and writes of
 other requests can fall in between.
 */
module KeeperProtocol {
  import opened Basics
  import opened Keeper
  import opened KeeperSafety

  datatype Stage =
    | Waiting
    | Dirty(state: State)               // normalized, and the normalization is still to be saved
    | Ready(state: State)               // about to decide on this copy
    | Writing(next: State)              // decided; the last save is still to come
    | Done(answered: bool)              // answered, with or without a last save

  /** A request in flight, with the file it read, the file as it last left or saw it, and its clock readings. */
  datatype Flight = Flight(req: Request, stage: Stage, read: Option<State>, seen: Option<State>, t1: int, t2: int)

  datatype System = System(file: Option<State>, flights: map<nat, Flight>)

  datatype Action =
    | Arrive(id: nat, req: Request)
    | Read(id: nat, now: int)
    | WriteNormalized(id: nat)
    | Decide(id: nat, now: int)
    | WriteFinal(id: nat)

  /** One step of the system; an action that is not enabled leaves it unchanged. */
  function Act(sys: System, a: Action): System {
    match a
    case Arrive(id, req) =>
      if id in sys.flights then sys
      else sys.(flights := sys.flights[id := Flight(req, Waiting, None, None, 0, 0)])
    case Read(id, now) =>
      if id in sys.flights && sys.flights[id].stage.Waiting? then
        var loaded := Loaded(sys.file, now);
        var n := NormalizedState(loaded, now);
        var stage := if MustSave(loaded, now) then Dirty(n) else Ready(n);
        var f := sys.flights[id].(stage := stage, read := sys.file, seen := sys.file, t1 := now);
        sys.(flights := sys.flights[id := f])
      else sys
    case WriteNormalized(id) =>
      if id in sys.flights && sys.flights[id].stage.Dirty? then
        var n := sys.flights[id].stage.state;
        System(Some(n), sys.flights[id := sys.flights[id].(stage := Ready(n), seen := Some(n))])
      else sys
    case Decide(id, now) =>
      if id in sys.flights && sys.flights[id].stage.Ready? then
        var f := sys.flights[id];
        var next := Decision(f.stage.state, f.req, now);
        var stage := if next.Some? then Writing(next.value) else Done(false);
        sys.(flights := sys.flights[id := f.(stage := stage, t2 := now)])
      else sys
    case WriteFinal(id) =>
      if id in sys.flights && sys.flights[id].stage.Writing? then
        System(Some(sys.flights[id].stage.next), sys.flights[id := sys.flights[id].(stage := Done(true))])
      else sys
  }

  function Run(sys: System, actions: seq<Action>): System
    decreases actions
  {
    if actions == [] then sys else Run(Act(sys, actions[0]), actions[1..])
  }

  // Exclusive ownership over every interleaving

  ghost predicate SoundStage(stage: Stage) {
    match stage
    case Dirty(state) => Sound(state)
    case Ready(state) => Sound(state)
    case Writing(next) => Sound(next)
    case _ => true
  }

  ghost predicate SoundSystem(sys: System) {
    SoundFile(sys.file) && forall id :: id in sys.flights ==> SoundStage(sys.flights[id].stage)
  }

  /** The step does not let Mason claim a workspace over a skipped entry. */
  predicate UnshadowedStep(sys: System, a: Action) {
    a.Decide? && a.id in sys.flights && sys.flights[a.id].stage.Ready? ==>
      Unshadowed(sys.flights[a.id].stage.state, sys.flights[a.id].req, a.now)
  }

  predicate UnshadowedRun(sys: System, actions: seq<Action>)
    decreases actions
  {
    actions == [] || (UnshadowedStep(sys, actions[0]) && UnshadowedRun(Act(sys, actions[0]), actions[1..]))
  }

  lemma StepIsSound(sys: System, a: Action)
    requires SoundSystem(sys) && UnshadowedStep(sys, a)
    ensures SoundSystem(Act(sys, a))
  {
    match a
    case Arrive(id, req) =>
    case Read(id, now) => NormalizedIsSound(Loaded(sys.file, now), now);
    case WriteNormalized(id) =>
    case Decide(id, now) =>
      if id in sys.flights && sys.flights[id].stage.Ready? {
        DecisionIsSound(sys.flights[id].stage.state, sys.flights[id].req, now);
      }
    case WriteFinal(id) =>
  }

  /** Whatever the interleaving, the stored map keeps disjoint file sets and its own keys. */
  lemma {:induction false} EveryInterleavingIsExclusive(sys: System, actions: seq<Action>)
    requires SoundSystem(sys) && UnshadowedRun(sys, actions)
    ensures SoundSystem(Run(sys, actions))
    decreases actions
  {
    if actions != [] {
      StepIsSound(sys, actions[0]);
      EveryInterleavingIsExclusive(Act(sys, actions[0]), actions[1..]);
    }
  }

  /** Only the HTTP requests: nobody takes Mason's workspace lease. */
  predicate HttpOnly(sys: System, actions: seq<Action>) {
    && (forall id :: id in sys.flights ==> !sys.flights[id].req.MasonClaim?)
    && (forall i :: 0 <= i < |actions| && actions[i].Arrive? ==> !actions[i].req.MasonClaim?)
  }

  lemma {:induction false} HttpRunsAreUnshadowed(sys: System, actions: seq<Action>)
    requires HttpOnly(sys, actions)
    ensures UnshadowedRun(sys, actions)
    decreases actions
  {
    if actions != [] {
      var a := actions[0];
      assert a == actions[0];
      assert HttpOnly(Act(sys, a), actions[1..]) by {
        forall i | 0 <= i < |actions[1..]| && actions[1..][i].Arrive? ensures !actions[1..][i].req.MasonClaim? {
          assert actions[1..][i] == actions[i + 1];
        }
      }
      HttpRunsAreUnshadowed(Act(sys, a), actions[1..]);
    }
  }

  lemma HttpRunsAreExclusive(file: Option<State>, actions: seq<Action>)
    requires SoundFile(file) && HttpOnly(System(file, map[]), actions)
    ensures SoundFile(Run(System(file, map[]), actions).file)
  {
    HttpRunsAreUnshadowed(System(file, map[]), actions);
    EveryInterleavingIsExclusive(System(file, map[]), actions);
  }

  // Granted answers can overlap all the same

  /** Both read, then both write. */
  function Race(c1: ClaimRequest, c2: ClaimRequest, t: int): seq<Action> {
    [Arrive(1, Claim(c1)), Arrive(2, Claim(c2)), Read(1, t), Read(2, t), Decide(1, t), Decide(2, t),
     WriteFinal(1), WriteFinal(2)]
  }

  /** The first finishes before the second reads. */
  function OneAfterAnother(c1: ClaimRequest, c2: ClaimRequest, t: int): seq<Action> {
    [Arrive(1, Claim(c1)), Arrive(2, Claim(c2)), Read(1, t), Decide(1, t), WriteFinal(1),
     Read(2, t), Decide(2, t), WriteFinal(2)]
  }

  predicate WasGranted(sys: System, id: nat) {
    id in sys.flights && sys.flights[id].req.Claim? && sys.flights[id].stage == Done(true)
  }

  /** Nothing to normalize in the file, and each of two agents could have its claim. */
  predicate BothFree(s: State, c1: ClaimRequest, c2: ClaimRequest, t: int) {
    && !MustSave(s, t) && s.staleAfter > 0 && c1.agent != c2.agent
    && !Blocked(s.active, c1) && !Blocked(s.active, c2)
  }

  function Steps(sys: System, a: Action, b: Action, c: Action, d: Action): System {
    Act(Act(Act(Act(sys, a), b), c), d)
  }

  lemma EightSteps(sys: System, actions: seq<Action>)
    requires |actions| == 8
    ensures Run(sys, actions) == Steps(Steps(sys, actions[0], actions[1], actions[2], actions[3]),
                                       actions[4], actions[5], actions[6], actions[7])
  {
    FourMore(sys, actions);
    FourMore(Steps(sys, actions[0], actions[1], actions[2], actions[3]), actions[4..]);
    assert actions[4..][4..] == [];
  }

  lemma FourMore(sys: System, actions: seq<Action>)
    requires |actions| >= 4
    ensures Run(sys, actions) == Run(Steps(sys, actions[0], actions[1], actions[2], actions[3]), actions[4..])
  {
    assert actions[1..][1..] == actions[2..];
    assert actions[2..][1..] == actions[3..];
    assert actions[3..][1..] == actions[4..];
    assert Run(sys, actions) == Run(Act(sys, actions[0]), actions[1..]);
    assert Run(Act(sys, actions[0]), actions[1..]) == Run(Act(Act(sys, actions[0]), actions[1]), actions[2..]);
    assert Run(Act(Act(sys, actions[0]), actions[1]), actions[2..])
        == Run(Act(Act(Act(sys, actions[0]), actions[1]), actions[2]), actions[3..]);
  }

  /** Racing claims are both granted even when they overlap, and the first one's claim is lost. */
  lemma RaceGrantsBoth(s: State, c1: ClaimRequest, c2: ClaimRequest, t: int)
    requires BothFree(s, c1, c2, t)
    ensures var end := Run(System(Some(s), map[]), Race(c1, c2, t));
            WasGranted(end, 1) && WasGranted(end, 2) && end.file == Some(AfterClaim(s, c2, t))
  {
    UnsavedIsUnchanged(s, t);
    EightSteps(System(Some(s), map[]), Race(c1, c2, t));
  }

  /** One after the other, the second is granted exactly when it asks for none of the first one's files. */
  lemma SerialGrantsExactlyDisjoint(s: State, c1: ClaimRequest, c2: ClaimRequest, t: int)
    requires BothFree(s, c1, c2, t)
    ensures var end := Run(System(Some(s), map[]), OneAfterAnother(c1, c2, t));
            && WasGranted(end, 1)
            && (WasGranted(end, 2) <==> !FileConflict(c2.files, c1.files))
            && (WasGranted(end, 2) ==> end.file == Some(AfterClaim(AfterClaim(s, c1, t), c2, t)))
  {
    var half := SerialHalf(s, c1, c2, t);
    EightSteps(System(Some(s), map[]), OneAfterAnother(c1, c2, t));
    SecondHalf(half, s, c1, c2, t);
    BlockedOnlyByGrant(s, c1, c2, t);
  }

  lemma SecondHalf(half: System, s: State, c1: ClaimRequest, c2: ClaimRequest, t: int)
    requires BothFree(s, c1, c2, t) && half.flights.Keys == {1, 2} && half.flights[1].req == Claim(c1)
    requires half.flights[1].stage == Writing(AfterClaim(s, c1, t))
    requires half.flights[2].req == Claim(c2) && half.flights[2].stage == Waiting
    ensures var end, mid := Steps(half, WriteFinal(1), Read(2, t), Decide(2, t), WriteFinal(2)), AfterClaim(s, c1, t);
            && WasGranted(end, 1) && (WasGranted(end, 2) <==> !Blocked(mid.active, c2))
            && (WasGranted(end, 2) ==> end.file == Some(AfterClaim(mid, c2, t)))
  {
    GrantStaysNormalized(s, c1, t);
    SecondClaims(Act(half, WriteFinal(1)), AfterClaim(s, c1, t), c2, t);
  }

  /** A claim handled in one go, over a file with nothing to normalize. */
  lemma SecondClaims(sys: System, mid: State, c2: ClaimRequest, t: int)
    requires sys.file == Some(mid) && !MustSave(mid, t) && WasGranted(sys, 1)
    requires 2 in sys.flights && sys.flights[2].req == Claim(c2) && sys.flights[2].stage == Waiting
    ensures var end := Act(Act(Act(sys, Read(2, t)), Decide(2, t)), WriteFinal(2));
            && WasGranted(end, 1) && (WasGranted(end, 2) <==> !Blocked(mid.active, c2))
            && (WasGranted(end, 2) ==> end.file == Some(AfterClaim(mid, c2, t)))
  {
    UnsavedIsUnchanged(mid, t);
  }

  /** Halfway, the first claim is decided and the second has not read yet. */
  lemma SerialHalf(s: State, c1: ClaimRequest, c2: ClaimRequest, t: int) returns (half: System)
    requires BothFree(s, c1, c2, t)
    ensures half == Steps(System(Some(s), map[]), Arrive(1, Claim(c1)), Arrive(2, Claim(c2)), Read(1, t), Decide(1, t))
    ensures half.file == Some(s) && half.flights.Keys == {1, 2}
    ensures half.flights[1].req == Claim(c1) && half.flights[1].stage == Writing(AfterClaim(s, c1, t))
    ensures half.flights[2].req == Claim(c2) && half.flights[2].stage == Waiting
  {
    UnsavedIsUnchanged(s, t);
    half := Steps(System(Some(s), map[]), Arrive(1, Claim(c1)), Arrive(2, Claim(c2)), Read(1, t), Decide(1, t));
  }

  lemma GrantStaysNormalized(s: State, c: ClaimRequest, t: int)
    requires !MustSave(s, t) && s.staleAfter > 0
    ensures !MustSave(AfterClaim(s, c, t), t)
  {
    var mid := AfterClaim(s, c, t);
    assert !NeedsChange(GrantedAssignment(c, t), t, s.staleAfter);
    forall owner | owner in mid.active ensures !NeedsChange(mid.active[owner], t, s.staleAfter) {
      if owner != c.agent { assert mid.active[owner] == s.active[owner]; }
    }
  }

  lemma BlockedOnlyByGrant(s: State, c1: ClaimRequest, c2: ClaimRequest, t: int)
    requires BothFree(s, c1, c2, t)
    ensures Blocked(AfterClaim(s, c1, t).active, c2) <==> FileConflict(c2.files, c1.files)
  {
    var mid := AfterClaim(s, c1, t).active;
    assert c1.agent in AfterReaping(mid, c2);
    assert BlockedBy(mid, c2, c1.agent) <==> FileConflict(c2.files, c1.files);
    forall owner | owner in mid && owner != c1.agent ensures !BlockedBy(mid, c2, owner) {
      assert mid[owner] == s.active[owner];
      assert !BlockedBy(s.active, c2, owner);
    }
  }
}
