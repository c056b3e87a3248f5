/** When two claims on one file are both granted: exactly in the runs that lose an update. */
module KeeperRace {
  import opened Basics
  import opened Keeper
  import opened KeeperSafety
  import opened KeeperProtocol
  import opened KeeperSerial

  /** Two agents ask for a file that nobody else holds, over a file with nothing to normalize. */
  predicate Rivals(s: State, c1: ClaimRequest, c2: ClaimRequest, t: int) {
    BothFree(s, c1, c2, t) && FileConflict(c1.files, c2.files)
  }

  /** Any schedule of the two claims, at one instant: arrivals, reads, decisions and writes in any order and number. */
  predicate OnlyRivals(actions: seq<Action>, c1: ClaimRequest, c2: ClaimRequest, t: int) {
    forall i :: 0 <= i < |actions| ==> RivalAction(actions[i], c1, c2, t)
  }

  predicate RivalAction(a: Action, c1: ClaimRequest, c2: ClaimRequest, t: int) {
    && (a.Arrive? ==> (a.id == 1 && a.req == Claim(c1)) || (a.id == 2 && a.req == Claim(c2)))
    && (a.Read? || a.Decide? ==> a.now == t)
  }

  predicate Granted(sys: System, id: nat) { id in sys.flights && sys.flights[id].stage == Done(true) }

  /** A claim on the file s and the state its grant makes of s; a rival at `id`. */
  datatype Rival = Rival(id: nat, claim: ClaimRequest, grant: State)

  /** How far a rival has come: on the first file, or on the one the other rival's grant has left. */
  predicate OnTheWay(sys: System, s: State, me: Rival, other: Rival) {
    me.id in sys.flights ==>
      var f := sys.flights[me.id];
      && f.req == Claim(me.claim)
      && match f.stage {
           case Waiting => true
           case Dirty(_) => false
           case Ready(x) => f.seen == Some(x) && (x == s || (Granted(sys, other.id) && x == other.grant))
           case Writing(next) => f.seen == Some(s) && next == me.grant
           case Done(answered) => answered || Granted(sys, other.id)
         }
  }

  /** Nothing else is in flight, at most one rival has been granted, and the file is what that left. */
  predicate Racing(sys: System, s: State, me: Rival, other: Rival) {
    && me.id != other.id && sys.flights.Keys <= {me.id, other.id}
    && OnTheWay(sys, s, me, other) && OnTheWay(sys, s, other, me)
    && !(Granted(sys, me.id) && Granted(sys, other.id))
    && sys.file == Some(if Granted(sys, me.id) then me.grant else if Granted(sys, other.id) then other.grant else s)
  }

  /** What the two rivals read and decide: on s they are granted, on each other's grant they are refused. */
  predicate Opposed(s: State, me: Rival, other: Rival, t: int) {
    && Settles(s, t) && Settles(me.grant, t) && Settles(other.grant, t)
    && Decision(s, Claim(me.claim), t) == Some(me.grant) && Decision(s, Claim(other.claim), t) == Some(other.grant)
    && Decision(me.grant, Claim(other.claim), t) == None && Decision(other.grant, Claim(me.claim), t) == None
  }

  /** Reading finds nothing to normalize. */
  predicate Settles(s: State, t: int) { !MustSave(s, t) && NormalizedState(s, t) == s }

  lemma RivalsAreOpposed(s: State, c1: ClaimRequest, c2: ClaimRequest, t: int)
    requires Rivals(s, c1, c2, t)
    ensures Opposed(s, Rival(1, c1, AfterClaim(s, c1, t)), Rival(2, c2, AfterClaim(s, c2, t)), t)
  {
    GrantShutsOut(s, c1, c2, t);
    GrantShutsOut(s, c2, c1, t);
  }

  lemma GrantShutsOut(s: State, c1: ClaimRequest, c2: ClaimRequest, t: int)
    requires Rivals(s, c1, c2, t)
    ensures Settles(AfterClaim(s, c1, t), t) && Blocked(AfterClaim(s, c1, t).active, c2) && Settles(s, t)
  {
    GrantStaysNormalized(s, c1, t);
    UnsavedIsUnchanged(AfterClaim(s, c1, t), t);
    UnsavedIsUnchanged(s, t);
    BlockedOnlyByGrant(s, c1, c2, t);
  }

  /** A step of the race grants both rivals exactly when it is not clean, and otherwise the race goes on. */
  ghost predicate StepsOn(sys: System, a: Action, s: State, me: Rival, other: Rival) {
    var next := Act(sys, a);
    if CleanStep(sys, a) then Racing(next, s, me, other) else Granted(next, me.id) && Granted(next, other.id)
  }

  lemma ReadSteps(sys: System, t: int, s: State, me: Rival, other: Rival)
    requires Racing(sys, s, me, other) && Settles(s, t) && Settles(other.grant, t) && Settles(me.grant, t)
    ensures StepsOn(sys, Read(me.id, t), s, me, other)
  {
    assert Loaded(sys.file, t) == sys.file.value;
  }

  lemma DecideSteps(sys: System, t: int, s: State, me: Rival, other: Rival)
    requires Racing(sys, s, me, other)
    requires Decision(s, Claim(me.claim), t) == Some(me.grant) && Decision(other.grant, Claim(me.claim), t) == None
    ensures StepsOn(sys, Decide(me.id, t), s, me, other)
  {
  }

  lemma WriteSteps(sys: System, s: State, me: Rival, other: Rival)
    requires Racing(sys, s, me, other) && other.grant != s
    ensures StepsOn(sys, WriteFinal(me.id), s, me, other)
    ensures StepsOn(sys, WriteNormalized(me.id), s, me, other)
  {
  }

  lemma ArriveSteps(sys: System, s: State, me: Rival, other: Rival)
    requires Racing(sys, s, me, other)
    ensures StepsOn(sys, Arrive(me.id, Claim(me.claim)), s, me, other)
  {
  }

  lemma RivalSteps(sys: System, a: Action, s: State, me: Rival, other: Rival, t: int)
    requires Racing(sys, s, me, other) && Opposed(s, me, other, t) && a.id == me.id
    requires (a.Arrive? ==> a.req == Claim(me.claim)) && (a.Read? || a.Decide? ==> a.now == t)
    ensures StepsOn(sys, a, s, me, other)
  {
    match a
    case Arrive(_, _) => ArriveSteps(sys, s, me, other);
    case Read(_, _) => ReadSteps(sys, t, s, me, other);
    case Decide(_, _) => DecideSteps(sys, t, s, me, other);
    case _ => WriteSteps(sys, s, me, other);
  }

  lemma RaceStep(sys: System, a: Action, s: State, me: Rival, other: Rival, t: int)
    requires Racing(sys, s, me, other) && Opposed(s, me, other, t) && a.id in {me.id, other.id}
    requires a.Arrive? ==> a.req == Claim(if a.id == me.id then me.claim else other.claim)
    requires a.Read? || a.Decide? ==> a.now == t
    ensures StepsOn(sys, a, s, me, other)
  {
    if a.id == me.id {
      RivalSteps(sys, a, s, me, other, t);
    } else {
      RivalSteps(sys, a, s, other, me, t);
    }
  }

  lemma StrangerSteps(sys: System, a: Action, s: State, me: Rival, other: Rival)
    requires Racing(sys, s, me, other) && a.id !in {me.id, other.id} && !a.Arrive?
    ensures StepsOn(sys, a, s, me, other)
  {
  }

  /** A grant is final. */
  lemma {:induction false} GrantedForGood(sys: System, actions: seq<Action>, id: nat)
    requires Granted(sys, id)
    ensures Granted(Run(sys, actions), id)
    decreases actions
  {
    if actions != [] { GrantedForGood(Act(sys, actions[0]), actions[1..], id); }
  }

  lemma {:induction false} RaceRuns(sys: System, actions: seq<Action>, s: State, me: Rival, other: Rival, t: int)
    requires Racing(sys, s, me, other) && Opposed(s, me, other, t) && me.id == 1 && other.id == 2
    requires OnlyRivals(actions, me.claim, other.claim, t)
    ensures var end := Run(sys, actions); Granted(end, 1) && Granted(end, 2) <==> !CleanRun(sys, actions)
    decreases actions
  {
    if actions != [] {
      var a, next := actions[0], Act(sys, actions[0]);
      assert RivalAction(a, me.claim, other.claim, t);
      if a.id in {1, 2} { RaceStep(sys, a, s, me, other, t); } else { StrangerSteps(sys, a, s, me, other); }
      if CleanStep(sys, a) {
        RaceRuns(next, actions[1..], s, me, other, t);
      } else {
        GrantedForGood(next, actions[1..], 1);
        GrantedForGood(next, actions[1..], 2);
      }
    }
  }

  /**
   In every schedule of two rival claims, both are granted exactly when a write finds a file its request has not
   seen.
   */
  lemma BothGrantedExactlyWhenUpdateIsLost(s: State, c1: ClaimRequest, c2: ClaimRequest, t: int, actions: seq<Action>)
    requires Rivals(s, c1, c2, t) && OnlyRivals(actions, c1, c2, t)
    ensures var end := Run(Start(Some(s)), actions);
            WasGranted(end, 1) && WasGranted(end, 2) <==> !CleanRun(Start(Some(s)), actions)
  {
    RivalsAreOpposed(s, c1, c2, t);
    RaceRuns(Start(Some(s)), actions, s, Rival(1, c1, AfterClaim(s, c1, t)), Rival(2, c2, AfterClaim(s, c2, t)), t);
    RivalsStayClaims(Start(Some(s)), actions, c1, c2, t);
  }

  lemma {:induction false} RivalsStayClaims(sys: System, actions: seq<Action>, c1: ClaimRequest, c2: ClaimRequest,
                                            t: int)
    requires OnlyRivals(actions, c1, c2, t) && forall id :: id in sys.flights ==> sys.flights[id].req.Claim?
    ensures forall id :: id in Run(sys, actions).flights ==> Run(sys, actions).flights[id].req.Claim?
    decreases actions
  {
    if actions != [] { RivalsStayClaims(Act(sys, actions[0]), actions[1..], c1, c2, t); }
  }

  /**
   Reading both before either writes is such a run, and no serial order: in either one the second claim is refused.
   */
  lemma RaceIsNotSerial(s: State, c1: ClaimRequest, c2: ClaimRequest, t: int)
    requires Rivals(s, c1, c2, t)
    ensures var end := Run(Start(Some(s)), Race(c1, c2, t)); WasGranted(end, 1) && WasGranted(end, 2)
    ensures !CleanRun(Start(Some(s)), Race(c1, c2, t))
    ensures !Saves(Handled(Some(s), Claim(c1), t, t), Event(Claim(c2), t, t))
    ensures !Saves(Handled(Some(s), Claim(c2), t, t), Event(Claim(c1), t, t))
  {
    RaceGrantsBoth(s, c1, c2, t);
    BothGrantedExactlyWhenUpdateIsLost(s, c1, c2, t, Race(c1, c2, t));
    SecondIsRefused(s, c1, c2, t);
    SecondIsRefused(s, c2, c1, t);
  }

  lemma SecondIsRefused(s: State, c1: ClaimRequest, c2: ClaimRequest, t: int)
    requires Rivals(s, c1, c2, t)
    ensures !Saves(Handled(Some(s), Claim(c1), t, t), Event(Claim(c2), t, t))
  {
    GrantShutsOut(s, c1, c2, t);
  }
}
