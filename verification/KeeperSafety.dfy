/** What every handler keeps, and what whole runs of handlers guarantee an agent. */
module KeeperSafety {
  import opened Basics
  import opened Text
  import opened Keeper

  /** No file is held by two agents. */
  ghost predicate Exclusive(active: Claims) {
    forall a, b, f :: a in active && b in active && a != b && f in active[a].files ==> f !in active[b].files
  }

  /** Every entry is filed under its own agent. */
  ghost predicate Keyed(active: Claims) {
    forall owner :: owner in active ==> active[owner].agent == owner
  }

  ghost predicate Sound(s: State) { Exclusive(s.active) && Keyed(s.active) }

  ghost predicate SoundFile(file: Option<State>) { file.Some? ==> Sound(file.value) }

  // Normalizing

  lemma NormalizedIsSound(s: State, now: int)
    requires Sound(s)
    ensures Sound(NormalizedState(s, now))
  {
    var n := NormalizedState(s, now).active;
    forall a, b, f | a in n && b in n && a != b && f in n[a].files ensures f !in n[b].files {
      assert f in s.active[a].files;
    }
  }

  /** Saving is skipped only when normalizing changed nothing. */
  lemma UnsavedIsUnchanged(s: State, now: int)
    requires !MustSave(s, now)
    ensures NormalizedState(s, now) == s
  {
    assert NormalizedClaims(s.active, now, s.staleAfter) == s.active;
  }

  lemma NormalizingTwice(s: State, now: int)
    ensures NormalizedState(NormalizedState(s, now), now) == NormalizedState(s, now)
  {
    var d := WithDefaults(s, now);
    var n := NormalizedState(s, now);
    assert WithDefaults(n, now).active == n.active;
    assert Trim(DEFAULT_OWNER, Whitespace) == DEFAULT_OWNER && Trim(DEFAULT_POLICY, Whitespace) == DEFAULT_POLICY;
    assert WithDefaults(n, now) == n;
    forall owner | owner in n.active
      ensures Normalized(n.active[owner], now, n.staleAfter) == n.active[owner]
    {
      NormalizedTwice(s.active[owner], now, d.staleAfter);
    }
    assert NormalizedClaims(n.active, now, n.staleAfter) == n.active;
  }

  lemma NormalizedTwice(a: Assignment, now: int, staleAfter: int)
    ensures Normalized(Normalized(a, now, staleAfter), now, staleAfter) == Normalized(a, now, staleAfter)
  {
  }

  /** Reported as changed, a claim differs unless both its times were blank and its status was right already. */
  lemma ChangeIsReportedExactly(a: Assignment, now: int, staleAfter: int)
    ensures Normalized(a, now, staleAfter) != a <==>
            NeedsChange(a, now, staleAfter)
            && !(a.lastHeartbeatAt.Blank? && a.claimedAt.Blank? && a.status == Normalized(a, now, staleAfter).status)
  {
    var n := Normalized(a, now, staleAfter);
    if a.lastHeartbeatAt.Blank? { assert n.lastHeartbeatAt == a.claimedAt; }
  }

  // Each decision

  /** A grant overlaps nothing that is left in the file, whoever holds it. */
  lemma GrantOverlapsNothing(s: State, req: ClaimRequest, now: int)
    requires !Blocked(s.active, req)
    ensures var after := AfterClaim(s, req, now).active;
            forall owner :: owner in after && owner != req.agent ==> !FileConflict(req.files, after[owner].files)
  {
    var after := AfterClaim(s, req, now).active;
    forall owner | owner in after && owner != req.agent ensures !FileConflict(req.files, after[owner].files) {
      assert owner in AfterReaping(s.active, req);
      assert !BlockedBy(s.active, req, owner);
    }
  }

  lemma ClaimIsSound(s: State, req: ClaimRequest, now: int)
    requires Sound(s) && !Blocked(s.active, req)
    ensures Sound(AfterClaim(s, req, now))
  {
    var after := AfterClaim(s, req, now).active;
    GrantOverlapsNothing(s, req, now);
    forall a, b, f | a in after && b in after && a != b && f in after[a].files ensures f !in after[b].files {
      if a == req.agent {
        assert !FileConflict(req.files, after[b].files);
      } else if b == req.agent {
        assert !FileConflict(req.files, after[a].files);
      }
    }
  }

  /** Another agent's entry holds the prefix itself, yet does not block Mason: it is stale or expired. */
  predicate Shadowed(s: State, prefix: string, now: int) {
    exists owner :: owner in s.active && owner != MASON && prefix in s.active[owner].files
                    && (s.active[owner].status == STALE || Expired(s.active[owner], now))
  }

  /**
   Mason's workspace claim skips stale and expired entries without removing them.
   A grant therefore keeps the file exclusive exactly when no skipped entry holds the prefix.
   */
  lemma MasonGrantIsExclusiveExactly(s: State, prefix: string, guardrails: seq<string>, now: int)
    requires Sound(s) && MasonDecision(s, prefix, now) == MasonGranted
    ensures Sound(AfterMasonClaim(s, prefix, guardrails, now)) <==> !Shadowed(s, prefix, now)
  {
    var after := AfterMasonClaim(s, prefix, guardrails, now).active;
    assert StartsWith(prefix, prefix);
    if Shadowed(s, prefix, now) {
      var owner :| owner in s.active && owner != MASON && prefix in s.active[owner].files;
      assert prefix in after[MASON].files && prefix in after[owner].files;
    } else {
      forall owner | owner in s.active && owner != MASON ensures prefix !in s.active[owner].files {
        assert !MasonBlockedBy(owner, s.active[owner], prefix, now);
        if prefix in s.active[owner].files { assert PrefixOverlap(s.active[owner].files, prefix); }
      }
    }
  }

  /** Decisions that never skip a shadowing entry. */
  predicate Unshadowed(s: State, req: Request, now: int) {
    req.MasonClaim? && MasonDecision(s, req.prefix, now) == MasonGranted ==> !Shadowed(s, req.prefix, now)
  }

  lemma DecisionIsSound(s: State, req: Request, now: int)
    requires Sound(s) && Unshadowed(s, req, now)
    ensures SoundFile(Decision(s, req, now))
  {
    match req
    case Inspect =>
    case Claim(claim) => if !Blocked(s.active, claim) { ClaimIsSound(s, claim, now); }
    case Heartbeat(agent) =>
    case Release(agent) =>
    case MasonClaim(prefix, guardrails) =>
      if MasonDecision(s, prefix, now) == MasonGranted { MasonGrantIsExclusiveExactly(s, prefix, guardrails, now); }
    case MasonRelease =>
  }

  /** The whole handler, from the stored file: what it normalizes first decides whom it passes over. */
  lemma MasonHandledIsExclusiveExactly(s: State, prefix: string, guardrails: seq<string>, t1: int, t2: int)
    requires Sound(s)
    ensures var n, after := NormalizedState(s, t1), Handled(Some(s), MasonClaim(prefix, guardrails), t1, t2);
            && after.Some?
            && (Sound(after.value) <==> !(MasonDecision(n, prefix, t2) == MasonGranted && Shadowed(n, prefix, t2)))
  {
    var n := NormalizedState(s, t1);
    NormalizedIsSound(s, t1);
    if !MustSave(s, t1) { UnsavedIsUnchanged(s, t1); }
    if MasonDecision(n, prefix, t2) == MasonGranted { MasonGrantIsExclusiveExactly(n, prefix, guardrails, t2); }
  }

  /**
   Whoever holds the path Mason asks for: the handler leaves it held twice exactly when Mason is granted
   although the holder is silent for too long or its lease has run out.
   */
  lemma MasonOverridesExactly(s: State, owner: string, prefix: string, guardrails: seq<string>, t1: int, t2: int)
    requires Sound(s) && owner in s.active && owner != MASON && prefix in s.active[owner].files
    ensures var n, after := NormalizedState(s, t1), Handled(Some(s), MasonClaim(prefix, guardrails), t1, t2);
            && after.Some?
            && (!Exclusive(after.value.active) <==>
                  && MasonDecision(n, prefix, t2) == MasonGranted
                  && (OutOfTime(FilledIn(s.active[owner]), t1, n.staleAfter) || Expired(s.active[owner], t2)))
  {
    var n := NormalizedState(s, t1);
    NormalizedIsSound(s, t1);
    MasonHandledIsExclusiveExactly(s, prefix, guardrails, t1, t2);
    MasonKeepsKeys(s, prefix, guardrails, t1, t2);
    assert n.active[owner].files == s.active[owner].files;
    ShadowIsTheHolder(n, owner, prefix, t2);
  }

  /** Over an exclusive file only the holder of the path itself can be passed over. */
  lemma ShadowIsTheHolder(n: State, owner: string, prefix: string, t: int)
    requires Sound(n) && owner in n.active && owner != MASON && prefix in n.active[owner].files
    ensures Shadowed(n, prefix, t) <==> n.active[owner].status == STALE || Expired(n.active[owner], t)
  {
    if other :| other in n.active && prefix in n.active[other].files && other != owner {
      assert false;
    }
  }

  lemma MasonKeepsKeys(s: State, prefix: string, guardrails: seq<string>, t1: int, t2: int)
    requires Sound(s)
    ensures var after := Handled(Some(s), MasonClaim(prefix, guardrails), t1, t2);
            after.Some? && Keyed(after.value.active)
  {
    NormalizedIsSound(s, t1);
  }

  const WORKSPACE := "products/app"

  /** Piper claims the workspace at time 0, for ttl seconds if that is positive. */
  function PiperClaims(ttl: int): Option<State> {
    Handled(None, Claim(ClaimRequest("piper", "docs", [WORKSPACE], "file", ttl, [])), 0, 0)
  }

  lemma PiperHolds(ttl: int, t: int)
    requires t >= 0
    ensures PiperClaims(ttl).Some? && Sound(PiperClaims(ttl).value)
    ensures var s := PiperClaims(ttl).value;
            var n := NormalizedState(s, t);
            && s.active.Keys == {"piper"} && s.active["piper"].files == [WORKSPACE]
            && (OutOfTime(FilledIn(s.active["piper"]), t, n.staleAfter)
                <==> t >= DEFAULT_STALE_AFTER * NANOS_PER_SECOND)
            && (Expired(s.active["piper"], t) <==> ttl > 0 && t > ttl * NANOS_PER_SECOND)
  {
    var claim := ClaimRequest("piper", "docs", [WORKSPACE], "file", ttl, []);
    var start := NormalizedState(DefaultState(0), 0);
    assert start.active == map[] && start.staleAfter == DEFAULT_STALE_AFTER;
    assert PiperClaims(ttl) == Some(AfterClaim(start, claim, 0));
    StaleExactlyFromTheLimit(t, DEFAULT_STALE_AFTER);
  }

  /** Piper alone holds the workspace: nobody else can block Mason. */
  lemma PiperIsOverridden(ttl: int, t: int)
    requires t >= DEFAULT_STALE_AFTER * NANOS_PER_SECOND || (t >= 0 && ttl > 0 && t > ttl * NANOS_PER_SECOND)
    ensures var after := Handled(PiperClaims(ttl), MasonClaim(WORKSPACE, []), t, t);
            after.Some? && !Exclusive(after.value.active)
  {
    var s := PiperClaims(ttl).value;
    PiperHolds(ttl, t);
    assert WORKSPACE in s.active["piper"].files;
    NobodyBlocksMason(s, t);
    MasonOverridesExactly(s, "piper", WORKSPACE, [], t, t);
  }

  lemma NobodyBlocksMason(s: State, t: int)
    requires s.active.Keys == {"piper"}
    requires var n := NormalizedState(s, t);
             OutOfTime(FilledIn(s.active["piper"]), t, n.staleAfter) || Expired(s.active["piper"], t)
    ensures MasonDecision(NormalizedState(s, t), WORKSPACE, t) == MasonGranted
  {
    var n := NormalizedState(s, t);
    assert n.active.Keys == {"piper"};
    assert !MasonBlockedBy("piper", n.active["piper"], WORKSPACE, t);
  }

  /** A holder ten minutes silent, and one whose lease of a second has run out while it is active. */
  lemma MasonBreaksExclusivity()
    ensures var late :=
            Handled(PiperClaims(0), MasonClaim(WORKSPACE, []), 600 * NANOS_PER_SECOND, 600 * NANOS_PER_SECOND);
            late.Some? && !Exclusive(late.value.active)
    ensures var soon := Handled(PiperClaims(1), MasonClaim(WORKSPACE, []), 2 * NANOS_PER_SECOND, 2 * NANOS_PER_SECOND);
            soon.Some? && !Exclusive(soon.value.active)
  {
    PiperIsOverridden(0, 600 * NANOS_PER_SECOND);
    PiperIsOverridden(1, 2 * NANOS_PER_SECOND);
  }

  // When a claim leaves the file

  /** A blocked claim writes nothing beyond the normalization of what it loaded. */
  lemma BlockedClaimOnlyNormalizes(file: Option<State>, req: ClaimRequest, t1: int, t2: int)
    requires Blocked(NormalizedState(Loaded(file, t1), t1).active, req)
    ensures Handled(file, Claim(req), t1, t2) == Handled(file, Inspect, t1, t1)
    ensures file.Some? ==> Handled(file, Claim(req), t1, t2) == Some(NormalizedState(file.value, t1))
  {
    if file.Some? && !MustSave(file.value, t1) { UnsavedIsUnchanged(file.value, t1); }
  }

  /** The request took the agent's files over: granted to another agent that asked for one of them. */
  predicate TakenOver(s: State, agent: string, req: Request)
    requires agent in s.active
  {
    req.Claim? && req.claim.agent != agent && !Blocked(s.active, req.claim)
    && FileConflict(req.claim.files, s.active[agent].files)
  }

  /**
   An entry leaves the file through its own release or a granted claim on its files, and in no
   other way; and such a claim finds its heartbeat at least stale_after_seconds old.
   */
  lemma EntryLeavesExactlyWhen(s: State, agent: string, req: Request, t1: int, t2: int)
    requires agent in s.active
    ensures var n := NormalizedState(s, t1);
            var after := Handled(Some(s), req, t1, t2);
            && after.Some?
            && (agent !in after.value.active <==>
                  || req == Release(agent) || (req.MasonRelease? && agent == MASON) || TakenOver(n, agent, req))
            && (TakenOver(n, agent, req) ==> OutOfTime(FilledIn(s.active[agent]), t1, n.staleAfter))
  {
    var n := NormalizedState(s, t1);
    if !MustSave(s, t1) { UnsavedIsUnchanged(s, t1); }
    if TakenOver(n, agent, req) {
      assert !BlockedBy(n.active, req.claim, agent);
      assert n.active[agent].status == STALE;
    }
    if req.Claim? && !Blocked(n.active, req.claim) && agent != req.claim.agent {
      assert agent in AfterReaping(n.active, req.claim) <==> !Reapable(agent, n.active[agent], req.claim);
      assert !BlockedBy(n.active, req.claim, agent);
    }
  }

  // Runs of handlers, one after another

  datatype Event = Event(req: Request, t1: int, t2: int)

  function Handle(s: State, e: Event): State { Handled(Some(s), e.req, e.t1, e.t2).GetOr(s) }

  function AfterEvents(s: State, events: seq<Event>): State
    decreases events
  {
    if events == [] then s else AfterEvents(Handle(s, events[0]), events[1..])
  }

  /** The agent itself neither releases nor re-claims. */
  predicate KeepsClaim(agent: string, req: Request) {
    match req
    case Inspect => true
    case Claim(claim) => claim.agent != agent
    case Heartbeat(_) => true
    case Release(other) => other != agent
    case MasonClaim(_, _) => agent != MASON
    case MasonRelease => agent != MASON
  }

  function Beat(agent: string, e: Event, last: int): int {
    if e.req == Heartbeat(agent) then e.t2 else last
  }

  /** At every event the agent's last recorded heartbeat is less than staleAfter seconds old. */
  predicate BeatsInTime(agent: string, last: int, staleAfter: int, events: seq<Event>)
    decreases events
  {
    events == [] ||
    (&& KeepsClaim(agent, events[0].req)
     && NumSeconds(events[0].t1 - last) < staleAfter
     && BeatsInTime(agent, Beat(agent, events[0], last), staleAfter, events[1..]))
  }

  predicate HoldsSince(s: State, agent: string, files: seq<string>, last: int) {
    agent in s.active && s.active[agent].files == files && s.active[agent].lastHeartbeatAt == At(last)
  }

  lemma OneEventKeeps(s: State, agent: string, files: seq<string>, last: int, e: Event)
    requires s.staleAfter > 0 && HoldsSince(s, agent, files, last)
    requires KeepsClaim(agent, e.req) && NumSeconds(e.t1 - last) < s.staleAfter
    ensures Handle(s, e).staleAfter == s.staleAfter
    ensures HoldsSince(Handle(s, e), agent, files, Beat(agent, e, last))
  {
    EntryLeavesExactlyWhen(s, agent, e.req, e.t1, e.t2);
    var n := NormalizedState(s, e.t1);
    assert HoldsSince(n, agent, files, last);
  }

  /** An agent that heartbeats more often than stale_after_seconds never loses its files, in any run. */
  lemma {:induction false} HeartbeatsKeepFiles(s: State, agent: string, files: seq<string>, last: int,
                                               events: seq<Event>)
    requires s.staleAfter > 0 && HoldsSince(s, agent, files, last)
    requires BeatsInTime(agent, last, s.staleAfter, events)
    decreases events
    ensures agent in AfterEvents(s, events).active && AfterEvents(s, events).active[agent].files == files
  {
    if events != [] {
      OneEventKeeps(s, agent, files, last, events[0]);
      HeartbeatsKeepFiles(Handle(s, events[0]), agent, files, Beat(agent, events[0], last), events[1..]);
    }
  }

  /** Whole seconds are counted: an age below staleAfter seconds never reads as stale. */
  lemma StaleExactlyFromTheLimit(age: int, staleAfter: int)
    requires staleAfter > 0
    ensures NumSeconds(age) >= staleAfter <==> age >= staleAfter * NANOS_PER_SECOND
  {
    if age >= 0 { assert age == age / NANOS_PER_SECOND * NANOS_PER_SECOND + age % NANOS_PER_SECOND; }
  }
}
