/** A claim from its grant to its end, said in the fields of the request and of the stored file. */
module KeeperLife {
  import opened Basics
  import opened Text
  import opened Keeper
  import opened KeeperSafety
  import opened KeeperLease
  import KeeperStore

  function ClaimsOf(file: Option<State>): Claims { if file.Some? then file.value.active else map[] }

  /** Seconds of silence after which a claim is stale. */
  function LimitOf(file: Option<State>): int {
    if file.Some? && file.value.staleAfter > 0 then file.value.staleAfter else 600
  }

  /** Since its last readable sign of life the claim has been silent for the limit; one without any sign never is. */
  predicate Silent(a: Assignment, now: int, limit: int) {
    match a.lastHeartbeatAt
    case At(beat) => now - beat >= limit * 1_000_000_000
    case _ => a.claimedAt.At? && now - a.claimedAt.t >= limit * 1_000_000_000
  }

  /** A claim as an inspection leaves it: a blank heartbeat filled in, the status set, and nothing else. */
  function Inspected(a: Assignment, now: int, limit: int): Assignment {
    a.(status := if Silent(a, now, limit) then "stale" else "active",
       lastHeartbeatAt := if a.lastHeartbeatAt.Blank? then a.claimedAt else a.lastHeartbeatAt)
  }

  // One inspection

  lemma NormalizedMeans(a: Assignment, now: int, limit: int)
    requires limit > 0
    ensures Normalized(a, now, limit) == Inspected(a, now, limit)
  {
    StaleExactlyFromTheLimit(now - EffectiveHeartbeat(FilledIn(a), now), limit);
  }

  /** A missing file starts empty; otherwise only blank header fields and a limit that is not positive are replaced. */
  ghost predicate HeaderKept(file: Option<State>, after: State) {
    && after.staleAfter == LimitOf(file)
    && (file.None? ==> after.managedBy == "keeper" && after.policyMode == "exclusive_file_claims")
    && (file.Some? ==>
          && after.managedBy == (if Trim(file.value.managedBy, Whitespace) != "" then file.value.managedBy
                                 else "keeper")
          && after.policyMode == (if Trim(file.value.policyMode, Whitespace) != "" then file.value.policyMode
                                  else "exclusive_file_claims"))
  }

  /** Every inspection leaves each stored claim inspected, and its own time wherever it changed anything. */
  lemma InspectionMeans(file: Option<State>, now: int)
    ensures var after := NormalizedState(Loaded(file, now), now);
            && HeaderKept(file, after) && (file != Some(after) ==> after.updatedAt == At(now))
            && after.active.Keys == ClaimsOf(file).Keys
            && forall owner :: owner in after.active ==>
                 after.active[owner] == Inspected(ClaimsOf(file)[owner], now, LimitOf(file))
  {
    var loaded := Loaded(file, now);
    var after := NormalizedState(loaded, now);
    if !MustSave(loaded, now) { UnsavedIsUnchanged(loaded, now); }
    forall owner | owner in after.active
      ensures owner in ClaimsOf(file) && after.active[owner] == Inspected(ClaimsOf(file)[owner], now, LimitOf(file))
    {
      NormalizedMeans(ClaimsOf(file)[owner], now, LimitOf(file));
    }
  }

  /** Something in the stored file is missing or out of date. */
  ghost predicate OutOfOrder(s: State, now: int) {
    || Trim(s.managedBy, Whitespace) == "" || Trim(s.policyMode, Whitespace) == "" || s.staleAfter <= 0
    || s.updatedAt.Blank?
    || exists owner :: owner in s.active
         && (s.active[owner].lastHeartbeatAt.Blank?
             || s.active[owner].status != if Silent(s.active[owner], now, LimitOf(Some(s))) then "stale" else "active")
  }

  /** An inspection writes the file exactly when something is missing or out of date, and then dates it. */
  lemma InspectionSavesExactlyWhen(s: State, now: int)
    ensures var after := Handled(Some(s), Inspect, now, now);
            && after == Some(NormalizedState(s, now))
            && (OutOfOrder(s, now) ==> after.value.updatedAt == At(now))
            && (!OutOfOrder(s, now) ==> after.value == s)
    ensures MustSave(s, now) <==> OutOfOrder(s, now)
  {
    forall owner | owner in s.active
      ensures NeedsChange(s.active[owner], now, WithDefaults(s, now).staleAfter)
              <==> s.active[owner].lastHeartbeatAt.Blank?
                   || s.active[owner].status
                      != if Silent(s.active[owner], now, LimitOf(Some(s))) then "stale" else "active"
    {
      NormalizedMeans(s.active[owner], now, LimitOf(Some(s)));
    }
    if !MustSave(s, now) { UnsavedIsUnchanged(s, now); }
  }

  // The grant

  predicate SharesFile(a: Assignment, req: ClaimRequest) { exists f :: f in req.files && f in a.files }

  /** Nobody else who has given a sign of life holds a requested file. */
  predicate Free(file: Option<State>, req: ClaimRequest, now: int) {
    forall owner :: owner in ClaimsOf(file) && owner != req.agent && SharesFile(ClaimsOf(file)[owner], req) ==>
      Silent(ClaimsOf(file)[owner], now, LimitOf(file))
  }

  /** A claim is refused exactly when it is not free; the owner named is live and holds a requested file. */
  lemma GrantedExactlyWhenFree(file: Option<State>, req: ClaimRequest, now: int)
    ensures var active := NormalizedState(Loaded(file, now), now).active;
            && (Blocked(active, req) <==> !Free(file, req, now))
            && forall owner :: BlockedBy(active, req, owner) <==>
                 && owner in ClaimsOf(file) && owner != req.agent
                 && SharesFile(ClaimsOf(file)[owner], req) && !Silent(ClaimsOf(file)[owner], now, LimitOf(file))
  {
    var active := NormalizedState(Loaded(file, now), now).active;
    InspectionMeans(file, now);
    forall owner | owner in active && owner != req.agent
      ensures BlockedBy(active, req, owner)
              <==> SharesFile(ClaimsOf(file)[owner], req) && !Silent(ClaimsOf(file)[owner], now, LimitOf(file))
    {
      assert FileConflict(req.files, active[owner].files) <==> SharesFile(ClaimsOf(file)[owner], req);
      assert owner in AfterReaping(active, req) <==> !Reapable(owner, active[owner], req);
    }
    if Blocked(active, req) {
      var owner :| owner in active && BlockedBy(active, req, owner);
    }
    if owner :| owner in ClaimsOf(file) && owner != req.agent && SharesFile(ClaimsOf(file)[owner], req)
                && !Silent(ClaimsOf(file)[owner], now, LimitOf(file)) {
      assert BlockedBy(active, req, owner);
    }
  }

  /** The grant's file: the agent's new claim, and of the others exactly those that hold no requested file. */
  lemma GrantMeans(file: Option<State>, req: ClaimRequest, t1: int, t2: int)
    requires Free(file, req, t1)
    ensures var after, before := Handled(file, Claim(req), t1, t2), ClaimsOf(file);
            && after.Some? && HeaderKept(file, after.value) && after.value.updatedAt == At(t2)
            && (forall owner :: owner in after.value.active <==>
                  owner == req.agent || (owner in before && !SharesFile(before[owner], req)))
            && (forall owner :: owner in after.value.active && owner != req.agent ==>
                  after.value.active[owner] == Inspected(before[owner], t1, LimitOf(file)))
            && after.value.active[req.agent]
               == Assignment(req.agent, req.task, req.files, At(t2), At(t2), "active", req.resourceKind, req.ttlSecs,
                             req.guardrails,
                             if req.ttlSecs > 0 then At(t2 + req.ttlSecs * 1_000_000_000) else Blank)
  {
    GrantedExactlyWhenFree(file, req, t1);
    InspectionMeans(file, t1);
    var active := NormalizedState(Loaded(file, t1), t1).active;
    forall owner | owner in active && owner != req.agent
      ensures owner in AfterReaping(active, req) <==> !SharesFile(ClaimsOf(file)[owner], req)
    {
      assert FileConflict(req.files, active[owner].files) <==> SharesFile(ClaimsOf(file)[owner], req);
    }
  }

  // The checks that follow

  /** What check_lease may answer after its inspection at t: the map's order decides which covering claim is found. */
  ghost predicate MayAnswer(file: Option<State>, check: LeaseRequest, t: int, now: int, fold: Fold, verdict: Verdict) {
    var s := NormalizedState(Loaded(file, t), t);
    exists found :: MayFind(s, check.resource, found) && verdict == VerdictFor(s, found, check, now, fold)
  }

  /** check_lease, from the stored file. */
  method AnswerCheck(store: KeeperStore.Coordination, check: LeaseRequest, t: int, now: int, fold: Fold)
      returns (verdict: Verdict)
    modifies store
    ensures MayAnswer(old(store.file), check, t, now, fold, verdict)
    ensures store.file == Handled(old(store.file), Inspect, t, t)
  {
    var s := store.EnsureAssignmentsState(t);
    verdict := CheckLease(s, check, now, fold);
  }

  /** No other agent's path lies above or below the resource, or is the resource. */
  predicate Unrelated(file: Option<State>, agent: string, resource: string) {
    forall other, f :: other in ClaimsOf(file) && other != agent && f in ClaimsOf(file)[other].files ==>
      !StartsWith(f, resource) && !StartsWith(resource, f)
  }

  predicate Running(a: Assignment, now: int) { a.expiresAt.At? ==> now <= a.expiresAt.t }

  ghost predicate Mentions(action: string, keyword: string, fold: Fold) {
    exists i :: OccursAt(fold(action), fold(keyword), i)
  }

  lemma ViolatedMeans(keyword: string, action: string, fold: Fold)
    ensures Violated("require:" + keyword, action, fold) <==> !Mentions(action, keyword, fold)
  {
    assert ("require:" + keyword)[|REQUIRE|..] == keyword && ("require:" + keyword)[..|REQUIRE|] == REQUIRE;
    FindMeans(fold(action), fold(keyword));
  }

  lemma OnlyRequirementsAreViolated(guardrail: string, action: string, fold: Fold)
    requires Violated(guardrail, action, fold)
    ensures guardrail == "require:" + guardrail[|REQUIRE|..]
  {
    SplitAt(guardrail, |REQUIRE|);
  }

  /**
   The check of a resource that one agent holds and that nobody else's path touches. Others are refused while the
   lease runs and let through afterwards. The holder is let through while the lease runs if and only if its action
   mentions every keyword the claim requires, and the answer lists exactly the requirements that are not met.
   */
  lemma CheckMeans(file: Option<State>, owner: string, check: LeaseRequest, t: int, now: int, fold: Fold,
                   verdict: Verdict)
    requires owner in ClaimsOf(file) && check.resource in ClaimsOf(file)[owner].files
    requires Unrelated(file, owner, check.resource) && MayAnswer(file, check, t, now, fold, verdict)
    ensures var lease := ClaimsOf(file)[owner];
            && (!Running(lease, now) ==> verdict == Verdict(true, Some(lease.agent), []))
            && (Running(lease, now) ==> verdict.owner == Some(owner))
            && (Running(lease, now) && check.agent != owner ==> !verdict.allowed)
            && (Running(lease, now) && check.agent == owner ==>
                  && (verdict.allowed <==>
                        forall k :: "require:" + k in lease.guardrails ==> Mentions(check.action, k, fold))
                  && forall g :: g in verdict.violations <==>
                       exists k :: g == "require:" + k && g in lease.guardrails && !Mentions(check.action, k, fold))
  {
    var lease := ClaimsOf(file)[owner];
    InspectionMeans(file, t);
    OnlyTheHolderIsFound(file, owner, check.resource, t);
    if Running(lease, now) && check.agent == owner {
      assert verdict.violations == Violations(lease.guardrails, check.action, fold);
      ViolationsAreUnmet(lease.guardrails, check.action, fold);
    }
  }

  lemma OnlyTheHolderIsFound(file: Option<State>, owner: string, resource: string, now: int)
    requires owner in ClaimsOf(file) && resource in ClaimsOf(file)[owner].files && Unrelated(file, owner, resource)
    ensures forall found: Option<string> ::
              MayFind(NormalizedState(Loaded(file, now), now), resource, found) ==> found == Some(owner)
  {
    var s := NormalizedState(Loaded(file, now), now);
    InspectionMeans(file, now);
    assert StartsWith(resource, resource) && Covers(s.active[owner], resource);
    forall other | other in s.active && other != owner ensures !Covers(s.active[other], resource) {
      assert s.active[other].files == ClaimsOf(file)[other].files;
    }
  }

  lemma ViolationsAreUnmet(guardrails: seq<string>, action: string, fold: Fold)
    ensures var v := Violations(guardrails, action, fold);
            && (v == [] <==> forall k :: "require:" + k in guardrails ==> Mentions(action, k, fold))
            && forall g :: g in v <==> exists k :: g == "require:" + k && g in guardrails && !Mentions(action, k, fold)
  {
    var v := Violations(guardrails, action, fold);
    ViolationsMeans(guardrails, action, fold);
    forall g ensures g in v <==> exists k :: g == "require:" + k && g in guardrails && !Mentions(action, k, fold) {
      if g in v {
        OnlyRequirementsAreViolated(g, action, fold);
        ViolatedMeans(g[|REQUIRE|..], action, fold);
      }
      forall k | g == "require:" + k { ViolatedMeans(k, action, fold); }
    }
    if v != [] { assert v[0] in v; }
    forall k | "require:" + k in guardrails { ViolatedMeans(k, action, fold); }
  }

  /**
   A claim, and a check of a path in it with nothing in between. Another agent is refused if and only if the claim
   has no end or its seconds, counted from the grant, are not over. Until then the holder is bound by exactly the
   guardrails it asked for.
   */
  lemma LeaseGuardsUntilItEnds(file: Option<State>, req: ClaimRequest, t1: int, t2: int,
                               check: LeaseRequest, t: int, now: int, fold: Fold, verdict: Verdict)
    requires Free(file, req, t1) && check.resource in req.files
    requires var after := Handled(file, Claim(req), t1, t2);
             Unrelated(after, req.agent, check.resource) && MayAnswer(after, check, t, now, fold, verdict)
    ensures check.agent != req.agent ==>
              (!verdict.allowed <==> req.ttlSecs <= 0 || now <= t2 + req.ttlSecs * 1_000_000_000)
    ensures check.agent == req.agent && (req.ttlSecs <= 0 || now <= t2 + req.ttlSecs * 1_000_000_000) ==>
              (verdict.allowed <==> forall k :: "require:" + k in req.guardrails ==> Mentions(check.action, k, fold))
  {
    GrantMeans(file, req, t1, t2);
    CheckMeans(Handled(file, Claim(req), t1, t2), req.agent, check, t, now, fold, verdict);
  }

  // The other requests

  /** A heartbeat renews its own claim at t2 and inspects the others; without a claim it is an inspection. */
  lemma HeartbeatMeans(file: Option<State>, agent: string, t1: int, t2: int)
    ensures var after, before := Handled(file, Heartbeat(agent), t1, t2), ClaimsOf(file);
            if agent !in before then after == Handled(file, Inspect, t1, t1)
            else
              && after.Some? && HeaderKept(file, after.value) && after.value.updatedAt == At(t2)
              && after.value.active.Keys == before.Keys
              && after.value.active[agent] == before[agent].(status := "active", lastHeartbeatAt := At(t2))
              && forall owner :: owner in before && owner != agent ==>
                   after.value.active[owner] == Inspected(before[owner], t1, LimitOf(file))
  {
    InspectionMeans(file, t1);
  }

  /** A release takes exactly the agent's own claim out. */
  lemma ReleaseMeans(file: Option<State>, agent: string, t1: int, t2: int)
    ensures var after, before := Handled(file, Release(agent), t1, t2), ClaimsOf(file);
            && after.Some? && HeaderKept(file, after.value) && after.value.updatedAt == At(t2)
            && after.value.active.Keys == before.Keys - {agent}
            && forall owner :: owner in before && owner != agent ==>
                 after.value.active[owner] == Inspected(before[owner], t1, LimitOf(file))
  {
    InspectionMeans(file, t1);
  }

  /** Mason's release does the same for Mason's claim, and is an inspection when there is none. */
  lemma MasonReleaseMeans(file: Option<State>, t1: int, t2: int)
    ensures Handled(file, MasonRelease, t1, t2)
         == Handled(file, if "mason" in ClaimsOf(file) then Release("mason") else Inspect, t1, t2)
  {
    InspectionMeans(file, t1);
  }

  /** Some path of the claim lies above or below the prefix, or is the prefix. */
  predicate Touches(a: Assignment, prefix: string) {
    exists f :: f in a.files && (StartsWith(f, prefix) || StartsWith(prefix, f))
  }

  /** Mason is granted a workspace: it holds no live claim with files, and no live, running claim touches the prefix. */
  predicate FreeForMason(file: Option<State>, prefix: string, t1: int, t2: int) {
    forall owner :: owner in ClaimsOf(file) && !Silent(ClaimsOf(file)[owner], t1, LimitOf(file)) ==>
      if owner == "mason" then ClaimsOf(file)[owner].files == []
      else !Touches(ClaimsOf(file)[owner], prefix) || !Running(ClaimsOf(file)[owner], t2)
  }

  /** Otherwise Mason keeps a live claim of its own that touches the prefix, or is turned away: the file stays. */
  lemma MasonIsGrantedExactlyWhen(file: Option<State>, prefix: string, guardrails: seq<string>, t1: int, t2: int)
    ensures var after, before := Handled(file, MasonClaim(prefix, guardrails), t1, t2), ClaimsOf(file);
            if !FreeForMason(file, prefix, t1, t2) then after == Handled(file, Inspect, t1, t1)
            else
              && after.Some? && HeaderKept(file, after.value) && after.value.updatedAt == At(t2)
              && after.value.active.Keys == before.Keys + {"mason"}
              && after.value.active["mason"]
                 == Assignment("mason", "owns staged product workspace", [prefix], At(t2), At(t2), "active",
                               "workspace", LimitOf(file), guardrails, At(t2 + LimitOf(file) * 1_000_000_000))
              && forall owner :: owner in before && owner != "mason" ==>
                   after.value.active[owner] == Inspected(before[owner], t1, LimitOf(file))
  {
    MasonDecidesByThat(file, prefix, t1, t2);
    if FreeForMason(file, prefix, t1, t2) {
      MasonGrantMeans(file, prefix, guardrails, t1, t2);
    } else {
      InspectionIsNormalization(file, t1);
    }
  }

  lemma InspectionIsNormalization(file: Option<State>, t: int)
    ensures Handled(file, Inspect, t, t)
         == if MustSave(Loaded(file, t), t) then Some(NormalizedState(Loaded(file, t), t)) else file
  {
  }

  lemma MasonGrantMeans(file: Option<State>, prefix: string, guardrails: seq<string>, t1: int, t2: int)
    requires MasonDecision(NormalizedState(Loaded(file, t1), t1), prefix, t2) == MasonGranted
    ensures var after, before := Handled(file, MasonClaim(prefix, guardrails), t1, t2), ClaimsOf(file);
            && after.Some? && HeaderKept(file, after.value) && after.value.updatedAt == At(t2)
            && after.value.active.Keys == before.Keys + {"mason"}
            && after.value.active["mason"]
               == Assignment("mason", "owns staged product workspace", [prefix], At(t2), At(t2), "active",
                             "workspace", LimitOf(file), guardrails, At(t2 + LimitOf(file) * 1_000_000_000))
            && forall owner :: owner in before && owner != "mason" ==>
                 after.value.active[owner] == Inspected(before[owner], t1, LimitOf(file))
  {
    InspectionMeans(file, t1);
    var s := NormalizedState(Loaded(file, t1), t1);
    assert Handled(file, MasonClaim(prefix, guardrails), t1, t2) == Some(AfterMasonClaim(s, prefix, guardrails, t2));
  }

  lemma MasonDecidesByThat(file: Option<State>, prefix: string, t1: int, t2: int)
    ensures MasonDecision(NormalizedState(Loaded(file, t1), t1), prefix, t2) == MasonGranted
            <==> FreeForMason(file, prefix, t1, t2)
  {
    var s := NormalizedState(Loaded(file, t1), t1);
    InspectionMeans(file, t1);
    forall owner | owner in s.active
      ensures MasonBlockedBy(owner, s.active[owner], prefix, t2)
              <==> owner != MASON && !Silent(ClaimsOf(file)[owner], t1, LimitOf(file))
                   && Touches(ClaimsOf(file)[owner], prefix) && Running(ClaimsOf(file)[owner], t2)
    {
      BlocksMason(ClaimsOf(file)[owner], owner, prefix, t1, t2, LimitOf(file));
    }
    if MASON in s.active { BlocksMason(ClaimsOf(file)[MASON], MASON, prefix, t1, t2, LimitOf(file)); }
  }

  lemma BlocksMason(a: Assignment, owner: string, prefix: string, t1: int, t2: int, limit: int)
    ensures var seen := Inspected(a, t1, limit);
            && (PrefixOverlap(seen.files, prefix) <==> Touches(a, prefix))
            && (Touches(a, prefix) ==> a.files != []) && (seen.status == STALE <==> Silent(a, t1, limit))
            && (MasonBlockedBy(owner, seen, prefix, t2) <==>
                  owner != MASON && !Silent(a, t1, limit) && Touches(a, prefix) && Running(a, t2))
  {
  }

  /** Mason's answer where it is not granted: it keeps the claim it has exactly when that one is live and touches. */
  lemma MasonKeepsExactlyWhen(file: Option<State>, prefix: string, t1: int, t2: int)
    ensures MasonDecision(NormalizedState(Loaded(file, t1), t1), prefix, t2) == MasonKept <==>
              && "mason" in ClaimsOf(file) && !Silent(ClaimsOf(file)["mason"], t1, LimitOf(file))
              && Touches(ClaimsOf(file)["mason"], prefix)
  {
    InspectionMeans(file, t1);
  }
}
