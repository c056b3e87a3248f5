/** check_lease: may an agent act on a resource, given the leases whose paths cover it? */
module KeeperLease {
  import opened Basics
  import opened Text
  import opened Keeper
  import opened KeeperSafety

  const REQUIRE := "require:"

  datatype LeaseRequest = LeaseRequest(agent: string, resource: string, action: string)

  datatype Verdict = Verdict(allowed: bool, owner: Option<string>, violations: seq<string>)

  /** How the standard library folds letter case. */
  type Fold = string -> string

  /** A "require:" guardrail whose keyword the action does not mention, letter case aside. */
  predicate Violated(guardrail: string, action: string, fold: Fold) {
    StartsWith(guardrail, REQUIRE) && !Contains(fold(action), fold(guardrail[|REQUIRE|..]))
  }

  function Violations(guardrails: seq<string>, action: string, fold: Fold): seq<string> {
    if guardrails == [] then []
    else
      var init := Violations(guardrails[..|guardrails| - 1], action, fold);
      var last := guardrails[|guardrails| - 1];
      if Violated(last, action, fold) then init + [last] else init
  }

  predicate Covers(a: Assignment, resource: string) { PrefixOverlap(a.files, resource) }

  /** The answer once the map has yielded the covering entry, or none. */
  function VerdictFor(s: State, found: Option<string>, req: LeaseRequest, now: int, fold: Fold): Verdict
    requires found.Some? ==> found.value in s.active
  {
    if found.None? then Verdict(true, None, [])
    else
      var owner, a := found.value, s.active[found.value];
      if Expired(a, now) then Verdict(true, Some(a.agent), [])
      else if owner != req.agent then Verdict(false, Some(owner), [req.resource])
      else
        var violations := Violations(a.guardrails, req.action, fold);
        Verdict(violations == [], Some(owner), violations)
  }

  /** The entries the search may yield: any one that covers the resource, or none when none does. */
  predicate MayFind(s: State, resource: string, found: Option<string>) {
    match found
    case Some(owner) => owner in s.active && Covers(s.active[owner], resource)
    case None => forall owner :: owner in s.active ==> !Covers(s.active[owner], resource)
  }

  method CheckLease(s: State, req: LeaseRequest, now: int, fold: Fold) returns (verdict: Verdict)
    ensures exists found :: MayFind(s, req.resource, found) && verdict == VerdictFor(s, found, req, now, fold)
  {
    var entry := FindCovering(s, req.resource);
    assert MayFind(s, req.resource, entry);
    if entry.None? { return Verdict(true, None, []); }
    var a := s.active[entry.value];
    if a.expiresAt.At? && a.expiresAt.t < now { return Verdict(true, Some(a.agent), []); }
    if entry.value != req.agent { return Verdict(false, entry, [req.resource]); }
    var violations: seq<string> := [];
    for i := 0 to |a.guardrails|
      invariant violations == Violations(a.guardrails[..i], req.action, fold)
    {
      assert a.guardrails[..i + 1][..i] == a.guardrails[..i];
      if Violated(a.guardrails[i], req.action, fold) {
        violations := violations + [a.guardrails[i]];
      }
    }
    assert a.guardrails[..|a.guardrails|] == a.guardrails;
    verdict := Verdict(violations == [], entry, violations);
  }

  method FindCovering(s: State, resource: string) returns (r: Option<string>)
    ensures MayFind(s, resource, r)
  {
    var pending := s.active.Keys;
    while pending != {}
      invariant pending <= s.active.Keys
      invariant forall owner :: owner in s.active && owner !in pending ==> !Covers(s.active[owner], resource)
      decreases |pending|
    {
      var owner :| owner in pending;
      pending := pending - {owner};
      if Covers(s.active[owner], resource) { return Some(owner); }
    }
    return None;
  }

  lemma {:induction false} ViolationsMeans(guardrails: seq<string>, action: string, fold: Fold)
    ensures forall g :: g in Violations(guardrails, action, fold) <==> g in guardrails && Violated(g, action, fold)
  {
    if guardrails != [] {
      var init := guardrails[..|guardrails| - 1];
      ViolationsMeans(init, action, fold);
      assert guardrails == init + [guardrails[|guardrails| - 1]];
    }
  }

  /** A covering entry that lets the agent through: an expired one, or its own with all guardrails met. */
  predicate Admits(owner: string, a: Assignment, req: LeaseRequest, now: int, fold: Fold) {
    || Expired(a, now)
    || (owner == req.agent && forall g :: g in a.guardrails ==> !Violated(g, req.action, fold))
  }

  /**
   While another agent holds an unexpired covering lease, the check refuses in every map order
   exactly when no other covering entry would admit the agent.
   */
  lemma RefusedInEveryOrderExactly(s: State, holder: string, req: LeaseRequest, now: int, fold: Fold)
    requires holder in s.active && holder != req.agent
    requires Covers(s.active[holder], req.resource) && !Expired(s.active[holder], now)
    ensures (forall found: Option<string> :: MayFind(s, req.resource, found) ==>
               !VerdictFor(s, found, req, now, fold).allowed)
            <==> (forall owner :: owner in s.active && Covers(s.active[owner], req.resource) ==>
                    !Admits(owner, s.active[owner], req, now, fold))
  {
    forall owner | owner in s.active && Covers(s.active[owner], req.resource)
      ensures VerdictFor(s, Some(owner), req, now, fold).allowed <==> Admits(owner, s.active[owner], req, now, fold)
      ensures MayFind(s, req.resource, Some(owner))
    {
      AdmittedExactly(s, owner, req, now, fold);
    }
  }

  lemma AdmittedExactly(s: State, owner: string, req: LeaseRequest, now: int, fold: Fold)
    requires owner in s.active
    ensures VerdictFor(s, Some(owner), req, now, fold).allowed <==> Admits(owner, s.active[owner], req, now, fold)
  {
    var a := s.active[owner];
    ViolationsMeans(a.guardrails, req.action, fold);
    var v := Violations(a.guardrails, req.action, fold);
    if v != [] { assert v[0] in v; }
  }

  /** Even over an exclusive file, a directory two agents share is answered both ways. */
  lemma SharedDirectoryIsAnsweredBothWays(fold: Fold) returns (s: State, req: LeaseRequest)
    ensures Sound(s)
    ensures exists found :: MayFind(s, req.resource, found) && VerdictFor(s, found, req, 0, fold).allowed
    ensures exists found :: MayFind(s, req.resource, found) && !VerdictFor(s, found, req, 0, fold).allowed
  {
    var ash := Assignment("ash", "twin", ["src/twin.rs"], At(0), At(0), ACTIVE, "file", 0, [], Blank);
    var mason := Assignment("mason", "build", ["src/main.rs"], At(0), At(0), ACTIVE, "file", 0, [], Blank);
    s := State(DEFAULT_OWNER, DEFAULT_POLICY, DEFAULT_STALE_AFTER, map["ash" := ash, "mason" := mason], At(0));
    req := LeaseRequest("mason", "src/", "edit");
    assert StartsWith("src/twin.rs", "src/") && "src/twin.rs" in ash.files;
    assert StartsWith("src/main.rs", "src/") && "src/main.rs" in mason.files;
    assert "src/main.rs"[4] != "src/twin.rs"[4];
    assert MayFind(s, req.resource, Some("ash")) && !VerdictFor(s, Some("ash"), req, 0, fold).allowed;
    assert MayFind(s, req.resource, Some("mason")) && VerdictFor(s, Some("mason"), req, 0, fold).allowed;
  }

  predicate ProperPrefix(a: string, b: string) { a != b && StartsWith(b, a) }

  /** Another agent's path lies above or below the resource. */
  predicate Nested(s: State, owner: string, resource: string) {
    exists other, f :: && other in s.active && other != owner && f in s.active[other].files
                       && (ProperPrefix(f, resource) || ProperPrefix(resource, f))
  }

  /**
   Over an exclusive file, a claimed path is answered by its own holder's lease in every map order
   exactly when no other agent holds a path above or below it.
   */
  lemma ClaimedPathHasOneHolderExactly(s: State, owner: string, resource: string)
    requires Exclusive(s.active) && owner in s.active && resource in s.active[owner].files
    ensures (forall found: Option<string> :: MayFind(s, resource, found) ==> found == Some(owner))
            <==> !Nested(s, owner, resource)
  {
    assert StartsWith(resource, resource) && Covers(s.active[owner], resource);
    forall other | other in s.active && other != owner && Covers(s.active[other], resource)
      ensures Nested(s, owner, resource) && MayFind(s, resource, Some(other))
    {
      var f :| f in s.active[other].files && (StartsWith(f, resource) || StartsWith(resource, f));
      assert f != resource && (ProperPrefix(f, resource) || ProperPrefix(resource, f));
    }
    if other, f :| && other in s.active && other != owner && f in s.active[other].files
                   && (ProperPrefix(f, resource) || ProperPrefix(resource, f)) {
      assert Covers(s.active[other], resource);
      assert MayFind(s, resource, Some(other));
    }
  }

  /**
   There the answer is one and the same: refused to everyone else until the lease expires, and to the holder by its
   guardrails only.
   */
  lemma UnnestedPathIsAnsweredOneWay(s: State, owner: string, req: LeaseRequest, now: int, fold: Fold, verdict: Verdict)
    requires Exclusive(s.active) && owner in s.active && req.resource in s.active[owner].files
    requires !Nested(s, owner, req.resource)
    requires exists found :: MayFind(s, req.resource, found) && verdict == VerdictFor(s, found, req, now, fold)
    ensures verdict.allowed <==> Admits(owner, s.active[owner], req, now, fold)
  {
    ClaimedPathHasOneHolderExactly(s, owner, req.resource);
    AdmittedExactly(s, owner, req, now, fold);
  }
}
