/**
 The Keeper coordination file: which agent holds which files, how claims go
 stale, and what each request does to the stored assignments.

 Every handler loads the file, normalizes what it loaded (saving it when that
 changed anything), decides, and saves again. The functions below describe one
 handler's work on the copy it loaded; KeeperStore runs the handlers one at a
 time, and KeeperProtocol interleaves their reads and writes.
 */
module Keeper {
  import opened Basics
  import opened Text

  const NANOS_PER_SECOND := 1_000_000_000
  const DEFAULT_OWNER := "keeper"
  const DEFAULT_POLICY := "exclusive_file_claims"
  const DEFAULT_STALE_AFTER := 600
  const ACTIVE := "active"
  const STALE := "stale"
  const MASON := "mason"

  /** A stored time: empty text, text that is no RFC 3339 time, or an instant in nanoseconds. */
  datatype Stamp = Blank | Unreadable(text: string) | At(t: int)

  datatype Assignment = Assignment(
    agent: string,
    task: string,
    files: seq<string>,
    claimedAt: Stamp,
    lastHeartbeatAt: Stamp,
    status: string,
    resourceKind: string,
    ttlSecs: int,
    guardrails: seq<string>,
    expiresAt: Stamp)

  type Claims = map<string, Assignment>

  datatype State = State(
    managedBy: string,
    policyMode: string,
    staleAfter: int,
    active: Claims,
    updatedAt: Stamp)

  datatype ClaimRequest = ClaimRequest(
    agent: string,
    task: string,
    files: seq<string>,
    resourceKind: string,
    ttlSecs: int,
    guardrails: seq<string>)

  // Time

  function ParseUtc(stamp: Stamp): Option<int> {
    if stamp.At? then Some(stamp.t) else None
  }

  /** `Duration::num_seconds`, which drops the fraction toward zero. */
  function NumSeconds(nanos: int): int {
    if nanos >= 0 then nanos / NANOS_PER_SECOND else -((-nanos) / NANOS_PER_SECOND)
  }

  /** The heartbeat that decides staleness, after the blank field has been filled in. */
  function EffectiveHeartbeat(a: Assignment, now: int): int {
    ParseUtc(a.lastHeartbeatAt).Or(ParseUtc(a.claimedAt)).GetOr(now)
  }

  predicate OutOfTime(a: Assignment, now: int, staleAfter: int) {
    NumSeconds(now - EffectiveHeartbeat(a, now)) >= staleAfter
  }

  // Normalizing

  function FilledIn(a: Assignment): Assignment {
    if a.lastHeartbeatAt.Blank? then a.(lastHeartbeatAt := a.claimedAt) else a
  }

  function Normalized(a: Assignment, now: int, staleAfter: int): Assignment {
    FilledIn(a).(status := if OutOfTime(FilledIn(a), now, staleAfter) then STALE else ACTIVE)
  }

  predicate NeedsChange(a: Assignment, now: int, staleAfter: int) {
    a.lastHeartbeatAt.Blank? || Normalized(a, now, staleAfter).status != a.status
  }

  /** The header fields with their defaults filled in. */
  function WithDefaults(s: State, now: int): State {
    s.(managedBy := if Trim(s.managedBy, Whitespace) == "" then DEFAULT_OWNER else s.managedBy,
       policyMode := if Trim(s.policyMode, Whitespace) == "" then DEFAULT_POLICY else s.policyMode,
       staleAfter := if s.staleAfter <= 0 then DEFAULT_STALE_AFTER else s.staleAfter,
       updatedAt := if s.updatedAt.Blank? then At(now) else s.updatedAt)
  }

  predicate HeaderIncomplete(s: State) {
    || Trim(s.managedBy, Whitespace) == "" || Trim(s.policyMode, Whitespace) == ""
    || s.staleAfter <= 0 || s.updatedAt.Blank?
  }

  function NormalizedClaims(active: Claims, now: int, staleAfter: int): Claims {
    map owner | owner in active :: Normalized(active[owner], now, staleAfter)
  }

  predicate MustSave(s: State, now: int) {
    || HeaderIncomplete(s)
    || exists owner :: owner in s.active && NeedsChange(s.active[owner], now, WithDefaults(s, now).staleAfter)
  }

  function NormalizedState(s: State, now: int): State {
    var d := WithDefaults(s, now);
    d.(active := NormalizedClaims(s.active, now, d.staleAfter),
       updatedAt := if MustSave(s, now) then At(now) else d.updatedAt)
  }

  function DefaultState(now: int): State {
    State(DEFAULT_OWNER, DEFAULT_POLICY, DEFAULT_STALE_AFTER, map[], At(now))
  }

  /** load_assignments: a missing file reads as the default state. */
  function Loaded(file: Option<State>, now: int): State { file.GetOr(DefaultState(now)) }

  // Claiming

  predicate FileConflict(requested: seq<string>, existing: seq<string>) {
    exists f :: f in requested && f in existing
  }

  predicate Reapable(owner: string, a: Assignment, req: ClaimRequest) {
    owner != req.agent && a.status == STALE && FileConflict(req.files, a.files)
  }

  function AfterReaping(active: Claims, req: ClaimRequest): Claims {
    map owner | owner in active && !Reapable(owner, active[owner], req) :: active[owner]
  }

  /** Another agent's entry stands in the way after reaping. */
  predicate BlockedBy(active: Claims, req: ClaimRequest, owner: string) {
    && owner in AfterReaping(active, req) && owner != req.agent
    && FileConflict(req.files, active[owner].files)
  }

  predicate Blocked(active: Claims, req: ClaimRequest) {
    exists owner :: owner in active && BlockedBy(active, req, owner)
  }

  function GrantedAssignment(req: ClaimRequest, now: int): Assignment {
    Assignment(
      req.agent, req.task, req.files, At(now), At(now), ACTIVE, req.resourceKind, req.ttlSecs, req.guardrails,
      if req.ttlSecs > 0 then At(now + req.ttlSecs * NANOS_PER_SECOND) else Blank)
  }

  function AfterClaim(s: State, req: ClaimRequest, now: int): State {
    s.(active := AfterReaping(s.active, req)[req.agent := GrantedAssignment(req, now)], updatedAt := At(now))
  }

  // Heartbeat and release

  function AfterHeartbeat(s: State, agent: string, now: int): State
    requires agent in s.active
  {
    s.(active := s.active[agent := s.active[agent].(lastHeartbeatAt := At(now), status := ACTIVE)],
       updatedAt := At(now))
  }

  function AfterRelease(s: State, agent: string, now: int): State {
    s.(active := s.active - {agent}, updatedAt := At(now))
  }

  // Mason's workspace lease, taken by the orchestrator on the same file

  predicate PrefixOverlap(files: seq<string>, prefix: string) {
    exists f :: f in files && (StartsWith(f, prefix) || StartsWith(prefix, f))
  }

  predicate Expired(a: Assignment, now: int) { a.expiresAt.At? && a.expiresAt.t < now }

  datatype MasonAnswer = MasonGranted | MasonKept | MasonDenied

  predicate MasonBlockedBy(owner: string, a: Assignment, prefix: string, now: int) {
    owner != MASON && a.status != STALE && PrefixOverlap(a.files, prefix) && !Expired(a, now)
  }

  function MasonDecision(s: State, prefix: string, now: int): MasonAnswer {
    if MASON in s.active && s.active[MASON].status != STALE && PrefixOverlap(s.active[MASON].files, prefix)
    then MasonKept
    else if MASON in s.active && s.active[MASON].status != STALE && s.active[MASON].files != [] then MasonDenied
    else if exists owner :: owner in s.active && MasonBlockedBy(owner, s.active[owner], prefix, now) then MasonDenied
    else MasonGranted
  }

  function AfterMasonClaim(s: State, prefix: string, guardrails: seq<string>, now: int): State {
    var ttl := if s.staleAfter > 0 then s.staleAfter else DEFAULT_STALE_AFTER;
    var lease := Assignment(
      MASON, "owns staged product workspace", [prefix], At(now), At(now), ACTIVE, "workspace", ttl, guardrails,
      At(now + ttl * NANOS_PER_SECOND));
    s.(active := s.active[MASON := lease], updatedAt := At(now))
  }

  // Requests and what they decide on a loaded, normalized copy

  datatype Request =
    | Inspect
    | Claim(claim: ClaimRequest)
    | Heartbeat(agent: string)
    | Release(agent: string)
    | MasonClaim(prefix: string, guardrails: seq<string>)
    | MasonRelease

  /** The state a request saves last, if it saves one. */
  function Decision(s: State, req: Request, now: int): Option<State> {
    match req
    case Inspect => None
    case Claim(claim) => if Blocked(s.active, claim) then None else Some(AfterClaim(s, claim, now))
    case Heartbeat(agent) => if agent in s.active then Some(AfterHeartbeat(s, agent, now)) else None
    case Release(agent) => Some(AfterRelease(s, agent, now))
    case MasonClaim(prefix, guardrails) =>
      if MasonDecision(s, prefix, now) == MasonGranted then Some(AfterMasonClaim(s, prefix, guardrails, now)) else None
    case MasonRelease => if MASON in s.active then Some(AfterRelease(s, MASON, now)) else None
  }

  /** A whole handler on the file: normalize at t1, decide at t2. */
  function Handled(file: Option<State>, req: Request, t1: int, t2: int): Option<State> {
    var loaded := Loaded(file, t1);
    var s := NormalizedState(loaded, t1);
    var afterNormalize := if MustSave(loaded, t1) then Some(s) else file;
    Decision(s, req, t2).Or(afterNormalize)
  }
}

/** The handlers as they run, one at a time, over the stored file. */
module KeeperStore {
  import opened Basics
  import opened Text
  import opened Keeper

  datatype ClaimAnswer = Granted(state: State) | Conflict(owner: string, files: seq<string>)

  class Coordination {
    var file: Option<State>

    constructor ()
      ensures file == None
    {
      file := None;
    }

    method SaveAssignments(s: State)
      modifies this
      ensures file == Some(s)
    {
      file := Some(s);
    }

    /** normalize_assignments */
    method NormalizeAssignments(loaded: State, now: int) returns (state: State)
      modifies this
      ensures state == NormalizedState(loaded, now)
      ensures file == if MustSave(loaded, now) then Some(state) else old(file)
    {
      var changed := false;
      state := loaded;
      if Trim(state.managedBy, Whitespace) == "" {
        state := state.(managedBy := DEFAULT_OWNER);
        changed := true;
      }
      if Trim(state.policyMode, Whitespace) == "" {
        state := state.(policyMode := DEFAULT_POLICY);
        changed := true;
      }
      if state.staleAfter <= 0 {
        state := state.(staleAfter := DEFAULT_STALE_AFTER);
        changed := true;
      }
      if state.updatedAt.Blank? {
        state := state.(updatedAt := At(now));
        changed := true;
      }
      var active, entriesChanged := NormalizeEntries(state.active, now, state.staleAfter);
      state := state.(active := active);
      changed := changed || entriesChanged;
      if changed {
        state := state.(updatedAt := At(now));
        SaveAssignments(state);
      }
    }

    method EnsureAssignmentsState(now: int) returns (state: State)
      modifies this
      ensures state == NormalizedState(Loaded(old(file), now), now)
      ensures file == Handled(old(file), Inspect, now, now)
    {
      var loaded := Loaded(file, now);
      state := NormalizeAssignments(loaded, now);
    }

    method ClaimTask(req: ClaimRequest, t1: int, t2: int) returns (answer: ClaimAnswer)
      modifies this
      ensures file == Handled(old(file), Claim(req), t1, t2)
      ensures var s := NormalizedState(Loaded(old(file), t1), t1);
              match answer
              case Granted(state) => !Blocked(s.active, req) && state == AfterClaim(s, req, t2)
              case Conflict(owner, files) =>
                && BlockedBy(s.active, req, owner)
                && files == Shared(req.files, s.active[owner].files)
                && files != [] && (forall f :: f in files <==> f in req.files && f in s.active[owner].files)
    {
      var state := EnsureAssignmentsState(t1);
      var active := state.active;
      if req.files != [] {
        active := ReapStale(state.active, req);
        var blocker := FindBlocker(state.active, active, req);
        if blocker.Some? {
          var conflict := Shared(req.files, active[blocker.value].files);
          return Conflict(blocker.value, conflict);
        }
      } else {
        NothingRequested(state.active, req);
      }
      state := state.(active := active[req.agent := GrantedAssignment(req, t2)], updatedAt := At(t2));
      SaveAssignments(state);
      answer := Granted(state);
    }

    method HeartbeatTask(agent: string, t1: int, t2: int) returns (found: bool)
      modifies this
      ensures file == Handled(old(file), Heartbeat(agent), t1, t2)
      ensures found <==> agent in Loaded(old(file), t1).active
    {
      var state := EnsureAssignmentsState(t1);
      if agent !in state.active { return false; }
      var assignment := state.active[agent].(lastHeartbeatAt := At(t2), status := ACTIVE);
      state := state.(active := state.active[agent := assignment], updatedAt := At(t2));
      SaveAssignments(state);
      found := true;
    }

    method ReleaseTask(agent: string, t1: int, t2: int)
      modifies this
      ensures file == Handled(old(file), Release(agent), t1, t2)
    {
      var state := EnsureAssignmentsState(t1);
      state := state.(active := state.active - {agent}, updatedAt := At(t2));
      SaveAssignments(state);
    }
  }

  /** normalize_assignment on one claim. */
  method NormalizeAssignment(a: Assignment, now: int, staleAfter: int) returns (r: Assignment, changed: bool)
    ensures r == Normalized(a, now, staleAfter) && changed == NeedsChange(a, now, staleAfter)
  {
    r, changed := a, false;
    if r.lastHeartbeatAt.Blank? {
      r := r.(lastHeartbeatAt := r.claimedAt);
      changed := true;
    }
    var heartbeat := ParseUtc(r.lastHeartbeatAt).Or(ParseUtc(r.claimedAt)).GetOr(now);
    var nextStatus := if NumSeconds(now - heartbeat) >= staleAfter then STALE else ACTIVE;
    if r.status != nextStatus {
      r := r.(status := nextStatus);
      changed := true;
    }
  }

  /** The loop over all claims, in whatever order the map yields them. */
  method NormalizeEntries(claims: Claims, now: int, staleAfter: int) returns (active: Claims, changed: bool)
    ensures active == NormalizedClaims(claims, now, staleAfter)
    ensures changed <==> exists owner :: owner in claims && NeedsChange(claims[owner], now, staleAfter)
  {
    active, changed := claims, false;
    var pending := active.Keys;
    while pending != {}
      invariant pending <= claims.Keys && active.Keys == claims.Keys
      invariant forall owner :: owner in claims ==>
                  active[owner]
                  == if owner in pending then claims[owner] else Normalized(claims[owner], now, staleAfter)
      invariant changed <==>
                exists owner :: owner in claims && owner !in pending && NeedsChange(claims[owner], now, staleAfter)
      decreases |pending|
    {
      var owner :| owner in pending;
      var assignment, touched := NormalizeAssignment(active[owner], now, staleAfter);
      active := active[owner := assignment];
      changed := changed || touched;
      pending := pending - {owner};
    }
  }

  /** Collects the stale owners in the way and removes them one by one. */
  method ReapStale(claims: Claims, req: ClaimRequest) returns (active: Claims)
    ensures active == AfterReaping(claims, req)
  {
    active := claims;
    var staleOwners := set owner | owner in claims && Reapable(owner, claims[owner], req);
    while staleOwners != {}
      invariant forall owner :: owner in active ==> owner in claims && active[owner] == claims[owner]
      invariant forall owner :: owner in staleOwners ==> owner in claims && Reapable(owner, claims[owner], req)
      invariant forall owner :: owner in claims ==>
                  (owner !in active <==> Reapable(owner, claims[owner], req) && owner !in staleOwners)
      decreases |staleOwners|
    {
      var owner :| owner in staleOwners;
      active := active - {owner};
      staleOwners := staleOwners - {owner};
    }
  }

  /** The first other owner, in map order, that holds a requested file. */
  method FindBlocker(claims: Claims, active: Claims, req: ClaimRequest) returns (r: Option<string>)
    requires active == AfterReaping(claims, req)
    ensures r.Some? ==> BlockedBy(claims, req, r.value)
    ensures r.None? ==> !Blocked(claims, req)
  {
    var pending := active.Keys;
    while pending != {}
      invariant pending <= active.Keys
      invariant forall owner :: owner in active && owner !in pending ==> !BlockedBy(claims, req, owner)
      decreases |pending|
    {
      var owner :| owner in pending;
      pending := pending - {owner};
      if owner != req.agent && FileConflict(req.files, active[owner].files) {
        return Some(owner);
      }
    }
    return None;
  }

  lemma NothingRequested(claims: Claims, req: ClaimRequest)
    requires req.files == []
    ensures AfterReaping(claims, req) == claims && !Blocked(claims, req)
  {
  }

  /** The requested files the owner already holds, in request order. */
  function Shared(requested: seq<string>, held: seq<string>): (r: seq<string>)
    ensures forall f :: f in r <==> f in requested && f in held
  {
    if requested == [] then []
    else
      var rest := Shared(requested[1..], held);
      if requested[0] in held then [requested[0]] + rest else rest
  }

  /** The shared files keep the order of the request, and each its number of times. */
  lemma {:induction false} SharedConcat(a: seq<string>, b: seq<string>, held: seq<string>)
    ensures Shared(a + b, held) == Shared(a, held) + Shared(b, held)
  {
    if a == [] {
      assert a + b == b;
    } else {
      assert (a + b)[1..] == a[1..] + b;
      SharedConcat(a[1..], b, held);
      if a[0] in held { SharedFront(a[0], Shared(a[1..], held), Shared(b, held)); }
    }
  }

  lemma SharedFront(f: string, xs: seq<string>, ys: seq<string>)
    ensures [f] + (xs + ys) == [f] + xs + ys
  {
  }

  lemma SharedOne(f: string, held: seq<string>)
    ensures Shared([f], held) == if f in held then [f] else []
  {
    assert [f][1..] == [];
  }
}
