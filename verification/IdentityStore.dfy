/**
The Platform's identity store: four tables kept in step while calls that create an identity for a
(principal, Service) scope interleave with each other and with status updates.
*/
module IdentityStore {
  import opened Common
  import L = KeyedLock

  datatype Status = Active | Suspended | Terminated | Unavailable

  /** A caller's principal and the Service DID it acts towards. */
  type Scope = (string, string)

  datatype Identity = Identity(
    agentDid: string,
    agentDidId: string,
    agentIdentityId: string,
    createdAt: int,
    didDocumentUrl: string,
    keyId: string,
    principal: string,
    serviceDid: string,
    signingAlgorithms: seq<string>,
    status: Status,
    updatedAt: int
  )

  function ScopeOf(identity: Identity): Scope {
    (identity.principal, identity.serviceDid)
  }

  predicate ValidIdentity(i: Identity) {
    && i.agentDid != "" && i.agentDidId != "" && i.agentIdentityId != "" && i.didDocumentUrl != ""
    && i.keyId != "" && i.principal != "" && i.serviceDid != "" && i.signingAlgorithms != []
  }

  datatype Tables = Tables(
    byAgentDid: map<string, string>,
    byAgentDidId: map<string, string>,
    byScope: map<Scope, string>,
    records: map<string, Identity>
  )

  function FindScoped(s: Tables, scope: Scope): Option<Identity> {
    if scope in s.byScope && s.byScope[scope] in s.records then Some(s.records[s.byScope[scope]]) else None
  }

  predicate Unused(s: Tables, i: Identity) {
    i.agentIdentityId !in s.records && i.agentDid !in s.byAgentDid && i.agentDidId !in s.byAgentDidId
  }

  function Inserted(s: Tables, scope: Scope, i: Identity): Tables {
    Tables(s.byAgentDid[i.agentDid := i.agentIdentityId], s.byAgentDidId[i.agentDidId := i.agentIdentityId],
           s.byScope[scope := i.agentIdentityId], s.records[i.agentIdentityId := i])
  }

  function StatusUpdated(s: Tables, id: string, status: Status, at: int): Tables {
    if id in s.records then s.(records := s.records[id := s.records[id].(status := status, updatedAt := at)])
    else s
  }

  /** Each index is a bijection with the records and agrees with their fields. */
  ghost predicate Consistent(s: Tables) {
    && (forall id :: id in s.records ==>
          var i := s.records[id];
          && i.agentIdentityId == id
          && ScopeOf(i) in s.byScope && s.byScope[ScopeOf(i)] == id
          && i.agentDid in s.byAgentDid && s.byAgentDid[i.agentDid] == id
          && i.agentDidId in s.byAgentDidId && s.byAgentDidId[i.agentDidId] == id)
    && (forall k :: k in s.byScope ==> s.byScope[k] in s.records && ScopeOf(s.records[s.byScope[k]]) == k)
    && (forall d :: d in s.byAgentDid ==>
          s.byAgentDid[d] in s.records && s.records[s.byAgentDid[d]].agentDid == d)
    && (forall d :: d in s.byAgentDidId ==>
          s.byAgentDidId[d] in s.records && s.records[s.byAgentDidId[d]].agentDidId == d)
  }

  /** Two views of one identity: everything but its status and its last update agrees. */
  predicate SameIdentity(a: Identity, b: Identity) {
    a == b.(status := a.status, updatedAt := a.updatedAt)
  }

  /** An identity once recorded under its scope. */
  predicate Recorded(s: Tables, i: Identity) {
    && ScopeOf(i) in s.byScope && s.byScope[ScopeOf(i)] == i.agentIdentityId
    && i.agentIdentityId in s.records && SameIdentity(s.records[i.agentIdentityId], i)
  }

  lemma InsertedConsistent(s: Tables, i: Identity)
    requires Consistent(s) && Unused(s, i) && ScopeOf(i) !in s.byScope
    ensures Consistent(Inserted(s, ScopeOf(i), i))
    ensures forall j: Identity :: Recorded(s, j) ==> Recorded(Inserted(s, ScopeOf(i), i), j)
    ensures Recorded(Inserted(s, ScopeOf(i), i), i)
  {
  }

  lemma StatusUpdatedConsistent(s: Tables, id: string, status: Status, at: int)
    requires Consistent(s)
    ensures Consistent(StatusUpdated(s, id, status, at))
    ensures StatusUpdated(s, id, status, at).byScope == s.byScope
    ensures forall j: Identity :: Recorded(s, j) ==> Recorded(StatusUpdated(s, id, status, at), j)
  {
  }

  // ----- The concurrent store

  datatype Stage =
    | Arrived
    | Creating
    | Validated(identity: Identity)
    | Decided(result: Result<Identity>)

  datatype Call = Call(scope: Scope, stage: Stage)

  datatype System = System(locks: L.Registry<Scope>, calls: map<L.TaskId, Call>, tables: Tables)

  datatype Step =
    | Begin(t: L.TaskId, scope: Scope)
    | Acquire(t: L.TaskId)
    | Find(t: L.TaskId)
    | Create(t: L.TaskId, created: Result<Identity>)
    | Insert(t: L.TaskId)
    | Exit(t: L.TaskId)
    | Release(t: L.TaskId)
    | Cancel(t: L.TaskId)
    | DropArc(t: L.TaskId)
    | UpdateStatus(id: string, status: Status, at: int)

  const EMPTY: System := System(L.Empty(), map[], Tables(map[], map[], map[], map[]))

  predicate InCritical(s: System, t: L.TaskId) {
    t in s.locks.tasks && s.locks.tasks[t].Critical? && t in s.calls
  }

  predicate Enabled(s: System, step: Step) {
    match step
    case Begin(t, _) => t !in s.calls && t !in s.locks.tasks
    case Find(t) => InCritical(s, t) && s.calls[t].stage.Arrived?
    case Create(t, _) => InCritical(s, t) && s.calls[t].stage.Creating?
    case Insert(t) => InCritical(s, t) && s.calls[t].stage.Validated?
    case Exit(t) => InCritical(s, t) && s.calls[t].stage.Decided?
    // The two awaits: the lock, and the creation.
    case Cancel(t) =>
      || (t in s.locks.tasks && s.locks.tasks[t].Waiting?)
      || (InCritical(s, t) && s.calls[t].stage.Creating?)
    case Acquire(t) => L.Enabled(s.locks, L.Acquire(t))
    case Release(t) => L.Enabled(s.locks, L.Release(t))
    case DropArc(t) => L.Enabled(s.locks, L.DropArc(t))
    case UpdateStatus(_, _, _) => true
  }

  function SetStage(s: System, t: L.TaskId, stage: Stage): System
    requires t in s.calls
  {
    s.(calls := s.calls[t := s.calls[t].(stage := stage)])
  }

  function AfterFind(s: System, scope: Scope): Stage {
    match FindScoped(s.tables, scope)
    case Some(identity) => Decided(Ok(identity))
    case None => Creating
  }

  /** What the creation handed back is checked before the tables are locked. */
  function AfterCreate(scope: Scope, created: Result<Identity>): Stage {
    match created
    case Ok(identity) =>
      if ValidIdentity(identity) && ScopeOf(identity) == scope then Validated(identity) else Decided(Err)
    case Err => Decided(Err)
  }

  function InsertStep(s: System, t: L.TaskId): System
    requires t in s.calls && s.calls[t].stage.Validated?
  {
    var identity := s.calls[t].stage.identity;
    if Unused(s.tables, identity) then
      SetStage(s, t, Decided(Ok(identity))).(tables := Inserted(s.tables, s.calls[t].scope, identity))
    else
      SetStage(s, t, Decided(Err))
  }

  function Locked(s: System, step: L.Step<Scope>): System {
    s.(locks := L.Apply(s.locks, step))
  }

  function Apply(s: System, step: Step): System {
    if !Enabled(s, step) then s else
    match step
    case Begin(t, scope) =>
      if scope.0 == "" || scope.1 == "" then s.(calls := s.calls[t := Call(scope, Decided(Err))])
      else Locked(s, L.Enter(t, scope)).(calls := s.calls[t := Call(scope, Arrived)])
    case Acquire(t) => Locked(s, L.Acquire(t))
    case Find(t) => SetStage(s, t, AfterFind(s, s.calls[t].scope))
    case Create(t, created) => SetStage(s, t, AfterCreate(s.calls[t].scope, created))
    case Insert(t) => InsertStep(s, t)
    case Exit(t) => Locked(s, L.Exit(t))
    case Release(t) => Locked(s, L.Release(t))
    case Cancel(t) => Locked(s, L.Cancel(t))
    case DropArc(t) => Locked(s, L.DropArc(t))
    case UpdateStatus(id, status, at) => s.(tables := StatusUpdated(s.tables, id, status, at))
  }

  function Exec(s: System, steps: seq<Step>): System
    decreases |steps|
  {
    if steps == [] then s else Exec(Apply(s, steps[0]), steps[1..])
  }

  // ----- The invariant

  ghost predicate PhasesFit(s: System) {
    forall t :: t in s.locks.tasks ==>
      && t in s.calls
      && (L.Relies(s.locks.tasks[t]) ==> s.locks.tasks[t].key == s.calls[t].scope)
      && (s.locks.tasks[t].Waiting? ==> s.calls[t].stage.Arrived?)
  }

  /** While a call creates an identity, its scope stays free of one. */
  ghost predicate ScopesReserved(s: System) {
    forall t :: InCritical(s, t) ==> Reserved(s.tables, s.calls[t])
  }

  ghost predicate Reserved(tables: Tables, call: Call) {
    && (call.stage.Creating? || call.stage.Validated? ==> call.scope !in tables.byScope)
    && (call.stage.Validated? ==> ScopeOf(call.stage.identity) == call.scope)
  }

  /** Whatever a call returned is recorded under its scope. */
  ghost predicate RepliesRecorded(s: System) {
    forall t :: t in s.calls ==> ReplyRecorded(s.tables, s.calls[t])
  }

  ghost predicate ReplyRecorded(tables: Tables, call: Call) {
    call.stage.Decided? && call.stage.result.Ok? ==>
      ScopeOf(call.stage.result.value) == call.scope && Recorded(tables, call.stage.result.value)
  }

  ghost predicate Inv(s: System) {
    L.Inv(s.locks) && PhasesFit(s) && Consistent(s.tables) && ScopesReserved(s) && RepliesRecorded(s)
  }

  function LockStep(step: Step): Option<L.Step<Scope>> {
    match step
    case Begin(t, scope) => Some(L.Enter(t, scope))
    case Acquire(t) => Some(L.Acquire(t))
    case Exit(t) => Some(L.Exit(t))
    case Release(t) => Some(L.Release(t))
    case Cancel(t) => Some(L.Cancel(t))
    case DropArc(t) => Some(L.DropArc(t))
    case _ => None
  }

  lemma LockStepPhases(s: System, step: Step)
    requires PhasesFit(s) && Enabled(s, step) && LockStep(step).Some?
    ensures PhasesFit(Apply(s, step))
  {
    L.StepPhases(s.locks, LockStep(step).value);
  }

  lemma LockStepCritical(s: System, step: Step)
    requires PhasesFit(s) && Enabled(s, step) && LockStep(step).Some?
    ensures var s' := Apply(s, step);
            && s'.tables == s.tables
            && forall u :: InCritical(s', u) ==>
                 s'.calls[u].stage.Arrived? || (InCritical(s, u) && s'.calls[u] == s.calls[u])
  {
  }

  lemma LockStepReplies(s: System, step: Step)
    requires RepliesRecorded(s) && Enabled(s, step) && LockStep(step).Some?
    ensures RepliesRecorded(Apply(s, step))
  {
    var s' := Apply(s, step);
    forall u | u in s'.calls ensures ReplyRecorded(s'.tables, s'.calls[u]) {
      if u != step.t { assert ReplyRecorded(s.tables, s.calls[u]); }
    }
  }

  lemma QuietScopes(s: System, s': System)
    requires ScopesReserved(s) && s'.tables == s.tables
    requires forall u :: InCritical(s', u) ==>
      s'.calls[u].stage.Arrived? || (InCritical(s, u) && s'.calls[u] == s.calls[u])
    ensures ScopesReserved(s')
  {
  }

  lemma LockStepInv(s: System, step: Step)
    requires Inv(s) && Enabled(s, step) && LockStep(step).Some?
    ensures Inv(Apply(s, step))
  {
    LockStepPhases(s, step);
    LockStepCritical(s, step);
    LockStepReplies(s, step);
    QuietScopes(s, Apply(s, step));
    L.ApplyInv(s.locks, LockStep(step).value);
  }

  lemma SetStageInv(s: System, t: L.TaskId, stage: Stage)
    requires Inv(s) && InCritical(s, t)
    requires Reserved(s.tables, s.calls[t].(stage := stage))
    requires ReplyRecorded(s.tables, s.calls[t].(stage := stage))
    ensures Inv(SetStage(s, t, stage))
  {
    var s' := SetStage(s, t, stage);
    assert ScopesReserved(s') by {
      forall u | InCritical(s', u) ensures Reserved(s'.tables, s'.calls[u]) {
        if u != t { assert InCritical(s, u); }
      }
    }
    assert PhasesFit(s');
  }

  lemma StageInv(s: System, step: Step)
    requires Inv(s) && Enabled(s, step) && (step.Find? || step.Create?)
    ensures Inv(Apply(s, step))
  {
    var call := s.calls[step.t];
    var stage := if step.Find? then AfterFind(s, call.scope) else AfterCreate(call.scope, step.created);
    assert Reserved(s.tables, call);
    SetStageInv(s, step.t, stage);
  }

  /** No other call of the scope is in its critical section. */
  lemma Alone(s: System, t: L.TaskId)
    requires L.Inv(s.locks) && PhasesFit(s) && InCritical(s, t)
    ensures forall u :: InCritical(s, u) && s.calls[u].scope == s.calls[t].scope ==> u == t
  {
    forall u | InCritical(s, u) && s.calls[u].scope == s.calls[t].scope ensures u == t {
      L.CriticalUnique(s.locks, t, u);
    }
  }

  lemma InsertReserves(s: System, t: L.TaskId)
    requires ScopesReserved(s) && Enabled(s, Insert(t))
    requires forall u :: InCritical(s, u) && s.calls[u].scope == s.calls[t].scope ==> u == t
    ensures ScopesReserved(InsertStep(s, t))
  {
    var s' := InsertStep(s, t);
    forall u | InCritical(s', u) ensures Reserved(s'.tables, s'.calls[u]) {
      assert InCritical(s, u) && Reserved(s.tables, s.calls[u]);
    }
  }

  lemma InsertReplies(s: System, t: L.TaskId)
    requires Consistent(s.tables) && RepliesRecorded(s) && Enabled(s, Insert(t))
    requires Reserved(s.tables, s.calls[t]) && Unused(s.tables, s.calls[t].stage.identity)
    ensures RepliesRecorded(InsertStep(s, t)) && Consistent(InsertStep(s, t).tables)
  {
    InsertedConsistent(s.tables, s.calls[t].stage.identity);
    var s' := InsertStep(s, t);
    forall u | u in s'.calls ensures ReplyRecorded(s'.tables, s'.calls[u]) {
      if u != t { assert ReplyRecorded(s.tables, s.calls[u]); }
    }
  }

  lemma FreshInsertInv(s: System, t: L.TaskId)
    requires Inv(s) && Enabled(s, Insert(t)) && Unused(s.tables, s.calls[t].stage.identity)
    ensures Inv(InsertStep(s, t))
  {
    assert Reserved(s.tables, s.calls[t]);
    Alone(s, t);
    InsertReserves(s, t);
    InsertReplies(s, t);
  }

  lemma InsertInv(s: System, t: L.TaskId)
    requires Inv(s) && Enabled(s, Insert(t))
    ensures Inv(InsertStep(s, t))
  {
    if Unused(s.tables, s.calls[t].stage.identity) {
      FreshInsertInv(s, t);
    } else {
      SetStageInv(s, t, Decided(Err));
    }
  }

  lemma UpdateStatusInv(s: System, id: string, status: Status, at: int)
    requires Inv(s)
    ensures Inv(Apply(s, UpdateStatus(id, status, at)))
  {
    StatusUpdatedConsistent(s.tables, id, status, at);
    var s' := Apply(s, UpdateStatus(id, status, at));
    forall u | InCritical(s', u) ensures Reserved(s'.tables, s'.calls[u]) {
      assert Reserved(s.tables, s.calls[u]);
    }
    forall u | u in s'.calls ensures ReplyRecorded(s'.tables, s'.calls[u]) {
      assert ReplyRecorded(s.tables, s.calls[u]);
    }
  }

  lemma ApplyInv(s: System, step: Step)
    requires Inv(s)
    ensures Inv(Apply(s, step))
  {
    if Enabled(s, step) {
      match step
      case Insert(t) => InsertInv(s, t);
      case UpdateStatus(id, status, at) => UpdateStatusInv(s, id, status, at);
      case _ => if LockStep(step).Some? { LockStepInv(s, step); } else { StageInv(s, step); }
    }
  }

  lemma {:induction false} ExecInv(s: System, steps: seq<Step>)
    requires Inv(s)
    ensures Inv(Exec(s, steps))
    decreases |steps|
  {
    if steps != [] {
      ApplyInv(s, steps[0]);
      ExecInv(Apply(s, steps[0]), steps[1..]);
    }
  }

  // ----- What every run gives

  lemma RunInv(steps: seq<Step>)
    ensures Inv(Exec(EMPTY, steps))
  {
    L.EmptyInv<Scope>();
    ExecInv(EMPTY, steps);
  }

  /** The tables agree after any interleaving of creations, cancellations and status updates. */
  lemma IndexesAgree(steps: seq<Step>)
    ensures Consistent(Exec(EMPTY, steps).tables)
  {
    RunInv(steps);
  }

  /** All successful calls for one scope return the same identity. */
  lemma OneIdentityPerScope(steps: seq<Step>, t: L.TaskId, u: L.TaskId)
    requires var s := Exec(EMPTY, steps);
             && t in s.calls && u in s.calls && s.calls[t].scope == s.calls[u].scope
             && s.calls[t].stage.Decided? && s.calls[u].stage.Decided?
             && s.calls[t].stage.result.Ok? && s.calls[u].stage.result.Ok?
    ensures var s := Exec(EMPTY, steps);
            SameIdentity(s.calls[t].stage.result.value, s.calls[u].stage.result.value)
  {
    RunInv(steps);
    var s := Exec(EMPTY, steps);
    assert ReplyRecorded(s.tables, s.calls[t]) && ReplyRecorded(s.tables, s.calls[u]);
  }

  lemma InsertKeepsRecorded(s: System, t: L.TaskId, i: Identity)
    requires Consistent(s.tables) && Enabled(s, Insert(t)) && Reserved(s.tables, s.calls[t])
    requires Recorded(s.tables, i)
    ensures Recorded(InsertStep(s, t).tables, i)
  {
    if Unused(s.tables, s.calls[t].stage.identity) {
      InsertedConsistent(s.tables, s.calls[t].stage.identity);
    }
  }

  lemma ApplyKeepsRecorded(s: System, step: Step, i: Identity)
    requires Inv(s) && Recorded(s.tables, i)
    ensures Recorded(Apply(s, step).tables, i)
  {
    match step
    case Insert(t) =>
      if Enabled(s, step) { InsertKeepsRecorded(s, t, i); }
    case UpdateStatus(id, status, at) =>
      StatusUpdatedConsistent(s.tables, id, status, at);
    case _ =>
      assert Apply(s, step).tables == s.tables;
  }

  /** An identity recorded for a scope stays that scope's identity whatever happens next. */
  lemma {:induction false} RecordedForever(s: System, steps: seq<Step>, i: Identity)
    requires Inv(s) && Recorded(s.tables, i)
    ensures Recorded(Exec(s, steps).tables, i)
    decreases |steps|
  {
    if steps != [] {
      ApplyKeepsRecorded(s, steps[0], i);
      ApplyInv(s, steps[0]);
      RecordedForever(Apply(s, steps[0]), steps[1..], i);
    }
  }

  // ----- The tables as an object

  lemma UnusedIsNew(s: Tables, i: Identity)
    requires Consistent(s)
    ensures Unused(s, i) <==>
            forall id :: id in s.records ==>
              var other := s.records[id];
              other.agentIdentityId != i.agentIdentityId && other.agentDid != i.agentDid
              && other.agentDidId != i.agentDidId
  {
    if i.agentIdentityId in s.records {
      assert s.records[i.agentIdentityId].agentIdentityId == i.agentIdentityId;
    } else if i.agentDid in s.byAgentDid {
      assert s.records[s.byAgentDid[i.agentDid]].agentDid == i.agentDid;
    } else if i.agentDidId in s.byAgentDidId {
      assert s.records[s.byAgentDidId[i.agentDidId]].agentDidId == i.agentDidId;
    }
  }

  class MemoryIdentityStore {
    var byAgentDid: map<string, string>
    var byAgentDidId: map<string, string>
    var byScope: map<Scope, string>
    var records: map<string, Identity>

    ghost function View(): Tables
      reads this
    {
      Tables(byAgentDid, byAgentDidId, byScope, records)
    }

    constructor ()
      ensures View() == EMPTY.tables
    {
      byAgentDid, byAgentDidId, byScope, records := map[], map[], map[], map[];
    }

    method FindInScope(principal: string, serviceDid: string) returns (found: Option<Identity>)
      requires Consistent(View())
      ensures found.Some? <==> exists id :: id in records && ScopeOf(records[id]) == (principal, serviceDid)
      ensures found.Some? ==> found.value.agentIdentityId in records
                              && records[found.value.agentIdentityId] == found.value
                              && ScopeOf(found.value) == (principal, serviceDid)
    {
      found := None;
      if (principal, serviceDid) in byScope {
        var id := byScope[(principal, serviceDid)];
        if id in records { found := Some(records[id]); }
      }
    }

    method FindByAgentDid(agentDid: string) returns (found: Option<Identity>)
      requires Consistent(View())
      ensures found.Some? <==> exists id :: id in records && records[id].agentDid == agentDid
      ensures found.Some? ==> found.value.agentIdentityId in records
                              && records[found.value.agentIdentityId] == found.value
                              && found.value.agentDid == agentDid
    {
      found := None;
      if agentDid in byAgentDid && byAgentDid[agentDid] in records {
        found := Some(records[byAgentDid[agentDid]]);
      }
    }

    /** Stores a new identity in all four tables, or refuses one whose material is taken. */
    method Insert(identity: Identity) returns (ok: bool)
      requires Consistent(View()) && ScopeOf(identity) !in byScope
      modifies this
      ensures ok <==> Unused(old(View()), identity)
      ensures View() == if ok then Inserted(old(View()), ScopeOf(identity), identity) else old(View())
      ensures Consistent(View()) && (ok ==> Recorded(View(), identity))
    {
      if identity.agentIdentityId in records || identity.agentDid in byAgentDid
         || identity.agentDidId in byAgentDidId {
        return false;
      }
      InsertedConsistent(View(), identity);
      byScope := byScope[(identity.principal, identity.serviceDid) := identity.agentIdentityId];
      byAgentDid := byAgentDid[identity.agentDid := identity.agentIdentityId];
      byAgentDidId := byAgentDidId[identity.agentDidId := identity.agentIdentityId];
      records := records[identity.agentIdentityId := identity];
      ok := true;
    }

    /**
    A whole call that nobody interrupts: the scope's identity if it has one, else what the creation hands
    back, if it is sound and its three names are new.
    */
    method FindOrCreate(principal: string, serviceDid: string, created: Result<Identity>)
      returns (result: Result<Identity>)
      requires Consistent(View())
      modifies this
      ensures Consistent(View())
      ensures principal == "" || serviceDid == "" ==> result == Err && View() == old(View())
      ensures principal != "" && serviceDid != "" ==>
        if exists id :: id in old(records) && ScopeOf(old(records)[id]) == (principal, serviceDid) then
          View() == old(View()) && result.Ok? && ScopeOf(result.value) == (principal, serviceDid)
          && result.value.agentIdentityId in records && records[result.value.agentIdentityId] == result.value
        else if created.Ok? && ValidIdentity(created.value) && ScopeOf(created.value) == (principal, serviceDid)
                && (forall id :: id in old(records) ==>
                      var other := old(records)[id];
                      other.agentIdentityId != created.value.agentIdentityId
                      && other.agentDid != created.value.agentDid && other.agentDidId != created.value.agentDidId) then
          result == created && records == old(records)[created.value.agentIdentityId := created.value]
        else
          result == Err && View() == old(View())
    {
      if principal == "" || serviceDid == "" { return Err; }
      var existing := FindInScope(principal, serviceDid);
      if existing.Some? { return Ok(existing.value); }
      if created.Err? || !ValidIdentity(created.value) { return Err; }
      var identity := created.value;
      if identity.principal != principal || identity.serviceDid != serviceDid { return Err; }
      UnusedIsNew(View(), identity);
      var ok := Insert(identity);
      result := if ok then Ok(identity) else Err;
    }

    method UpdateStatus(id: string, status: Status, at: int) returns (updated: Option<Identity>)
      requires Consistent(View())
      modifies this`records
      ensures View() == StatusUpdated(old(View()), id, status, at) && Consistent(View())
      ensures records.Keys == old(records).Keys
      ensures id in records ==> records[id] == old(records)[id].(status := status, updatedAt := at)
      ensures forall other :: other in records && other != id ==> records[other] == old(records)[other]
      ensures updated == if id in old(records) then Some(records[id]) else None
    {
      StatusUpdatedConsistent(View(), id, status, at);
      if id !in records { return None; }
      records := records[id := records[id].(status := status, updatedAt := at)];
      updated := Some(records[id]);
    }
  }
}
