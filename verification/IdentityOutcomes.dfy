/** What concurrent identity creation achieves: a scope's identity is found again, and a sound creation is kept. */
module IdentityOutcomes {
  import opened Common
  import opened IdentityStore
  import L = KeyedLock

  lemma {:induction false} DecidedStays(s: System, steps: seq<Step>, t: L.TaskId)
    requires t in s.calls && s.calls[t].stage.Decided?
    ensures t in Exec(s, steps).calls && Exec(s, steps).calls[t] == s.calls[t]
    decreases |steps|
  {
    if steps != [] { DecidedStays(Apply(s, steps[0]), steps[1..], t); }
  }

  /**
  In every run, a call that looks while its scope has an identity answers with that identity, and keeps
  that answer: nothing is created a second time.
  */
  lemma ScopeIsFoundAgain(before: seq<Step>, t: L.TaskId, i: Identity, after: seq<Step>)
    requires var s := Exec(EMPTY, before);
             Enabled(s, Find(t)) && Recorded(s.tables, i) && s.calls[t].scope == (i.principal, i.serviceDid)
    ensures var s := Exec(EMPTY, before);
            var later := Exec(Apply(s, Find(t)), after);
            && t in later.calls && later.calls[t].stage.Decided? && later.calls[t].stage.result.Ok?
            && SameIdentity(later.calls[t].stage.result.value, i)
            && later.calls[t].stage.result.value == s.tables.records[i.agentIdentityId]
  {
    DecidedStays(Apply(Exec(EMPTY, before), Find(t)), after, t);
  }

  /** A call that looks while its scope has no identity goes on to create one. */
  lemma FreeScopeCreates(before: seq<Step>, t: L.TaskId)
    requires var s := Exec(EMPTY, before);
             Enabled(s, Find(t))
             && forall id :: id in s.tables.records ==>
                  (s.tables.records[id].principal, s.tables.records[id].serviceDid) != s.calls[t].scope
    ensures Apply(Exec(EMPTY, before), Find(t)).calls[t].stage == Creating
    ensures forall created :: Enabled(Apply(Exec(EMPTY, before), Find(t)), Create(t, created))
  {
    RunInv(before);
  }

  /** No field is missing, and the identity is for the scope that asked. */
  predicate SoundFor(i: Identity, scope: Scope) {
    && i.agentDid != "" && i.agentDidId != "" && i.agentIdentityId != "" && i.didDocumentUrl != ""
    && i.keyId != "" && i.principal != "" && i.serviceDid != "" && i.signingAlgorithms != []
    && i.principal == scope.0 && i.serviceDid == scope.1
  }

  /** Some record has one of the three names of the identity. */
  predicate NameTaken(tables: Tables, i: Identity) {
    exists id :: id in tables.records &&
      var other := tables.records[id];
      || other.agentIdentityId == i.agentIdentityId || other.agentDid == i.agentDid
      || other.agentDidId == i.agentDidId
  }

  /** A sound creation on its way: about to be inserted, or kept, or refused because a name of it is taken. */
  ghost predicate Arriving(s: System, t: L.TaskId, i: Identity) {
    && t in s.calls && s.calls[t].scope == ScopeOf(i)
    && match s.calls[t].stage
       case Validated(identity) => InCritical(s, t) && identity == i
       case Decided(Ok(identity)) => identity == i && Recorded(s.tables, i)
       case Decided(Err) => NameTaken(s.tables, i)
       case _ => false
  }

  lemma UnusedIffUntaken(tables: Tables, i: Identity)
    requires Consistent(tables)
    ensures Unused(tables, i) <==> !NameTaken(tables, i)
  {
    UnusedIsNew(tables, i);
  }

  lemma InsertAnswers(s: System, t: L.TaskId, i: Identity)
    requires Inv(s) && Arriving(s, t, i) && Enabled(s, Insert(t))
    ensures var s' := Apply(s, Insert(t));
            && Arriving(s', t, i) && s'.calls[t].stage.Decided?
            && (s'.calls[t].stage.result.Ok? <==> !NameTaken(s.tables, i))
  {
    assert Reserved(s.tables, s.calls[t]);
    UnusedIffUntaken(s.tables, i);
    if Unused(s.tables, i) { InsertedConsistent(s.tables, i); }
  }

  lemma NamesStayTaken(s: System, step: Step, i: Identity)
    requires Inv(s) && NameTaken(s.tables, i)
    ensures NameTaken(Apply(s, step).tables, i)
  {
    var tables, tables' := s.tables, Apply(s, step).tables;
    var id :| id in tables.records &&
      (tables.records[id].agentIdentityId == i.agentIdentityId || tables.records[id].agentDid == i.agentDid
       || tables.records[id].agentDidId == i.agentDidId);
    assert Recorded(tables, tables.records[id]);
    ApplyKeepsRecorded(s, step, tables.records[id]);
    assert id in tables'.records;
  }

  lemma ApplyKeepsArriving(s: System, step: Step, t: L.TaskId, i: Identity)
    requires Inv(s) && Arriving(s, t, i)
    ensures Arriving(Apply(s, step), t, i)
  {
    if s.calls[t].stage.Decided? {
      DecidedStays(s, [step], t);
      assert [step][1..] == [] && Exec(s, [step]) == Apply(s, step);
      if s.calls[t].stage.result.Ok? { ApplyKeepsRecorded(s, step, i); } else { NamesStayTaken(s, step, i); }
    } else if step == Insert(t) && Enabled(s, step) {
      InsertAnswers(s, t, i);
    }
  }

  lemma {:induction false} ExecKeepsArriving(s: System, steps: seq<Step>, t: L.TaskId, i: Identity)
    requires Inv(s) && Arriving(s, t, i)
    ensures Arriving(Exec(s, steps), t, i)
    decreases |steps|
  {
    if steps != [] {
      ApplyKeepsArriving(s, steps[0], t, i);
      ApplyInv(s, steps[0]);
      ExecKeepsArriving(Apply(s, steps[0]), steps[1..], t, i);
    }
  }

  /**
  In every run, a call whose creation hands back a sound identity for its scope is next to insert it, and
  nothing can cancel it. It is answered with that identity, then recorded, if and only if no record then
  has one of its three names; and it keeps its answer.
  */
  lemma SoundCreationIsKept(before: seq<Step>, t: L.TaskId, i: Identity, after: seq<Step>)
    requires var s := Exec(EMPTY, before);
             Enabled(s, Create(t, Ok(i))) && SoundFor(i, s.calls[t].scope)
    ensures var later := Exec(Apply(Exec(EMPTY, before), Create(t, Ok(i))), after);
            && t in later.calls
            && (if later.calls[t].stage.Decided? then
                  if later.calls[t].stage.result.Ok?
                  then later.calls[t].stage.result == Ok(i) && Recorded(later.tables, i)
                  else NameTaken(later.tables, i)
                else
                  Enabled(later, Insert(t)) && !Enabled(later, Cancel(t))
                  && Apply(later, Insert(t)).calls[t].stage ==
                       Decided(if NameTaken(later.tables, i) then Err else Ok(i)))
  {
    var s := Exec(EMPTY, before);
    var next := Apply(s, Create(t, Ok(i)));
    RunInv(before);
    ApplyInv(s, Create(t, Ok(i)));
    CreateArrives(s, t, i);
    ExecKeepsArriving(next, after, t, i);
    ExecInv(next, after);
    ArrivingInserts(Exec(next, after), t, i);
  }

  lemma CreateArrives(s: System, t: L.TaskId, i: Identity)
    requires Enabled(s, Create(t, Ok(i))) && SoundFor(i, s.calls[t].scope)
    ensures Arriving(Apply(s, Create(t, Ok(i))), t, i)
  {
  }

  lemma ArrivingInserts(s: System, t: L.TaskId, i: Identity)
    requires Inv(s) && Arriving(s, t, i)
    ensures !s.calls[t].stage.Decided? ==>
      && Enabled(s, Insert(t)) && !Enabled(s, Cancel(t))
      && Apply(s, Insert(t)).calls[t].stage == Decided(if NameTaken(s.tables, i) then Err else Ok(i))
  {
    if !s.calls[t].stage.Decided? {
      ArrivingIsNext(s, t, i);
      InsertAnswers(s, t, i);
      ArrivingAnswer(Apply(s, Insert(t)), t, i);
    }
  }

  lemma ArrivingIsNext(s: System, t: L.TaskId, i: Identity)
    requires Arriving(s, t, i) && !s.calls[t].stage.Decided?
    ensures Enabled(s, Insert(t)) && !Enabled(s, Cancel(t))
  {
  }

  lemma ArrivingAnswer(s: System, t: L.TaskId, i: Identity)
    requires Arriving(s, t, i) && s.calls[t].stage.Decided?
    ensures s.calls[t].stage == Decided(if s.calls[t].stage.result.Ok? then Ok(i) else Err)
  {
  }

  // ----- One call on its own

  lemma {:induction false} ExecAppend(s: System, first: seq<Step>, second: seq<Step>)
    ensures Exec(s, first + second) == Exec(Exec(s, first), second)
    decreases |first|
  {
    if first == [] {
      assert first + second == second;
    } else {
      assert (first + second)[1..] == first[1..] + second;
      ExecAppend(Apply(s, first[0]), first[1..], second);
    }
  }

  lemma ExecTwo(s: System, a: Step, b: Step)
    ensures Exec(s, [a, b]) == Apply(Apply(s, a), b)
  {
    assert [a, b][1..] == [b] && [b][1..] == [];
    assert Exec(Apply(s, a), [b]) == Exec(Apply(Apply(s, a), b), []);
  }

  lemma ExecThree(s: System, a: Step, b: Step, c: Step)
    ensures Exec(s, [a] + [b, c]) == Apply(Apply(Apply(s, a), b), c)
  {
    ExecAppend(s, [a], [b, c]);
    assert [a][1..] == [];
    ExecTwo(Apply(s, a), b, c);
  }

  /** The call may start, and finds its lock free. */
  ghost predicate Unhindered(s: System, t: L.TaskId, scope: Scope) {
    && Inv(s) && scope.0 != "" && scope.1 != "" && t !in s.calls && t !in s.locks.tasks
    && (scope in s.locks.locks ==> s.locks.locks[scope] !in s.locks.owner)
  }

  lemma Started(s: System, t: L.TaskId, scope: Scope)
    requires Unhindered(s, t, scope)
    ensures var s' := Exec(s, [Begin(t, scope), Acquire(t)]);
            && InCritical(s', t) && s'.calls == s.calls[t := Call(scope, Arrived)] && s'.tables == s.tables
  {
    ExecTwo(s, Begin(t, scope), Acquire(t));
    var begun := Apply(s, Begin(t, scope));
    assert begun.locks == L.Apply(s.locks, L.Enter(t, scope));
    L.ApplyInv(s.locks, L.Enter(t, scope));
    assert begun.locks.tasks[t].lock !in begun.locks.owner;
  }

  /** What a call by itself is answered, and the tables it leaves. */
  ghost predicate AnsweredAlone(before: Tables, scope: Scope, created: Result<Identity>, result: Result<Identity>,
                                after: Tables)
  {
    if exists id :: id in before.records && ScopeOf(before.records[id]) == scope then
      after == before && result.Ok? && ScopeOf(result.value) == scope
      && result.value.agentIdentityId in before.records
      && before.records[result.value.agentIdentityId] == result.value
    else if created.Ok? && SoundFor(created.value, scope) && !NameTaken(before, created.value) then
      result == created && after.records == before.records[created.value.agentIdentityId := created.value]
    else
      result == Err && after == before
  }

  lemma Worked(s: System, t: L.TaskId, scope: Scope, created: Result<Identity>)
    requires InCritical(s, t) && s.calls[t] == Call(scope, Arrived) && Consistent(s.tables)
    ensures var s' := Exec(s, [Find(t)] + [Create(t, created), Insert(t)]);
            && InCritical(s', t) && s'.calls[t].stage.Decided?
            && AnsweredAlone(s.tables, scope, created, s'.calls[t].stage.result, s'.tables)
  {
    ExecThree(s, Find(t), Create(t, created), Insert(t));
    var found := Apply(s, Find(t));
    if FindScoped(s.tables, scope).Some? {
      assert Apply(Apply(found, Create(t, created)), Insert(t)) == found;
      assert ScopeOf(s.tables.records[s.tables.byScope[scope]]) == scope;
    } else {
      assert forall id :: id in s.tables.records ==> ScopeOf(s.tables.records[id]) != scope;
      CreatedAlone(found, t, scope, created);
    }
  }

  lemma CreatedAlone(s: System, t: L.TaskId, scope: Scope, created: Result<Identity>)
    requires InCritical(s, t) && s.calls[t] == Call(scope, Creating) && Consistent(s.tables)
    ensures var s' := Apply(Apply(s, Create(t, created)), Insert(t));
            && InCritical(s', t) && s'.calls[t].stage.Decided?
            && var result := s'.calls[t].stage.result;
               if created.Ok? && SoundFor(created.value, scope) && !NameTaken(s.tables, created.value) then
                 result == created
                 && s'.tables.records == s.tables.records[created.value.agentIdentityId := created.value]
               else result == Err && s'.tables == s.tables
  {
    CreationChecked(s, t, scope, created);
    if created.Ok? { UnusedIffUntaken(s.tables, created.value); }
  }

  lemma CreationChecked(s: System, t: L.TaskId, scope: Scope, created: Result<Identity>)
    requires InCritical(s, t) && s.calls[t] == Call(scope, Creating)
    ensures var sound := created.Ok? && SoundFor(created.value, scope);
            var stage := if sound then Validated(created.value) else Decided(Err);
            Apply(s, Create(t, created)) == s.(calls := s.calls[t := Call(scope, stage)])
  {
  }

  lemma Left(s: System, t: L.TaskId)
    requires InCritical(s, t) && s.calls[t].stage.Decided?
    ensures var s' := Exec(s, [Exit(t)] + [Release(t), DropArc(t)]);
            && s'.calls == s.calls && s'.tables == s.tables && t in s'.locks.tasks && s'.locks.tasks[t].Finished?
  {
    ExecThree(s, Exit(t), Release(t), DropArc(t));
  }

  /** All steps of one call; those its answer makes impossible change nothing. */
  function LoneCall(t: L.TaskId, scope: Scope, created: Result<Identity>): seq<Step> {
    [Begin(t, scope), Acquire(t)]
    + (([Find(t)] + [Create(t, created), Insert(t)]) + ([Exit(t)] + [Release(t), DropArc(t)]))
  }

  /** One call whose steps nothing comes between runs to its end with the answer its scope calls for. */
  lemma UninterruptedRun(s: System, t: L.TaskId, scope: Scope, created: Result<Identity>)
    requires Unhindered(s, t, scope)
    ensures var s' := Exec(s, LoneCall(t, scope, created));
            && t in s'.calls && s'.calls[t].stage.Decided? && t in s'.locks.tasks && s'.locks.tasks[t].Finished?
            && AnsweredAlone(s.tables, scope, created, s'.calls[t].stage.result, s'.tables)
  {
    var start, leave: seq<Step> := [Begin(t, scope), Acquire(t)], [Exit(t)] + [Release(t), DropArc(t)];
    var work: seq<Step> := [Find(t)] + [Create(t, created), Insert(t)];
    ExecAppend(s, start, work + leave);
    ExecAppend(Exec(s, start), work, leave);
    Started(s, t, scope);
    Worked(Exec(s, start), t, scope, created);
    Left(Exec(Exec(s, start), work), t);
  }
}
