/**
What concurrent idempotent calls achieve: a success is stored and answered, no operation of its key runs
again for an hour, later calls replay it, and one call on its own does what it is documented to do.
*/
module CommandOutcomes {
  import opened Common
  import opened CommandStore
  import L = KeyedLock

  /** The response as it is stored: a Platform dates one that was left at the epoch. */
  function Dated<B>(flavor: Flavor, response: Response<B>, at: int): Response<B> {
    Response(response.body, if flavor == Platform && response.createdAt == 0 then at else response.createdAt)
  }

  predicate StoredBy<B(==)>(e: Event<B>, t: L.TaskId, record: Record<B>) {
    e.Stored? && e.task == t && e.record == record
  }

  ghost predicate InLog<B>(log: seq<Event<B>>, t: L.TaskId, record: Record<B>) {
    exists i :: 0 <= i < |log| && StoredBy(log[i], t, record)
  }

  /** A successful operation on its way: about to be stored, or stored, logged and answered. */
  ghost predicate Succeeding<B>(s: System<B>, t: L.TaskId, record: Record<B>) {
    && t in s.calls && s.calls[t].input == record.input
    && match s.calls[t].stage
       case Ready(_, response, storedAt) =>
         InCritical(s, t) && response == record.response && storedAt == record.storedAt
       case Decided(outcome) =>
         outcome == Created(record.response) && InLog(LogOf(s, KeyOf(record.input)), t, record)
       case _ => false
  }

  lemma InLogAppend<B>(log: seq<Event<B>>, e: Event<B>, t: L.TaskId, record: Record<B>)
    requires InLog(log, t, record) || StoredBy(e, t, record)
    ensures InLog(log + [e], t, record)
  {
    if InLog(log, t, record) {
      var i :| 0 <= i < |log| && StoredBy(log[i], t, record);
      assert (log + [e])[i] == log[i];
    } else {
      assert (log + [e])[|log|] == e;
    }
  }

  lemma LogGrows<B>(s: System<B>, step: Step<B>, k: Key, t: L.TaskId, record: Record<B>)
    requires InLog(LogOf(s, k), t, record)
    ensures InLog(LogOf(Apply(s, step), k), t, record)
  {
    var log, log' := LogOf(s, k), LogOf(Apply(s, step), k);
    if log' != log {
      assert log' == log + [log'[|log|]];
      InLogAppend(log, log'[|log|], t, record);
    }
  }

  lemma InsertSucceeds<B>(s: System<B>, t: L.TaskId, record: Record<B>)
    requires Succeeding(s, t, record) && Enabled(s, Insert(t))
    ensures var s' := Apply(s, Insert(t));
            && Succeeding(s', t, record) && s'.calls[t].stage.Decided?
            && KeyOf(record.input) in s'.records && s'.records[KeyOf(record.input)] == record
  {
    var k := KeyOf(record.input);
    var e := Stored(t, record, s.calls[t].stage.at);
    assert LogOf(Apply(s, Insert(t)), k) == LogOf(s, k) + [e];
    InLogAppend(LogOf(s, k), e, t, record);
  }

  lemma ApplyKeepsSucceeding<B>(s: System<B>, step: Step<B>, t: L.TaskId, record: Record<B>)
    requires Succeeding(s, t, record)
    ensures Succeeding(Apply(s, step), t, record)
  {
    if step == Insert(t) && Enabled(s, step) {
      InsertSucceeds(s, t, record);
    } else if s.calls[t].stage.Decided? {
      LogGrows(s, step, KeyOf(record.input), t, record);
    }
  }

  lemma {:induction false} ExecKeepsSucceeding<B>(s: System<B>, steps: seq<Step<B>>, t: L.TaskId, record: Record<B>)
    requires Succeeding(s, t, record)
    ensures Succeeding(Exec(s, steps), t, record)
    decreases |steps|
  {
    if steps != [] {
      ApplyKeepsSucceeding(s, steps[0], t, record);
      ExecKeepsSucceeding(Apply(s, steps[0]), steps[1..], t, record);
    }
  }

  lemma CompleteSucceeds<B>(s: System<B>, t: L.TaskId, response: Response<B>)
    requires Enabled(s, Complete(t, Ok(response)))
    ensures Succeeding(Apply(s, Complete(t, Ok(response))), t,
                       Record(s.calls[t].input, Dated(s.flavor, response, s.clock), s.clock))
  {
  }

  /**
  In every run, a call whose operation succeeds is next to store that success, and nothing can cancel it;
  once it has an answer, the answer is that response as newly created, and the log of its key holds it,
  stamped with the clock at which the operation completed.
  */
  lemma SuccessIsStored<B>(flavor: Flavor, clock: int, before: seq<Step<B>>, t: L.TaskId, response: Response<B>,
                           after: seq<Step<B>>)
    requires Enabled(Exec(Empty<B>(flavor, clock), before), Complete(t, Ok(response)))
    ensures var s := Exec(Empty<B>(flavor, clock), before);
            var record := Record(s.calls[t].input, Dated(s.flavor, response, s.clock), s.clock);
            var k := KeyOf(record.input);
            var later := Exec(Apply(s, Complete(t, Ok(response))), after);
            && t in later.calls
            && (if later.calls[t].stage.Decided? then
                  later.calls[t].stage.outcome == Created(record.response) && InLog(LogOf(later, k), t, record)
                else
                  Enabled(later, Insert(t)) && !Enabled(later, Cancel(t))
                  && var stored := Apply(later, Insert(t));
                     && k in stored.records && stored.records[k] == record
                     && stored.calls[t].stage == Decided(Created(record.response)))
  {
    var s := Exec(Empty<B>(flavor, clock), before);
    var record := Record(s.calls[t].input, Dated(s.flavor, response, s.clock), s.clock);
    var next := Apply(s, Complete(t, Ok(response)));
    CompleteSucceeds(s, t, response);
    ExecKeepsSucceeding(next, after, t, record);
    if !Exec(next, after).calls[t].stage.Decided? {
      InsertSucceeds(Exec(next, after), t, record);
    }
  }

  // ----- After a success

  /** The successful call, and the state some steps after its operation completed. */
  ghost predicate Succeeded<B>(flavor: Flavor, clock: int, before: seq<Step<B>>, t: L.TaskId, response: Response<B>) {
    Enabled(Exec(Empty<B>(flavor, clock), before), Complete(t, Ok(response)))
  }

  /** Another call of the key in its critical section finds the success in the log. */
  lemma AnotherFindsIt<B>(s: System<B>, t: L.TaskId, record: Record<B>, u: L.TaskId)
    requires Inv(s) && Succeeding(s, t, record) && InCritical(s, u) && !s.calls[u].stage.Decided?
    requires KeyOf(s.calls[u].input) == KeyOf(record.input) && !s.calls[u].stage.Ready?
    ensures InLog(LogOf(s, KeyOf(record.input)), t, record)
  {
    if s.calls[t].stage.Ready? { Alone(s, t, u); }
  }

  /** The latest stored result of a log is no older than any in it. */
  lemma LatestNotOlder<B>(log: seq<Event<B>>, t: L.TaskId, record: Record<B>)
    requires AtomicRun(log) && InLog(log, t, record)
    ensures Latest(log).Some?
    ensures Latest(log).value == record || record.storedAt + RETENTION < Latest(log).value.storedAt
  {
    var i :| 0 <= i < |log| && StoredBy(log[i], t, record);
    LatestExists(log, i);
    var j := LatestIsStored(log);
    if i < j { StoredApart(log, i, j); }
  }

  /**
  In every run, once an operation has succeeded no operation of its key runs for more than an hour: not
  only is no second result stored, none is asked for.
  */
  lemma NoneRunsWithinTheHour<B>(flavor: Flavor, clock: int, before: seq<Step<B>>, t: L.TaskId, response: Response<B>,
                                 after: seq<Step<B>>, u: L.TaskId)
    requires Succeeded(flavor, clock, before, t, response)
    requires var s := Exec(Empty<B>(flavor, clock), before);
             var later := Exec(Apply(s, Complete(t, Ok(response))), after);
             && InCritical(later, u) && later.calls[u].stage.Running?
             && KeyOf(later.calls[u].input) == KeyOf(s.calls[t].input)
    ensures var s := Exec(Empty<B>(flavor, clock), before);
            s.clock + RETENTION < Exec(Apply(s, Complete(t, Ok(response))), after).clock
  {
    var s := Exec(Empty<B>(flavor, clock), before);
    var record := Record(s.calls[t].input, Dated(s.flavor, response, s.clock), s.clock);
    var next := Apply(s, Complete(t, Ok(response)));
    var later := Exec(next, after);
    LaterInv(flavor, clock, before, t, response, after);
    CompleteSucceeds(s, t, response);
    ExecKeepsSucceeding(next, after, t, record);
    AnotherFindsIt(later, t, record, u);
    RunningIsLate(later, t, record, u);
  }

  lemma LaterInv<B>(flavor: Flavor, clock: int, before: seq<Step<B>>, t: L.TaskId, response: Response<B>,
                    after: seq<Step<B>>)
    ensures Inv(Exec(Apply(Exec(Empty<B>(flavor, clock), before), Complete(t, Ok(response))), after))
  {
    var s := Exec(Empty<B>(flavor, clock), before);
    ReachableInv<B>(flavor, clock, before);
    ApplyInv(s, Complete(t, Ok(response)));
    ExecInv(Apply(s, Complete(t, Ok(response))), after);
  }

  lemma RunningIsLate<B>(s: System<B>, t: L.TaskId, record: Record<B>, u: L.TaskId)
    requires Inv(s) && InCritical(s, u) && s.calls[u].stage.Running?
    requires KeyOf(s.calls[u].input) == KeyOf(record.input) && InLog(LogOf(s, KeyOf(record.input)), t, record)
    ensures record.storedAt + RETENTION < s.clock
  {
    assert StageOk(s, s.calls[u]) && LogOk(s, KeyOf(record.input));
    LatestNotOlder(LogOf(s, KeyOf(record.input)), t, record);
  }

  /**
  In every run, a later call of the key that looks within the hour is answered from the success: its
  response when command and request hash are the same, a conflict when they are not.
  */
  lemma LaterCallReplays<B>(flavor: Flavor, clock: int, before: seq<Step<B>>, t: L.TaskId, response: Response<B>,
                            after: seq<Step<B>>, u: L.TaskId)
    requires Succeeded(flavor, clock, before, t, response)
    requires var s := Exec(Empty<B>(flavor, clock), before);
             var later := Exec(Apply(s, Complete(t, Ok(response))), after);
             && Enabled(later, Lookup(u)) && KeyOf(later.calls[u].input) == KeyOf(s.calls[t].input)
             && later.clock <= s.clock + RETENTION
    ensures var s := Exec(Empty<B>(flavor, clock), before);
            var later := Exec(Apply(s, Complete(t, Ok(response))), after);
            var asked, first := later.calls[u].input, s.calls[t].input;
            Apply(later, Lookup(u)).calls[u].stage ==
              Decided(if asked.command == first.command && asked.requestHash == first.requestHash
                      then Replayed(Dated(s.flavor, response, s.clock)) else Conflict)
  {
    var s := Exec(Empty<B>(flavor, clock), before);
    var record := Record(s.calls[t].input, Dated(s.flavor, response, s.clock), s.clock);
    var next := Apply(s, Complete(t, Ok(response)));
    var later := Exec(next, after);
    LaterInv(flavor, clock, before, t, response, after);
    CompleteSucceeds(s, t, response);
    ExecKeepsSucceeding(next, after, t, record);
    AnotherFindsIt(later, t, record, u);
    RecordIsThere(later, t, record, u);
  }

  lemma RecordIsThere<B>(s: System<B>, t: L.TaskId, record: Record<B>, u: L.TaskId)
    requires Inv(s) && Enabled(s, Lookup(u)) && s.clock <= record.storedAt + RETENTION
    requires KeyOf(s.calls[u].input) == KeyOf(record.input) && InLog(LogOf(s, KeyOf(record.input)), t, record)
    ensures KeyOf(record.input) in s.records && s.records[KeyOf(record.input)] == record
    ensures s.calls[u].stage.now <= s.clock
  {
    var k := KeyOf(record.input);
    assert StageOk(s, s.calls[u]) && LogOk(s, k) && RecordOk(s, k);
    LatestNotOlder(LogOf(s, k), t, record);
    var j := LatestIsStored(LogOf(s, k));
    assert Done(LogOf(s, k)[j]) <= s.clock;
  }

  // ----- One call on its own

  lemma {:induction false} ExecAppend<B>(s: System<B>, first: seq<Step<B>>, second: seq<Step<B>>)
    ensures Exec(s, first + second) == Exec(Exec(s, first), second)
    decreases |first|
  {
    if first == [] {
      assert first + second == second;
    } else {
      assert (first + second)[1..] == first[1..] + second;
      ExecAppend(Apply(s, first[0]), first[1..], second);
    }
  }

  lemma ExecOne<B>(s: System<B>, a: Step<B>)
    ensures Exec(s, [a]) == Apply(s, a)
  {
    assert [a][1..] == [];
  }

  lemma ExecTwo<B>(s: System<B>, a: Step<B>, b: Step<B>)
    ensures Exec(s, [a, b]) == Apply(Apply(s, a), b)
  {
    assert [a, b][1..] == [b] && [b][1..] == [];
    assert Exec(Apply(s, a), [b]) == Exec(Apply(Apply(s, a), b), []);
  }

  /** The call may start, and finds its lock free. */
  ghost predicate Unhindered<B>(s: System<B>, t: L.TaskId, input: Input) {
    && Acceptable(s.flavor, input) && L.Inv(s.locks) && t !in s.calls && t !in s.locks.tasks
    && (KeyOf(input) in s.locks.locks ==> s.locks.locks[KeyOf(input)] !in s.locks.owner)
  }

  lemma Started<B>(s: System<B>, t: L.TaskId, input: Input)
    requires Unhindered(s, t, input)
    ensures var s' := Exec(s, [Begin(t, input), Acquire(t)]);
            && InCritical(s', t) && s'.calls == s.calls[t := Call(input, Arrived)]
            && s'.flavor == s.flavor && s'.records == s.records && s'.clock == s.clock
  {
    ExecTwo(s, Begin(t, input), Acquire(t));
    var begun := Apply(s, Begin(t, input));
    assert begun.locks == L.Apply(s.locks, L.Enter(t, KeyOf(input)));
    L.ApplyInv(s.locks, L.Enter(t, KeyOf(input)));
    assert begun.locks.tasks[t].lock !in begun.locks.owner;
  }

  /** What the lookup leaves: an answer, or an operation that runs. */
  lemma LookedUp<B>(s: System<B>, t: L.TaskId, input: Input)
    requires InCritical(s, t) && s.calls[t] == Call(input, Arrived)
    ensures var s' := Exec(s, [ReadClock(t), Lookup(t)]);
            var own := if KeyOf(input) in s.records then Some(s.records[KeyOf(input)]) else None;
            && InCritical(s', t) && s'.calls[t].input == input && s'.flavor == s.flavor && s'.clock == s.clock
            && s'.records == Retain(s.records, s.clock)
            && s'.calls[t].stage == match Judge(own, input, s.clock)
                                    case Some(answer) => Decided(answer)
                                    case None => Running(s.clock)
  {
    ExecTwo(s, ReadClock(t), Lookup(t));
  }

  /** The operation, if it runs, and the storing of its success. */
  lemma Worked<B>(s: System<B>, t: L.TaskId, elapsed: nat, result: Result<Response<B>>)
    requires InCritical(s, t) && (s.calls[t].stage.Decided? || s.calls[t].stage.Running?)
    ensures var s' := Exec(s, [Tick(elapsed)] + [Complete(t, result), Insert(t)]);
            var input, at := s.calls[t].input, s.clock + elapsed;
            && InCritical(s', t)
            && (s.calls[t].stage.Decided? ==> s'.calls[t] == s.calls[t] && s'.records == s.records)
            && (s.calls[t].stage.Running? && result.Ok? ==>
                  var stored := Dated(s.flavor, result.value, at);
                  && s'.calls[t].stage == Decided(Created(stored))
                  && s'.records == s.records[KeyOf(input) := Record(input, stored, at)])
            && (s.calls[t].stage.Running? && result.Err? ==>
                  s'.calls[t].stage == Decided(Failed) && s'.records == s.records)
  {
    var ticked := Apply(s, Tick(elapsed));
    ExecAppend(s, [Tick(elapsed)], [Complete(t, result), Insert(t)]);
    ExecOne(s, Tick(elapsed));
    ExecTwo(ticked, Complete(t, result), Insert(t));
  }

  lemma Left<B>(s: System<B>, t: L.TaskId)
    requires InCritical(s, t) && s.calls[t].stage.Decided?
    ensures var s' := Exec(s, [Exit(t)] + [Release(t), DropArc(t)]);
            && s'.calls == s.calls && s'.records == s.records
            && t in s'.locks.tasks && s'.locks.tasks[t].Finished?
  {
    var out := Apply(s, Exit(t));
    ExecAppend(s, [Exit(t)], [Release(t), DropArc(t)]);
    ExecOne(s, Exit(t));
    ExecTwo(out, Release(t), DropArc(t));
  }

  /** All steps of one call; those its answer makes impossible change nothing. */
  function LoneCall<B>(t: L.TaskId, input: Input, elapsed: nat, result: Result<Response<B>>): seq<Step<B>> {
    [Begin(t, input), Acquire(t)]
    + ([ReadClock(t), Lookup(t)]
       + (([Tick(elapsed)] + [Complete(t, result), Insert(t)]) + ([Exit(t)] + [Release(t), DropArc(t)])))
  }

  lemma ExecFourParts<B>(s: System<B>, a: seq<Step<B>>, b: seq<Step<B>>, c: seq<Step<B>>, d: seq<Step<B>>)
    ensures Exec(s, a + (b + (c + d))) == Exec(Exec(Exec(Exec(s, a), b), c), d)
  {
    ExecAppend(s, a, b + (c + d));
    ExecAppend(Exec(s, a), b, c + d);
    ExecAppend(Exec(Exec(s, a), b), c, d);
  }

  /** From the opening of a call to its answer. */
  lemma Answers<B>(s: System<B>, begun: System<B>, t: L.TaskId, input: Input, elapsed: nat, result: Result<Response<B>>)
    requires InCritical(begun, t) && begun.calls[t] == Call(input, Arrived)
    requires begun.flavor == s.flavor && begun.records == s.records && begun.clock == s.clock
    ensures var worked := Exec(Exec(begun, [ReadClock(t), Lookup(t)]),
                               [Tick(elapsed)] + [Complete(t, result), Insert(t)]);
            && InCritical(worked, t) && worked.calls[t].stage.Decided?
            && (worked.records, worked.calls[t].stage.outcome)
                 == Uninterrupted(s.flavor, s.records, input, result, s.clock, s.clock + elapsed)
  {
    LookedUp(begun, t, input);
    Worked(Exec(begun, [ReadClock(t), Lookup(t)]), t, elapsed, result);
  }

  /**
  One call whose steps nothing comes between runs to its end and leaves the records and the answer that
  the whole call is specified to leave.
  */
  lemma UninterruptedRun<B>(s: System<B>, t: L.TaskId, input: Input, elapsed: nat, result: Result<Response<B>>)
    requires Unhindered(s, t, input)
    ensures var s' := Exec(s, LoneCall(t, input, elapsed, result));
            && t in s'.calls && s'.calls[t].stage.Decided? && t in s'.locks.tasks && s'.locks.tasks[t].Finished?
            && (s'.records, s'.calls[t].stage.outcome)
                 == Uninterrupted(s.flavor, s.records, input, result, s.clock, s.clock + elapsed)
  {
    ExecFourParts(s, [Begin(t, input), Acquire(t)], [ReadClock(t), Lookup(t)],
                  [Tick(elapsed)] + [Complete(t, result), Insert(t)], [Exit(t)] + [Release(t), DropArc(t)]);
    var begun := Exec(s, [Begin(t, input), Acquire(t)]);
    Started(s, t, input);
    Answers(s, begun, t, input, elapsed, result);
    Left(Exec(Exec(begun, [ReadClock(t), Lookup(t)]), [Tick(elapsed)] + [Complete(t, result), Insert(t)]), t);
  }
}
