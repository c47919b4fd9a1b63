/**
The idempotent-command stores of the Service and the Platform, run concurrently.

A call waits for the lock of its key, reads the clock, purges expired records of every key, answers
from the record of its own key or runs its operation, reads the clock again and stores the result.
The shared clock may advance and other calls may step between any two of those.
*/
module CommandStore {
  import opened Common
  import L = KeyedLock

  /** How long a stored result stays replayable. */
  const RETENTION: int := 3600 * SECOND

  datatype Flavor = Service | Platform

  datatype Command = Enroll | Grant | Revoke | Provision | Sign | HostedVerification

  type Key = (string, string)

  datatype Input = Input(scope: string, idempotencyKey: string, command: Command, requestHash: string)

  datatype Response<B> = Response(body: B, createdAt: int)

  datatype Record<B> = Record(input: Input, response: Response<B>, storedAt: int)

  datatype Outcome<B> =
    | Created(response: Response<B>)
    | Replayed(response: Response<B>)
    | Conflict
    | Failed
    | Rejected

  function KeyOf(input: Input): Key {
    (input.scope, input.idempotencyKey)
  }

  predicate SameMaterial(a: Input, b: Input) {
    a.command == b.command && a.requestHash == b.requestHash
  }

  /** The Platform refuses an incomplete input before it touches the registry; the Service does not. */
  predicate Acceptable(flavor: Flavor, input: Input) {
    flavor == Platform ==> input.scope != "" && input.idempotencyKey != "" && input.requestHash != ""
  }

  /** The Platform completes a response whose creation time was left at the epoch. */
  function Completed<B>(flavor: Flavor, response: Response<B>, storedAt: int): Response<B> {
    if flavor == Platform && response.createdAt == 0 then response.(createdAt := storedAt) else response
  }

  function Retain<B>(records: map<Key, Record<B>>, now: int): map<Key, Record<B>> {
    map k | k in records && records[k].storedAt + RETENTION >= now :: records[k]
  }

  function Answer<B>(record: Record<B>, input: Input): Outcome<B> {
    if SameMaterial(record.input, input) then Replayed(record.response) else Conflict
  }

  // ----- The atomic store the concurrent one is measured against

  /**
  One call against a store that does everything at the single instant `at` and forgets nothing:
  `latest` is the last result it ever stored for the key. `None` means the operation runs.
  */
  function Judge<B>(latest: Option<Record<B>>, input: Input, at: int): Option<Outcome<B>> {
    match latest
    case None => None
    case Some(r) => if r.storedAt + RETENTION < at then None else Some(Answer(r, input))
  }

  /** What the calls for one key did, in the order in which they held its lock. */
  datatype Event<B> =
    | Stored(task: L.TaskId, record: Record<B>, at: int)
    | Answered(task: L.TaskId, input: Input, outcome: Outcome<B>, at: int)

  function Latest<B>(log: seq<Event<B>>): Option<Record<B>> {
    if log == [] then None
    else if log[|log| - 1].Stored? then Some(log[|log| - 1].record)
    else Latest(log[..|log| - 1])
  }

  /** The event is what the atomic store would do at the instant `at`, given what came before. */
  ghost predicate Atomic<B>(latest: Option<Record<B>>, e: Event<B>) {
    match e
    case Stored(_, record, at) => Judge(latest, record.input, at) == None && at <= record.storedAt
    case Answered(_, input, outcome, at) => Judge(latest, input, at) == Some(outcome)
  }

  /** When an event was over: a stored result at its completion, an answer at its instant. */
  function Done<B>(e: Event<B>): int {
    if e.Stored? then e.record.storedAt else e.at
  }

  ghost predicate Before<B>(log: seq<Event<B>>, at: int) {
    forall i :: 0 <= i < |log| ==> Done(log[i]) <= at
  }

  /** The whole log is a run of the atomic store, each event after those before it were over. */
  ghost predicate AtomicRun<B>(log: seq<Event<B>>) {
    log != [] ==>
      var front, last := log[..|log| - 1], log[|log| - 1];
      AtomicRun(front) && Atomic(Latest(front), last) && Before(front, last.at)
  }

  // ----- The concurrent store

  datatype Stage<B> =
    | Arrived
    | Timed(now: int)
    | Running(at: int)
    | Ready(at: int, response: Response<B>, storedAt: int)
    | Decided(outcome: Outcome<B>)

  datatype Call<B> = Call(input: Input, stage: Stage<B>)

  /** `log` is a history of the run; no step reads it. */
  datatype System<B> = System(
    flavor: Flavor,
    locks: L.Registry<Key>,
    calls: map<L.TaskId, Call<B>>,
    records: map<Key, Record<B>>,
    clock: int,
    log: map<Key, seq<Event<B>>>
  )

  datatype Step<B> =
    | Begin(t: L.TaskId, input: Input)
    | Acquire(t: L.TaskId)
    | ReadClock(t: L.TaskId)
    | Lookup(t: L.TaskId)
    | Complete(t: L.TaskId, result: Result<Response<B>>)
    | Insert(t: L.TaskId)
    | Exit(t: L.TaskId)
    | Release(t: L.TaskId)
    | Cancel(t: L.TaskId)
    | DropArc(t: L.TaskId)
    | Tick(elapsed: nat)

  function Empty<B>(flavor: Flavor, clock: int): System<B> {
    System(flavor, L.Empty(), map[], map[], clock, map[])
  }

  function LogOf<B>(s: System<B>, k: Key): seq<Event<B>> {
    if k in s.log then s.log[k] else []
  }

  predicate InCritical<B>(s: System<B>, t: L.TaskId) {
    t in s.locks.tasks && s.locks.tasks[t].Critical? && t in s.calls
  }

  predicate Enabled<B>(s: System<B>, step: Step<B>) {
    match step
    case Begin(t, _) => t !in s.calls && t !in s.locks.tasks
    case Acquire(t) => L.Enabled(s.locks, L.Acquire(t))
    case ReadClock(t) => InCritical(s, t) && s.calls[t].stage.Arrived?
    case Lookup(t) => InCritical(s, t) && s.calls[t].stage.Timed?
    case Complete(t, _) => InCritical(s, t) && s.calls[t].stage.Running?
    case Insert(t) => InCritical(s, t) && s.calls[t].stage.Ready?
    case Exit(t) => InCritical(s, t) && s.calls[t].stage.Decided?
    case Release(t) => L.Enabled(s.locks, L.Release(t))
    // The two awaits: the lock, and the operation.
    case Cancel(t) =>
      || (t in s.locks.tasks && s.locks.tasks[t].Waiting?)
      || (InCritical(s, t) && s.calls[t].stage.Running?)
    case DropArc(t) => L.Enabled(s.locks, L.DropArc(t))
    case Tick(_) => true
  }

  function SetStage<B>(s: System<B>, t: L.TaskId, stage: Stage<B>): System<B>
    requires t in s.calls
  {
    s.(calls := s.calls[t := s.calls[t].(stage := stage)])
  }

  function Append<B>(s: System<B>, k: Key, e: Event<B>): System<B> {
    s.(log := s.log[k := LogOf(s, k) + [e]])
  }

  function CompletedStage<B>(s: System<B>, at: int, result: Result<Response<B>>): Stage<B> {
    match result
    case Ok(response) => Ready(at, Completed(s.flavor, response, s.clock), s.clock)
    case Err => Decided(Failed)
  }

  function LookupStep<B>(s: System<B>, t: L.TaskId): System<B>
    requires InCritical(s, t) && s.calls[t].stage.Timed?
  {
    var input, now := s.calls[t].input, s.calls[t].stage.now;
    var purged := s.(records := Retain(s.records, now));
    if KeyOf(input) in purged.records then
      var outcome := Answer(purged.records[KeyOf(input)], input);
      Append(SetStage(purged, t, Decided(outcome)), KeyOf(input), Answered(t, input, outcome, now))
    else
      SetStage(purged, t, Running(s.clock))
  }

  function InsertStep<B>(s: System<B>, t: L.TaskId): System<B>
    requires InCritical(s, t) && s.calls[t].stage.Ready?
  {
    var Call(input, Ready(at, response, storedAt)) := s.calls[t];
    var record := Record(input, response, storedAt);
    var stored := s.(records := s.records[KeyOf(input) := record]);
    Append(SetStage(stored, t, Decided(Created(response))), KeyOf(input), Stored(t, record, at))
  }

  function Apply<B>(s: System<B>, step: Step<B>): System<B> {
    if !Enabled(s, step) then s else
    match step
    case Begin(t, input) =>
      if Acceptable(s.flavor, input) then
        s.(locks := L.Apply(s.locks, L.Enter(t, KeyOf(input))), calls := s.calls[t := Call(input, Arrived)])
      else
        s.(calls := s.calls[t := Call(input, Decided(Rejected))])
    case Acquire(t) => s.(locks := L.Apply(s.locks, L.Acquire(t)))
    case ReadClock(t) => SetStage(s, t, Timed(s.clock))
    case Lookup(t) => LookupStep(s, t)
    case Complete(t, result) => SetStage(s, t, CompletedStage(s, s.calls[t].stage.at, result))
    case Insert(t) => InsertStep(s, t)
    case Exit(t) => s.(locks := L.Apply(s.locks, L.Exit(t)))
    case Release(t) => s.(locks := L.Apply(s.locks, L.Release(t)))
    case Cancel(t) => s.(locks := L.Apply(s.locks, L.Cancel(t)))
    case DropArc(t) => s.(locks := L.Apply(s.locks, L.DropArc(t)))
    case Tick(elapsed) => s.(clock := s.clock + elapsed)
  }

  function Exec<B>(s: System<B>, steps: seq<Step<B>>): System<B>
    decreases |steps|
  {
    if steps == [] then s else Exec(Apply(s, steps[0]), steps[1..])
  }

  // ----- The invariant

  /** Each call's phase in the registry fits its stage and its key. */
  ghost predicate PhasesFit<B>(s: System<B>) {
    forall t :: t in s.locks.tasks ==>
      && t in s.calls
      && (L.Relies(s.locks.tasks[t]) ==> s.locks.tasks[t].key == KeyOf(s.calls[t].input))
      && (s.locks.tasks[t].Waiting? ==> s.calls[t].stage.Arrived?)
  }

  /** A running operation is one the atomic store would also have run. */
  ghost predicate StageOk<B>(s: System<B>, call: Call<B>) {
    match call.stage
    case Timed(now) => now <= s.clock && Before(LogOf(s, KeyOf(call.input)), now)
    case Running(at) => at <= s.clock && MayRun(s, call.input, at)
    case Ready(at, _, storedAt) => at <= storedAt <= s.clock && MayRun(s, call.input, at)
    case _ => true
  }

  ghost predicate MayRun<B>(s: System<B>, input: Input, at: int) {
    && KeyOf(input) !in s.records && Before(LogOf(s, KeyOf(input)), at)
    && Judge(Latest(LogOf(s, KeyOf(input))), input, at) == None
  }

  ghost predicate StagesOk<B>(s: System<B>) {
    forall t :: InCritical(s, t) ==> StageOk(s, s.calls[t])
  }

  /** A record present is the latest stored one; one absent was never stored or is past retention. */
  ghost predicate RecordsOk<B>(s: System<B>) {
    forall k: Key :: RecordOk(s, k)
  }

  ghost predicate RecordOk<B>(s: System<B>, k: Key) {
    var latest := Latest(LogOf(s, k));
    if k in s.records then latest == Some(s.records[k])
    else latest.Some? ==> latest.value.storedAt + RETENTION < s.clock
  }

  ghost predicate LogsOk<B>(s: System<B>) {
    forall k: Key :: LogOk(s, k)
  }

  ghost predicate LogOk<B>(s: System<B>, k: Key) {
    AtomicRun(LogOf(s, k)) && LogKeyed(s, k) && Before(LogOf(s, k), s.clock)
  }

  ghost predicate LogKeyed<B>(s: System<B>, k: Key) {
    forall i :: 0 <= i < |LogOf(s, k)| && LogOf(s, k)[i].Stored? ==> KeyOf(LogOf(s, k)[i].record.input) == k
  }

  ghost predicate Tells<B>(e: Event<B>, t: L.TaskId, input: Input, outcome: Outcome<B>) {
    match e
    case Stored(task, record, _) => task == t && record.input == input && outcome == Created(record.response)
    case Answered(task, asked, answer, _) => task == t && asked == input && outcome == answer
  }

  ghost predicate Logged<B>(log: seq<Event<B>>, t: L.TaskId, input: Input, outcome: Outcome<B>) {
    exists i :: 0 <= i < |log| && Tells(log[i], t, input, outcome)
  }

  /** Every answer a call has is in the log of its key. */
  ghost predicate RepliesLogged<B>(s: System<B>) {
    forall t :: t in s.calls ==> ReplyLogged(s, t)
  }

  ghost predicate ReplyLogged<B>(s: System<B>, t: L.TaskId)
    requires t in s.calls
  {
    var call := s.calls[t];
    call.stage.Decided? && !call.stage.outcome.Failed? && !call.stage.outcome.Rejected? ==>
      Logged(LogOf(s, KeyOf(call.input)), t, call.input, call.stage.outcome)
  }

  ghost predicate Inv<B>(s: System<B>) {
    L.Inv(s.locks) && PhasesFit(s) && StagesOk(s) && RecordsOk(s) && LogsOk(s) && RepliesLogged(s)
  }

  lemma LatestAppend<B>(log: seq<Event<B>>, e: Event<B>)
    ensures Latest(log + [e]) == if e.Stored? then Some(e.record) else Latest(log)
    ensures AtomicRun(log) && Atomic(Latest(log), e) && Before(log, e.at) ==> AtomicRun(log + [e])
  {
    assert (log + [e])[..|log|] == log;
  }

  lemma LoggedAppend<B>(log: seq<Event<B>>, e: Event<B>, t: L.TaskId, input: Input, outcome: Outcome<B>)
    requires Logged(log, t, input, outcome) || Tells(e, t, input, outcome)
    ensures Logged(log + [e], t, input, outcome)
  {
    if Logged(log, t, input, outcome) {
      var i :| 0 <= i < |log| && Tells(log[i], t, input, outcome);
      assert (log + [e])[i] == log[i];
    } else {
      assert (log + [e])[|log|] == e;
    }
  }

  /** While a call is in its critical section no other call of its key is. */
  lemma Alone<B>(s: System<B>, t: L.TaskId, u: L.TaskId)
    requires Inv(s) && InCritical(s, t) && InCritical(s, u)
    requires KeyOf(s.calls[t].input) == KeyOf(s.calls[u].input)
    ensures t == u
  {
    L.CriticalUnique(s.locks, t, u);
  }

  lemma RepliesSurvive<B>(s: System<B>, s': System<B>, t: L.TaskId, k: Key, e: Event<B>)
    requires RepliesLogged(s) && t in s.calls && s'.calls.Keys == s.calls.Keys
    requires forall u :: u in s.calls && u != t ==> s'.calls[u] == s.calls[u]
    requires s'.log == s.log[k := LogOf(s, k) + [e]]
    requires s'.calls[t].input == s.calls[t].input && KeyOf(s.calls[t].input) == k
    requires s'.calls[t].stage.Decided? && Tells(e, t, s.calls[t].input, s'.calls[t].stage.outcome)
    ensures RepliesLogged(s')
  {
    forall u | u in s'.calls ensures ReplyLogged(s', u) {
      var call := s'.calls[u];
      if call.stage.Decided? && !call.stage.outcome.Failed? && !call.stage.outcome.Rejected?
         && KeyOf(call.input) == k {
        assert u != t ==> ReplyLogged(s, u);
        LoggedAppend(LogOf(s, k), e, u, call.input, call.stage.outcome);
      } else {
        if u != t { assert ReplyLogged(s, u); }
      }
    }
  }

  /** A step that decides a call and appends its event keeps the invariant for every other call. */
  lemma AppendStages<B>(s: System<B>, s': System<B>, t: L.TaskId, k0: Key)
    requires Inv(s) && InCritical(s, t) && KeyOf(s.calls[t].input) == k0
    requires s'.locks == s.locks && t in s'.calls && s'.calls == s.calls[t := s'.calls[t]]
    requires s'.calls[t].stage.Decided? && s'.calls[t].input == s.calls[t].input
    requires s'.clock == s.clock && s'.records.Keys <= s.records.Keys + {k0}
    requires forall k :: k != k0 ==> LogOf(s', k) == LogOf(s, k)
    ensures StagesOk(s')
  {
    forall u | InCritical(s', u) ensures StageOk(s', s'.calls[u]) {
      if u != t {
        assert StageOk(s, s.calls[u]);
        if KeyOf(s.calls[u].input) == k0 { Alone(s, t, u); }
      }
    }
  }

  lemma AppendLogs<B>(s: System<B>, s': System<B>, k0: Key, e: Event<B>)
    requires LogsOk(s) && Atomic(Latest(LogOf(s, k0)), e) && (e.Stored? ==> KeyOf(e.record.input) == k0)
    requires Before(LogOf(s, k0), e.at) && Done(e) <= s.clock == s'.clock
    requires s'.log == s.log[k0 := LogOf(s, k0) + [e]]
    ensures LogsOk(s')
    ensures Latest(LogOf(s', k0)) == if e.Stored? then Some(e.record) else Latest(LogOf(s, k0))
  {
    LatestAppend(LogOf(s, k0), e);
    assert LogOk(s, k0);
    forall k: Key ensures LogOk(s', k) {
      assert LogOk(s, k);
    }
  }

  lemma HitInv<B>(s: System<B>, t: L.TaskId)
    requires Inv(s) && Enabled(s, Lookup(t))
    requires KeyOf(s.calls[t].input) in Retain(s.records, s.calls[t].stage.now)
    ensures Inv(LookupStep(s, t))
  {
    var s' := LookupStep(s, t);
    var k0 := KeyOf(s.calls[t].input);
    var e := s'.log[k0][|LogOf(s, k0)|];
    assert StageOk(s, s.calls[t]) && RecordOk(s, k0);
    AppendStages(s, s', t, k0);
    AppendLogs(s, s', k0, e);
    forall k: Key ensures RecordOk(s', k) { assert RecordOk(s, k); }
    RepliesSurvive(s, s', t, k0, e);
  }

  lemma MissInv<B>(s: System<B>, t: L.TaskId)
    requires Inv(s) && Enabled(s, Lookup(t))
    requires KeyOf(s.calls[t].input) !in Retain(s.records, s.calls[t].stage.now)
    ensures Inv(LookupStep(s, t))
  {
    var s' := LookupStep(s, t);
    assert StageOk(s, s.calls[t]) && RecordOk(s, KeyOf(s.calls[t].input)) && LogOk(s, KeyOf(s.calls[t].input));
    MissLogs(s, t);
    forall u | InCritical(s', u) ensures StageOk(s', s'.calls[u]) {
      assert StageOk(s, s.calls[u]);
    }
  }

  lemma MissLogs<B>(s: System<B>, t: L.TaskId)
    requires RecordsOk(s) && LogsOk(s) && RepliesLogged(s) && Enabled(s, Lookup(t)) && StageOk(s, s.calls[t])
    requires KeyOf(s.calls[t].input) !in Retain(s.records, s.calls[t].stage.now)
    ensures var s' := LookupStep(s, t); RecordsOk(s') && LogsOk(s') && RepliesLogged(s')
  {
    var s' := LookupStep(s, t);
    forall k: Key ensures RecordOk(s', k) && LogOk(s', k) {
      assert RecordOk(s, k) && LogOk(s, k);
    }
    forall u | u in s'.calls ensures ReplyLogged(s', u) { assert ReplyLogged(s, u); }
  }

  lemma InsertLogs<B>(s: System<B>, t: L.TaskId)
    requires RecordsOk(s) && LogsOk(s) && Enabled(s, Insert(t)) && StageOk(s, s.calls[t])
    ensures RecordsOk(InsertStep(s, t)) && LogsOk(InsertStep(s, t))
  {
    var s' := InsertStep(s, t);
    var Call(input, Ready(at, response, storedAt)) := s.calls[t];
    var k0, record := KeyOf(input), Record(input, response, storedAt);
    assert MayRun(s, input, at);
    AppendLogs(s, s', k0, Stored(t, record, at));
    forall k: Key ensures RecordOk(s', k) {
      if k == k0 {
        assert s'.records[k0] == record;
      } else {
        assert RecordOk(s, k) && LogOf(s', k) == LogOf(s, k);
      }
    }
  }

  lemma InsertInv<B>(s: System<B>, t: L.TaskId)
    requires Inv(s) && Enabled(s, Insert(t))
    ensures Inv(InsertStep(s, t))
  {
    var s' := InsertStep(s, t);
    var k0 := KeyOf(s.calls[t].input);
    assert StageOk(s, s.calls[t]);
    InsertLogs(s, t);
    AppendStages(s, s', t, k0);
    RepliesSurvive(s, s', t, k0, s'.log[k0][|LogOf(s, k0)|]);
  }

  /** What survives a step that touches neither the records nor the log. */
  lemma QuietStages<B>(s: System<B>, s': System<B>)
    requires StagesOk(s)
    requires s'.records == s.records && s'.log == s.log && s.clock <= s'.clock
    requires forall u :: InCritical(s', u) ==>
      || s'.calls[u].stage.Arrived?
      || (InCritical(s, u) && (s'.calls[u] == s.calls[u] || StageOk(s', s'.calls[u])))
    ensures StagesOk(s')
  {
    forall u | InCritical(s', u) ensures StageOk(s', s'.calls[u]) {
      if InCritical(s, u) && s'.calls[u] == s.calls[u] { assert StageOk(s, s.calls[u]); }
    }
  }

  lemma QuietLogs<B>(s: System<B>, s': System<B>)
    requires RecordsOk(s) && LogsOk(s) && RepliesLogged(s)
    requires s'.records == s.records && s'.log == s.log && s.clock <= s'.clock
    requires forall u :: u in s'.calls ==>
      || (u in s.calls && s'.calls[u] == s.calls[u])
      || !s'.calls[u].stage.Decided? || s'.calls[u].stage.outcome.Failed? || s'.calls[u].stage.outcome.Rejected?
    ensures RecordsOk(s') && LogsOk(s') && RepliesLogged(s')
  {
    forall k: Key ensures RecordOk(s', k) && LogOk(s', k) {
      assert RecordOk(s, k) && LogOk(s, k);
    }
    forall u | u in s'.calls ensures ReplyLogged(s', u) {
      if u in s.calls && s'.calls[u] == s.calls[u] { assert ReplyLogged(s, u); }
    }
  }

  /** The registry step a store step makes, if it makes one. */
  function LockStep<B>(step: Step<B>): Option<L.Step<Key>> {
    match step
    case Begin(t, input) => Some(L.Enter(t, KeyOf(input)))
    case Acquire(t) => Some(L.Acquire(t))
    case Exit(t) => Some(L.Exit(t))
    case Release(t) => Some(L.Release(t))
    case Cancel(t) => Some(L.Cancel(t))
    case DropArc(t) => Some(L.DropArc(t))
    case _ => None
  }

  lemma LockStepPhases<B>(s: System<B>, step: Step<B>)
    requires PhasesFit(s) && Enabled(s, step) && LockStep(step).Some?
    ensures PhasesFit(Apply(s, step))
  {
    L.StepPhases(s.locks, LockStep(step).value);
  }

  lemma LockStepCritical<B>(s: System<B>, step: Step<B>)
    requires PhasesFit(s) && Enabled(s, step) && LockStep(step).Some?
    ensures var s' := Apply(s, step);
            forall u :: InCritical(s', u) ==>
              s'.calls[u].stage.Arrived? || (InCritical(s, u) && s'.calls[u] == s.calls[u])
  {
  }

  lemma LockStepInv<B>(s: System<B>, step: Step<B>)
    requires Inv(s) && Enabled(s, step) && LockStep(step).Some?
    ensures Inv(Apply(s, step))
  {
    LockStepPhases(s, step);
    L.ApplyInv(s.locks, LockStep(step).value);
    LockStepCritical(s, step);
    QuietStages(s, Apply(s, step));
    QuietLogs(s, Apply(s, step));
  }

  lemma SetStageInv<B>(s: System<B>, t: L.TaskId, stage: Stage<B>)
    requires Inv(s) && InCritical(s, t) && StageOk(s, s.calls[t].(stage := stage))
    requires !stage.Decided? || stage == Decided(Failed)
    ensures Inv(SetStage(s, t, stage))
  {
    var s' := SetStage(s, t, stage);
    assert StageOk(s', s'.calls[t]) by {
      assert forall input: Input, at: int :: MayRun(s, input, at) ==> MayRun(s', input, at);
    }
    QuietStages(s, s');
    QuietLogs(s, s');
  }

  lemma StageStepInv<B>(s: System<B>, step: Step<B>)
    requires Inv(s) && Enabled(s, step) && (step.ReadClock? || step.Complete? || step.Tick?)
    ensures Inv(Apply(s, step))
  {
    match step
    case ReadClock(t) =>
      assert LogOk(s, KeyOf(s.calls[t].input));
      SetStageInv(s, t, Timed(s.clock));
    case Complete(t, result) =>
      assert StageOk(s, s.calls[t]);
      SetStageInv(s, t, CompletedStage(s, s.calls[t].stage.at, result));
    case Tick(elapsed) =>
      QuietStages(s, Apply(s, step));
      QuietLogs(s, Apply(s, step));
  }

  lemma ApplyInv<B>(s: System<B>, step: Step<B>)
    requires Inv(s)
    ensures Inv(Apply(s, step))
  {
    if Enabled(s, step) {
      match step
      case Lookup(t) =>
        if KeyOf(s.calls[t].input) in Retain(s.records, s.calls[t].stage.now) {
          HitInv(s, t);
        } else {
          MissInv(s, t);
        }
      case Insert(t) => InsertInv(s, t);
      case _ => if LockStep(step).Some? { LockStepInv(s, step); } else { StageStepInv(s, step); }
    }
  }

  lemma EmptyInv<B>(flavor: Flavor, clock: int)
    ensures Inv(Empty<B>(flavor, clock))
  {
    L.EmptyInv<Key>();
  }

  lemma {:induction false} ExecInv<B>(s: System<B>, steps: seq<Step<B>>)
    requires Inv(s)
    ensures Inv(Exec(s, steps))
    decreases |steps|
  {
    if steps != [] {
      ApplyInv(s, steps[0]);
      ExecInv(Apply(s, steps[0]), steps[1..]);
    }
  }

  // ----- What every run gives

  /**
  In every interleaving from an empty store, each key's calls did what the atomic store does in the
  order in which they held its lock, and every reply any call holds is one of those.
  */
  lemma RunsAreAtomic<B>(flavor: Flavor, clock: int, steps: seq<Step<B>>, k: Key, t: L.TaskId)
    ensures var s := Exec(Empty<B>(flavor, clock), steps);
            && AtomicRun(LogOf(s, k)) && Before(LogOf(s, k), s.clock)
            && (t in s.calls ==> ReplyLogged(s, t))
  {
    ReachableInv<B>(flavor, clock, steps);
    InvTells(Exec(Empty<B>(flavor, clock), steps), k, t);
  }

  lemma ReachableInv<B>(flavor: Flavor, clock: int, steps: seq<Step<B>>)
    ensures Inv(Exec(Empty<B>(flavor, clock), steps))
  {
    EmptyInv<B>(flavor, clock);
    ExecInv(Empty<B>(flavor, clock), steps);
  }

  lemma InvTells<B>(s: System<B>, k: Key, t: L.TaskId)
    requires Inv(s)
    ensures LogOk(s, k) && (t in s.calls ==> ReplyLogged(s, t))
  {
  }

  lemma {:induction false} LatestIsStored<B>(log: seq<Event<B>>) returns (j: nat)
    requires Latest(log).Some?
    ensures j < |log| && log[j].Stored? && log[j].record == Latest(log).value
    ensures forall m :: j < m < |log| ==> !log[m].Stored?
  {
    if log[|log| - 1].Stored? {
      j := |log| - 1;
    } else {
      j := LatestIsStored(log[..|log| - 1]);
    }
  }

  lemma {:induction false} AtomicAt<B>(log: seq<Event<B>>, i: nat)
    requires AtomicRun(log) && i < |log|
    ensures AtomicRun(log[..i]) && Atomic(Latest(log[..i]), log[i]) && Before(log[..i], log[i].at)
    decreases |log|
  {
    if i < |log| - 1 {
      var front := log[..|log| - 1];
      AtomicAt(front, i);
      assert front[..i] == log[..i];
    }
  }

  /** In an atomic run nothing happens before what came earlier was over. */
  lemma AtomicInOrder<B>(log: seq<Event<B>>, i: nat, j: nat)
    requires AtomicRun(log) && i < j < |log|
    ensures log[i].at <= Done(log[i]) <= log[j].at
  {
    AtomicAt(log, i);
    AtomicAt(log, j);
    assert log[..j][i] == log[i];
  }

  /** The latest stored result is the newest, and any two are more than the retention apart. */
  lemma {:induction false} StoredApart<B>(log: seq<Event<B>>, i: nat, j: nat)
    requires AtomicRun(log) && i < j < |log| && log[i].Stored? && log[j].Stored?
    ensures log[i].record.storedAt + RETENTION < log[j].record.storedAt
    decreases j
  {
    AtomicAt(log, j);
    var before := log[..j];
    var m := LatestIsStored(before) by { LatestExists(before, i); }
    if i < m { StoredApart(log, i, m); }
  }

  lemma {:induction false} LatestExists<B>(log: seq<Event<B>>, i: nat)
    requires i < |log| && log[i].Stored?
    ensures Latest(log).Some?
  {
    if i < |log| - 1 && !log[|log| - 1].Stored? { LatestExists(log[..|log| - 1], i); }
  }

  /** Two successful executions under one key complete more than an hour apart. */
  lemma ExecutionsApart<B>(flavor: Flavor, clock: int, steps: seq<Step<B>>, k: Key, i: nat, j: nat)
    requires var log := LogOf(Exec(Empty<B>(flavor, clock), steps), k);
             i < j < |log| && log[i].Stored? && log[j].Stored?
    ensures var log := LogOf(Exec(Empty<B>(flavor, clock), steps), k);
            log[i].record.storedAt + RETENTION < log[j].record.storedAt
  {
    RunsAreAtomic(flavor, clock, steps, k, 0);
    StoredApart(LogOf(Exec(Empty<B>(flavor, clock), steps), k), i, j);
  }

  /**
  A replay repeats the latest stored response of its key, still inside its retention, and was asked
  with the same material; a conflict was asked with different material.
  */
  lemma RepliesComeFromLatest<B>(log: seq<Event<B>>, i: nat) returns (j: nat)
    requires AtomicRun(log) && i < |log| && log[i].Answered?
    ensures j < i && log[j].Stored? && (forall m :: j < m < i ==> !log[m].Stored?)
    ensures log[j].record.storedAt <= log[i].at <= log[j].record.storedAt + RETENTION
    ensures log[i].outcome.Replayed? || log[i].outcome.Conflict?
    ensures log[i].outcome.Replayed? <==> SameMaterial(log[j].record.input, log[i].input)
    ensures log[i].outcome.Replayed? ==> log[i].outcome.response == log[j].record.response
  {
    AtomicAt(log, i);
    j := LatestIsStored(log[..i]);
  }

  /** What a call that read the clock at `now` has come to, until its answer is in the log with that reading. */
  ghost predicate ReadAt<B>(s: System<B>, t: L.TaskId, input: Input, now: int) {
    && t in s.calls && s.calls[t].input == input
    && match s.calls[t].stage
       case Arrived => false
       case Timed(n) => n == now
       case Decided(outcome) =>
         outcome.Replayed? || outcome.Conflict? ==> Answered(t, input, outcome, now) in LogOf(s, KeyOf(input))
       case _ => true
  }

  lemma LookupKeepsReading<B>(s: System<B>, u: L.TaskId, t: L.TaskId, input: Input, now: int)
    requires ReadAt(s, t, input, now) && Enabled(s, Lookup(u))
    ensures ReadAt(LookupStep(s, u), t, input, now)
  {
    var s' := LookupStep(s, u);
    var k := KeyOf(input);
    if u == t && s'.calls[t].stage.Decided? {
      assert LogOf(s', k)[|LogOf(s, k)|] == Answered(t, input, s'.calls[t].stage.outcome, now);
    } else {
      assert forall e :: e in LogOf(s, k) ==> e in LogOf(s', k);
    }
  }

  lemma ApplyKeepsReading<B>(s: System<B>, step: Step<B>, t: L.TaskId, input: Input, now: int)
    requires ReadAt(s, t, input, now)
    ensures ReadAt(Apply(s, step), t, input, now)
  {
    if Enabled(s, step) {
      match step
      case Lookup(u) => LookupKeepsReading(s, u, t, input, now);
      case Insert(u) =>
        var k := KeyOf(input);
        assert forall e :: e in LogOf(s, k) ==> e in LogOf(InsertStep(s, u), k);
      case _ =>
    }
  }

  lemma {:induction false} ExecKeepsReading<B>(s: System<B>, steps: seq<Step<B>>, t: L.TaskId, input: Input, now: int)
    requires ReadAt(s, t, input, now)
    ensures ReadAt(Exec(s, steps), t, input, now)
    decreases |steps|
  {
    if steps != [] {
      ApplyKeepsReading(s, steps[0], t, input, now);
      ExecKeepsReading(Apply(s, steps[0]), steps[1..], t, input, now);
    }
  }

  /** `log[j]` is the stored result that decides an answer given at the reading `now`. */
  ghost predicate Decides<B>(log: seq<Event<B>>, j: int, input: Input, outcome: Outcome<B>, now: int) {
    && 0 <= j < |log| && log[j].Stored?
    && log[j].record.storedAt <= now <= log[j].record.storedAt + RETENTION
    && (forall m :: j < m < |log| && log[m].Stored? ==> now <= log[m].at)
    && outcome == Answer(log[j].record, input)
  }

  /**
  In every run, a replay or a conflict is decided by the clock reading the call itself took: by the
  result stored last before that reading, which was then still inside its retention.
  */
  lemma ReplyAtReading<B>(flavor: Flavor, clock: int, before: seq<Step<B>>, t: L.TaskId, after: seq<Step<B>>)
    requires Enabled(Exec(Empty<B>(flavor, clock), before), ReadClock(t))
    ensures var read := Exec(Empty<B>(flavor, clock), before);
            var s := Exec(Apply(read, ReadClock(t)), after);
            var input := read.calls[t].input;
            && t in s.calls && s.calls[t].input == input
            && (s.calls[t].stage.Decided? ==>
                  var outcome := s.calls[t].stage.outcome;
                  outcome.Replayed? || outcome.Conflict? ==>
                    exists j :: Decides(LogOf(s, KeyOf(input)), j, input, outcome, read.clock))
  {
    var read := Exec(Empty<B>(flavor, clock), before);
    var next := Apply(read, ReadClock(t));
    var s, input := Exec(next, after), read.calls[t].input;
    ReachableInv<B>(flavor, clock, before);
    ApplyInv(read, ReadClock(t));
    ExecInv(next, after);
    ExecKeepsReading(next, after, t, input, read.clock);
    InvTells(s, KeyOf(input), t);
    if s.calls[t].stage.Decided? && (s.calls[t].stage.outcome.Replayed? || s.calls[t].stage.outcome.Conflict?) {
      AnswerDecided(LogOf(s, KeyOf(input)), t, input, s.calls[t].stage.outcome, read.clock);
    }
  }

  lemma AnswerDecided<B>(log: seq<Event<B>>, t: L.TaskId, input: Input, outcome: Outcome<B>, now: int)
    requires AtomicRun(log) && Answered(t, input, outcome, now) in log
    ensures exists j :: Decides(log, j, input, outcome, now)
  {
    var i :| 0 <= i < |log| && log[i] == Answered(t, input, outcome, now);
    var j := RepliesComeFromLatest(log, i);
    forall m | j < m < |log| && log[m].Stored? ensures now <= log[m].at {
      AtomicAt(log, m);
      assert log[..m][i] == log[i];
    }
    assert Decides(log, j, input, outcome, now);
  }

  // ----- The store as an object

  /** What a call that nobody interrupts leaves in the records, and what it answers. */
  function Uninterrupted<B>(flavor: Flavor, records: map<Key, Record<B>>, input: Input,
                            result: Result<Response<B>>, now: int, storedAt: int)
    : (map<Key, Record<B>>, Outcome<B>)
  {
    var own := if KeyOf(input) in records then Some(records[KeyOf(input)]) else None;
    match (Judge(own, input, now), result)
    case (Some(answer), _) => (Retain(records, now), answer)
    case (None, Ok(response)) =>
      var stored := Completed(flavor, response, storedAt);
      (Retain(records, now)[KeyOf(input) := Record(input, stored, storedAt)], Created(stored))
    case (None, Err) => (Retain(records, now), Failed)
  }

  class MemoryIdempotencyStore<B> {
    const flavor: Flavor
    const registry: L.SharedRegistry<Key>
    var records: map<Key, Record<B>>

    constructor (flavor: Flavor)
      ensures fresh(registry) && registry.View() == L.Empty() && records == map[] && this.flavor == flavor
    {
      var locks := new L.SharedRegistry<Key>();
      this.flavor, registry, records := flavor, locks, map[];
    }

    /** Drops every expired record, then reads the record of one key. */
    method Lookup(key: Key, now: int) returns (existing: Option<Record<B>>)
      modifies this`records
      ensures records == Retain(old(records), now)
      ensures existing == if key in records then Some(records[key]) else None
    {
      records := map k | k in records && records[k].storedAt + RETENTION >= now :: records[k];
      existing := if key in records then Some(records[key]) else None;
    }

    /** What a call does while it holds its lock, if nothing steps in between. */
    method Serve(input: Input, result: Result<Response<B>>, now: int, storedAt: int) returns (outcome: Outcome<B>)
      modifies this`records
      ensures (records, outcome) == Uninterrupted(flavor, old(records), input, result, now, storedAt)
    {
      var key := (input.scope, input.idempotencyKey);
      var existing := Lookup(key, now);
      match existing {
        case Some(record) =>
          outcome := if record.input.command == input.command && record.input.requestHash == input.requestHash
                     then Replayed(record.response) else Conflict;
        case None =>
          match result {
            case Ok(response) =>
              var stored := response;
              if flavor == Platform && stored.createdAt == 0 { stored := stored.(createdAt := storedAt); }
              records := records[key := Record(input, stored, storedAt)];
              outcome := Created(stored);
            case Err =>
              outcome := Failed;
          }
      }
    }

    /**
    One call from start to end: `now` and `storedAt` are its two clock readings and `result` is what
    the operation gives if it runs.
    */
    method Execute(t: L.TaskId, input: Input, result: Result<Response<B>>, now: int, storedAt: int)
      returns (outcome: Outcome<B>)
      requires L.Inv(registry.View()) && t !in registry.tasks
      requires KeyOf(input) in registry.locks ==> registry.locks[KeyOf(input)] !in registry.owner
      modifies this`records, registry
      ensures L.Inv(registry.View())
      ensures flavor == Platform && (input.scope == "" || input.idempotencyKey == "" || input.requestHash == "") ==>
                outcome == Rejected && records == old(records) && registry.View() == old(registry.View())
      ensures Acceptable(flavor, input) ==>
                (records, outcome) == Uninterrupted(flavor, old(records), input, result, now, storedAt)
      ensures Acceptable(flavor, input) ==>
                registry.View() ==
                  L.Exec(old(registry.View()),
                         [L.Enter(t, KeyOf(input)), L.Acquire(t), L.Exit(t), L.Release(t), L.DropArc(t)])
    {
      if flavor == Platform && (input.scope == "" || input.idempotencyKey == "" || input.requestHash == "") {
        return Rejected;
      }
      ghost var key := KeyOf(input);
      var lock := Hold(t, input);
      outcome := Serve(input, result, now, storedAt);
      LetGo(t, input, lock);
      FiveSteps(old(registry.View()), L.Enter(t, key), L.Acquire(t), L.Exit(t), L.Release(t), L.DropArc(t));
    }

    method Hold(t: L.TaskId, input: Input) returns (lock: L.LockId)
      requires L.Inv(registry.View()) && t !in registry.tasks
      requires KeyOf(input) in registry.locks ==> registry.locks[KeyOf(input)] !in registry.owner
      modifies registry
      ensures registry.View() == L.Apply(L.Apply(old(registry.View()), L.Enter(t, KeyOf(input))), L.Acquire(t))
      ensures L.Inv(registry.View()) && t in registry.tasks && registry.tasks[t] == L.Critical(KeyOf(input), lock)
    {
      L.ApplyInv(registry.View(), L.Enter(t, KeyOf(input)));
      lock := registry.Fetch(t, (input.scope, input.idempotencyKey));
      L.ApplyInv(registry.View(), L.Acquire(t));
      registry.Lock(t, lock);
    }

    method LetGo(t: L.TaskId, input: Input, lock: L.LockId)
      requires L.Inv(registry.View()) && t in registry.tasks
      requires registry.tasks[t] == L.Critical(KeyOf(input), lock)
      modifies registry
      ensures registry.View() ==
                L.Apply(L.Apply(L.Apply(old(registry.View()), L.Exit(t)), L.Release(t)), L.DropArc(t))
      ensures L.Inv(registry.View())
    {
      LetGoInv(registry.View(), t, KeyOf(input), lock);
      registry.Unlock(t, lock);
      registry.ReleaseEntry(t, (input.scope, input.idempotencyKey), lock);
      registry.DropReference(t, lock);
    }
  }

  lemma LetGoInv<K>(v: L.Registry<K>, t: L.TaskId, key: K, lock: L.LockId)
    requires L.Inv(v) && t in v.tasks && v.tasks[t] == L.Critical(key, lock)
    ensures var left := L.Apply(v, L.Exit(t));
            var released := L.Apply(left, L.Release(t));
            && L.Inv(left) && left.tasks[t] == L.Leaving(key, lock)
            && L.Inv(released) && t in released.tasks && released.tasks[t] == L.Dropping(lock)
            && L.Inv(L.Apply(released, L.DropArc(t)))
  {
    var left := L.Apply(v, L.Exit(t));
    L.ApplyInv(v, L.Exit(t));
    L.ApplyInv(left, L.Release(t));
    L.ApplyInv(L.Apply(left, L.Release(t)), L.DropArc(t));
  }

  lemma FiveSteps<K>(s: L.Registry<K>, a: L.Step<K>, b: L.Step<K>, c: L.Step<K>, d: L.Step<K>, e: L.Step<K>)
    ensures L.Exec(s, [a, b, c, d, e]) == L.Apply(L.Apply(L.Apply(L.Apply(L.Apply(s, a), b), c), d), e)
  {
    L.ExecAppend(s, [a], [b, c, d, e]);
    L.ExecAppend(L.Apply(s, a), [b], [c, d, e]);
    L.ExecAppend(L.Apply(L.Apply(s, a), b), [c], [d, e]);
    L.ExecAppend(L.Apply(L.Apply(L.Apply(s, a), b), c), [d], [e]);
  }
}
