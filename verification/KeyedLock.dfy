/**
The registry of per-key asynchronous locks behind the memory stores.

A call fetches the lock of its key from a shared map, waits for it, works while holding it, drops
the guard, removes the map entry when nobody else can be using it, and finally drops its own
reference. Each of those is one step here; any two steps of different calls may interleave, and a
call may be cancelled at either of its two awaits.
*/
module KeyedLock {

  type TaskId = nat
  type LockId = nat

  /** Where one call stands. Every phase but the last holds one reference to `lock`. */
  datatype Phase<K> =
    | Waiting(key: K, lock: LockId)
    | Critical(key: K, lock: LockId)
    | Leaving(key: K, lock: LockId)
    | Dropping(lock: LockId)
    | Finished

  /**
  `locks` is the shared map, `strong` the reference count of every lock object ever made, `owner`
  the call that holds each locked object, and `next` the identity of the next lock object.
  */
  datatype Registry<K> = Registry(
    locks: map<K, LockId>,
    strong: map<LockId, nat>,
    owner: map<LockId, TaskId>,
    tasks: map<TaskId, Phase<K>>,
    next: LockId
  )

  datatype Step<K> =
    | Enter(t: TaskId, key: K)
    | Acquire(t: TaskId)
    | Exit(t: TaskId)
    | Release(t: TaskId)
    | Cancel(t: TaskId)
    | DropArc(t: TaskId)

  function Empty<K>(): Registry<K> {
    Registry(map[], map[], map[], map[], 0)
  }

  predicate Enabled<K(==)>(s: Registry<K>, step: Step<K>) {
    match step
    case Enter(t, _) => t !in s.tasks
    case Acquire(t) => t in s.tasks && s.tasks[t].Waiting? && s.tasks[t].lock !in s.owner
    case Exit(t) => t in s.tasks && s.tasks[t].Critical?
    case Release(t) => t in s.tasks && s.tasks[t].Leaving?
    case Cancel(t) => t in s.tasks && (s.tasks[t].Waiting? || s.tasks[t].Critical?)
    case DropArc(t) => t in s.tasks && s.tasks[t].Dropping?
  }

  /** The reference count of a lock; an object never made has none. */
  function Strong<K>(s: Registry<K>, lock: LockId): nat {
    if lock in s.strong then s.strong[lock] else 0
  }

  /** One step; a step that is not enabled changes nothing. */
  function Apply<K(==)>(s: Registry<K>, step: Step<K>): Registry<K> {
    if !Enabled(s, step) then s else
    match step
    case Enter(t, key) =>
      if key in s.locks then
        var lock := s.locks[key];
        s.(strong := s.strong[lock := Strong(s, lock) + 1], tasks := s.tasks[t := Waiting(key, lock)])
      else
        // A fresh object starts with the map's reference and gains the caller's.
        Registry(s.locks[key := s.next], s.strong[s.next := 2], s.owner,
                 s.tasks[t := Waiting(key, s.next)], s.next + 1)
    case Acquire(t) =>
      var p := s.tasks[t];
      s.(owner := s.owner[p.lock := t], tasks := s.tasks[t := Critical(p.key, p.lock)])
    case Exit(t) =>
      var p := s.tasks[t];
      s.(owner := s.owner - {p.lock}, tasks := s.tasks[t := Leaving(p.key, p.lock)])
    case Release(t) =>
      var p := s.tasks[t];
      var s' := s.(tasks := s.tasks[t := Dropping(p.lock)]);
      if p.key in s.locks && s.locks[p.key] == p.lock && Strong(s, p.lock) == 2 then
        s'.(locks := s.locks - {p.key}, strong := s.strong[p.lock := 1])
      else
        s'
    case Cancel(t) =>
      var p := s.tasks[t];
      var s' := s.(tasks := s.tasks[t := Dropping(p.lock)]);
      if p.Critical? then s'.(owner := s.owner - {p.lock}) else s'
    case DropArc(t) =>
      var lock := s.tasks[t].lock;
      s.(strong := s.strong[lock := if Strong(s, lock) > 0 then Strong(s, lock) - 1 else 0],
         tasks := s.tasks[t := Finished])
  }

  function Exec<K(==)>(s: Registry<K>, steps: seq<Step<K>>): Registry<K>
    decreases |steps|
  {
    if steps == [] then s else Exec(Apply(s, steps[0]), steps[1..])
  }

  lemma {:induction false} ExecAppend<K>(s: Registry<K>, first: seq<Step<K>>, second: seq<Step<K>>)
    ensures Exec(s, first + second) == Exec(Exec(s, first), second)
    decreases |first|
  {
    if first == [] {
      assert first + second == second;
    } else {
      assert (first + second)[1..] == first[1..] + second;
      ExecAppend(Apply(s, first[0]), first[1..], second);
    }
  }

  // ----- The invariant

  ghost predicate Holds<K>(p: Phase<K>, lock: LockId) {
    !p.Finished? && p.lock == lock
  }

  /** The calls that own a reference to `lock`. */
  ghost function Holders<K>(tasks: map<TaskId, Phase<K>>, lock: LockId): set<TaskId> {
    set t | t in tasks && Holds(tasks[t], lock)
  }

  /** The keys under which the map holds a reference to `lock`. */
  ghost function KeysOf<K>(locks: map<K, LockId>, lock: LockId): set<K> {
    set k | k in locks && locks[k] == lock
  }

  /** A call that still relies on its lock being the registered one. */
  ghost predicate Relies<K>(p: Phase<K>) {
    p.Waiting? || p.Critical? || p.Leaving?
  }

  /** Reference counts are exact: one for each map entry and one for each call that holds it. */
  ghost predicate CountsExact<K>(s: Registry<K>) {
    forall l: LockId :: Strong(s, l) == |KeysOf(s.locks, l)| + |Holders(s.tasks, l)|
  }

  /** Every waiting, critical or leaving call holds exactly the lock now registered for its key. */
  ghost predicate HoldsRegistered<K>(s: Registry<K>) {
    forall t :: t in s.tasks && Relies(s.tasks[t]) ==>
      s.tasks[t].key in s.locks && s.locks[s.tasks[t].key] == s.tasks[t].lock
  }

  /** A lock is held by the one call in its critical section. */
  ghost predicate OwnersExact<K>(s: Registry<K>) {
    && (forall t :: t in s.tasks && s.tasks[t].Critical? ==>
          s.tasks[t].lock in s.owner && s.owner[s.tasks[t].lock] == t)
    && (forall l :: l in s.owner ==>
          s.owner[l] in s.tasks && s.tasks[s.owner[l]].Critical? && s.tasks[s.owner[l]].lock == l)
  }

  ghost predicate FreshIds<K>(s: Registry<K>) {
    && (forall t :: t in s.tasks && !s.tasks[t].Finished? ==> s.tasks[t].lock < s.next)
    && (forall k :: k in s.locks ==> s.locks[k] < s.next)
    && (forall l :: l in s.strong ==> l < s.next)
  }

  /** No lock object is registered under two keys. */
  ghost predicate OneKeyPerLock<K>(s: Registry<K>) {
    forall j, k :: j in s.locks && k in s.locks && s.locks[j] == s.locks[k] ==> j == k
  }

  ghost predicate Inv<K>(s: Registry<K>) {
    CountsExact(s) && HoldsRegistered(s) && OwnersExact(s) && FreshIds(s) && OneKeyPerLock(s)
  }

  lemma EmptyInv<K>()
    ensures Inv(Empty<K>())
  {
    forall l: LockId
      ensures Strong(Empty<K>(), l) == |KeysOf(Empty<K>().locks, l)| + |Holders(Empty<K>().tasks, l)|
    {
      assert KeysOf(Empty<K>().locks, l) == {};
      assert Holders(Empty<K>().tasks, l) == {};
    }
  }

  /** Changing one call's phase changes one membership of each holder set. */
  lemma HoldersUpdate<K>(tasks: map<TaskId, Phase<K>>, t: TaskId, p: Phase<K>, l: LockId)
    ensures var now := |Holders(tasks[t := p], l)|;
            var was := t in tasks && Holds(tasks[t], l);
            && now == |Holders(tasks, l)| + (if Holds(p, l) then 1 else 0) - (if was then 1 else 0)
  {
    var others := Holders(tasks, l) - {t};
    assert Holders(tasks[t := p], l) == if Holds(p, l) then others + {t} else others;
    assert Holders(tasks, l) == if t in tasks && Holds(tasks[t], l) then others + {t} else others;
  }

  lemma KeysOfAdd<K>(locks: map<K, LockId>, key: K, lock: LockId, l: LockId)
    requires key !in locks
    ensures |KeysOf(locks[key := lock], l)| == |KeysOf(locks, l)| + (if l == lock then 1 else 0)
  {
    assert KeysOf(locks[key := lock], l) == if l == lock then KeysOf(locks, l) + {key} else KeysOf(locks, l);
  }

  lemma KeysOfRemove<K>(locks: map<K, LockId>, key: K, l: LockId)
    requires key in locks
    ensures |KeysOf(locks - {key}, l)| == |KeysOf(locks, l)| - (if l == locks[key] then 1 else 0)
  {
    assert KeysOf(locks - {key}, l) == KeysOf(locks, l) - {key};
  }

  /** A count of two, with the map and one call as references, leaves no other call. */
  lemma CountTwoIsAlone<K>(s: Registry<K>, t: TaskId, u: TaskId)
    requires CountsExact(s)
    requires t in s.tasks && s.tasks[t].Leaving? && s.tasks[t].key in s.locks
    requires s.locks[s.tasks[t].key] == s.tasks[t].lock && Strong(s, s.tasks[t].lock) == 2
    requires u in s.tasks && Holds(s.tasks[u], s.tasks[t].lock)
    ensures u == t
  {
    var l := s.tasks[t].lock;
    SubsetCard({s.tasks[t].key}, KeysOf(s.locks, l));
    if u != t {
      SubsetCard({t, u}, Holders(s.tasks, l));
    }
  }

  lemma SubsetCard<T>(a: set<T>, b: set<T>)
    requires a <= b
    ensures |a| <= |b|
  {
    assert b == a + (b - a);
  }

  /** A step changes the phase of its own call only, and gives it no lock for another key. */
  lemma StepPhases<K>(s: Registry<K>, step: Step<K>)
    requires Enabled(s, step)
    ensures var s', t := Apply(s, step), step.t;
            && t in s'.tasks && s'.tasks == s.tasks[t := s'.tasks[t]]
            && (s'.tasks[t].Waiting? <==> step.Enter?)
            && (Relies(s'.tasks[t]) ==>
                  s'.tasks[t].key == if step.Enter? then step.key else s.tasks[t].key)
            && (Relies(s'.tasks[t]) && !step.Enter? ==> Relies(s.tasks[t]))
  {
  }

  lemma EnterCounts<K>(s: Registry<K>, t: TaskId, key: K, l: LockId)
    requires CountsExact(s) && FreshIds(s) && Enabled(s, Enter(t, key))
    ensures var s' := Apply(s, Enter(t, key)); Strong(s', l) == |KeysOf(s'.locks, l)| + |Holders(s'.tasks, l)|
  {
    var s' := Apply(s, Enter(t, key));
    assert Strong(s, l) == |KeysOf(s.locks, l)| + |Holders(s.tasks, l)|;
    HoldersUpdate(s.tasks, t, s'.tasks[t], l);
    if key !in s.locks { KeysOfAdd(s.locks, key, s.next, l); }
  }

  lemma ReleaseCounts<K>(s: Registry<K>, t: TaskId, l: LockId)
    requires CountsExact(s) && Enabled(s, Release(t))
    ensures var s' := Apply(s, Release(t)); Strong(s', l) == |KeysOf(s'.locks, l)| + |Holders(s'.tasks, l)|
  {
    assert Strong(s, l) == |KeysOf(s.locks, l)| + |Holders(s.tasks, l)|;
    HoldersUpdate(s.tasks, t, Dropping(s.tasks[t].lock), l);
    if s.tasks[t].key in s.locks { KeysOfRemove(s.locks, s.tasks[t].key, l); }
  }

  lemma ApplyCounts<K>(s: Registry<K>, step: Step<K>)
    requires CountsExact(s) && FreshIds(s)
    ensures CountsExact(Apply(s, step))
  {
    var s' := Apply(s, step);
    if Enabled(s, step) {
      forall l: LockId
        ensures Strong(s', l) == |KeysOf(s'.locks, l)| + |Holders(s'.tasks, l)|
      {
        match step
        case Enter(t, key) => EnterCounts(s, t, key, l);
        case Release(t) => ReleaseCounts(s, t, l);
        case _ =>
          assert Strong(s, l) == |KeysOf(s.locks, l)| + |Holders(s.tasks, l)|;
          HoldersUpdate(s.tasks, step.t, s'.tasks[step.t], l);
      }
    }
  }

  lemma ApplyRegistered<K>(s: Registry<K>, step: Step<K>)
    requires Inv(s) && Enabled(s, step)
    ensures HoldsRegistered(Apply(s, step))
  {
    var s' := Apply(s, step);
    forall u | u in s'.tasks && Relies(s'.tasks[u])
      ensures s'.tasks[u].key in s'.locks && s'.locks[s'.tasks[u].key] == s'.tasks[u].lock
    {
      if u == step.t {
      } else {
        assert s'.tasks[u] == s.tasks[u];
        if step.Release? && s'.locks != s.locks && s.tasks[u].key == s.tasks[step.t].key {
          CountTwoIsAlone(s, step.t, u);
        }
      }
    }
  }

  lemma ApplyOwners<K>(s: Registry<K>, step: Step<K>)
    requires OwnersExact(s) && Enabled(s, step)
    ensures OwnersExact(Apply(s, step))
  {
    var s' := Apply(s, step);
    assert forall u :: u in s.tasks && u != step.t ==> s'.tasks[u] == s.tasks[u];
  }

  lemma ApplyIds<K>(s: Registry<K>, step: Step<K>)
    requires FreshIds(s) && OneKeyPerLock(s) && Enabled(s, step)
    ensures FreshIds(Apply(s, step)) && OneKeyPerLock(Apply(s, step))
  {
  }

  lemma ApplyInv<K>(s: Registry<K>, step: Step<K>)
    requires Inv(s)
    ensures Inv(Apply(s, step))
  {
    if Enabled(s, step) {
      ApplyCounts(s, step);
      ApplyRegistered(s, step);
      ApplyOwners(s, step);
      ApplyIds(s, step);
    }
  }

  lemma {:induction false} ExecInv<K>(s: Registry<K>, steps: seq<Step<K>>)
    requires Inv(s)
    ensures Inv(Exec(s, steps))
    decreases |steps|
  {
    if steps != [] {
      ApplyInv(s, steps[0]);
      ExecInv(Apply(s, steps[0]), steps[1..]);
    }
  }

  /** At most one call per key is inside its critical section. */
  lemma CriticalUnique<K>(s: Registry<K>, t: TaskId, u: TaskId)
    requires Inv(s)
    requires t in s.tasks && u in s.tasks && s.tasks[t].Critical? && s.tasks[u].Critical?
    requires s.tasks[t].key == s.tasks[u].key
    ensures t == u
  {
  }

  /** In every run from an empty registry, under every interleaving and cancellation. */
  lemma MutualExclusion<K>(steps: seq<Step<K>>, t: TaskId, u: TaskId)
    ensures var s := Exec(Empty(), steps);
            (t in s.tasks && u in s.tasks && s.tasks[t].Critical? && s.tasks[u].Critical?
             && s.tasks[t].key == s.tasks[u].key) ==> t == u
  {
    EmptyInv<K>();
    ExecInv(Empty<K>(), steps);
  }

  /** In every run, a call that waits, works or leaves holds the lock registered for its key. */
  lemma RegisteredThroughout<K>(steps: seq<Step<K>>, t: TaskId)
    ensures var s := Exec(Empty(), steps);
            t in s.tasks && Relies(s.tasks[t]) ==>
              s.tasks[t].key in s.locks && s.locks[s.tasks[t].key] == s.tasks[t].lock
  {
    EmptyInv<K>();
    ExecInv(Empty<K>(), steps);
  }

  /** Releasing removes the map entry exactly when no other call holds a reference to the lock. */
  lemma ReleaseRemovesIffAlone<K>(s: Registry<K>, t: TaskId)
    requires Inv(s) && Enabled(s, Release(t))
    ensures s.tasks[t].key !in Apply(s, Release(t)).locks <==>
            forall u :: u in s.tasks && Holds(s.tasks[u], s.tasks[t].lock) ==> u == t
  {
    var p := s.tasks[t];
    assert Strong(s, p.lock) == |KeysOf(s.locks, p.lock)| + |Holders(s.tasks, p.lock)|;
    if forall u :: u in s.tasks && Holds(s.tasks[u], p.lock) ==> u == t {
      assert Holders(s.tasks, p.lock) == {t};
      assert KeysOf(s.locks, p.lock) == {p.key};
    } else if Strong(s, p.lock) == 2 {
      var u :| u in s.tasks && Holds(s.tasks[u], p.lock) && u != t;
      CountTwoIsAlone(s, t, u);
    }
  }

  /** The step lets go of the key's lock: a release, or a cancellation at either await. */
  ghost predicate Leaves<K>(s: Registry<K>, step: Step<K>, key: K) {
    Enabled(s, step) && (step.Release? || step.Cancel?) && s.tasks[step.t].key == key
  }

  ghost predicate HeldByOthers<K>(s: Registry<K>, t: TaskId)
    requires t in s.tasks && Relies(s.tasks[t])
  {
    exists u :: u in s.tasks && u != t && Holds(s.tasks[u], s.tasks[t].lock)
  }

  /** The step lets go of the key's lock and leaves its entry behind. */
  ghost predicate Abandons<K>(s: Registry<K>, step: Step<K>, key: K) {
    Leaves(s, step, key) && (step.Cancel? || HeldByOthers(s, step.t))
  }

  /** No step but an unabandoned release removes an entry. */
  lemma KeyRemovedIff<K>(s: Registry<K>, step: Step<K>, key: K)
    requires Inv(s) && key in s.locks
    ensures key !in Apply(s, step).locks <==> Leaves(s, step, key) && !Abandons(s, step, key)
  {
    if Enabled(s, step) && step.Release? {
      ReleaseRemovesIffAlone(s, step.t);
    }
  }

  /** From here on no step lets go of the key's lock. */
  ghost predicate Quiet<K>(s: Registry<K>, steps: seq<Step<K>>, key: K)
    decreases |steps|
  {
    steps == [] || (!Leaves(s, steps[0], key) && Quiet(Apply(s, steps[0]), steps[1..], key))
  }

  /** The last step of the run that lets go of the key's lock leaves its entry behind. */
  ghost predicate LastLeaveAbandons<K>(s: Registry<K>, steps: seq<Step<K>>, key: K)
    decreases |steps|
  {
    steps != [] &&
    var next := Apply(s, steps[0]);
    || LastLeaveAbandons(next, steps[1..], key)
    || (Abandons(s, steps[0], key) && Quiet(next, steps[1..], key))
  }

  /** All calls of the key are over: none waits, works or has yet to release. */
  ghost predicate AllLeft<K>(s: Registry<K>, key: K) {
    forall t :: t in s.tasks && Relies(s.tasks[t]) ==> s.tasks[t].key != key
  }

  lemma QuietStepKeeps<K>(s: Registry<K>, step: Step<K>, key: K)
    requires Inv(s) && !Leaves(s, step, key) && AllLeft(Apply(s, step), key)
    ensures AllLeft(s, key) && (key in Apply(s, step).locks <==> key in s.locks)
  {
    if Enabled(s, step) {
      StepPhases(s, step);
      var s' := Apply(s, step);
      forall t | t in s.tasks && Relies(s.tasks[t]) ensures s.tasks[t].key != key {
        if t != step.t { assert s'.tasks[t] == s.tasks[t]; }
      }
    }
  }

  lemma {:induction false} QuietKeeps<K>(s: Registry<K>, steps: seq<Step<K>>, key: K)
    requires Inv(s) && Quiet(s, steps, key) && AllLeft(Exec(s, steps), key)
    ensures AllLeft(s, key) && (key in Exec(s, steps).locks <==> key in s.locks)
    decreases |steps|
  {
    if steps != [] {
      ApplyInv(s, steps[0]);
      QuietKeeps(Apply(s, steps[0]), steps[1..], key);
      QuietStepKeeps(s, steps[0], key);
    }
  }

  lemma LeavingWasRegistered<K>(s: Registry<K>, step: Step<K>, key: K)
    requires Inv(s) && Leaves(s, step, key)
    ensures key in s.locks
  {
  }

  lemma {:induction false} EntryRemainsFrom<K>(s: Registry<K>, steps: seq<Step<K>>, key: K)
    requires Inv(s) && AllLeft(Exec(s, steps), key)
    ensures key in Exec(s, steps).locks <==>
            (Quiet(s, steps, key) && key in s.locks) || LastLeaveAbandons(s, steps, key)
    decreases |steps|
  {
    if steps != [] {
      var next := Apply(s, steps[0]);
      ApplyInv(s, steps[0]);
      EntryRemainsFrom(next, steps[1..], key);
      if Leaves(s, steps[0], key) {
        LeavingWasRegistered(s, steps[0], key);
        KeyRemovedIff(s, steps[0], key);
      } else if Quiet(next, steps[1..], key) {
        QuietKeeps(next, steps[1..], key);
        QuietStepKeeps(s, steps[0], key);
      }
    }
  }

  /**
  In every run after which all calls of a key are over, the key is still registered if and only if the
  last of them to let go was cancelled, or released while another call held a reference to the lock.
  */
  lemma EntryRemainsIff<K>(steps: seq<Step<K>>, key: K)
    requires AllLeft(Exec(Empty(), steps), key)
    ensures key in Exec(Empty(), steps).locks <==> LastLeaveAbandons(Empty(), steps, key)
  {
    EmptyInv<K>();
    EntryRemainsFrom(Empty(), steps, key);
  }

  /** One call on its own, cancelled at work, leaves its entry for good. */
  lemma CancelledCallLeavesEntry<K>(key: K)
    ensures var s := Exec(Empty(), [Enter(0, key), Acquire(0), Cancel(0), DropArc(0)]);
            s.locks == map[key := 0] && s.strong == map[0 := 1] && s.tasks == map[0 := Finished]
  {
    var waiting := Exec(Empty(), [Enter(0, key), Acquire(0)]);
    ExecAppend(Empty(), [Enter(0, key)], [Acquire(0)]);
    assert waiting == Registry(map[key := 0], map[0 := 2], map[0 := 0], map[0 := Critical(key, 0)], 1);
    ExecAppend(waiting, [Cancel(0)], [DropArc(0)]);
    ExecAppend(Empty(), [Enter(0, key), Acquire(0)], [Cancel(0), DropArc(0)]);
  }

  /**
  The registry need not empty itself: two calls that leave together each see the other's reference,
  so neither removes the entry. The entry is then backed by the map alone.
  */
  lemma EntryCanOutliveItsCalls<K>(key: K)
    ensures var steps := [Enter(0, key), Enter(1, key), Acquire(0), Exit(0), Acquire(1), Exit(1),
                          Release(0), Release(1), DropArc(0), DropArc(1)];
            var s := Exec(Empty(), steps);
            s.locks == map[key := 0] && s.strong == map[0 := 1] && s.tasks == map[0 := Finished, 1 := Finished]
  {
    var enter := [Enter(0, key), Enter(1, key)];
    var work := [Acquire(0), Exit(0), Acquire(1), Exit(1)];
    var leave := [Release(0), Release(1), DropArc(0), DropArc(1)];
    var both := Registry(map[key := 0], map[0 := 3], map[], map[0 := Leaving(key, 0), 1 := Leaving(key, 0)], 1);
    assert Exec(Empty(), enter + work) == both by {
      BothLeave(key);
      ExecAppend(Empty(), enter, work);
    }
    BothDrop(key);
    ExecAppend(Empty(), enter + work, leave);
    assert (enter + work) + leave == [Enter(0, key), Enter(1, key), Acquire(0), Exit(0), Acquire(1), Exit(1),
                                      Release(0), Release(1), DropArc(0), DropArc(1)];
  }

  lemma BothLeave<K>(key: K)
    ensures Exec(Exec(Empty(), [Enter(0, key), Enter(1, key)]), [Acquire(0), Exit(0), Acquire(1), Exit(1)])
         == Registry(map[key := 0], map[0 := 3], map[], map[0 := Leaving(key, 0), 1 := Leaving(key, 0)], 1)
  {
    var s := Exec(Empty(), [Enter(0, key), Enter(1, key)]);
    assert s == Registry(map[key := 0], map[0 := 3], map[], map[0 := Waiting(key, 0), 1 := Waiting(key, 0)], 1) by {
      ExecAppend(Empty(), [Enter(0, key)], [Enter(1, key)]);
      var one := Registry(map[key := 0], map[0 := 2], map[], map[0 := Waiting(key, 0)], 1);
      assert Exec(Empty(), [Enter(0, key)]) == one;
    }
    ExecAppend(s, [Acquire(0), Exit(0)], [Acquire(1), Exit(1)]);
    assert Exec(s, [Acquire(0), Exit(0)]) == s.(tasks := map[0 := Leaving(key, 0), 1 := Waiting(key, 0)]);
  }

  lemma BothDrop<K>(key: K)
    ensures Exec(Registry(map[key := 0], map[0 := 3], map[], map[0 := Leaving(key, 0), 1 := Leaving(key, 0)], 1),
                 [Release(0), Release(1), DropArc(0), DropArc(1)])
         == Registry(map[key := 0], map[0 := 1], map[], map[0 := Finished, 1 := Finished], 1)
  {
    var s := Registry(map[key := 0], map[0 := 3], map[], map[0 := Leaving(key, 0), 1 := Leaving(key, 0)], 1);
    ExecAppend(s, [Release(0), Release(1)], [DropArc(0), DropArc(1)]);
    assert Exec(s, [Release(0), Release(1)]) == s.(tasks := map[0 := Dropping(0), 1 := Dropping(0)]);
  }

  /** The registry as an object: each method is the piece of a call that runs without a break. */
  class SharedRegistry<K(==)> {
    var locks: map<K, LockId>
    var strong: map<LockId, nat>
    var owner: map<LockId, TaskId>
    var next: LockId
    ghost var tasks: map<TaskId, Phase<K>>

    ghost function View(): Registry<K>
      reads this
    {
      Registry(locks, strong, owner, tasks, next)
    }

    constructor ()
      ensures View() == Empty()
    {
      locks, strong, owner, next, tasks := map[], map[], map[], 0, map[];
    }

    /** Fetches the lock of a key, making it when the key has none. */
    method Fetch(ghost t: TaskId, key: K) returns (lock: LockId)
      requires Inv(View()) && t !in tasks
      modifies this
      ensures View() == Apply(old(View()), Enter(t, key)) && tasks[t] == Waiting(key, lock)
    {
      if key !in locks {
        locks := locks[key := next];
        strong := strong[next := 1];
        next := next + 1;
      }
      lock := locks[key];
      strong := strong[lock := (if lock in strong then strong[lock] else 0) + 1];
      tasks := tasks[t := Waiting(key, lock)];
    }

    method Lock(t: TaskId, lock: LockId)
      requires t in tasks && tasks[t].Waiting? && tasks[t].lock == lock && lock !in owner
      modifies this`owner, this`tasks
      ensures View() == Apply(old(View()), Acquire(t))
    {
      owner := owner[lock := t];
      tasks := tasks[t := Critical(tasks[t].key, lock)];
    }

    method Unlock(ghost t: TaskId, lock: LockId)
      requires t in tasks && tasks[t].Critical? && tasks[t].lock == lock
      modifies this`owner, this`tasks
      ensures View() == Apply(old(View()), Exit(t))
    {
      owner := owner - {lock};
      tasks := tasks[t := Leaving(tasks[t].key, lock)];
    }

    /** Removes the entry if it is still this lock and nobody else refers to it. */
    method ReleaseEntry(ghost t: TaskId, key: K, lock: LockId)
      requires Inv(View()) && t in tasks && tasks[t] == Leaving(key, lock)
      modifies this
      ensures View() == Apply(old(View()), Release(t))
      ensures key !in locks <==> forall u :: u in old(tasks) && Holds(old(tasks)[u], lock) ==> u == t
    {
      ReleaseRemovesIffAlone(View(), t);
      if key in locks && locks[key] == lock && lock in strong && strong[lock] == 2 {
        locks := locks - {key};
        strong := strong[lock := strong[lock] - 1];
      }
      tasks := tasks[t := Dropping(lock)];
    }

    method DropReference(ghost t: TaskId, lock: LockId)
      requires Inv(View()) && t in tasks && tasks[t] == Dropping(lock)
      modifies this
      ensures View() == Apply(old(View()), DropArc(t))
    {
      assert Strong(View(), lock) > 0 by { SubsetCard({t}, Holders(tasks, lock)); }
      strong := strong[lock := strong[lock] - 1];
      tasks := tasks[t := Finished];
    }
  }
}
