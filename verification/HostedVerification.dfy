/**
Hosted verification at the Platform: the idempotent store and the replay store together.

A verification runs as the operation of an idempotent call. It consumes the assertion under a key
joined from four parts, and its reply is stored and replayed like any other.
*/
module HostedVerification {
  import opened Common
  import L = KeyedLock
  import C = CommandStore

  /** What one hosted verification is about. `exp` is in whole seconds. */
  datatype Assertion = Assertion(serviceDid: string, op: string, agentDid: string, jti: string, exp: int)

  /** The body of a stored reply: the assertion it vouches for, if it vouches for one. */
  type Body = Option<Assertion>

  function ReplayKey(a: Assertion): string {
    a.serviceDid + "\0" + a.op + "\0" + a.agentDid + "\0" + a.jti
  }

  predicate NoNul(s: string) {
    '\0' !in s
  }

  /** The three parts before the assertion's own identifier hold no NUL. */
  predicate NulFree(a: Assertion) {
    NoNul(a.serviceDid) && NoNul(a.op) && NoNul(a.agentDid)
  }

  /** The same Service, operation, Agent and identifier, whatever the expiry. */
  predicate SameAssertion(a: Assertion, b: Assertion) {
    a == b.(exp := a.exp)
  }

  lemma {:induction false} SplitAtNul(a: string, b: string, x: string, y: string)
    requires NoNul(a) && NoNul(b) && a + "\0" + x == b + "\0" + y
    ensures a == b && x == y
  {
    var p, q := a + "\0" + x, b + "\0" + y;
    assert p[|a|] == '\0' && q[|b|] == '\0';
    assert forall i :: 0 <= i < |a| ==> p[i] != '\0';
    assert forall i :: 0 <= i < |b| ==> q[i] != '\0';
    assert |a| == |b|;
    assert p[..|a|] == a && q[..|b|] == b;
    assert p[|a| + 1..] == x && q[|b| + 1..] == y;
  }

  function AgentPart(a: Assertion): string {
    a.agentDid + "\0" + a.jti
  }

  function OpPart(a: Assertion): string {
    a.op + "\0" + AgentPart(a)
  }

  lemma ReplayKeyParts(a: Assertion)
    ensures ReplayKey(a) == a.serviceDid + "\0" + OpPart(a)
  {
  }

  /** With no NUL in the first three parts, the joined key determines all four. */
  lemma ReplayKeyInjective(a: Assertion, b: Assertion)
    requires NulFree(a) && NulFree(b) && ReplayKey(a) == ReplayKey(b)
    ensures SameAssertion(a, b)
  {
    ReplayKeyParts(a);
    ReplayKeyParts(b);
    SplitAtNul(a.serviceDid, b.serviceDid, OpPart(a), OpPart(b));
    SplitAtNul(a.op, b.op, AgentPart(a), AgentPart(b));
    SplitAtNul(a.agentDid, b.agentDid, a.jti, b.jti);
  }

  // ----- What the Platform lets through, and when two of them share a key

  const OPERATIONS: set<string> := {"enroll", "grant", "revoke", "status", "authenticate"}

  predicate IsWhitespace(c: char) {
    '\t' <= c <= '\r' || c == ' ' || c as int == 0x85 || c as int == 0xa0 || c as int == 0x1680
    || 0x2000 <= c as int <= 0x200a || c as int == 0x2028 || c as int == 0x2029 || c as int == 0x202f
    || c as int == 0x205f || c as int == 0x3000
  }

  /** A DID as the Platform checks one: a method, a colon, and an identifier without whitespace. */
  predicate IsDid(value: string) {
    "did:" <= value &&
    exists i :: 4 < i < |value| - 1 && value[i] == ':'
      && (forall k :: 4 <= k < i ==> 'a' <= value[k] <= 'z' || '0' <= value[k] <= '9')
      && (forall k :: i < k < |value| ==> !IsWhitespace(value[k]))
  }

  /** Agent DIDs are minted, with every control character escaped. */
  predicate IsAgentDid(value: string) {
    IsDid(value) && NoNul(value)
  }

  /** What can reach the replay store. The check on Service DIDs does not exclude a NUL. */
  predicate Reachable(a: Assertion) {
    IsDid(a.serviceDid) && a.op in OPERATIONS && IsAgentDid(a.agentDid) && a.jti != ""
  }

  ghost predicate Collide(a: Assertion, b: Assertion) {
    Reachable(a) && Reachable(b) && ReplayKey(a) == ReplayKey(b) && !SameAssertion(a, b)
  }

  /** The second Service DID is the first with an operation and an Agent DID, and perhaps more, after NULs. */
  ghost predicate Spells(x: string, y: string, op: string, agentDid: string, rest: string) {
    && op in OPERATIONS && IsAgentDid(agentDid) && (rest == "" || rest[0] == '\0')
    && y == x + "\0" + op + "\0" + agentDid + rest
  }

  ghost predicate Continues(x: string, y: string) {
    exists op, agentDid, rest :: Spells(x, y, op, agentDid, rest)
  }

  lemma OperationsPlain(op: string, agentDid: string)
    requires op in OPERATIONS && IsDid(agentDid)
    ensures NoNul(op) && op != agentDid
  {
    assert agentDid[0] == 'd';
  }

  /** Two texts around a NUL, the first part at least as long: it is the second, or goes on past it. */
  lemma Cut(r: string, x: string, part: string, y: string) returns (more: string)
    requires |part| <= |r| && r + "\0" + x == part + "\0" + y
    ensures (r == part && x == y) || (r == part + "\0" + more && more + "\0" + x == y)
  {
    var p, q := r + "\0" + x, part + "\0" + y;
    more := "";
    if |r| == |part| {
      assert p[..|r|] == r && q[..|r|] == part && p[|r| + 1..] == x && q[|r| + 1..] == y;
    } else {
      more := r[|part| + 1..];
      assert p[..|part|] == r[..|part|] && q[..|part|] == part && q[|part|] == '\0' && p[|part|] == r[|part|];
      assert r == part + "\0" + more;
      assert q[|part| + 1..] == y && p[|part| + 1..] == more + "\0" + x;
    }
  }

  lemma Peel(r: string, x: string, part: string, y: string) returns (more: string)
    requires NoNul(part) && r + "\0" + x == part + "\0" + y
    ensures (r == part && x == y) || (r == part + "\0" + more && more + "\0" + x == y)
  {
    var p, q := r + "\0" + x, part + "\0" + y;
    assert p[|r|] == '\0' && forall i :: 0 <= i < |part| ==> q[i] != '\0';
    more := Cut(r, x, part, y);
  }

  /** What follows a shorter Service DID in a longer one that shares its key. */
  lemma RestContinues(x: string, y: string, r: string, a: Assertion, b: Assertion)
    requires Reachable(a) && Reachable(b) && y == x + "\0" + r && r + "\0" + OpPart(b) == OpPart(a)
    ensures Continues(x, y)
  {
    OperationsPlain(a.op, a.agentDid);
    OperationsPlain(b.op, a.agentDid);
    var more := Peel(r, OpPart(b), a.op, AgentPart(a));
    if r == a.op && OpPart(b) == AgentPart(a) {
      SplitAtNul(b.op, a.agentDid, AgentPart(b), a.jti);
      assert false;
    } else {
      var last := Peel(more, OpPart(b), a.agentDid, a.jti);
      var rest := if more == a.agentDid then "" else "\0" + last;
      assert y == x + "\0" + a.op + "\0" + a.agentDid + rest;
      assert Spells(x, y, a.op, a.agentDid, rest);
    }
  }

  lemma LongerContinues(a: Assertion, b: Assertion)
    requires Collide(a, b) && |a.serviceDid| <= |b.serviceDid|
    ensures Continues(a.serviceDid, b.serviceDid)
  {
    ReplayKeyParts(a);
    ReplayKeyParts(b);
    var r := Cut(b.serviceDid, OpPart(b), a.serviceDid, OpPart(a));
    if a.serviceDid == b.serviceDid && OpPart(a) == OpPart(b) {
      SameOpPart(a, b);
      assert false;
    } else {
      RestContinues(a.serviceDid, b.serviceDid, r, a, b);
    }
  }

  lemma SameOpPart(a: Assertion, b: Assertion)
    requires Reachable(a) && Reachable(b) && a.serviceDid == b.serviceDid && OpPart(a) == OpPart(b)
    ensures SameAssertion(a, b)
  {
    OperationsPlain(a.op, a.agentDid);
    OperationsPlain(b.op, b.agentDid);
    SplitAtNul(a.op, b.op, AgentPart(a), AgentPart(b));
    SplitAtNul(a.agentDid, b.agentDid, a.jti, b.jti);
  }

  /** Any two such Service DIDs do collide, for two Agents each with one Service. */
  lemma ContinuationCollides(x: string, y: string, op: string, agentDid: string, rest: string, other: string)
    returns (a: Assertion, b: Assertion)
    requires IsDid(x) && IsDid(y) && Spells(x, y, op, agentDid, rest) && IsAgentDid(other) && other != agentDid
    ensures Collide(a, b) && a.serviceDid == x && b.serviceDid == y && a.agentDid != b.agentDid
  {
    b := Assertion(y, "grant", other, "j", 0);
    var tail := OpPart(b);
    a := Assertion(x, op, agentDid, if rest == "" then tail else rest[1..] + "\0" + tail, 0);
    ReplayKeyParts(b);
    KeyJoins(x + "\0" + op + "\0" + agentDid, rest, tail);
  }

  lemma KeyJoins(start: string, rest: string, tail: string)
    requires rest == "" || rest[0] == '\0'
    ensures start + rest + "\0" + tail == start + "\0" + if rest == "" then tail else rest[1..] + "\0" + tail
  {
    if rest != "" { assert rest == "\0" + rest[1..]; }
  }

  /** A DID on the web, for a short name. */
  function DidOf(name: string): string {
    "did:web:" + name
  }

  lemma DidOfName(name: string)
    requires name != "" && forall i :: 0 <= i < |name| ==> !IsWhitespace(name[i])
    ensures IsDid(DidOf(name)) && (NoNul(name) ==> IsAgentDid(DidOf(name)))
  {
    var did := DidOf(name);
    assert did[7] == ':' && forall k :: 7 < k < |did| ==> did[k] == name[k - 8];
  }

  function Another(agentDid: string): string {
    if agentDid == DidOf("a") then DidOf("b") else DidOf("a")
  }

  lemma AnotherAgent(agentDid: string)
    ensures IsAgentDid(Another(agentDid)) && Another(agentDid) != agentDid
  {
    DidOfName("a");
    DidOfName("b");
    assert DidOf("a")[8] == 'a' && DidOf("b")[8] == 'b';
  }

  /** Exactly when two Service DIDs let two different assertions share a replay key. */
  lemma KeysCollideIff(x: string, y: string)
    requires IsDid(x) && IsDid(y)
    ensures (exists a, b :: Collide(a, b) && a.serviceDid == x && b.serviceDid == y)
            <==> Continues(x, y) || Continues(y, x)
  {
    if Continues(x, y) {
      var op, agentDid, rest :| Spells(x, y, op, agentDid, rest);
      AnotherAgent(agentDid);
      var a, b := ContinuationCollides(x, y, op, agentDid, rest, Another(agentDid));
    } else if Continues(y, x) {
      var op, agentDid, rest :| Spells(y, x, op, agentDid, rest);
      AnotherAgent(agentDid);
      var b, a := ContinuationCollides(y, x, op, agentDid, rest, Another(agentDid));
      assert Collide(a, b);
    } else {
      forall a, b | Collide(a, b) && a.serviceDid == x && b.serviceDid == y ensures false {
        if |x| <= |y| { LongerContinues(a, b); } else { LongerContinues(b, a); }
      }
    }
  }

  /** Every Service DID shares keys with one that goes on from it, for any two Agents. */
  lemma GoingOnCollides(a: Assertion, b: Assertion)
    requires Reachable(a) && Reachable(b) && a.jti == OpPart(b)
    requires b.serviceDid == a.serviceDid + "\0" + a.op + "\0" + a.agentDid
    ensures Collide(a, b)
  {
    SharedKey(a, b);
    assert |b.serviceDid| > |a.serviceDid|;
  }

  lemma SharedKey(a: Assertion, b: Assertion)
    requires b.serviceDid == a.serviceDid + "\0" + a.op + "\0" + a.agentDid && a.jti == OpPart(b)
    ensures ReplayKey(a) == ReplayKey(b)
  {
    ReplayKeyParts(b);
  }

  lemma GoingOnIsDid(service: string, op: string, agentDid: string)
    requires IsDid(service) && op in OPERATIONS && IsDid(agentDid)
    ensures IsDid(service + "\0" + op + "\0" + agentDid)
  {
    var did := service + "\0" + op + "\0" + agentDid;
    assert forall k :: 0 <= k < |op| ==> !IsWhitespace(op[k]);
    assert forall k :: 0 <= k < |agentDid| ==> !IsWhitespace(agentDid[k]);
    assert forall k :: 0 <= k < |service| ==> did[k] == service[k];
    assert forall k :: |service| <= k < |did| ==> !IsWhitespace(did[k]);
  }

  /** An input, with a NUL in one Service DID and in the other assertion's identifier. */
  lemma ReplayKeyCollision()
    ensures var a := Assertion(DidOf("s"), "grant", DidOf("a"), "grant" + "\0" + (DidOf("b") + "\0" + "j"), 1);
            var b := Assertion(DidOf("s") + "\0" + "grant" + "\0" + DidOf("a"), "grant", DidOf("b"), "j", 1);
            Collide(a, b)
  {
    DidOfName("a");
    DidOfName("b");
    DidOfName("s");
    var b := Assertion(DidOf("s") + "\0" + "grant" + "\0" + DidOf("a"), "grant", DidOf("b"), "j", 1);
    GoingOnIsDid(DidOf("s"), "grant", DidOf("a"));
    GoingOnCollides(Assertion(DidOf("s"), "grant", DidOf("a"), OpPart(b), 1), b);
  }

  // ----- The replay store

  function Retain(spent: map<string, int>, now: int): map<string, int> {
    map k | k in spent && spent[k] > now :: spent[k]
  }

  predicate Consumable(spent: map<string, int>, key: string, expires: int, now: int) {
    key != "" && expires > now && key !in Retain(spent, now)
  }

  function Consumed(spent: map<string, int>, key: string, expires: int, now: int): map<string, int> {
    if key == "" || expires <= now then spent
    else if key in Retain(spent, now) then Retain(spent, now)
    else Retain(spent, now)[key := expires]
  }

  class MemoryReplayStore {
    var records: map<string, int>

    constructor ()
      ensures records == map[]
    {
      records := map[];
    }

    method Consume(key: string, expires: int, now: int) returns (unseen: bool)
      modifies this
      ensures unseen <==> key != "" && expires > now && !(key in old(records) && old(records)[key] > now)
      ensures unseen ==> key in records && records[key] == expires
      ensures unseen == Consumable(old(records), key, expires, now)
      ensures records == Consumed(old(records), key, expires, now)
    {
      if key == "" || expires <= now { return false; }
      records := map k | k in records && records[k] > now :: records[k];
      if key in records { return false; }
      records := records[key := expires];
      unseen := true;
    }
  }

  // ----- The two stores together

  /**
  `lastSeen` is the clock reading of the latest consumption and `verdicts` what running executions were
  told by the replay store. `winner` is a history of the run: the call whose execution consumed each
  assertion.
  */
  datatype System = System(
    store: C.System<Body>,
    spent: map<string, int>,
    verdicts: map<L.TaskId, Body>,
    lastSeen: int,
    winner: map<Assertion, L.TaskId>
  )

  datatype Step =
    | Plain(step: C.Step<Body>)
    | Consume(t: L.TaskId, claimed: Assertion, now: int)
    | Reply(t: L.TaskId, createdAt: int)

  function Empty(clock: int, lastSeen: int): System {
    System(C.Empty(C.Platform, clock), map[], map[], lastSeen, map[])
  }

  /** Operations other than a verification never vouch for an assertion. */
  predicate Vouches(step: C.Step<Body>) {
    step.Complete? && step.result.Ok? && step.result.value.body.Some?
  }

  predicate Running(s: System, t: L.TaskId) {
    C.Enabled(s.store, C.Complete(t, Err)) && s.store.calls[t].input.command == C.HostedVerification
  }

  predicate Enabled(s: System, step: Step) {
    match step
    // An execution that has consumed replies with what it was told, or fails.
    case Plain(c) =>
      C.Enabled(s.store, c) && !Vouches(c) && (c.Complete? && c.t in s.verdicts ==> c.result.Err?)
    // The assertion has passed signature, claims and lifecycle checks; replay protection is next.
    case Consume(t, _, now) => Running(s, t) && t !in s.verdicts && s.lastSeen <= now
    case Reply(t, _) => Running(s, t) && t in s.verdicts
  }

  /** The replay store takes the assertion as unseen. */
  predicate Unseen(s: System, claimed: Assertion, now: int) {
    Consumable(s.spent, ReplayKey(claimed), claimed.exp * SECOND, now)
  }

  function ConsumeStep(s: System, t: L.TaskId, claimed: Assertion, now: int): System {
    var spent := Consumed(s.spent, ReplayKey(claimed), claimed.exp * SECOND, now);
    var unseen := Unseen(s, claimed, now);
    System(s.store, spent, s.verdicts[t := if unseen then Some(claimed) else None], now,
           if unseen then s.winner[claimed := t] else s.winner)
  }

  /** The store step that ends an execution with what it was told. */
  function Verdict(s: System, t: L.TaskId, createdAt: int): C.Step<Body>
    requires t in s.verdicts
  {
    C.Complete(t, Ok(C.Response(s.verdicts[t], createdAt)))
  }

  function Apply(s: System, step: Step): System {
    if !Enabled(s, step) then s else
    match step
    case Plain(c) => s.(store := C.Apply(s.store, c))
    case Consume(t, claimed, now) => ConsumeStep(s, t, claimed, now)
    case Reply(t, createdAt) => s.(store := C.Apply(s.store, Verdict(s, t, createdAt)))
  }

  function Exec(s: System, steps: seq<Step>): System
    decreases |steps|
  {
    if steps == [] then s else Exec(Apply(s, steps[0]), steps[1..])
  }

  // ----- The invariant

  ghost predicate Guarded(spent: map<string, int>, a: Assertion, now: int) {
    a.exp * SECOND <= now || (ReplayKey(a) in spent && spent[ReplayKey(a)] == a.exp * SECOND)
  }

  ghost predicate WinnersGuarded(s: System) {
    forall a :: a in s.winner ==> Guarded(s.spent, a, s.lastSeen)
  }

  /** Every spent key was spent by a winner. */
  ghost predicate SpentWon(s: System) {
    forall key :: key in s.spent ==> SpentBy(s.winner, key, s.spent[key])
  }

  ghost predicate SpentBy(winner: map<Assertion, L.TaskId>, key: string, expires: int) {
    exists a :: a in winner && ReplayKey(a) == key && a.exp * SECOND == expires
  }

  /** A positive verdict is about what the execution itself consumed. */
  ghost predicate VerdictsWon(s: System) {
    forall t :: t in s.verdicts && s.verdicts[t].Some? ==> Won(s, s.verdicts[t].value, t)
  }

  ghost predicate Won(s: System, a: Assertion, t: L.TaskId) {
    a in s.winner && s.winner[a] == t && t in s.store.calls
  }

  /** A reply about to be stored vouches only for what its own execution consumed. */
  ghost predicate ReadyWon(s: System) {
    forall t :: t in s.store.calls ==> CallWon(s, t)
  }

  ghost predicate CallWon(s: System, t: L.TaskId)
    requires t in s.store.calls
  {
    var stage := s.store.calls[t].stage;
    stage.Ready? && stage.response.body.Some? ==> Won(s, stage.response.body.value, t)
  }

  /** So does every stored reply, and it carries the input of that execution. */
  ghost predicate StoredWon(s: System) {
    forall k: C.Key, i: nat :: i < |C.LogOf(s.store, k)| ==> EventWon(s, C.LogOf(s.store, k)[i])
  }

  ghost predicate EventWon(s: System, e: C.Event<Body>) {
    e.Stored? && e.record.response.body.Some? ==>
      Won(s, e.record.response.body.value, e.task) && s.store.calls[e.task].input == e.record.input
  }

  ghost predicate Inv(s: System) {
    && C.Inv(s.store) && WinnersGuarded(s) && SpentWon(s)
    && VerdictsWon(s) && ReadyWon(s) && StoredWon(s)
  }

  /** What a store step can do to the calls and to the log of one key. */
  lemma StoreStepFrame(s: C.System<Body>, c: C.Step<Body>, t: L.TaskId)
    requires t in s.calls
    ensures var s' := C.Apply(s, c);
            && t in s'.calls && s'.calls[t].input == s.calls[t].input
            && (s'.calls[t].stage.Ready? ==>
                  || s'.calls[t].stage == s.calls[t].stage
                  || (c.Complete? && c.result.Ok? && c.t == t
                      && s'.calls[t].stage.response.body == c.result.value.body))
  {
  }

  lemma StoreStepLog(s: C.System<Body>, c: C.Step<Body>, k: C.Key)
    ensures var log, log' := C.LogOf(s, k), C.LogOf(C.Apply(s, c), k);
            || log' == log
            || (|log'| == |log| + 1 && log'[..|log|] == log
                && (log'[|log|].Stored? ==>
                      && c.Insert? && c.t in s.calls && s.calls[c.t].stage.Ready?
                      && log'[|log|].task == c.t && log'[|log|].record.input == s.calls[c.t].input
                      && log'[|log|].record.response == s.calls[c.t].stage.response))
  {
  }

  lemma NewCallNotReady(s: C.System<Body>, c: C.Step<Body>, t: L.TaskId)
    requires t !in s.calls
    ensures t in C.Apply(s, c).calls ==> !C.Apply(s, c).calls[t].stage.Ready?
  {
  }

  /** Nothing a store step does to the calls takes back what has been won. */
  lemma StillWon(s: System, s': System, c: C.Step<Body>)
    requires s'.store == C.Apply(s.store, c) && s'.winner == s.winner
    ensures forall a, t :: Won(s, a, t) ==> Won(s', a, t)
  {
    forall a, t | Won(s, a, t) ensures Won(s', a, t) { StoreStepFrame(s.store, c, t); }
  }

  /** A store step that vouches at most for its own execution's verdict keeps what has been won. */
  lemma StoreKeepsWon(s: System, s': System, c: C.Step<Body>)
    requires ReadyWon(s) && StoredWon(s) && s'.store == C.Apply(s.store, c) && s'.winner == s.winner
    requires Vouches(c) ==> Won(s, c.result.value.body.value, c.t)
    ensures ReadyWon(s') && StoredWon(s')
  {
    StillWon(s, s', c);
    forall t | t in s'.store.calls ensures CallWon(s', t) {
      if t in s.store.calls {
        assert CallWon(s, t);
        StoreStepFrame(s.store, c, t);
      } else {
        NewCallNotReady(s.store, c, t);
      }
    }
    forall k: C.Key, i: nat | i < |C.LogOf(s'.store, k)| ensures EventWon(s', C.LogOf(s'.store, k)[i]) {
      LogKeepsWon(s, s', c, k, i);
    }
  }

  lemma LogKeepsWon(s: System, s': System, c: C.Step<Body>, k: C.Key, i: nat)
    requires ReadyWon(s) && StoredWon(s) && s'.store == C.Apply(s.store, c) && s'.winner == s.winner
    requires i < |C.LogOf(s'.store, k)|
    ensures EventWon(s', C.LogOf(s'.store, k)[i])
  {
    StoreStepLog(s.store, c, k);
    var log, e := C.LogOf(s.store, k), C.LogOf(s'.store, k)[i];
    if i < |log| {
      assert e == C.LogOf(s'.store, k)[..|log|][i] == log[i];
      assert EventWon(s, log[i]);
    }
    if e.Stored? && e.record.response.body.Some? {
      StoreStepFrame(s.store, c, e.task);
    }
  }

  lemma StoreStepInv(s: System, c: C.Step<Body>)
    requires Inv(s) && (Vouches(c) ==> Won(s, c.result.value.body.value, c.t))
    ensures Inv(s.(store := C.Apply(s.store, c)))
  {
    var s' := s.(store := C.Apply(s.store, c));
    C.ApplyInv(s.store, c);
    StillWon(s, s', c);
    StoreKeepsWon(s, s', c);
  }

  lemma ConsumeGuards(s: System, a: Assertion, key: string, expires: int, now: int)
    requires Guarded(s.spent, a, s.lastSeen) && s.lastSeen <= now
    ensures Guarded(Consumed(s.spent, key, expires, now), a, now)
  {
  }

  /** Consuming guards the new winner and takes no assertion from an earlier one. */
  lemma ConsumeKeepsGuards(s: System, t: L.TaskId, claimed: Assertion, now: int)
    requires WinnersGuarded(s) && s.lastSeen <= now
    ensures WinnersGuarded(ConsumeStep(s, t, claimed, now))
    ensures Unseen(s, claimed, now) ==> claimed !in s.winner
  {
    var s' := ConsumeStep(s, t, claimed, now);
    var key, expires := ReplayKey(claimed), claimed.exp * SECOND;
    assert Unseen(s, claimed, now) ==> !Guarded(s.spent, claimed, s.lastSeen);
    forall a | a in s'.winner ensures Guarded(s'.spent, a, s'.lastSeen) {
      if a in s.winner { ConsumeGuards(s, a, key, expires, now); }
    }
  }

  lemma ConsumeKeepsSpent(s: System, t: L.TaskId, claimed: Assertion, now: int)
    requires SpentWon(s)
    ensures SpentWon(ConsumeStep(s, t, claimed, now))
  {
    var s' := ConsumeStep(s, t, claimed, now);
    forall key | key in s'.spent ensures SpentBy(s'.winner, key, s'.spent[key]) {
      if Unseen(s, claimed, now) && key == ReplayKey(claimed) {
        assert claimed in s'.winner;
      } else {
        assert SpentBy(s.winner, key, s.spent[key]);
        var a :| a in s.winner && ReplayKey(a) == key && a.exp * SECOND == s.spent[key];
        assert a in s'.winner;
      }
    }
  }

  lemma ConsumeKeepsWon(s: System, t: L.TaskId, claimed: Assertion, now: int)
    requires VerdictsWon(s) && ReadyWon(s) && StoredWon(s) && t in s.store.calls
    requires Unseen(s, claimed, now) ==> claimed !in s.winner
    ensures var s' := ConsumeStep(s, t, claimed, now); VerdictsWon(s') && ReadyWon(s') && StoredWon(s')
  {
    var s' := ConsumeStep(s, t, claimed, now);
    assert forall a, u :: Won(s, a, u) ==> Won(s', a, u);
    forall u | u in s'.store.calls ensures CallWon(s', u) { assert CallWon(s, u); }
    forall k: C.Key, i: nat | i < |C.LogOf(s'.store, k)| ensures EventWon(s', C.LogOf(s'.store, k)[i]) {
      assert EventWon(s, C.LogOf(s.store, k)[i]);
    }
  }

  lemma ConsumeInv(s: System, t: L.TaskId, claimed: Assertion, now: int)
    requires Inv(s) && Enabled(s, Consume(t, claimed, now))
    ensures Inv(ConsumeStep(s, t, claimed, now))
  {
    ConsumeKeepsGuards(s, t, claimed, now);
    ConsumeKeepsSpent(s, t, claimed, now);
    ConsumeKeepsWon(s, t, claimed, now);
  }

  lemma ApplyInv(s: System, step: Step)
    requires Inv(s)
    ensures Inv(Apply(s, step))
  {
    if Enabled(s, step) {
      match step
      case Plain(c) => StoreStepInv(s, c);
      case Consume(t, claimed, now) => ConsumeInv(s, t, claimed, now);
      case Reply(t, createdAt) => StoreStepInv(s, Verdict(s, t, createdAt));
    }
  }

  lemma {:induction false} ExecInv(s: System, steps: seq<Step>)
    requires Inv(s)
    ensures Inv(Exec(s, steps))
    decreases |steps|
  {
    if steps != [] {
      ApplyInv(s, steps[0]);
      ExecInv(Apply(s, steps[0]), steps[1..]);
    }
  }

  lemma ReachableInv(clock: int, lastSeen: int, steps: seq<Step>)
    ensures Inv(Exec(Empty(clock, lastSeen), steps))
  {
    C.EmptyInv<Body>(C.Platform, clock);
    ExecInv(Empty(clock, lastSeen), steps);
  }

  // ----- What every run gives

  ghost predicate Verifies(s: System, t: L.TaskId, a: Assertion) {
    t in s.store.calls && s.store.calls[t].stage.Decided? &&
    match s.store.calls[t].stage.outcome
    case Created(r) => r.body == Some(a)
    case Replayed(r) => r.body == Some(a)
    case _ => false
  }

  /** The reply of a verifying call leads back to the execution that consumed the assertion. */
  lemma VerifiedByWinner(s: System, t: L.TaskId, a: Assertion)
    requires Inv(s) && Verifies(s, t, a)
    ensures a in s.winner && s.winner[a] in s.store.calls
    ensures s.store.calls[t].stage.outcome.Created? ==> s.winner[a] == t
    ensures var w := s.store.calls[s.winner[a]].input;
            C.KeyOf(w) == C.KeyOf(s.store.calls[t].input) && C.SameMaterial(w, s.store.calls[t].input)
  {
    var call := s.store.calls[t];
    var k := C.KeyOf(call.input);
    var log := C.LogOf(s.store, k);
    assert C.ReplyLogged(s.store, t) && C.LogOk(s.store, k);
    var i :| 0 <= i < |log| && C.Tells(log[i], t, call.input, call.stage.outcome);
    if log[i].Stored? {
      assert EventWon(s, log[i]);
    } else {
      var j := C.RepliesComeFromLatest(log, i);
      assert EventWon(s, log[j]);
      LogKeyed(s.store, k, j);
    }
  }

  lemma LogKeyed(s: C.System<Body>, k: C.Key, j: nat)
    requires C.Inv(s) && j < |C.LogOf(s, k)| && C.LogOf(s, k)[j].Stored?
    ensures C.KeyOf(C.LogOf(s, k)[j].record.input) == k
  {
    assert C.LogOk(s, k);
  }

  /**
  In every run, at most one execution vouches for an assertion, and any two replies that do belong
  to the same principal, idempotency key, operation and request hash.
  */
  lemma OneVerification(clock: int, lastSeen: int, steps: seq<Step>, t: L.TaskId, u: L.TaskId, a: Assertion)
    requires var s := Exec(Empty(clock, lastSeen), steps); Verifies(s, t, a) && Verifies(s, u, a)
    ensures var s := Exec(Empty(clock, lastSeen), steps);
            var x, y := s.store.calls[t], s.store.calls[u];
            && (x.stage.outcome.Created? && y.stage.outcome.Created? ==> t == u)
            && C.KeyOf(x.input) == C.KeyOf(y.input) && C.SameMaterial(x.input, y.input)
  {
    ReachableInv(clock, lastSeen, steps);
    var s := Exec(Empty(clock, lastSeen), steps);
    VerifiedByWinner(s, t, a);
    VerifiedByWinner(s, u, a);
  }

  // ----- What injectivity buys

  /** No verification of the run has a NUL before its identifier. */
  ghost predicate AllNulFree(steps: seq<Step>) {
    forall i :: 0 <= i < |steps| && steps[i].Consume? ==> NulFree(steps[i].claimed)
  }

  ghost predicate WinnersNulFree(s: System) {
    forall a :: a in s.winner ==> NulFree(a)
  }

  lemma {:induction false} ExecNulFree(s: System, steps: seq<Step>)
    requires WinnersNulFree(s) && AllNulFree(steps)
    ensures WinnersNulFree(Exec(s, steps))
    decreases |steps|
  {
    if steps != [] {
      assert steps[0].Consume? ==> NulFree(steps[0].claimed);
      assert AllNulFree(steps[1..]) by {
        assert forall i :: 0 <= i < |steps[1..]| ==> steps[1..][i] == steps[i + 1];
      }
      ExecNulFree(Apply(s, steps[0]), steps[1..]);
    }
  }

  /** Some execution consumed this Service, operation, Agent and identifier, and it has not expired. */
  ghost predicate WonUnexpired(s: System, claimed: Assertion, now: int) {
    exists a :: a in s.winner && SameAssertion(a, claimed) && a.exp * SECOND > now
  }

  lemma UnseenIff(s: System, claimed: Assertion, now: int)
    requires WinnersGuarded(s) && SpentWon(s) && s.lastSeen <= now
    requires WinnersNulFree(s) && NulFree(claimed)
    ensures Unseen(s, claimed, now) <==> claimed.exp * SECOND > now && !WonUnexpired(s, claimed, now)
  {
    var key := ReplayKey(claimed);
    if WonUnexpired(s, claimed, now) {
      var a :| a in s.winner && SameAssertion(a, claimed) && a.exp * SECOND > now;
      assert Guarded(s.spent, a, s.lastSeen) && ReplayKey(a) == key;
    } else if key in s.spent && s.spent[key] > now {
      assert SpentBy(s.winner, key, s.spent[key]);
      var a :| a in s.winner && ReplayKey(a) == key && a.exp * SECOND == s.spent[key];
      ReplayKeyInjective(a, claimed);
    }
  }

  /**
  In every run without a NUL before an identifier, a verification is told "unseen" if and only if its
  assertion is unexpired and no unexpired one of the same Service, operation, Agent and identifier was
  consumed: no other assertion can spend it.
  */
  lemma ConsumedOnlyByItself(clock: int, lastSeen: int, steps: seq<Step>, t: L.TaskId, claimed: Assertion, now: int)
    requires AllNulFree(steps) && NulFree(claimed)
    requires Enabled(Exec(Empty(clock, lastSeen), steps), Consume(t, claimed, now))
    ensures var s := Exec(Empty(clock, lastSeen), steps);
            Unseen(s, claimed, now) <==> claimed.exp * SECOND > now && !WonUnexpired(s, claimed, now)
  {
    ReachableInv(clock, lastSeen, steps);
    ExecNulFree(Empty(clock, lastSeen), steps);
    UnseenIff(Exec(Empty(clock, lastSeen), steps), claimed, now);
  }

  // ----- What an execution replies

  /** An execution that was told `body`, until its reply, if it does not fail, says so. */
  ghost predicate Told(s: System, t: L.TaskId, body: Body) {
    && t in s.store.calls && t in s.verdicts && s.verdicts[t] == body
    && match s.store.calls[t].stage
       case Running(_) => true
       case Ready(_, response, _) => response.body == body
       case Decided(outcome) => outcome == C.Failed || (outcome.Created? && outcome.response.body == body)
       case _ => false
  }

  lemma StoreStepTold(s: System, c: C.Step<Body>, t: L.TaskId, body: Body)
    requires Told(s, t, body)
    requires c.Complete? && c.t == t && c.result.Ok? ==> c.result.value.body == body
    ensures Told(s.(store := C.Apply(s.store, c)), t, body)
  {
    var before, after := s.store.calls[t].stage, C.Apply(s.store, c).calls[t].stage;
    if after != before {
      assert c.Complete? || c.Insert?;
    }
  }

  lemma ApplyKeepsTold(s: System, step: Step, t: L.TaskId, body: Body)
    requires Told(s, t, body)
    ensures Told(Apply(s, step), t, body)
  {
    if Enabled(s, step) {
      match step
      case Plain(c) => StoreStepTold(s, c, t, body);
      case Consume(_, _, _) =>
      case Reply(u, createdAt) => StoreStepTold(s, Verdict(s, u, createdAt), t, body);
    }
  }

  lemma {:induction false} ExecKeepsTold(s: System, steps: seq<Step>, t: L.TaskId, body: Body)
    requires Told(s, t, body)
    ensures Told(Exec(s, steps), t, body)
    decreases |steps|
  {
    if steps != [] {
      ApplyKeepsTold(s, steps[0], t, body);
      ExecKeepsTold(Apply(s, steps[0]), steps[1..], t, body);
    }
  }

  /**
  In every run, once an execution has asked the replay store its reply, unless it fails, vouches for its
  assertion if that was unseen, and for none if it was not.
  */
  lemma RepliesAsTold(clock: int, lastSeen: int, before: seq<Step>, t: L.TaskId, claimed: Assertion, now: int,
                      after: seq<Step>)
    requires Enabled(Exec(Empty(clock, lastSeen), before), Consume(t, claimed, now))
    ensures var s := Exec(Empty(clock, lastSeen), before);
            var later := Exec(Apply(s, Consume(t, claimed, now)), after);
            && t in later.store.calls
            && (later.store.calls[t].stage.Decided? ==>
                  var outcome := later.store.calls[t].stage.outcome;
                  outcome != C.Failed ==>
                    && outcome.Created?
                    && outcome.response.body == if Unseen(s, claimed, now) then Some(claimed) else None)
  {
    var s := Exec(Empty(clock, lastSeen), before);
    var body := if Unseen(s, claimed, now) then Some(claimed) else None;
    ExecKeepsTold(Apply(s, Consume(t, claimed, now)), after, t, body);
  }

  /** And with nothing between, it asks, replies and stores that reply. */
  lemma VerifiedAlone(s: System, t: L.TaskId, claimed: Assertion, now: int, createdAt: int)
    requires Enabled(s, Consume(t, claimed, now))
    ensures var told := Apply(Apply(s, Consume(t, claimed, now)), Reply(t, createdAt));
            var s' := Apply(told, Plain(C.Insert(t)));
            var k := C.KeyOf(s.store.calls[t].input);
            var body := if Unseen(s, claimed, now) then Some(claimed) else None;
            && s'.store.calls[t].stage.Decided? && s'.store.calls[t].stage.outcome.Created?
            && s'.store.calls[t].stage.outcome.response.body == body
            && k in s'.store.records && s'.store.records[k].response.body == body
  {
    var consumed := Apply(s, Consume(t, claimed, now));
    assert Enabled(consumed, Reply(t, createdAt));
    var told := Apply(consumed, Reply(t, createdAt));
    assert told.store == C.Apply(s.store, Verdict(consumed, t, createdAt));
    assert Enabled(told, Plain(C.Insert(t)));
  }
}
