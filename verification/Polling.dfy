/** Two loops an Agent runs against an environment it does not control. */
module Polling {
  import opened Common

  // ----- Waiting for an Agent to become active

  datatype Status = Pending | Active | Rejected | Suspended | Terminated | Unavailable

  datatype Reply = Failed | Answer(status: Status)

  datatype Outcome =
    | InvalidConfiguration
    | CommandFailed
    | BecameActive
    | EnrollmentState(status: Status)
    | PollingTimeout

  const MAXIMUM_SECONDS: int := 0x7FFF_FFFF_FFFF_FFFF

  predicate Waits(reply: Reply) {
    reply.Answer? && reply.status != Active
    && reply.status != Rejected && reply.status != Suspended && reply.status != Terminated
  }

  /** How many status calls fit. */
  function Attempts(interval: nat, timeout: nat): nat
    requires interval > 0
  {
    timeout / interval + 1
  }

  /** It is one more than the whole intervals in the timeout. */
  lemma AttemptsExactly(interval: nat, timeout: nat)
    requires interval > 0
    ensures (Attempts(interval, timeout) - 1) * interval <= timeout < Attempts(interval, timeout) * interval
  {
    var n := timeout / interval;
    assert timeout == n * interval + timeout % interval;
    assert (n + 1) * interval == n * interval + interval;
  }

  /** The answer to one reply, when the loop stops at it. */
  predicate Ends(outcome: Outcome, reply: Reply, elapsed: int, timeout: nat, last: bool) {
    match outcome
    case CommandFailed => reply.Failed?
    case BecameActive => reply == Answer(Active)
    case EnrollmentState(status) => reply == Answer(status) && status != Active && !Waits(reply)
    case InvalidConfiguration => Waits(reply) && timeout / SECOND > MAXIMUM_SECONDS
    case PollingTimeout => Waits(reply) && timeout / SECOND <= MAXIMUM_SECONDS && (elapsed >= timeout || last)
  }

  /** After this reply the loop sleeps and asks again. */
  predicate GoesOn(reply: Reply, elapsed: int, timeout: nat) {
    Waits(reply) && elapsed < timeout && timeout / SECOND <= MAXIMUM_SECONDS
  }

  lemma SleepFits(k: nat, interval: nat, timeout: nat)
    requires interval > 0 && k < Attempts(interval, timeout)
    ensures k * interval <= timeout
    ensures k + 1 == Attempts(interval, timeout) ==> k * interval > timeout - interval
  {
    assert timeout == timeout / interval * interval + timeout % interval;
    if k < timeout / interval {
      assert k * interval <= timeout / interval * interval by {
        MultiplyMonotone(k, timeout / interval, interval);
      }
    }
  }

  /** The sleep requested between so many calls. */
  function SleptAfter(k: nat, interval: nat): nat {
    if k == 0 then 0 else SleptAfter(k - 1, interval) + interval
  }

  lemma {:induction false} SleptAfterIs(k: nat, interval: nat)
    ensures SleptAfter(k, interval) == k * interval
  {
    if k > 0 {
      SleptAfterIs(k - 1, interval);
      assert k * interval == (k - 1) * interval + interval;
    }
  }

  lemma MultiplyMonotone(a: nat, b: nat, c: nat)
    requires a <= b
    ensures a * c <= b * c
  {
    assert b * c == a * c + (b - a) * c;
  }

  /** The loop, in the terms of its own tests. */
  method Poll(interval: nat, timeout: nat, replies: nat -> Reply, clock: nat -> int)
    returns (outcome: Outcome, calls: nat, slept: nat)
    ensures interval == 0 || timeout == 0 ==> outcome == InvalidConfiguration && calls == 0 && slept == 0
    ensures interval > 0 && timeout > 0 ==>
      && 1 <= calls <= Attempts(interval, timeout)
      && slept == SleptAfter(calls - 1, interval)
      && (forall k :: 0 <= k < calls - 1 ==> GoesOn(replies(k), clock(k + 1) - clock(0), timeout))
      && Ends(outcome, replies(calls - 1), clock(calls) - clock(0), timeout, calls == Attempts(interval, timeout))
  {
    calls, slept := 0, 0;
    if interval == 0 || timeout == 0 { return InvalidConfiguration, calls, slept; }
    var started := clock(0);
    var remainingAttempts := Attempts(interval, timeout);
    ghost var attempts := remainingAttempts;
    while true
      invariant calls + remainingAttempts == attempts && remainingAttempts > 0
      invariant slept == SleptAfter(calls, interval)
      invariant forall k :: 0 <= k < calls ==> GoesOn(replies(k), clock(k + 1) - clock(0), timeout)
      decreases remainingAttempts
    {
      var result := replies(calls);
      calls := calls + 1;
      if result.Failed? { return CommandFailed, calls, slept; }
      if result.status == Active { return BecameActive, calls, slept; }
      if result.status == Rejected || result.status == Suspended || result.status == Terminated {
        return EnrollmentState(result.status), calls, slept;
      }
      var elapsed := clock(calls) - started;
      if timeout / SECOND > MAXIMUM_SECONDS { return InvalidConfiguration, calls, slept; }
      remainingAttempts := remainingAttempts - 1;
      if elapsed >= timeout || remainingAttempts == 0 { return PollingTimeout, calls, slept; }
      slept := slept + interval;
    }
  }

  /** What the outcome says about the replies and the clock, without the loop's own terms. */
  ghost predicate Waited(interval: nat, timeout: nat, replies: nat -> Reply, clock: nat -> int, outcome: Outcome,
                         calls: nat)
    requires interval > 0 && calls > 0
  {
    var last, elapsed := replies(calls - 1), clock(calls) - clock(0);
    && (forall k :: 0 <= k < calls - 1 ==>
          replies(k) in {Answer(Pending), Answer(Unavailable)} && clock(k + 1) - clock(0) < timeout)
    && (outcome == CommandFailed <==> last == Failed) && (outcome == BecameActive <==> last == Answer(Active))
    && (forall status :: outcome == EnrollmentState(status) <==>
          last == Answer(status) && status in {Rejected, Suspended, Terminated})
    && (outcome == PollingTimeout ==> elapsed >= timeout || calls == Attempts(interval, timeout))
    && (outcome == InvalidConfiguration ==> timeout / SECOND > 0x7FFF_FFFF_FFFF_FFFF)
  }

  lemma WaitedPlainly(interval: nat, timeout: nat, replies: nat -> Reply, clock: nat -> int, outcome: Outcome,
                      calls: nat)
    requires interval > 0 && calls > 0
    requires forall k :: 0 <= k < calls - 1 ==> GoesOn(replies(k), clock(k + 1) - clock(0), timeout)
    requires var last := calls == Attempts(interval, timeout);
             Ends(outcome, replies(calls - 1), clock(calls) - clock(0), timeout, last)
    ensures Waited(interval, timeout, replies, clock, outcome, calls)
  {
    forall k | 0 <= k < calls - 1
      ensures replies(k) in {Answer(Pending), Answer(Unavailable)} && clock(k + 1) - clock(0) < timeout
    {
      assert GoesOn(replies(k), clock(k + 1) - clock(0), timeout);
    }
  }

  /**
  `replies(k)` answers the k-th status call and `clock(k + 1)` is read after it; `clock(0)` is read first.
  Nothing is asked of either, and still the calls and the sleep stay within their bounds.
  */
  method WaitForActive(interval: nat, timeout: nat, replies: nat -> Reply, clock: nat -> int)
    returns (outcome: Outcome, calls: nat, slept: nat)
    ensures interval == 0 || timeout == 0 ==> outcome == InvalidConfiguration && calls == 0 && slept == 0
    ensures interval > 0 && timeout > 0 ==>
      && 1 <= calls <= Attempts(interval, timeout)
      && slept == (calls - 1) * interval <= timeout
      && Waited(interval, timeout, replies, clock, outcome, calls)
      && Ends(outcome, replies(calls - 1), clock(calls) - clock(0), timeout, calls == Attempts(interval, timeout))
  {
    outcome, calls, slept := Poll(interval, timeout, replies, clock);
    if interval > 0 && timeout > 0 {
      SleptAfterIs(calls - 1, interval);
      SleepFits(calls - 1, interval, timeout);
      WaitedPlainly(interval, timeout, replies, clock, outcome, calls);
    }
  }

  /** The sleep after the j-th reply really took its time. */
  predicate SleptBetween(clock: nat -> int, interval: nat, j: nat) {
    clock(j + 1) + interval <= clock(j + 2)
  }

  lemma {:induction false} HonestElapsed(interval: nat, clock: nat -> int, k: nat)
    requires clock(0) <= clock(1)
    requires forall j :: 0 <= j < k ==> SleptBetween(clock, interval, j)
    ensures clock(k + 1) - clock(0) >= k * interval
  {
    if k > 0 {
      HonestElapsed(interval, clock, k - 1);
      assert SleptBetween(clock, interval, k - 1);
      assert k * interval == (k - 1) * interval + interval;
    }
  }

  /** Counting attempts never gives up early: when every sleep takes its time, less than one interval is left. */
  lemma HonestTimeout(interval: nat, timeout: nat, replies: nat -> Reply, clock: nat -> int, calls: nat)
    requires interval > 0 && 1 <= calls <= Attempts(interval, timeout)
    requires var last := calls == Attempts(interval, timeout);
             Ends(PollingTimeout, replies(calls - 1), clock(calls) - clock(0), timeout, last)
    requires clock(0) <= clock(1) && forall j :: 0 <= j < calls - 1 ==> SleptBetween(clock, interval, j)
    ensures clock(calls) - clock(0) > timeout - interval
  {
    HonestElapsed(interval, clock, calls - 1);
    SleepFits(calls - 1, interval, timeout);
  }

  // ----- Signing in stages

  const MAXIMUM_STAGES := 8

  /** Contexts and completed assertions are opaque texts. */
  datatype SignReply =
    | SignFailed
    | Completed(ok: bool, assertion: Option<string>)
    | Staged(accepted: bool, retryAfterHeader: bool, pending: Option<string>)

  datatype Signing =
    | NoKey
    | RepeatedKey
    | TooManyStages
    | SignCallFailed
    | InvalidReply
    | StillPending(pending: string)
    | ResolverFailed
    | Signed(assertion: string)

  datatype SignCall = SignCall(key: string, context: string)

  /** The world a signing run meets: the k-th key, the k-th reply to a call, and a resolver if configured. */
  datatype World = World(
    keys: nat -> Option<string>,
    reply: (nat, SignCall) -> SignReply,
    resolver: Option<string -> Option<string>>)

  predicate ProperlyPending(r: SignReply) {
    r.Staged? && r.accepted && !r.retryAfterHeader && r.pending.Some?
  }

  /** Stage `k` was pending, and its resolution is the context of the stage after it. */
  predicate Chained(w: World, calls: seq<SignCall>, context: string, k: nat)
    requires k < |calls|
  {
    && ProperlyPending(w.reply(k, calls[k]))
    && w.resolver.Some?
    && w.resolver.value(w.reply(k, calls[k]).pending.value)
         == Some(if k + 1 < |calls| then calls[k + 1].context else context)
  }

  predicate DistinctKeys(calls: seq<SignCall>) {
    forall i, j :: 0 <= i < j < |calls| ==> calls[i].key != calls[j].key
  }

  predicate ProperlyCompleted(r: SignReply) {
    r.Completed? && r.ok && r.assertion.Some?
  }

  /** How a run ends at a reply, when it does. */
  predicate EndsAt(w: World, reply: SignReply, r: Signing) {
    if reply.SignFailed? then r == SignCallFailed
    else if ProperlyCompleted(reply) then r == Signed(reply.assertion.value)
    else if !ProperlyPending(reply) then r == InvalidReply
    else if w.resolver.None? then r == StillPending(reply.pending.value)
    else r == ResolverFailed && w.resolver.value(reply.pending.value) == None
  }

  predicate KeyUsed(calls: seq<SignCall>, key: string) {
    exists i :: 0 <= i < |calls| && calls[i].key == key
  }

  /** How a run ends before its next call, when it does. */
  predicate EndsBefore(w: World, calls: seq<SignCall>, r: Signing) {
    match w.keys(|calls|)
    case None => r == NoKey
    case Some(key) => if KeyUsed(calls, key) then r == RepeatedKey else r == TooManyStages && |calls| == MAXIMUM_STAGES
  }

  /** The stages of a run so far: pending one after another, each context the resolution of the last. */
  predicate Stages(w: World, start: string, calls: seq<SignCall>, next: string) {
    && (if calls == [] then next == start else calls[0].context == start)
    && (forall k :: 0 <= k < |calls| ==> w.keys(k) == Some(calls[k].key))
    && (forall k :: 0 <= k < |calls| ==> Chained(w, calls, next, k))
  }

  /** A whole run: some stages, and the end they came to. */
  ghost predicate Ran(w: World, start: string, calls: seq<SignCall>, r: Signing) {
    || (EndsBefore(w, calls, r) && exists next :: Stages(w, start, calls, next))
    || (calls != [] && var n := |calls| - 1;
        EndsAt(w, w.reply(n, calls[n]), r)
        && w.keys(n) == Some(calls[n].key) && Stages(w, start, calls[..n], calls[n].context))
  }

  lemma StageAdded(w: World, start: string, calls: seq<SignCall>, call: SignCall, next: string)
    requires Stages(w, start, calls, call.context) && w.keys(|calls|) == Some(call.key)
    requires ProperlyPending(w.reply(|calls|, call)) && w.resolver.Some?
    requires w.resolver.value(w.reply(|calls|, call).pending.value) == Some(next)
    ensures Stages(w, start, calls + [call], next)
  {
    var more := calls + [call];
    forall k | 0 <= k < |more| ensures Chained(w, more, next, k) {
      if k < |calls| {
        assert Chained(w, calls, call.context, k);
      }
    }
  }

  lemma CallAdded(calls: seq<SignCall>, call: SignCall, used: set<string>)
    requires DistinctKeys(calls) && forall key :: key in used <==> KeyUsed(calls, key)
    requires call.key !in used
    ensures DistinctKeys(calls + [call])
    ensures forall key :: key in used + {call.key} <==> KeyUsed(calls + [call], key)
  {
    var more := calls + [call];
    assert forall i :: 0 <= i < |calls| ==> KeyUsed(calls, calls[i].key);
    forall key ensures key in used + {call.key} <==> KeyUsed(more, key) {
      assert more[|calls|] == call;
      if KeyUsed(calls, key) {
        var i :| 0 <= i < |calls| && calls[i].key == key;
        assert more[i].key == key;
      }
    }
  }

  lemma EndedRun(w: World, start: string, calls: seq<SignCall>, call: SignCall, r: Signing)
    requires Stages(w, start, calls, call.context) && w.keys(|calls|) == Some(call.key)
    requires EndsAt(w, w.reply(|calls|, call), r)
    ensures Ran(w, start, calls + [call], r)
  {
    assert (calls + [call])[..|calls|] == calls;
  }

  /** What every run shows, stage by stage. */
  ghost predicate Plainly(w: World, start: string, calls: seq<SignCall>, r: Signing) {
    && (calls != [] ==> calls[0].context == start)
    && (forall k :: 0 <= k < |calls| ==> w.keys(k) == Some(calls[k].key))
    // Each stage but the last was properly pending, and was resolved to the context of the next.
    && (forall k :: 0 <= k < |calls| - 1 ==> Resolved(w, w.reply(k, calls[k]), calls[k + 1].context))
    && (forall assertion :: r == Signed(assertion) <==>
          calls != [] && w.reply(|calls| - 1, calls[|calls| - 1]) == Completed(true, Some(assertion)))
    && (r == TooManyStages ==> |calls| == 8)
  }

  /** The reply is a properly pending one, resolved to the context. */
  predicate Resolved(w: World, reply: SignReply, context: string) {
    && reply.Staged? && reply.accepted && !reply.retryAfterHeader && reply.pending.Some?
    && w.resolver.Some? && w.resolver.value(reply.pending.value) == Some(context)
  }

  lemma RanPlainly(w: World, start: string, calls: seq<SignCall>)
    ensures forall r :: Ran(w, start, calls, r) ==> Plainly(w, start, calls, r)
  {
    forall r | Ran(w, start, calls, r) ensures Plainly(w, start, calls, r) {
      if EndsBefore(w, calls, r) && exists next :: Stages(w, start, calls, next) {
        var next :| Stages(w, start, calls, next);
        forall k | 0 <= k < |calls| - 1 ensures Resolved(w, w.reply(k, calls[k]), calls[k + 1].context) {
          assert Chained(w, calls, next, k);
        }
        if calls != [] { assert Chained(w, calls, next, |calls| - 1); }
      } else {
        var n := |calls| - 1;
        var front, last := calls[..n], calls[n];
        assert Stages(w, start, front, last.context);
        forall k | 0 <= k < n ensures Resolved(w, w.reply(k, calls[k]), calls[k + 1].context) {
          assert Chained(w, front, last.context, k);
        }
      }
    }
  }

  /** What one reply comes to: the end of the run, or the context of the next stage. */
  method Digest(w: World, reply: SignReply) returns (end: Option<Signing>, next: string)
    ensures end.Some? ==> EndsAt(w, reply, end.value)
    ensures end.None? ==>
      ProperlyPending(reply) && w.resolver.Some? && w.resolver.value(reply.pending.value) == Some(next)
  {
    if reply.SignFailed? { return Some(SignCallFailed), ""; }
    if reply.Completed? {
      if !reply.ok || reply.assertion.None? { return Some(InvalidReply), ""; }
      return Some(Signed(reply.assertion.value)), "";
    }
    if !reply.accepted || reply.retryAfterHeader || reply.pending.None? { return Some(InvalidReply), ""; }
    if w.resolver.None? { return Some(StillPending(reply.pending.value)), ""; }
    var resolved := w.resolver.value(reply.pending.value);
    if resolved.None? { return Some(ResolverFailed), ""; }
    return None, resolved.value;
  }

  /** Whatever the keys, the replies and the resolver: at most eight calls, no two with one key. */
  method Sign(w: World, start: string) returns (r: Signing, calls: seq<SignCall>)
    ensures |calls| <= MAXIMUM_STAGES
    ensures DistinctKeys(calls)
    ensures Ran(w, start, calls, r) && Plainly(w, start, calls, r)
  {
    var usedKeys: set<string> := {};
    var context := start;
    calls := [];
    while true
      invariant |calls| == |usedKeys| <= MAXIMUM_STAGES
      invariant forall key :: key in usedKeys <==> KeyUsed(calls, key)
      invariant DistinctKeys(calls)
      invariant Stages(w, start, calls, context)
      decreases MAXIMUM_STAGES - |calls|
    {
      var key := w.keys(|calls|);
      RanPlainly(w, start, calls);
      if key.None? { return NoKey, calls; }
      if key.value in usedKeys { return RepeatedKey, calls; }
      var call := SignCall(key.value, context);
      CallAdded(calls, call, usedKeys);
      usedKeys := usedKeys + {key.value};
      if |usedKeys| > MAXIMUM_STAGES { return TooManyStages, calls; }
      var end, next := Digest(w, w.reply(|calls|, call));
      if end.Some? {
        EndedRun(w, start, calls, call, end.value);
        RanPlainly(w, start, calls + [call]);
        return end.value, calls + [call];
      }
      StageAdded(w, start, calls, call, next);
      calls, context := calls + [call], next;
    }
  }
}
