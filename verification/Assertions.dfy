/**
Single use of client assertions at a Service.

A call checks the claims against a window measured in whole seconds and then consumes the pair of
subject and identifier in a store that purges by exact instants. The two measures must agree well
enough that nothing is purged while the window still admits it.
*/
module Assertions {
  import opened Common

  const I64_MIN: int := -0x8000_0000_0000_0000
  const I64_MAX: int := 0x7fff_ffff_ffff_ffff

  /** The seconds an instant may have: years -9999 to 9999. */
  const MIN_UNIX: int := -377_705_116_800
  const MAX_UNIX: int := 253_402_300_799

  const MAX_LIFETIME: int := 300

  type Instant = x: int | MIN_UNIX * SECOND <= x < (MAX_UNIX + 1) * SECOND

  type I64 = x: int | I64_MIN <= x <= I64_MAX
  type Nanos = x: int | 0 <= x < SECOND

  datatype Operation = Enroll | Grant | Revoke | Status | Authenticate

  datatype IdentityMethod = DidWeb | OtherMethod(name: string)

  datatype Claims = Claims(
    aud: string, exp: I64, iat: I64, iss: string, jti: string, op: Operation,
    resource: Option<string>, sub: string)

  /** A configured skew: whole seconds of any size and a fraction of a second. */
  datatype Skew = Skew(seconds: nat, fraction: Nanos)

  datatype Config = Config(
    serviceDid: string, methods: seq<IdentityMethod>, skew: Skew, protectedResource: string -> bool)

  /** One call: what its verifier made of the presented text, what is expected, and its clock reading. */
  datatype Call = Call(verified: Option<Claims>, op: Operation, resource: Option<string>, now: Instant)

  /** Whole seconds since the epoch, rounded down. */
  function UnixSeconds(now: int): int {
    now / SECOND
  }

  function SaturatingAdd(a: int, b: int): int {
    if a + b > I64_MAX then I64_MAX else if a + b < I64_MIN then I64_MIN else a + b
  }

  function SaturatingSub(a: int, b: int): int {
    SaturatingAdd(a, -b)
  }

  predicate InsideWindow(claims: Claims, now: int, skew: Skew) {
    skew.seconds <= I64_MAX &&
    claims.iat <= SaturatingAdd(UnixSeconds(now), skew.seconds) &&
    claims.exp > SaturatingSub(UnixSeconds(now), skew.seconds)
  }

  predicate WellFormed(config: Config, c: Claims) {
    && c.iss != "" && c.sub != "" && c.iss == c.sub && c.aud != "" && c.jti != ""
    && (if c.op == Authenticate then c.resource.Some? && config.protectedResource(c.resource.value)
        else c.resource == None)
    && c.exp > c.iat && SaturatingSub(c.exp, c.iat) <= MAX_LIFETIME
  }

  predicate Supported(agentDid: string, methods: seq<IdentityMethod>) {
    exists i :: 0 <= i < |methods| &&
      (match methods[i]
       case DidWeb => "did:web:" <= agentDid
       case OtherMethod(name) => name + ":" <= agentDid)
  }

  predicate Admissible(config: Config, call: Call) {
    call.verified.Some? &&
    var c := call.verified.value;
    WellFormed(config, c) && c.aud == config.serviceDid && c.op == call.op && c.resource == call.resource
    && Supported(c.sub, config.methods) && InsideWindow(c, call.now, config.skew)
  }

  /** When the store may forget an assertion; none when the instant cannot be represented. */
  function Expiry(exp: int, skew: Skew): Option<int> {
    if !(MIN_UNIX <= exp <= MAX_UNIX) then None else
    var at := (exp + skew.seconds) * SECOND + skew.fraction;
    if at >= (MAX_UNIX + 1) * SECOND then None else Some(at)
  }

  type Key = (string, string)

  function KeyOf(c: Claims): Key {
    (c.sub, c.jti)
  }

  function Retain(records: map<Key, int>, now: int): map<Key, int> {
    map k | k in records && records[k] > now :: records[k]
  }

  /** The store's answer and its next contents. */
  function Consumed(records: map<Key, int>, key: Key, expires: int, now: int): (bool, map<Key, int>) {
    var live := Retain(records, now);
    if key in live then (false, live) else (true, live[key := expires])
  }

  /** One authentication: the claims it accepts, if any, and the store afterwards. */
  function Authenticated(config: Config, records: map<Key, int>, call: Call): (Option<Claims>, map<Key, int>) {
    if !Admissible(config, call) then (None, records) else
    var claims := call.verified.value;
    match Expiry(claims.exp, config.skew)
    case None => (None, records)
    case Some(expires) =>
      var (unseen, next) := Consumed(records, KeyOf(claims), expires, call.now);
      (if unseen then Some(claims) else None, next)
  }

  /** The store after a run of calls, in the order in which they reached it. */
  function After(config: Config, records: map<Key, int>, calls: seq<Call>): map<Key, int> {
    if calls == [] then records
    else Authenticated(config, After(config, records, calls[..|calls| - 1]), calls[|calls| - 1]).1
  }

  function Accepted(config: Config, records: map<Key, int>, calls: seq<Call>, i: nat): Option<Claims>
    requires i < |calls|
  {
    Authenticated(config, After(config, records, calls[..i]), calls[i]).0
  }

  /** Whenever the whole-second window admits an assertion, its exact expiry is still ahead. */
  lemma WindowBeforeExpiry(claims: Claims, now: int, skew: Skew)
    requires InsideWindow(claims, now, skew) && Expiry(claims.exp, skew).Some?
    ensures Expiry(claims.exp, skew).value > now
  {
    assert claims.exp >= UnixSeconds(now) - skew.seconds + 1;
    assert (claims.exp + skew.seconds) * SECOND >= (UnixSeconds(now) + 1) * SECOND;
  }

  /** The call reaches the store, and so purges it. */
  predicate Reaches(config: Config, call: Call) {
    Admissible(config, call) && Expiry(call.verified.value.exp, config.skew).Some?
  }

  /** The instant at which the store may forget an assertion. */
  function ExpiresAt(c: Claims, skew: Skew): int {
    (c.exp + skew.seconds) * SECOND + skew.fraction
  }

  /** The documented conditions on one assertion, field by field. */
  ghost predicate Acceptable(config: Config, c: Claims, op: Operation, resource: Option<string>, now: Instant) {
    // It is about one Agent, for this Service, and for what is being done.
    && c.iss == c.sub && c.sub != "" && c.jti != ""
    && c.aud == config.serviceDid && c.aud != "" && c.op == op && c.resource == resource
    && (op == Authenticate ==> resource.Some? && config.protectedResource(resource.value))
    && (op != Authenticate ==> resource == None)
    && (|| (DidWeb in config.methods && "did:web:" <= c.sub)
        || exists name :: OtherMethod(name) in config.methods && name + ":" <= c.sub)
    // It lives for at most five minutes, and now, within the skew in whole seconds.
    && 0 < c.exp - c.iat <= 300
    && config.skew.seconds <= I64_MAX
    && c.iat <= now / SECOND + config.skew.seconds && now / SECOND - config.skew.seconds < c.exp
    // Its expiry is an instant.
    && MIN_UNIX <= c.exp <= MAX_UNIX && ExpiresAt(c, config.skew) < (MAX_UNIX + 1) * SECOND
  }

  lemma SupportedIff(agentDid: string, methods: seq<IdentityMethod>)
    ensures Supported(agentDid, methods) <==>
            || (DidWeb in methods && "did:web:" <= agentDid)
            || exists name :: OtherMethod(name) in methods && name + ":" <= agentDid
  {
    if DidWeb in methods && "did:web:" <= agentDid {
      var i :| 0 <= i < |methods| && methods[i] == DidWeb;
    } else if exists name :: OtherMethod(name) in methods && name + ":" <= agentDid {
      var name :| OtherMethod(name) in methods && name + ":" <= agentDid;
      var i :| 0 <= i < |methods| && methods[i] == OtherMethod(name);
    }
  }

  lemma WindowIff(c: Claims, now: Instant, skew: Skew)
    requires c.exp > c.iat
    ensures InsideWindow(c, now, skew) <==>
            skew.seconds <= I64_MAX && c.iat <= now / SECOND + skew.seconds && now / SECOND - skew.seconds < c.exp
  {
  }

  lemma AdmissibleIff(config: Config, call: Call)
    ensures Reaches(config, call) <==>
            call.verified.Some? && Acceptable(config, call.verified.value, call.op, call.resource, call.now)
  {
    if call.verified.Some? {
      var c := call.verified.value;
      SupportedIff(c.sub, config.methods);
      if c.exp > c.iat { WindowIff(c, call.now, config.skew); }
    }
  }

  /** A call is accepted exactly under the documented conditions, and then recorded until its expiry. */
  lemma AcceptsExactly(config: Config, records: map<Key, int>, call: Call)
    ensures var (accepted, after) := Authenticated(config, records, call);
            && (accepted.Some? <==>
                  && call.verified.Some? && Acceptable(config, call.verified.value, call.op, call.resource, call.now)
                  && var key := (call.verified.value.sub, call.verified.value.jti);
                     !(key in records && records[key] > call.now))
            && (accepted.Some? ==>
                  && accepted == call.verified
                  && var c := call.verified.value;
                     after == Retain(records, call.now)[(c.sub, c.jti) := ExpiresAt(c, config.skew)])
  {
    AdmissibleIff(config, call);
  }

  /** A spent assertion: its record is in the store, or its expiry has passed. */
  ghost predicate Guarded(records: map<Key, int>, key: Key, expires: int, now: int) {
    expires <= now || (key in records && records[key] == expires)
  }

  lemma GuardSurvives(config: Config, records: map<Key, int>, call: Call, key: Key, expires: int, now: int)
    requires Guarded(records, key, expires, now) && now <= call.now
    ensures Guarded(Authenticated(config, records, call).1, key, expires, call.now)
  {
  }

  lemma GuardRefuses(config: Config, records: map<Key, int>, call: Call, claims: Claims, now: int)
    requires Expiry(claims.exp, config.skew).Some? && now <= call.now
    requires Guarded(records, KeyOf(claims), Expiry(claims.exp, config.skew).value, now)
    requires call.verified.Some? && KeyOf(call.verified.value) == KeyOf(claims) && call.verified.value.exp == claims.exp
    ensures Authenticated(config, records, call).0 == None
  {
    if Admissible(config, call) { WindowBeforeExpiry(call.verified.value, call.now, config.skew); }
  }

  ghost predicate Nondecreasing(calls: seq<Call>) {
    forall i, j :: 0 <= i <= j < |calls| ==> calls[i].now <= calls[j].now
  }

  lemma {:induction false} GuardedThroughout(config: Config, records: map<Key, int>, calls: seq<Call>, i: nat, j: nat)
    requires i < j <= |calls| && Nondecreasing(calls) && Accepted(config, records, calls, i).Some?
    ensures var c := Accepted(config, records, calls, i).value;
            && Expiry(c.exp, config.skew).Some?
            && Guarded(After(config, records, calls[..j]), KeyOf(c), Expiry(c.exp, config.skew).value, calls[j - 1].now)
    decreases j
  {
    assert calls[..j][..j - 1] == calls[..j - 1];
    if i < j - 1 {
      GuardedThroughout(config, records, calls, i, j - 1);
      var c := Accepted(config, records, calls, i).value;
      GuardSurvives(config, After(config, records, calls[..j - 1]), calls[j - 1], KeyOf(c),
                    Expiry(c.exp, config.skew).value, calls[j - 2].now);
    }
  }

  /**
  Over any run whose clock readings do not decrease in the order in which the calls reach the store,
  starting from any contents, an assertion is accepted at most once.
  */
  lemma SingleUse(config: Config, records: map<Key, int>, calls: seq<Call>, i: nat, j: nat)
    requires i < j < |calls| && Nondecreasing(calls)
    requires Accepted(config, records, calls, i).Some? && Accepted(config, records, calls, j).Some?
    ensures var a, b := Accepted(config, records, calls, i).value, Accepted(config, records, calls, j).value;
            KeyOf(a) != KeyOf(b) || a.exp != b.exp
  {
    var a, b := Accepted(config, records, calls, i).value, Accepted(config, records, calls, j).value;
    GuardedThroughout(config, records, calls, i, j);
    if KeyOf(a) == KeyOf(b) && a.exp == b.exp {
      GuardRefuses(config, After(config, records, calls[..j]), calls[j], a, calls[j - 1].now);
    }
  }

  // ----- Exactly when an assertion is accepted again

  /** The call presents this very assertion, and everything but the store admits it. */
  predicate Presents(config: Config, call: Call, claims: Claims) {
    Admissible(config, call) && KeyOf(call.verified.value) == KeyOf(claims) && call.verified.value.exp == claims.exp
  }

  /** Between the two positions some call reads, at the store, a clock at or past the expiry. */
  ghost predicate PurgedBetween(config: Config, calls: seq<Call>, i: nat, j: nat, expires: int) {
    exists k :: i < k < j && k < |calls| && Reaches(config, calls[k]) && expires <= calls[k].now
  }

  ghost predicate AcceptedBetween(config: Config, records: map<Key, int>, calls: seq<Call>, i: nat, j: nat, key: Key)
    requires j <= |calls|
  {
    exists k :: i < k < j && Accepted(config, records, calls, k).Some?
                && KeyOf(Accepted(config, records, calls, k).value) == key
  }

  /** One call drops the record of another key's assertion exactly when it reads a clock past its expiry. */
  lemma RecordDropped(config: Config, records: map<Key, int>, call: Call, key: Key, expires: int)
    requires key in records ==> records[key] == expires
    requires var accepted := Authenticated(config, records, call).0; accepted.Some? ==> KeyOf(accepted.value) != key
    ensures var next := Authenticated(config, records, call).1;
            && (key in next ==> next[key] == expires)
            && (key in next <==> key in records && !(Reaches(config, call) && expires <= call.now))
  {
  }

  /** After its acceptance a record is in the store until, and only until, such a call comes. */
  lemma {:induction false} RecordedUnlessPurged(config: Config, records: map<Key, int>, calls: seq<Call>,
                                                i: nat, j: nat)
    requires i < j <= |calls| && Accepted(config, records, calls, i).Some?
    requires !AcceptedBetween(config, records, calls, i, j, KeyOf(Accepted(config, records, calls, i).value))
    ensures var c := Accepted(config, records, calls, i).value;
            var store := After(config, records, calls[..j]);
            && Expiry(c.exp, config.skew).Some?
            && var expires := Expiry(c.exp, config.skew).value;
               && (KeyOf(c) in store ==> store[KeyOf(c)] == expires)
               && (KeyOf(c) in store <==> !PurgedBetween(config, calls, i, j, expires))
    decreases j
  {
    AfterOne(config, records, calls, j);
    var c := Accepted(config, records, calls, i).value;
    if i < j - 1 {
      RecordedUnlessPurged(config, records, calls, i, j - 1);
      NotAcceptedAt(config, records, calls, i, j - 1, j, KeyOf(c));
      var expires := Expiry(c.exp, config.skew).value;
      RecordDropped(config, After(config, records, calls[..j - 1]), calls[j - 1], KeyOf(c), expires);
      PurgedSoFar(config, calls, i, j, expires);
    }
  }

  lemma AfterOne(config: Config, records: map<Key, int>, calls: seq<Call>, j: nat)
    requires 0 < j <= |calls|
    ensures Authenticated(config, After(config, records, calls[..j - 1]), calls[j - 1])
         == (Accepted(config, records, calls, j - 1), After(config, records, calls[..j]))
  {
    assert calls[..j][..j - 1] == calls[..j - 1];
  }

  lemma NotAcceptedAt(config: Config, records: map<Key, int>, calls: seq<Call>, i: nat, k: nat, j: nat, key: Key)
    requires i < k < j <= |calls| && !AcceptedBetween(config, records, calls, i, j, key)
    ensures var accepted := Accepted(config, records, calls, k); accepted.Some? ==> KeyOf(accepted.value) != key
  {
  }

  lemma PurgedSoFar(config: Config, calls: seq<Call>, i: nat, j: nat, expires: int)
    requires i < j - 1 < |calls|
    ensures PurgedBetween(config, calls, i, j, expires) <==>
            PurgedBetween(config, calls, i, j - 1, expires)
            || (Reaches(config, calls[j - 1]) && expires <= calls[j - 1].now)
  {
  }

  /** The call presents the pair of subject and identifier, whatever its expiry, and reaches the store. */
  predicate PresentsKey(config: Config, call: Call, key: Key) {
    Reaches(config, call) && KeyOf(call.verified.value) == key
  }

  /**
  With any clock at all: the next presentation of a pair after its acceptance is accepted if and only if
  a call since then, this one included, read the clock at the store at or past the first one's expiry.
  */
  lemma KeyAcceptedAgainIff(config: Config, records: map<Key, int>, calls: seq<Call>, i: nat, j: nat)
    requires i < j < |calls| && Accepted(config, records, calls, i).Some?
    requires PresentsKey(config, calls[j], KeyOf(Accepted(config, records, calls, i).value))
    requires !AcceptedBetween(config, records, calls, i, j, KeyOf(Accepted(config, records, calls, i).value))
    ensures var c := Accepted(config, records, calls, i).value;
            && Expiry(c.exp, config.skew).Some?
            && (Accepted(config, records, calls, j).Some? <==>
                  PurgedBetween(config, calls, i, j + 1, Expiry(c.exp, config.skew).value))
  {
    var c := Accepted(config, records, calls, i).value;
    RecordedUnlessPurged(config, records, calls, i, j);
    if i + 1 < j + 1 { PurgedSoFar(config, calls, i, j + 1, Expiry(c.exp, config.skew).value); }
  }

  /** Of the very assertion: if and only if such a reading came strictly between the two. */
  lemma AcceptedAgainIff(config: Config, records: map<Key, int>, calls: seq<Call>, i: nat, j: nat)
    requires i < j < |calls| && Accepted(config, records, calls, i).Some?
    requires Presents(config, calls[j], Accepted(config, records, calls, i).value)
    requires !AcceptedBetween(config, records, calls, i, j, KeyOf(Accepted(config, records, calls, i).value))
    ensures var c := Accepted(config, records, calls, i).value;
            && Expiry(c.exp, config.skew).Some?
            && (Accepted(config, records, calls, j).Some? <==>
                  PurgedBetween(config, calls, i, j, Expiry(c.exp, config.skew).value))
  {
    RecordedUnlessPurged(config, records, calls, i, j);
    WindowBeforeExpiry(calls[j].verified.value, calls[j].now, config.skew);
  }

  /** With nondecreasing readings none does, so that single use is one case of this. */
  lemma NondecreasingNeverPurges(config: Config, calls: seq<Call>, i: nat, j: nat, claims: Claims)
    requires Nondecreasing(calls) && j < |calls| && Presents(config, calls[j], claims)
    requires Expiry(claims.exp, config.skew).Some?
    ensures !PurgedBetween(config, calls, i, j + 1, Expiry(claims.exp, config.skew).value)
  {
    WindowBeforeExpiry(calls[j].verified.value, calls[j].now, config.skew);
  }

  /** Some later call is accepted with this subject and identifier. */
  ghost predicate AcceptedLater(config: Config, records: map<Key, int>, calls: seq<Call>, i: nat, key: Key) {
    exists j :: i < j < |calls| && Accepted(config, records, calls, j).Some?
                && KeyOf(Accepted(config, records, calls, j).value) == key
  }

  /** What a caller can check of a run: no reading at or past the expiry comes by a presentation of the pair. */
  ghost predicate NoPurgeByPresentation(config: Config, calls: seq<Call>, i: nat, key: Key, expires: int) {
    forall j :: i < j < |calls| && PresentsKey(config, calls[j], key) ==>
      !PurgedBetween(config, calls, i, j + 1, expires)
  }

  /** The first of the later acceptances under a key. */
  lemma {:induction false} FirstAccepted(config: Config, records: map<Key, int>, calls: seq<Call>, i: nat, j: nat,
                                         key: Key)
    returns (k: nat)
    requires i < j < |calls| && Accepted(config, records, calls, j).Some?
    requires KeyOf(Accepted(config, records, calls, j).value) == key
    ensures i < k <= j && Accepted(config, records, calls, k).Some?
    ensures KeyOf(Accepted(config, records, calls, k).value) == key
    ensures !AcceptedBetween(config, records, calls, i, k, key)
  {
    k := j;
    if AcceptedBetween(config, records, calls, i, j, key) {
      var m :| i < m < j && Accepted(config, records, calls, m).Some?
               && KeyOf(Accepted(config, records, calls, m).value) == key;
      k := FirstAccepted(config, records, calls, i, m, key);
    }
  }

  lemma AcceptedPresents(config: Config, records: map<Key, int>, calls: seq<Call>, j: nat)
    requires j < |calls| && Accepted(config, records, calls, j).Some?
    ensures PresentsKey(config, calls[j], KeyOf(Accepted(config, records, calls, j).value))
  {
  }

  /**
  Over any run, with clock readings in any order: after an acceptance its subject and identifier are never
  accepted again if and only if no call reads the clock, at the store, at or past the expiry by the time
  the pair is presented.
  */
  lemma SingleUseIff(config: Config, records: map<Key, int>, calls: seq<Call>, i: nat)
    requires i < |calls| && Accepted(config, records, calls, i).Some?
    ensures var c := Accepted(config, records, calls, i).value;
            && Expiry(c.exp, config.skew).Some?
            && (!AcceptedLater(config, records, calls, i, KeyOf(c)) <==>
                  NoPurgeByPresentation(config, calls, i, KeyOf(c), Expiry(c.exp, config.skew).value))
  {
    var c := Accepted(config, records, calls, i).value;
    var expires := Expiry(c.exp, config.skew).value;
    if AcceptedLater(config, records, calls, i, KeyOf(c)) {
      var j :| i < j < |calls| && Accepted(config, records, calls, j).Some?
               && KeyOf(Accepted(config, records, calls, j).value) == KeyOf(c);
      var k := FirstAccepted(config, records, calls, i, j, KeyOf(c));
      AcceptedPresents(config, records, calls, k);
      KeyAcceptedAgainIff(config, records, calls, i, k);
    } else {
      forall j | i < j < |calls| && PresentsKey(config, calls[j], KeyOf(c))
        ensures !PurgedBetween(config, calls, i, j + 1, expires)
      {
        KeyAcceptedAgainIff(config, records, calls, i, j);
      }
    }
  }

  /**
  Without that order the store can forget too early: a later reading purges the record, and an
  earlier one then finds the window open again.
  */
  lemma StaleClockAcceptsTwice(config: Config, first: Claims, other: Claims)
    requires config.skew == Skew(0, 0)
    requires first.exp == 100 && other.exp == 300 && first.iat == 50 && other.iat == 50
    requires KeyOf(first) != KeyOf(other)
    requires Admissible(config, Call(Some(first), first.op, first.resource, 60 * SECOND))
    requires Admissible(config, Call(Some(other), other.op, other.resource, 200 * SECOND))
    ensures var early := Call(Some(first), first.op, first.resource, 60 * SECOND);
            var late := Call(Some(other), other.op, other.resource, 200 * SECOND);
            var calls := [early, late, early];
            && Accepted(config, map[], calls, 0) == Some(first)
            && Accepted(config, map[], calls, 2) == Some(first)
  {
    var early := Call(Some(first), first.op, first.resource, 60 * SECOND);
    var late := Call(Some(other), other.op, other.resource, 200 * SECOND);
    var calls := [early, late, early];
    assert calls[..0] == [] && calls[..1] == [early] && calls[..2] == [early, late];
    assert [early, late][..1] == [early] && [early][..0] == [];
    assert After(config, map[], [early]) == map[KeyOf(first) := 100 * SECOND];
    assert After(config, map[], [early, late]) == map[KeyOf(other) := 300 * SECOND];
  }

  // ----- The store as an object

  class MemoryReplayStore {
    var records: map<Key, int>

    constructor ()
      ensures records == map[]
    {
      records := map[];
    }

    method Consume(sub: string, jti: string, expires: int, now: int) returns (unseen: bool)
      modifies this
      ensures unseen <==> !((sub, jti) in old(records) && old(records)[(sub, jti)] > now)
      ensures unseen ==> (sub, jti) in records && records[(sub, jti)] == expires
      ensures (unseen, records) == Consumed(old(records), (sub, jti), expires, now)
    {
      records := map k | k in records && records[k] > now :: records[k];
      if (sub, jti) in records { return false; }
      records := records[(sub, jti) := expires];
      unseen := true;
    }

    method AuthenticateAssertion(config: Config, call: Call) returns (accepted: Option<Claims>)
      modifies this
      ensures (accepted, records) == Authenticated(config, old(records), call)
      ensures accepted.Some? <==>
        && call.verified.Some? && Acceptable(config, call.verified.value, call.op, call.resource, call.now)
        && var key := (call.verified.value.sub, call.verified.value.jti);
           !(key in old(records) && old(records)[key] > call.now)
      ensures accepted.Some? ==>
        && accepted == call.verified
        && var c := call.verified.value;
           records == Retain(old(records), call.now)[(c.sub, c.jti) := ExpiresAt(c, config.skew)]
    {
      AcceptsExactly(config, records, call);
      if !Admissible(config, call) { return None; }
      var claims := call.verified.value;
      var expires := Expiry(claims.exp, config.skew);
      if expires == None { return None; }
      var unseen := Consume(claims.sub, claims.jti, expires.value, call.now);
      accepted := if unseen then Some(claims) else None;
    }
  }
}
