/**
Enrollment at a Service: the first record, updates that merge claims and acknowledge documents, and
what a record must show before a grant handler runs. The policy's decision is an input.
*/
module Enrollment {
  import opened Common

  datatype Status = Active | Pending | Rejected | Suspended | Terminated | Unavailable

  datatype ServiceDocument = ServiceDocument(id: string, required: bool)

  datatype Config = Config(requiredClaims: seq<string>, documents: seq<ServiceDocument>, documentsExtension: bool)

  datatype Value = Value(json: string)

  type Claims = map<string, Value>

  datatype Record = Record(
    acknowledged: seq<string>,
    required: seq<string>,
    agentDid: string,
    claims: Claims,
    createdAt: int,
    ownerActionRequired: bool,
    requirementsPending: seq<string>,
    since: int,
    status: Status,
    updatedAt: int,
    verificationPending: seq<string>
  )

  datatype DecisionStatus = Accept | Defer | Reject

  datatype Decision = Decision(
    ownerActionRequired: Option<bool>,
    requirementsPending: Option<seq<string>>,
    status: DecisionStatus,
    verificationPending: Option<seq<string>>,
    updateExisting: bool
  )

  datatype Request = Request(agentDid: string, claims: Option<Claims>, acknowledged: Option<seq<string>>)

  datatype Response =
    | Enrolled(status: Status, acknowledged: Option<seq<string>>)
    | Requirements(claims: seq<string>, documents: seq<string>)
    | EnrollmentFailed
    | ServiceFailure

  type Store = map<string, Record>

  function Without(names: seq<string>, taken: seq<string>): seq<string> {
    if names == [] then []
    else (if names[0] in taken then [] else [names[0]]) + Without(names[1..], taken)
  }

  function MissingClaims(required: seq<string>, claims: Claims): seq<string> {
    if required == [] then []
    else (if required[0] in claims then [] else [required[0]]) + MissingClaims(required[1..], claims)
  }

  predicate Outstanding(document: ServiceDocument, record: Option<Record>) {
    document.required &&
    (record == None || document.id !in record.value.acknowledged || document.id in record.value.required)
  }

  /** The required documents that no record has settled, in the order the Service lists them. */
  function MissingDocuments(documents: seq<ServiceDocument>, record: Option<Record>): seq<string> {
    if documents == [] then []
    else
      (if Outstanding(documents[0], record) then [documents[0].id] else []) + MissingDocuments(documents[1..], record)
  }

  predicate Known(documents: seq<ServiceDocument>, id: string) {
    exists i :: 0 <= i < |documents| && documents[i].id == id
  }

  /** The declared documents the Service lists, after those already acknowledged. */
  function Accepted(documents: seq<ServiceDocument>, existing: seq<string>, declared: seq<string>): seq<string> {
    if declared == [] then existing else
    var ids := Accepted(documents, existing, declared[..|declared| - 1]);
    var id := declared[|declared| - 1];
    if id !in ids && Known(documents, id) then ids + [id] else ids
  }

  function DeclaredOf(request: Request): seq<string> {
    if request.acknowledged.Some? then request.acknowledged.value else []
  }

  /** Without the extension, what a request says about documents is ignored. */
  function Effective(config: Config, request: Request): Request {
    if config.documentsExtension then request else request.(acknowledged := None)
  }

  function EnrollResponse(record: Record, declared: Option<seq<string>>): Response {
    Enrolled(record.status, if record.status == Rejected then None else declared)
  }

  function StatusOf(decision: DecisionStatus): Status {
    match decision case Accept => Active case Defer => Pending case Reject => Rejected
  }

  function Or<T>(value: Option<T>, otherwise: T): T {
    if value.Some? then value.value else otherwise
  }

  /** The record an accepted update saves. Claims are merged, the request's over the record's. */
  function UpdatedRecord(config: Config, existing: Record, request: Request, decision: Decision, now: int): Record {
    existing.(
      claims := existing.claims + Or(request.claims, map[]),
      acknowledged := Accepted(config.documents, existing.acknowledged, DeclaredOf(request)),
      required := Without(existing.required, DeclaredOf(request)),
      ownerActionRequired := Or(decision.ownerActionRequired, existing.ownerActionRequired),
      requirementsPending := Or(decision.requirementsPending, existing.requirementsPending),
      verificationPending := Or(decision.verificationPending, existing.verificationPending),
      updatedAt := now)
  }

  /** What an update leaves unmet: claims after the merge, and documents unless it declares some. */
  function Unmet(config: Config, existing: Record, request: Request): (seq<string>, seq<string>) {
    (MissingClaims(config.requiredClaims, existing.claims + Or(request.claims, map[])),
     if request.acknowledged == None then MissingDocuments(config.documents, Some(existing)) else [])
  }

  predicate Saves(config: Config, existing: Record, request: Request, decision: Decision) {
    decision.status != Reject && decision.updateExisting && Unmet(config, existing, request) == ([], [])
  }

  function Update(config: Config, store: Store, existing: Record, request: Request, decision: Result<Decision>,
                  now: int)
    : (Response, Store)
  {
    if decision == Err then (ServiceFailure, store)
    else if decision.value.status == Reject then (EnrollmentFailed, store)
    else if !decision.value.updateExisting then (EnrollResponse(existing, request.acknowledged), store)
    else if !Saves(config, existing, request, decision.value) then
      (Requirements(Unmet(config, existing, request).0, Unmet(config, existing, request).1), store)
    else if existing.agentDid == "" then (ServiceFailure, store)
    else
      var record := UpdatedRecord(config, existing, request, decision.value, now);
      (EnrollResponse(record, request.acknowledged), store[record.agentDid := record])
  }

  function NewRecord(config: Config, request: Request, decision: Decision, now: int): Record {
    Record(if decision.status == Reject then [] else Accepted(config.documents, [], DeclaredOf(request)), [],
           request.agentDid, Or(request.claims, map[]), now, Or(decision.ownerActionRequired, false),
           Or(decision.requirementsPending, []), now, StatusOf(decision.status), now,
           Or(decision.verificationPending, []))
  }

  /** One enrollment command, after authentication and parsing. */
  function Enroll(config: Config, store: Store, raw: Request, decision: Result<Decision>, now: int): (Response, Store) {
    var request := Effective(config, raw);
    if request.agentDid in store then Update(config, store, store[request.agentDid], request, decision, now) else
    var claims := MissingClaims(config.requiredClaims, Or(request.claims, map[]));
    var documents := if request.acknowledged == None then MissingDocuments(config.documents, None) else [];
    if claims != [] || documents != [] then (Requirements(claims, documents), store)
    else if decision == Err || request.agentDid == "" then (ServiceFailure, store)
    else
      var record := NewRecord(config, request, decision.value, now);
      (EnrollResponse(record, request.acknowledged), store[record.agentDid := record])
  }

  // ----- Documents

  lemma {:induction false} AcceptedExactly(documents: seq<ServiceDocument>, existing: seq<string>,
                                           declared: seq<string>, id: string)
    ensures existing <= Accepted(documents, existing, declared)
    ensures id in Accepted(documents, existing, declared) <==>
            id in existing || (id in declared && Known(documents, id))
  {
    if declared != [] {
      AcceptedExactly(documents, existing, declared[..|declared| - 1], id);
      assert id in declared <==> id in declared[..|declared| - 1] || id == declared[|declared| - 1];
    }
  }

  lemma {:induction false} WithoutExactly(names: seq<string>, taken: seq<string>, name: string)
    ensures name in Without(names, taken) <==> name in names && name !in taken
  {
    if names != [] {
      WithoutExactly(names[1..], taken, name);
      assert name in names <==> name == names[0] || name in names[1..];
    }
  }

  /** A change of record that settles exactly the documents in `taken`. */
  ghost predicate Settles(documents: seq<ServiceDocument>, before: Option<Record>, after: Record, taken: seq<string>) {
    forall d :: d in documents ==> (Outstanding(d, Some(after)) <==> Outstanding(d, before) && d.id !in taken)
  }

  lemma {:induction false} SettledDocuments(documents: seq<ServiceDocument>, before: Option<Record>, after: Record,
                                            taken: seq<string>)
    requires Settles(documents, before, after, taken)
    ensures MissingDocuments(documents, Some(after)) == Without(MissingDocuments(documents, before), taken)
  {
    if documents != [] {
      SettledDocuments(documents[1..], before, after, taken);
      assert documents[0] in documents;
      var rest := MissingDocuments(documents[1..], before);
      if Outstanding(documents[0], before) {
        assert ([documents[0].id] + rest)[1..] == rest;
      } else {
        assert [] + rest == rest;
      }
    }
  }

  /** After a saved update that acknowledges A, the outstanding documents are the previous ones minus A. */
  lemma UpdateSettlesDeclared(config: Config, existing: Record, request: Request, decision: Decision, now: int)
    ensures MissingDocuments(config.documents, Some(UpdatedRecord(config, existing, request, decision, now)))
         == Without(MissingDocuments(config.documents, Some(existing)), DeclaredOf(request))
  {
    var after := UpdatedRecord(config, existing, request, decision, now);
    var taken := DeclaredOf(request);
    forall d | d in config.documents
      ensures Outstanding(d, Some(after)) <==> Outstanding(d, Some(existing)) && d.id !in taken
    {
      AcceptedExactly(config.documents, existing.acknowledged, taken, d.id);
      WithoutExactly(existing.required, taken, d.id);
    }
    SettledDocuments(config.documents, Some(existing), after, taken);
  }

  /** A new record owes exactly the required documents it did not declare. */
  lemma NewRecordOwesUndeclared(config: Config, request: Request, decision: Decision, now: int)
    requires decision.status != Reject
    ensures MissingDocuments(config.documents, Some(NewRecord(config, request, decision, now)))
         == Without(MissingDocuments(config.documents, None), DeclaredOf(request))
  {
    var after := NewRecord(config, request, decision, now);
    forall d | d in config.documents
      ensures Outstanding(d, Some(after)) <==> Outstanding(d, None) && d.id !in DeclaredOf(request)
    {
      AcceptedExactly(config.documents, [], DeclaredOf(request), d.id);
    }
    SettledDocuments(config.documents, None, after, DeclaredOf(request));
  }

  // ----- Runs

  datatype Command = Command(request: Request, decision: Result<Decision>, now: int)

  function Run(config: Config, store: Store, commands: seq<Command>): Store
    decreases |commands|
  {
    if commands == [] then store else
    var c := commands[0];
    Run(config, Enroll(config, store, c.request, c.decision, c.now).1, commands[1..])
  }

  /** What may become of a record: its identity and status stay, its claims and acknowledgements grow. */
  ghost predicate Evolves(a: Record, b: Record) {
    && b.agentDid == a.agentDid && b.createdAt == a.createdAt && b.since == a.since && b.status == a.status
    && a.claims.Keys <= b.claims.Keys && a.acknowledged <= b.acknowledged
    && (forall id :: id in b.required ==> id in a.required)
  }

  /** Records are stored under the Agent DID they carry. */
  ghost predicate Keyed(store: Store) {
    forall did :: did in store ==> store[did].agentDid == did
  }

  lemma UpdateEvolves(config: Config, existing: Record, request: Request, decision: Decision, now: int)
    ensures Evolves(existing, UpdatedRecord(config, existing, request, decision, now))
    ensures var claims := UpdatedRecord(config, existing, request, decision, now).claims;
            forall name :: name in claims ==>
              claims[name] == if request.claims.Some? && name in request.claims.value then request.claims.value[name]
                              else existing.claims[name]
  {
    AcceptedExactly(config.documents, existing.acknowledged, DeclaredOf(request), "");
    forall id | id in Without(existing.required, DeclaredOf(request)) ensures id in existing.required {
      WithoutExactly(existing.required, DeclaredOf(request), id);
    }
  }

  lemma EnrollEvolves(config: Config, store: Store, request: Request, decision: Result<Decision>, now: int)
    requires Keyed(store)
    ensures var store' := Enroll(config, store, request, decision, now).1;
            && Keyed(store')
            && forall did :: did in store ==> did in store' && Evolves(store[did], store'[did])
  {
    if request.agentDid in store && decision.Ok? {
      UpdateEvolves(config, store[request.agentDid], Effective(config, request), decision.value, now);
    }
  }

  /** A document no longer owed stays settled while the record evolves. */
  lemma {:induction false} EvolvedOwesLess(documents: seq<ServiceDocument>, a: Record, b: Record, id: string)
    requires Evolves(a, b) && id in MissingDocuments(documents, Some(b))
    ensures id in MissingDocuments(documents, Some(a))
  {
    if documents[0].id != id || !Outstanding(documents[0], Some(b)) {
      EvolvedOwesLess(documents[1..], a, b, id);
    }
  }

  /** A record owes no more than no record does. */
  lemma {:induction false} RecordOwesLess(documents: seq<ServiceDocument>, record: Record, id: string)
    requires id in MissingDocuments(documents, Some(record))
    ensures id in MissingDocuments(documents, None)
  {
    if documents[0].id != id || !Outstanding(documents[0], Some(record)) {
      RecordOwesLess(documents[1..], record, id);
    }
  }

  /** What an Agent still owes, in the order the Service lists it. */
  function Owed(config: Config, store: Store, did: string): seq<string> {
    MissingDocuments(config.documents, if did in store then Some(store[did]) else None)
  }

  /** Over any serial run, with any policy, no document an Agent does not owe comes to be owed. */
  lemma RunOwesLess(config: Config, store: Store, commands: seq<Command>, did: string)
    requires Keyed(store)
    ensures forall id :: id in Owed(config, Run(config, store, commands), did) ==> id in Owed(config, store, did)
  {
    var later := Run(config, store, commands);
    if did in store { RunEvolves(config, store, commands, did); }
    forall id | id in Owed(config, later, did) ensures id in Owed(config, store, did) {
      if did in store {
        EvolvedOwesLess(config.documents, store[did], later[did], id);
      } else if did in later {
        RecordOwesLess(config.documents, later[did], id);
      }
    }
  }

  /**
  Over any serial run, with any policy, no update changes a record's Agent DID, creation time, status
  or the time it took that status; no claim name disappears; acknowledgements only grow.
  */
  lemma {:induction false} RunEvolves(config: Config, store: Store, commands: seq<Command>, did: string)
    requires Keyed(store) && did in store
    ensures did in Run(config, store, commands) && Evolves(store[did], Run(config, store, commands)[did])
    decreases |commands|
  {
    if commands != [] {
      var c := commands[0];
      EnrollEvolves(config, store, c.request, c.decision, c.now);
      var next := Enroll(config, store, c.request, c.decision, c.now).1;
      RunEvolves(config, next, commands[1..], did);
    }
  }

  // ----- Grants

  datatype GrantReply =
    | NotRecognized
    | Blocked(status: Status)
    | UnsupportedGrantType
    | GrantRequirements(claims: seq<string>, documents: seq<string>)
    | HandlerRuns

  /** A fresh grant, after authentication and parsing. */
  function Grant(config: Config, store: Store, agentDid: string, handlers: set<string>, grantType: string): GrantReply {
    if agentDid !in store then NotRecognized else
    var record := store[agentDid];
    if record.status == Rejected then NotRecognized
    else if record.status != Active then Blocked(record.status)
    else if grantType !in handlers then UnsupportedGrantType
    else
      var claims := MissingClaims(config.requiredClaims, record.claims);
      var documents := MissingDocuments(config.documents, Some(record));
      if claims != [] || documents != [] then GrantRequirements(claims, documents) else HandlerRuns
  }

  lemma {:induction false} NoMissingClaims(required: seq<string>, claims: Claims)
    ensures MissingClaims(required, claims) == [] <==> forall c :: c in required ==> c in claims
  {
    if required != [] {
      NoMissingClaims(required[1..], claims);
      assert required == [required[0]] + required[1..];
    }
  }

  lemma {:induction false} NoMissingDocuments(documents: seq<ServiceDocument>, record: Record)
    ensures MissingDocuments(documents, Some(record)) == [] <==>
            forall d :: d in documents && d.required ==> d.id in record.acknowledged && d.id !in record.required
  {
    if documents != [] {
      NoMissingDocuments(documents[1..], record);
      assert documents == [documents[0]] + documents[1..];
    }
  }

  /** A grant handler runs exactly for an Active record with every claim and every document settled. */
  lemma HandlerRunsIff(config: Config, store: Store, agentDid: string, handlers: set<string>, grantType: string)
    ensures Grant(config, store, agentDid, handlers, grantType) == HandlerRuns <==>
      && agentDid in store && store[agentDid].status == Active && grantType in handlers
      && (forall c :: c in config.requiredClaims ==> c in store[agentDid].claims)
      && (forall d :: d in config.documents && d.required ==>
            d.id in store[agentDid].acknowledged && d.id !in store[agentDid].required)
  {
    if agentDid in store {
      NoMissingClaims(config.requiredClaims, store[agentDid].claims);
      NoMissingDocuments(config.documents, store[agentDid]);
    }
  }

  /** Once claims are complete, acknowledging what a refused grant lists is enough for the next one. */
  lemma AcknowledgingListedDocumentsSuffices(config: Config, store: Store, did: string, handlers: set<string>,
                                             grantType: string, listed: seq<string>, decision: Decision, now: int)
    requires Keyed(store) && did in store && did != "" && config.documentsExtension
    requires Grant(config, store, did, handlers, grantType) == GrantRequirements([], listed)
    requires decision.status != Reject && decision.updateExisting
    ensures var after := Enroll(config, store, Request(did, None, Some(listed)), Ok(decision), now).1;
            Grant(config, after, did, handlers, grantType) == HandlerRuns
  {
    var request := Request(did, None, Some(listed));
    AcknowledgementSaved(config, store, request, decision, now);
    UpdateSettlesDeclared(config, store[did], request, decision, now);
    WithoutSelf(listed, listed);
  }

  lemma AcknowledgementSaved(config: Config, store: Store, request: Request, decision: Decision, now: int)
    requires Keyed(store) && request.agentDid in store && request.agentDid != "" && config.documentsExtension
    requires request.claims == None && request.acknowledged.Some?
    requires MissingClaims(config.requiredClaims, store[request.agentDid].claims) == []
    requires decision.status != Reject && decision.updateExisting
    ensures var existing := store[request.agentDid];
            var record := UpdatedRecord(config, existing, request, decision, now);
            && record.claims == existing.claims
            && Enroll(config, store, request, Ok(decision), now).1 == store[request.agentDid := record]
  {
    assert store[request.agentDid].claims + map[] == store[request.agentDid].claims;
  }

  lemma {:induction false} WithoutSelf(names: seq<string>, taken: seq<string>)
    requires forall n :: n in names ==> n in taken
    ensures Without(names, taken) == []
  {
    if names != [] {
      assert names[0] in names;
      WithoutSelf(names[1..], taken);
    }
  }

  // ----- What a command does

  /** What a request says about documents: nothing, without the extension. */
  function Declared(config: Config, request: Request): Option<seq<string>> {
    if config.documentsExtension then request.acknowledged else None
  }

  lemma {:induction false} NothingMissing(documents: seq<ServiceDocument>)
    ensures MissingDocuments(documents, None) == [] <==> forall d :: d in documents ==> !d.required
  {
    if documents != [] {
      NothingMissing(documents[1..]);
      assert documents == [documents[0]] + documents[1..];
    }
  }

  /** The status a policy's decision gives a new record. */
  predicate Decided(status: Status, decision: DecisionStatus) {
    && (decision == Accept ==> status == Active) && (decision == Defer ==> status == Pending)
    && (decision == Reject ==> status == Rejected)
  }

  /** A first record may be made: the Agent has a name, the policy decided, and nothing required is missing. */
  predicate MayEnroll(config: Config, request: Request, decision: Result<Decision>) {
    && request.agentDid != "" && decision.Ok?
    && (forall c :: c in config.requiredClaims ==> request.claims.Some? && c in request.claims.value)
    && (Declared(config, request).Some? || forall d :: d in config.documents ==> !d.required)
  }

  /** A first record, field by field. */
  ghost predicate FirstRecord(config: Config, request: Request, decision: Decision, now: int, record: Record) {
    && record.agentDid == request.agentDid && Decided(record.status, decision.status)
    && record.createdAt == now && record.since == now && record.updatedAt == now
    && record.claims == (if request.claims.Some? then request.claims.value else map[]) && record.required == []
    && (forall id :: id in record.acknowledged <==>
          && decision.status != Reject && Declared(config, request).Some? && id in Declared(config, request).value
          && exists d :: d in config.documents && d.id == id)
  }

  /**
  The first enrollment of an Agent makes its record, with the status the policy decides, if and only if it
  may; then the response reports that status and repeats the acknowledgement, unless it rejects.
  */
  lemma FirstEnrollmentIff(config: Config, store: Store, request: Request, decision: Result<Decision>, now: int)
    requires request.agentDid !in store
    ensures var (response, after) := Enroll(config, store, request, decision, now);
            if MayEnroll(config, request, decision) then
              && request.agentDid in after && after == store[request.agentDid := after[request.agentDid]]
              && FirstRecord(config, request, decision.value, now, after[request.agentDid])
              && response == Enrolled(after[request.agentDid].status,
                                      if decision.value.status == Reject then None else Declared(config, request))
            else after == store && !response.Enrolled?
  {
    NoMissingClaims(config.requiredClaims, Or(request.claims, map[]));
    NothingMissing(config.documents);
    if MayEnroll(config, request, decision) {
      var effective := Effective(config, request);
      FirstAcknowledged(config, effective, decision.value, now);
    }
  }

  lemma KnownIff(documents: seq<ServiceDocument>, id: string)
    ensures Known(documents, id) <==> exists d :: d in documents && d.id == id
  {
    if exists d :: d in documents && d.id == id {
      var d :| d in documents && d.id == id;
      var i :| 0 <= i < |documents| && documents[i] == d;
    }
  }

  lemma FirstAcknowledged(config: Config, request: Request, decision: Decision, now: int)
    ensures forall id :: id in NewRecord(config, request, decision, now).acknowledged <==>
              && decision.status != Reject && request.acknowledged.Some? && id in request.acknowledged.value
              && exists d :: d in config.documents && d.id == id
  {
    forall id
      ensures id in Accepted(config.documents, [], DeclaredOf(request)) <==>
              request.acknowledged.Some? && id in request.acknowledged.value
              && exists d :: d in config.documents && d.id == id
    {
      AcceptedExactly(config.documents, [], DeclaredOf(request), id);
      KnownIff(config.documents, id);
    }
  }

  /** The claims of a record with those of a request over them. */
  ghost predicate Merged(claims: Claims, prior: Claims, request: Request) {
    forall name ::
      if request.claims.Some? && name in request.claims.value
      then name in claims && claims[name] == request.claims.value[name]
      else (name in claims <==> name in prior) && (name in prior ==> claims[name] == prior[name])
  }

  /** An update may be saved: the policy agrees, and what it leaves misses nothing required. */
  ghost predicate MayUpdate(config: Config, existing: Record, request: Request, decision: Result<Decision>) {
    && decision.Ok? && decision.value.status != Reject && decision.value.updateExisting
    && (forall c :: c in config.requiredClaims ==>
          c in existing.claims || (request.claims.Some? && c in request.claims.value))
    && (Declared(config, request).Some?
        || forall d :: d in config.documents && d.required ==>
             d.id in existing.acknowledged && d.id !in existing.required)
  }

  /** A saved update, field by field. */
  ghost predicate UpdatedFrom(config: Config, existing: Record, request: Request, decision: Decision, now: int,
                              record: Record)
  {
    var declared := if Declared(config, request).Some? then Declared(config, request).value else [];
    && record.agentDid == existing.agentDid && record.status == existing.status && record.since == existing.since
    && record.createdAt == existing.createdAt && record.updatedAt == now
    && Merged(record.claims, existing.claims, request)
    && (forall id :: id in record.acknowledged <==>
          id in existing.acknowledged || (id in declared && exists d :: d in config.documents && d.id == id))
    && (forall id :: id in record.required <==> id in existing.required && id !in declared)
    && (decision.ownerActionRequired.Some? ==> record.ownerActionRequired == decision.ownerActionRequired.value)
    && (decision.ownerActionRequired.None? ==> record.ownerActionRequired == existing.ownerActionRequired)
    && (decision.requirementsPending.Some? ==> record.requirementsPending == decision.requirementsPending.value)
    && (decision.requirementsPending.None? ==> record.requirementsPending == existing.requirementsPending)
    && (decision.verificationPending.Some? ==> record.verificationPending == decision.verificationPending.value)
    && (decision.verificationPending.None? ==> record.verificationPending == existing.verificationPending)
  }

  lemma UpdatedFields(config: Config, existing: Record, request: Request, decision: Decision, now: int)
    ensures var record := UpdatedRecord(config, existing, Effective(config, request), decision, now);
            UpdatedFrom(config, existing, request, decision, now, record)
  {
    var declared := DeclaredOf(Effective(config, request));
    forall id
      ensures id in Accepted(config.documents, existing.acknowledged, declared) <==>
              id in existing.acknowledged || (id in declared && exists d :: d in config.documents && d.id == id)
      ensures id in Without(existing.required, declared) <==> id in existing.required && id !in declared
    {
      AcceptedExactly(config.documents, existing.acknowledged, declared, id);
      KnownIff(config.documents, id);
      WithoutExactly(existing.required, declared, id);
    }
  }

  /**
  A later enrollment changes the Agent's record, to the updated one, if and only if it may; and a response
  that is not saved changes nothing.
  */
  lemma UpdateIff(config: Config, store: Store, request: Request, decision: Result<Decision>, now: int)
    requires Keyed(store) && request.agentDid in store && request.agentDid != ""
    ensures var existing := store[request.agentDid];
            var (response, after) := Enroll(config, store, request, decision, now);
            if MayUpdate(config, existing, request, decision) then
              && request.agentDid in after && after == store[request.agentDid := after[request.agentDid]]
              && UpdatedFrom(config, existing, request, decision.value, now, after[request.agentDid])
              && response.Enrolled? && response.status == existing.status
            else after == store
  {
    var existing, effective := store[request.agentDid], Effective(config, request);
    NoMissingClaims(config.requiredClaims, existing.claims + Or(request.claims, map[]));
    NoMissingDocuments(config.documents, existing);
    if decision.Ok? {
      UpdatedFields(config, existing, request, decision.value, now);
      SavesIff(config, existing, request, decision.value);
    }
  }

  lemma SavesIff(config: Config, existing: Record, request: Request, decision: Decision)
    ensures Saves(config, existing, Effective(config, request), decision) <==>
            MayUpdate(config, existing, request, Ok(decision))
  {
    NoMissingClaims(config.requiredClaims, existing.claims + Or(request.claims, map[]));
    NoMissingDocuments(config.documents, existing);
  }

  /**
  What the policy decides about a new Agent is what its grants meet: accepted, the handler runs once every
  required document was acknowledged; deferred, it is blocked as pending; rejected, it is not recognized.
  */
  lemma DecisionDecidesGrant(config: Config, store: Store, request: Request, decision: Decision, now: int,
                             handlers: set<string>, grantType: string)
    requires request.agentDid !in store && MayEnroll(config, request, Ok(decision))
    ensures var after := Enroll(config, store, request, Ok(decision), now).1;
            var reply := Grant(config, after, request.agentDid, handlers, grantType);
            && (decision.status == Reject ==> reply == NotRecognized)
            && (decision.status == Defer ==> reply == Blocked(Pending))
            && (decision.status == Accept && grantType !in handlers ==> reply == UnsupportedGrantType)
            && (decision.status == Accept && grantType in handlers ==>
                  (reply == HandlerRuns <==>
                     forall d :: d in config.documents && d.required ==>
                       Declared(config, request).Some? && d.id in Declared(config, request).value))
  {
    FirstEnrollmentIff(config, store, request, Ok(decision), now);
    HandlerRunsIff(config, Enroll(config, store, request, Ok(decision), now).1, request.agentDid, handlers, grantType);
  }

  // ----- The Agent's half

  /** An Agent acknowledges documents only to a Service that advertises the extension. */
  predicate AgentSends(config: Config, request: Request) {
    request.acknowledged.Some? ==> config.documentsExtension
  }

  /** An Agent takes a response whose acknowledgement is the one it sent, or any rejection. */
  predicate AgentAccepts(request: Request, response: Response) {
    response.Enrolled? && (response.status == Rejected || response.acknowledged == request.acknowledged)
  }

  /** The two halves fit: of every enrolled response, the Agent refuses only answers to what it does not send. */
  lemma AgentAcceptsWhatItSends(config: Config, store: Store, request: Request, decision: Result<Decision>, now: int)
    ensures var response := Enroll(config, store, request, decision, now).0;
            response.Enrolled? ==>
              (AgentAccepts(request, response) <==> AgentSends(config, request) || response.status == Rejected)
  {
  }

  // ----- The service as an object

  class Service {
    const config: Config
    var records: Store

    constructor (config: Config)
      ensures this.config == config && records == map[]
    {
      this.config, records := config, map[];
    }

    method AcceptedDocuments(existing: seq<string>, declared: seq<string>) returns (ids: seq<string>)
      ensures ids == Accepted(config.documents, existing, declared)
    {
      ids := existing;
      for i := 0 to |declared|
        invariant ids == Accepted(config.documents, existing, declared[..i])
      {
        assert declared[..i + 1][..i] == declared[..i];
        if declared[i] !in ids && Known(config.documents, declared[i]) { ids := ids + [declared[i]]; }
      }
      assert declared[..|declared|] == declared;
    }

    method ExecuteEnroll(raw: Request, decision: Result<Decision>, now: int) returns (response: Response)
      modifies this
      ensures (response, records) == Enroll(config, old(records), raw, decision, now)
    {
      var request := raw;
      if !config.documentsExtension { request := request.(acknowledged := None); }
      if request.agentDid in records {
        response := UpdateEnrollment(request, records[request.agentDid], decision, now);
        return;
      }
      var claims := MissingClaims(config.requiredClaims, Or(request.claims, map[]));
      var documents := if request.acknowledged == None then MissingDocuments(config.documents, None) else [];
      if claims != [] || documents != [] { return Requirements(claims, documents); }
      if decision == Err || request.agentDid == "" { return ServiceFailure; }
      var accepted := [];
      if decision.value.status != Reject { accepted := AcceptedDocuments([], DeclaredOf(request)); }
      var record := Record(accepted, [], request.agentDid, Or(request.claims, map[]), now,
                           Or(decision.value.ownerActionRequired, false),
                           Or(decision.value.requirementsPending, []), now,
                           StatusOf(decision.value.status), now,
                           Or(decision.value.verificationPending, []));
      records := records[record.agentDid := record];
      response := EnrollResponse(record, request.acknowledged);
    }

    method UpdateEnrollment(request: Request, record: Record, decision: Result<Decision>, now: int)
      returns (response: Response)
      modifies this
      ensures (response, records) == Update(config, old(records), record, request, decision, now)
    {
      var existing := record;
      if decision == Err { return ServiceFailure; }
      if decision.value.status == Reject { return EnrollmentFailed; }
      if !decision.value.updateExisting { return EnrollResponse(existing, request.acknowledged); }
      if request.claims.Some? { existing := existing.(claims := existing.claims + request.claims.value); }
      assert record.claims + map[] == record.claims;
      var claims := MissingClaims(config.requiredClaims, existing.claims);
      var documents := [];
      if request.acknowledged == None {
        documents := MissingDocuments(config.documents, Some(existing));
        OutstandingIgnoresClaims(config.documents, record, existing);
      }
      if claims != [] || documents != [] { return Requirements(claims, documents); }
      var acknowledged := AcceptedDocuments(existing.acknowledged, DeclaredOf(request));
      existing := existing.(acknowledged := acknowledged);
      existing := existing.(required := Without(existing.required, DeclaredOf(request)));
      if decision.value.ownerActionRequired.Some? {
        existing := existing.(ownerActionRequired := decision.value.ownerActionRequired.value);
      }
      if decision.value.requirementsPending.Some? {
        existing := existing.(requirementsPending := decision.value.requirementsPending.value);
      }
      if decision.value.verificationPending.Some? {
        existing := existing.(verificationPending := decision.value.verificationPending.value);
      }
      existing := existing.(updatedAt := now);
      assert existing == UpdatedRecord(config, record, request, decision.value, now);
      if existing.agentDid == "" { return ServiceFailure; }
      records := records[existing.agentDid := existing];
      response := EnrollResponse(existing, request.acknowledged);
    }
  }

  lemma {:induction false} OutstandingIgnoresClaims(documents: seq<ServiceDocument>, a: Record, b: Record)
    requires a.acknowledged == b.acknowledged && a.required == b.required
    ensures MissingDocuments(documents, Some(a)) == MissingDocuments(documents, Some(b))
  {
    if documents != [] { OutstandingIgnoresClaims(documents[1..], a, b); }
  }
}
