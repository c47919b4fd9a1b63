/**
Session credentials: the Service's store over a whole run of issuance and revocation, and the header
an Agent builds from a credential. The digest and base64 are parameters.
*/
module Credentials {
  import opened Common
  import opened Authorization

  type Digest = seq<nat>

  datatype GrantType = OAuthBearer | ApiKey | BasicGrant | OtherGrant(name: string)

  datatype Crypto = Crypto(digest: string -> Digest, base64: string -> string)

  /** An issued credential. `expiresAt` is the instant its expiry text names, if it names one. */
  datatype Credential =
    | OAuth(id: string, expiresAt: Option<int>, scopes: seq<string>, accessToken: string, tokenType: string)
    | Key(id: string, expiresAt: Option<int>, scopes: seq<string>, header: string, apiKey: string)
    | UserPass(id: string, expiresAt: Option<int>, scopes: seq<string>, username: string, password: string)

  datatype Issued = Issued(
    agentDid: string, createdAt: int, credential: Credential, credentialId: string, expiresAt: int,
    grantType: GrantType)

  /** What the store keeps: a digest of the secret, never the secret. */
  datatype Record = Record(
    agentDid: string, credentialId: string, expiresAt: int, grantType: GrantType, header: string,
    revokedAt: Option<int>, scopes: seq<string>, verifier: Digest)

  type Store = map<string, Record>

  function GrantTypeOf(c: Credential): GrantType {
    match c case OAuth(_, _, _, _, _) => OAuthBearer case Key(_, _, _, _, _) => ApiKey
            case UserPass(_, _, _, _, _) => BasicGrant
  }

  predicate IsFieldNameChar(c: char) {
    '0' <= c <= '9' || 'A' <= c <= 'Z' || 'a' <= c <= 'z' || c in "!#$%&'*+-.^_`|~"
  }

  predicate IsFieldName(s: string) {
    s != "" && forall i :: 0 <= i < |s| ==> IsFieldNameChar(s[i])
  }

  predicate IsKeyValue(s: string) {
    s != "" && forall i :: 0 <= i < |s| ==> '!' <= s[i] <= '~' && s[i] !in "\",;\\"
  }

  predicate HasControl(s: string) {
    exists i :: 0 <= i < |s| && (s[i] < ' ' || '\U{7f}' <= s[i] <= '\U{9f}')
  }

  predicate ValidCredential(c: Credential) {
    && c.id != "" && c.expiresAt.Some? && (forall i :: 0 <= i < |c.scopes| ==> c.scopes[i] != "")
    && match c
       case OAuth(_, _, _, token, tokenType) => token != "" && tokenType == "Bearer"
       case Key(_, _, _, header, key) => IsFieldName(header) && IsKeyValue(key)
       case UserPass(_, _, _, username, password) =>
         username != "" && password != "" && ':' !in username && !HasControl(username) && !HasControl(password)
  }

  predicate ValidIssued(r: Issued) {
    && GrantTypeOf(r.credential) == r.grantType && ValidCredential(r.credential)
    && r.agentDid != "" && r.credential.id == r.credentialId
    && r.credential.expiresAt == Some(r.expiresAt) && r.expiresAt > r.createdAt
  }

  const AUTHORIZATION: string := "authorization"
  const AEP_AUTHORIZATION: string := "aep-authorization"

  function SecretOf(crypto: Crypto, c: Credential): string {
    match c
    case OAuth(_, _, _, token, _) => token
    case Key(_, _, _, _, key) => key
    case UserPass(_, _, _, username, password) => crypto.base64(username + ":" + password)
  }

  function HeaderOf(c: Credential): string {
    if c.Key? then Lower(c.header) else AUTHORIZATION
  }

  function Kept(crypto: Crypto, r: Issued): Record {
    Record(r.agentDid, r.credentialId, r.expiresAt, r.grantType, HeaderOf(r.credential), None,
           r.credential.scopes, crypto.digest(SecretOf(crypto, r.credential)))
  }

  /** Two records that one presentation could not tell apart. */
  predicate SameSecret(a: Record, b: Record) {
    a.grantType == b.grantType && a.header == b.header && a.verifier == b.verifier
  }

  predicate Taken(store: Store, r: Record) {
    r.credentialId in store || exists id :: id in store && SameSecret(store[id], r)
  }

  // ----- Operations

  datatype Op =
    | Save(issued: Issued)
    | RevokeCredential(agentDid: string, grantType: GrantType, id: string, at: int)
    | RevokeGrantType(agentDid: string, grantType: GrantType, at: int)

  function Revoked(r: Record, at: int): Record {
    r.(revokedAt := Some(at))
  }

  predicate Targets(op: Op, id: string, r: Record) {
    match op
    case Save(_) => false
    case RevokeCredential(agentDid, grantType, target, _) =>
      id == target && r.agentDid == agentDid && r.grantType == grantType
    case RevokeGrantType(agentDid, grantType, _) => r.agentDid == agentDid && r.grantType == grantType
  }

  predicate Saves(crypto: Crypto, store: Store, issued: Issued) {
    ValidIssued(issued) && !Taken(store, Kept(crypto, issued))
  }

  function Apply(crypto: Crypto, store: Store, op: Op): Store {
    if op.Save? then
      if Saves(crypto, store, op.issued) then store[op.issued.credentialId := Kept(crypto, op.issued)] else store
    else
      map id | id in store :: if Targets(op, id, store[id]) then Revoked(store[id], op.at) else store[id]
  }

  function Run(crypto: Crypto, store: Store, ops: seq<Op>): Store
    decreases |ops|
  {
    if ops == [] then store else Run(crypto, Apply(crypto, store, ops[0]), ops[1..])
  }

  // ----- Authentication

  /** One header field line; names compare without case and are kept in lower case. */
  type Headers = seq<(string, string)>

  predicate IsText(s: string) {
    forall i :: 0 <= i < |s| ==> s[i] == '\t' || ' ' <= s[i] <= '~'
  }

  datatype Shown = Shown(header: string, value: string)

  /** The lines under one of the headers that stored API keys use. */
  function KeyLines(store: Store, headers: Headers): seq<Shown> {
    if headers == [] then []
    else
      var (name, value) := headers[0];
      (if IsText(value) && exists id :: id in store && store[id].grantType == ApiKey && store[id].header == name
       then [Shown(name, value)] else []) + KeyLines(store, headers[1..])
  }

  /** The credentials of one scheme under one of the two authorization headers. */
  function SchemeLines(headers: Headers, name: string, carrier: Carrier, scheme: Scheme): seq<Shown> {
    if headers == [] then []
    else
      var parsed := if headers[0].0 == name && IsText(headers[0].1) then Parse(headers[0].1, carrier) else None;
      (if parsed.Some? && parsed.value.scheme == scheme
       then [Shown(AUTHORIZATION, parsed.value.credentials)] else [])
      + SchemeLines(headers[1..], name, carrier, scheme)
  }

  /** Only their number, and a lone one's value, matter; the order does not. */
  function Presentations(store: Store, grantType: GrantType, headers: Headers): seq<Shown> {
    match grantType
    case ApiKey => KeyLines(store, headers)
    case OAuthBearer =>
      SchemeLines(headers, AUTHORIZATION, Standard, Bearer) + SchemeLines(headers, AEP_AUTHORIZATION, Dedicated, Bearer)
    case BasicGrant =>
      SchemeLines(headers, AUTHORIZATION, Standard, Basic) + SchemeLines(headers, AEP_AUTHORIZATION, Dedicated, Basic)
    case OtherGrant(_) => []
  }

  predicate Matches(crypto: Crypto, r: Record, grantType: GrantType, shown: Shown, now: int) {
    && r.grantType == grantType && r.header == shown.header && r.revokedAt == None && r.expiresAt > now
    && r.verifier == crypto.digest(shown.value)
  }

  /** Scans the records in any order that lists each of them. */
  method Authenticate(crypto: Crypto, store: Store, order: seq<string>, grantType: GrantType, headers: Headers,
                      now: int)
    returns (matched: Option<Record>)
    requires forall id :: id in store <==> id in order
    requires UniqueSecrets(store)
    ensures matched.Some? ==> matched.value.credentialId in store && store[matched.value.credentialId] == matched.value
    ensures forall r :: matched == Some(r) <==> Authenticates(crypto, store, grantType, headers, now, r)
  {
    var shown := Presentations(store, grantType, headers);
    if |shown| != 1 { return None; }
    for i := 0 to |order|
      invariant forall j :: 0 <= j < i ==> !Matches(crypto, store[order[j]], grantType, shown[0], now)
    {
      var record := store[order[i]];
      if Matches(crypto, record, grantType, shown[0], now) { return Some(record); }
    }
    return None;
  }

  /** The one record a request proves possession of. */
  ghost predicate Authenticates(crypto: Crypto, store: Store, grantType: GrantType, headers: Headers, now: int,
                                r: Record)
  {
    var shown := Presentations(store, grantType, headers);
    |shown| == 1 && r.credentialId in store && store[r.credentialId] == r
    && Matches(crypto, r, grantType, shown[0], now)
  }

  // ----- What every run keeps

  /** Records are stored under their identifier, and grant type, header and digest identify one. */
  ghost predicate UniqueSecrets(store: Store) {
    && (forall id :: id in store ==> store[id].credentialId == id)
    && (forall a, b :: a in store && b in store && SameSecret(store[a], store[b]) ==> a == b)
  }

  lemma ApplyUnique(crypto: Crypto, store: Store, op: Op)
    requires UniqueSecrets(store)
    ensures UniqueSecrets(Apply(crypto, store, op))
  {
  }

  lemma {:induction false} RunUnique(crypto: Crypto, store: Store, ops: seq<Op>)
    requires UniqueSecrets(store)
    ensures UniqueSecrets(Run(crypto, store, ops))
    decreases |ops|
  {
    if ops != [] {
      ApplyUnique(crypto, store, ops[0]);
      RunUnique(crypto, Apply(crypto, store, ops[0]), ops[1..]);
    }
  }

  /** In every reachable store a request authenticates at most one record. */
  lemma AtMostOneMatch(crypto: Crypto, ops: seq<Op>, grantType: GrantType, headers: Headers, now: int,
                       a: Record, b: Record)
    requires Authenticates(crypto, Run(crypto, map[], ops), grantType, headers, now, a)
    requires Authenticates(crypto, Run(crypto, map[], ops), grantType, headers, now, b)
    ensures a == b
  {
    RunUnique(crypto, map[], ops);
  }

  /** A record never changes but for its revocation, which is never taken back. */
  ghost predicate Persists(r: Record, store: Store) {
    && r.credentialId in store && store[r.credentialId].(revokedAt := r.revokedAt) == r
    && (r.revokedAt.Some? ==> store[r.credentialId].revokedAt.Some?)
  }

  lemma {:induction false} RunPersists(crypto: Crypto, store: Store, ops: seq<Op>, r: Record)
    requires Persists(r, store)
    ensures Persists(r, Run(crypto, store, ops))
    decreases |ops|
  {
    if ops != [] {
      RunPersists(crypto, Apply(crypto, store, ops[0]), ops[1..], r);
    }
  }

  /**
  Whatever happens after a revocation, that credential never authenticates again, and neither its
  identifier nor its secret, under that grant type and header, can be issued again.
  */
  lemma RevokedForever(crypto: Crypto, before: seq<Op>, after: seq<Op>, r: Record, grantType: GrantType,
                       headers: Headers, now: int, issued: Issued)
    requires var store := Run(crypto, map[], before);
             r.credentialId in store && store[r.credentialId] == r && r.revokedAt.Some?
    ensures var later := Run(crypto, Run(crypto, map[], before), after);
            && (forall m :: Authenticates(crypto, later, grantType, headers, now, m) ==>
                  m.credentialId != r.credentialId)
            && (issued.credentialId == r.credentialId || SameSecret(Kept(crypto, issued), r) ==>
                  Apply(crypto, later, Save(issued)) == later)
  {
    var later := Run(crypto, Run(crypto, map[], before), after);
    RunPersists(crypto, Run(crypto, map[], before), after, r);
    assert SameSecret(Kept(crypto, issued), r) ==> SameSecret(later[r.credentialId], Kept(crypto, issued));
  }

  // ----- What each operation does

  /** The two ways a request can revoke one record. */
  predicate Revokes(op: Op, r: Record) {
    || (op.RevokeCredential? && op == RevokeCredential(r.agentDid, r.grantType, r.credentialId, op.at))
    || (op.RevokeGrantType? && op == RevokeGrantType(r.agentDid, r.grantType, op.at))
  }

  /**
  From a revocation of a stored credential on, by its identifier or with its grant type, whatever happens
  next, no request authenticates it.
  */
  lemma RevocationEndsIt(crypto: Crypto, before: seq<Op>, op: Op, after: seq<Op>, r: Record, grantType: GrantType,
                         headers: Headers, now: int)
    requires var store := Run(crypto, map[], before); r.credentialId in store && store[r.credentialId] == r
    requires Revokes(op, r)
    ensures var later := Run(crypto, Apply(crypto, Run(crypto, map[], before), op), after);
            forall m :: Authenticates(crypto, later, grantType, headers, now, m) ==> m.credentialId != r.credentialId
  {
    var next := Apply(crypto, Run(crypto, map[], before), op);
    RunPersists(crypto, next, after, Revoked(r, op.at));
  }

  /** A revocation changes the time of revocation of the records it names, and nothing else. */
  lemma RevocationTouchesOnly(crypto: Crypto, store: Store, agentDid: string, grantType: GrantType, id: string, at: int)
    ensures var after := Apply(crypto, store, RevokeCredential(agentDid, grantType, id, at));
            && after.Keys == store.Keys
            && forall other :: other in store ==>
                 after[other] ==
                   if other == id && store[other].agentDid == agentDid && store[other].grantType == grantType
                   then store[other].(revokedAt := Some(at)) else store[other]
    ensures var after := Apply(crypto, store, RevokeGrantType(agentDid, grantType, at));
            && after.Keys == store.Keys
            && forall other :: other in store ==>
                 after[other] ==
                   if store[other].agentDid == agentDid && store[other].grantType == grantType
                   then store[other].(revokedAt := Some(at)) else store[other]
  {
  }

  /** What a credential must be for its grant type. */
  predicate SoundCredential(c: Credential) {
    && c.id != "" && "" !in c.scopes
    && match c
       case OAuth(_, _, _, token, tokenType) => token != "" && tokenType == "Bearer"
       case Key(_, _, _, header, key) => IsFieldName(header) && IsKeyValue(key)
       case UserPass(_, _, _, username, password) =>
         username != "" && password != "" && ':' !in username && !HasControl(username) && !HasControl(password)
  }

  /** The record a credential leaves: under its own header, or the standard one, and only a digest of it. */
  function RecordOf(crypto: Crypto, r: Issued): Record {
    var (header, secret) := match r.credential
      case OAuth(_, _, _, token, _) => ("authorization", token)
      case Key(_, _, _, header, key) => (Lower(header), key)
      case UserPass(_, _, _, username, password) => ("authorization", crypto.base64(username + ":" + password));
    Record(r.agentDid, r.credentialId, r.expiresAt, r.grantType, header, None, r.credential.scopes,
           crypto.digest(secret))
  }

  /** A credential is stored if and only if it is sound, it agrees with its issue, and its id and secret are new. */
  lemma SavedIff(crypto: Crypto, store: Store, issued: Issued)
    ensures var c, record := issued.credential, RecordOf(crypto, issued);
            Apply(crypto, store, Save(issued)) ==
              if && SoundCredential(c)
                 && issued.agentDid != "" && c.id == issued.credentialId
                 && c.expiresAt == Some(issued.expiresAt) && issued.createdAt < issued.expiresAt
                 && (c.OAuth? ==> issued.grantType == OAuthBearer) && (c.Key? ==> issued.grantType == ApiKey)
                 && (c.UserPass? ==> issued.grantType == BasicGrant)
                 && issued.credentialId !in store
                 && (forall id :: id in store ==>
                       !(store[id].grantType == record.grantType && store[id].header == record.header
                         && store[id].verifier == record.verifier))
              then store[issued.credentialId := record] else store
  {
    assert AUTHORIZATION == "authorization";
    var c := issued.credential;
    assert ValidCredential(c) <==> SoundCredential(c) && c.expiresAt.Some?;
    assert RecordOf(crypto, issued) == Kept(crypto, issued);
  }

  // ----- The Agent's half

  /** The one header an Agent sends for a credential. */
  function AgentHeader(crypto: Crypto, c: Credential, carrier: Carrier): Option<(string, string)> {
    match c
    case OAuth(_, _, _, token, _) => Render(Presentation(carrier, Bearer, token))
    case Key(_, _, _, header, key) => Some((header, key))
    case UserPass(_, _, _, username, password) =>
      Render(Presentation(carrier, Basic, crypto.base64(username + ":" + password)))
  }

  function Request(header: (string, string)): Headers {
    [(Lower(header.0), header.1)]
  }

  lemma TokenIsText(prefix: string, s: string)
    requires IsText(prefix) && IsCredentialToken(s)
    ensures IsText(prefix + " " + s)
  {
  }

  lemma LowerNames()
    ensures Lower(HeaderName(Standard)) == AUTHORIZATION && Lower(HeaderName(Dedicated)) == AEP_AUTHORIZATION
  {
  }

  /** Under the other header's name a line is not looked at; under its own it counts if it parses. */
  lemma OneSchemeLine(name: string, value: string, wanted: string, carrier: Carrier, scheme: Scheme)
    requires IsText(value)
    ensures var parsed := Parse(value, carrier);
            SchemeLines([(name, value)], wanted, carrier, scheme) ==
              if name == wanted && parsed.Some? && parsed.value.scheme == scheme
              then [Shown(AUTHORIZATION, parsed.value.credentials)] else []
  {
    assert [(name, value)][1..] == [];
  }

  lemma CommaSpoils(v: Presentation)
    requires Render(v).Some? && ',' in v.credentials
    ensures Parse(Render(v).value.1, Dedicated) == None
  {
    var field := Render(v).value.1;
    var i :| 0 <= i < |v.credentials| && v.credentials[i] == ',';
    assert field[|SchemeText(v.scheme)| + 1 + i] == ',';
  }

  /** A rendered credential alone in a request is presented once, unless a comma spoils it. */
  lemma RenderedIsPresented(v: Presentation)
    requires Render(v).Some?
    ensures var headers := Request(Render(v).value);
            SchemeLines(headers, AUTHORIZATION, Standard, v.scheme)
            + SchemeLines(headers, AEP_AUTHORIZATION, Dedicated, v.scheme)
              == if v.carrier == Dedicated && ',' in v.credentials then [] else [Shown(AUTHORIZATION, v.credentials)]
  {
    LowerNames();
    var (name, field) := Render(v).value;
    TokenIsText(SchemeText(v.scheme), v.credentials);
    OneSchemeLine(Lower(name), field, AUTHORIZATION, Standard, v.scheme);
    OneSchemeLine(Lower(name), field, AEP_AUTHORIZATION, Dedicated, v.scheme);
    assert |AUTHORIZATION| != |AEP_AUTHORIZATION|;
    if v.carrier == Dedicated && ',' in v.credentials { CommaSpoils(v); } else { ParseInvertsRender(v); }
  }

  /**
  End to end: the header an Agent builds from a saved credential makes the Service's store return that
  credential, exactly while it is unrevoked and unexpired, and unless it is a token with a comma under the
  dedicated header.
  */
  lemma AgentHeaderAuthenticates(crypto: Crypto, ops: seq<Op>, issued: Issued, carrier: Carrier, now: int)
    requires ValidIssued(issued)
    requires var store := Run(crypto, map[], ops);
             issued.credentialId in store && store[issued.credentialId].(revokedAt := None) == Kept(crypto, issued)
    requires AgentHeader(crypto, issued.credential, carrier).Some?
    ensures var store := Run(crypto, map[], ops);
            Authenticates(crypto, store, issued.grantType,
                          Request(AgentHeader(crypto, issued.credential, carrier).value), now,
                          store[issued.credentialId])
            <==> (&& store[issued.credentialId].revokedAt == None && now < issued.expiresAt
                  && (issued.credential.Key? || carrier == Standard || ',' !in SecretOf(crypto, issued.credential)))
  {
    var store := Run(crypto, map[], ops);
    var headers := Request(AgentHeader(crypto, issued.credential, carrier).value);
    match issued.credential
    case OAuth(_, _, _, token, _) => RenderedIsPresented(Presentation(carrier, Bearer, token));
    case Key(_, _, _, header, key) =>
      assert headers[1..] == [] && IsText(key);
      assert KeyLines(store, headers) == [Shown(Lower(header), key)];
    case UserPass(_, _, _, username, password) =>
      RenderedIsPresented(Presentation(carrier, Basic, crypto.base64(username + ":" + password)));
  }

  // ----- More than one credential

  lemma {:induction false} KeyLinesAdd(store: Store, a: Headers, b: Headers)
    ensures KeyLines(store, a + b) == KeyLines(store, a) + KeyLines(store, b)
  {
    if a == [] {
      assert a + b == b;
    } else {
      assert (a + b)[1..] == a[1..] + b;
      KeyLinesAdd(store, a[1..], b);
    }
  }

  lemma {:induction false} SchemeLinesAdd(a: Headers, b: Headers, name: string, carrier: Carrier, scheme: Scheme)
    ensures SchemeLines(a + b, name, carrier, scheme)
         == SchemeLines(a, name, carrier, scheme) + SchemeLines(b, name, carrier, scheme)
  {
    if a == [] {
      assert a + b == b;
    } else {
      assert (a + b)[1..] == a[1..] + b;
      SchemeLinesAdd(a[1..], b, name, carrier, scheme);
    }
  }

  lemma PresentationsAdd(store: Store, grantType: GrantType, a: Headers, b: Headers)
    ensures |Presentations(store, grantType, a + b)|
         == |Presentations(store, grantType, a)| + |Presentations(store, grantType, b)|
  {
    KeyLinesAdd(store, a, b);
    SchemeLinesAdd(a, b, AUTHORIZATION, Standard, Bearer);
    SchemeLinesAdd(a, b, AEP_AUTHORIZATION, Dedicated, Bearer);
    SchemeLinesAdd(a, b, AUTHORIZATION, Standard, Basic);
    SchemeLinesAdd(a, b, AEP_AUTHORIZATION, Dedicated, Basic);
  }

  /** Headers that present a credential, joined to headers that present another, or the same, prove nothing. */
  lemma SeveralProveNothing(crypto: Crypto, store: Store, grantType: GrantType, a: Headers, b: Headers, now: int,
                            r: Record, x: Record, y: Record)
    requires Authenticates(crypto, store, grantType, a, now, x) && Authenticates(crypto, store, grantType, b, now, y)
    ensures !Authenticates(crypto, store, grantType, a + b, now, r)
  {
    PresentationsAdd(store, grantType, a, b);
  }

  // ----- The store as an object

  class MemoryCredentialStore {
    const crypto: Crypto
    var records: Store

    constructor (crypto: Crypto)
      ensures this.crypto == crypto && records == map[]
    {
      this.crypto, records := crypto, map[];
    }

    method SaveRecord(issued: Issued) returns (ok: bool)
      modifies this
      ensures ok <==> Saves(crypto, old(records), issued)
      ensures records == Apply(crypto, old(records), Save(issued))
      ensures records == if ok then old(records)[issued.credentialId := RecordOf(crypto, issued)] else old(records)
    {
      if !ValidIssued(issued) { return false; }
      var record := Kept(crypto, issued);
      if record.credentialId in records || exists id :: id in records && SameSecret(records[id], record) {
        return false;
      }
      records := records[record.credentialId := record];
      ok := true;
    }

    method RevokeOne(agentDid: string, grantType: GrantType, id: string, at: int)
      modifies this
      ensures records == Apply(crypto, old(records), RevokeCredential(agentDid, grantType, id, at))
      ensures records.Keys == old(records).Keys
      ensures forall other :: other in records ==>
        records[other] ==
          if other == id && old(records)[other].agentDid == agentDid && old(records)[other].grantType == grantType
          then old(records)[other].(revokedAt := Some(at)) else old(records)[other]
    {
      if id in records && records[id].agentDid == agentDid && records[id].grantType == grantType {
        records := records[id := records[id].(revokedAt := Some(at))];
      }
    }

    method RevokeAll(agentDid: string, grantType: GrantType, at: int)
      modifies this
      ensures records == Apply(crypto, old(records), RevokeGrantType(agentDid, grantType, at))
      ensures records.Keys == old(records).Keys
      ensures forall other :: other in records ==>
        records[other] ==
          if old(records)[other].agentDid == agentDid && old(records)[other].grantType == grantType
          then old(records)[other].(revokedAt := Some(at)) else old(records)[other]
    {
      var op := RevokeGrantType(agentDid, grantType, at);
      var pending := records.Keys;
      while pending != {}
        invariant pending <= old(records).Keys == records.Keys
        invariant forall id :: id in records ==>
          records[id] == if id !in pending && Targets(op, id, old(records)[id]) then Revoked(old(records)[id], at)
                         else old(records)[id]
        decreases |pending|
      {
        var id :| id in pending;
        pending := pending - {id};
        if records[id].agentDid == agentDid && records[id].grantType == grantType {
          records := records[id := records[id].(revokedAt := Some(at))];
        }
      }
    }
  }
}
