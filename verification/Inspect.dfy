/**
The Agent's discovery: a cache under two keys, revalidation, and at most five safe redirects.

Everything outside the Agent (the network, the clock, URL joining, document parsing, DID resolution
and date parsing) is a parameter that may answer anything.
*/
module Inspect {
  import opened Common
  import opened CacheControl
  import opened Freshness

  const MAXIMUM_REDIRECTS: nat := 5

  datatype Url = Url(
    scheme: string, username: string, password: Option<string>, host: Option<string>, port: Option<nat>,
    path: string, query: Option<string>, fragment: Option<string>)

  datatype Document = Document(serviceDid: string, contents: Bytes)

  datatype Entry = Entry(cachedAt: Instant, document: Document, finalUrl: Url, headers: Headers)

  datatype Inspection = Inspection(
    cacheControl: Option<Bytes>, document: Document, etag: Option<Bytes>, finalUrl: Url, inspectUrl: Url,
    lastModified: Option<Bytes>, serviceUrl: Url)

  datatype Response = Response(status: nat, finalUrl: Url, headers: Headers, body: Bytes)

  datatype Validators = Validators(etag: Option<Bytes>, lastModified: Option<Bytes>)

  /** `send(i, ..)` answers the i-th request of one inspection; `clock(i)` is its i-th reading. */
  datatype World = World(
    send: (nat, Url, Validators) -> Result<Response>,
    clock: nat -> Instant,
    join: (Url, Bytes) -> Option<Url>,
    parse: Bytes -> Option<Document>,
    didDocumentUrl: string -> Option<Url>,
    matchesMediaType: Headers -> bool,
    date: DateReader,
    maximumBytes: nat)

  function LowerChar(c: char): char {
    if 'A' <= c <= 'Z' then (c as int + 32) as char else c
  }

  predicate SameText(a: string, b: string) {
    |a| == |b| && forall i :: 0 <= i < |a| ==> LowerChar(a[i]) == LowerChar(b[i])
  }

  function KnownPort(url: Url): Option<nat> {
    if url.port.Some? then url.port
    else if url.scheme == "https" || url.scheme == "wss" then Some(443)
    else if url.scheme == "http" || url.scheme == "ws" then Some(80)
    else if url.scheme == "ftp" then Some(21)
    else None
  }

  predicate SameOrigin(a: Url, b: Url) {
    && SameText(a.scheme, b.scheme)
    && a.host.Some? && b.host.Some? && SameText(a.host.value, b.host.value)
    && KnownPort(a) == KnownPort(b)
  }

  predicate SafeTarget(target: Url, reference: Url) {
    && target.username == "" && target.password == None && target.fragment == None
    && target.scheme == reference.scheme && SameOrigin(target, reference)
  }

  lemma SafeTransitive(a: Url, b: Url, c: Url)
    requires SafeTarget(a, b) && SafeTarget(b, c)
    ensures SafeTarget(a, c)
  {
  }

  /** A resolved Service reference: an origin and nothing else. */
  predicate IsServiceUrl(url: Url) {
    && url.username == "" && url.password == None && url.host.Some?
    && url.path == "/" && url.query == None && url.fragment == None
  }

  function InspectUrl(service: Url): Url {
    service.(path := "/.well-known/aep")
  }

  predicate IsRedirect(status: nat) {
    status == 301 || status == 302 || status == 303 || status == 307 || status == 308
  }

  /** The Service DID resolves to a document on the origin that served the entry. */
  predicate IdentityBound(w: World, document: Document, finalUrl: Url) {
    "did:web:" <= document.serviceDid &&
    w.didDocumentUrl(document.serviceDid).Some? &&
    SameOrigin(w.didDocumentUrl(document.serviceDid).value, finalUrl)
  }

  function FromEntry(w: World, service: Url, entry: Entry): Result<Inspection> {
    if IdentityBound(w, entry.document, entry.finalUrl) then
      Ok(Inspection(FieldText(entry.headers, CacheControlField), entry.document, FieldText(entry.headers, ETag),
                    entry.finalUrl, InspectUrl(service), FieldText(entry.headers, LastModified), service))
    else Err
  }

  function FirstLine(headers: Headers, name: Name): Option<Bytes> {
    var lines := Lines(headers, name);
    if lines == [] then None else Some(lines[0])
  }

  function ValidatorsOf(cached: Option<Entry>): Validators {
    if cached == None then Validators(None, None)
    else Validators(FirstLine(cached.value.headers, ETag), FirstLine(cached.value.headers, LastModified))
  }

  /** The entry a final response makes: a revalidated one, or a new one. */
  function EntryOf(w: World, cached: Option<Entry>, current: Url, response: Response, requested: Instant,
                   received: Instant): Option<Entry>
  {
    if response.status == 304 then
      if cached == None then None
      else Some(Entry(received, cached.value.document, current,
                      CacheHeaders(response.headers, Some(cached.value.headers), requested, received)))
    else if !(200 <= response.status < 300) || !w.matchesMediaType(response.headers)
            || |response.body| > w.maximumBytes then None
    else if w.parse(response.body) == None then None
    else Some(Entry(received, w.parse(response.body).value, current,
                    CacheHeaders(response.headers, None, requested, received)))
  }

  /** Where a redirect leads, when it leads anywhere safe. */
  function NextUrl(w: World, current: Url, response: Response): Option<Url> {
    var location := FirstLine(response.headers, OtherField("location"));
    if location == None || !IsText(location.value) then None else
    var next := w.join(current, location.value);
    if next.Some? && SafeTarget(next.value, current) then next else None
  }

  /** The requests sent, and the entry obtained if one was. */
  datatype Fetched = Fetched(sent: seq<Url>, entry: Option<Entry>)

  /** What one request leads to: an end, with or without an entry, or another URL. */
  datatype Hop = Stop(entry: Option<Entry>) | Go(next: Url)

  function Visited(w: World, cached: Option<Entry>, current: Url, redirects: nat): (hop: Hop)
    ensures hop.Go? ==> redirects < MAXIMUM_REDIRECTS && SafeTarget(hop.next, current)
    ensures hop.Stop? && hop.entry.Some? ==> hop.entry.value.finalUrl == current
  {
    match w.send(redirects, current, ValidatorsOf(cached))
    case Err => Stop(None)
    case Ok(response) =>
      if response.finalUrl != current then Stop(None)
      else if IsRedirect(response.status) then
        if redirects >= MAXIMUM_REDIRECTS then Stop(None)
        else (match NextUrl(w, current, response) case None => Stop(None) case Some(next) => Go(next))
      else
        Stop(EntryOf(w, cached, current, response, w.clock(2 * redirects + 1), w.clock(2 * redirects + 2)))
  }

  /** The request at a URL after so many redirects, as a value. */
  type Visitor = (Url, nat) -> Hop

  function Visits(w: World, cached: Option<Entry>): Visitor {
    (url: Url, redirects: nat) => Visited(w, cached, url, redirects)
  }

  /** Requests until one ends the chain. */
  function Fetch(visit: Visitor, current: Url, redirects: nat): Fetched
    decreases MAXIMUM_REDIRECTS - redirects
  {
    match visit(current, redirects)
    case Stop(entry) => Fetched([current], entry)
    case Go(next) =>
      if redirects >= MAXIMUM_REDIRECTS then Fetched([current], None) else
      var rest := Fetch(visit, next, redirects + 1);
      Fetched([current] + rest.sent, rest.entry)
  }

  type Cache = map<Url, Entry>

  predicate Usable(entry: Entry, inspectUrl: Url) {
    SafeTarget(entry.finalUrl, inspectUrl) && Storable(entry.headers)
  }

  /** A cached entry that may not be reused is dropped with its safe alias. */
  function Dropped(cache: Cache, entry: Entry, inspectUrl: Url): Cache {
    if SafeTarget(entry.finalUrl, inspectUrl) then cache - {inspectUrl} - {entry.finalUrl}
    else cache - {inspectUrl}
  }

  function Updated(cache: Cache, inspectUrl: Url, previous: Option<Entry>, entry: Entry): Cache {
    var kept := if previous.Some? && previous.value.finalUrl != inspectUrl
                   && previous.value.finalUrl != entry.finalUrl
                then cache - {previous.value.finalUrl} else cache;
    if Storable(entry.headers) then kept[inspectUrl := entry][entry.finalUrl := entry]
    else kept - {inspectUrl, entry.finalUrl}
  }

  datatype Inspected = Inspected(result: Result<Inspection>, cache: Cache, sent: seq<Url>)

  /** The cached entry, if it may be used at all. */
  function Reusable(cache: Cache, inspectUrl: Url): Option<Entry> {
    if inspectUrl in cache && Usable(cache[inspectUrl], inspectUrl) then Some(cache[inspectUrl]) else None
  }

  /** The cache without an entry that may not be used. */
  function Purged(cache: Cache, inspectUrl: Url): Cache {
    if inspectUrl in cache && !Usable(cache[inspectUrl], inspectUrl)
    then Dropped(cache, cache[inspectUrl], inspectUrl) else cache
  }

  predicate FreshIn(w: World, cached: Option<Entry>) {
    cached.Some? && Fresh(cached.value.headers, cached.value.cachedAt, w.clock(0), w.date)
  }

  function StartUrl(cached: Option<Entry>, inspectUrl: Url): Url {
    if cached.Some? then cached.value.finalUrl else inspectUrl
  }

  function InspectFrom(w: World, service: Url, cache: Cache, cached: Option<Entry>): Inspected {
    var inspectUrl := InspectUrl(service);
    if FreshIn(w, cached) then Inspected(FromEntry(w, service, cached.value), cache, []) else
    var fetched := Fetch(Visits(w, cached), StartUrl(cached, inspectUrl), 0);
    if fetched.entry == None then Inspected(Err, cache, fetched.sent) else
    var result := FromEntry(w, service, fetched.entry.value);
    Inspected(result, if result.Ok? then Updated(cache, inspectUrl, cached, fetched.entry.value) else cache,
              fetched.sent)
  }

  /** One inspection: its result, the cache it leaves, and the requests it sent. */
  function InspectOnce(w: World, service: Url, cache: Cache): Inspected {
    InspectFrom(w, service, Purged(cache, InspectUrl(service)), Reusable(cache, InspectUrl(service)))
  }

  // ----- What holds

  ghost predicate Chain(sent: seq<Url>) {
    forall i :: 0 < i < |sent| ==> SafeTarget(sent[i], sent[i - 1])
  }

  /** Redirects are safe and bounded, and an entry belongs to the URL that was visited. */
  ghost predicate Careful(visit: Visitor) {
    forall url: Url, redirects: nat :: match visit(url, redirects)
      case Go(next) => redirects < MAXIMUM_REDIRECTS && SafeTarget(next, url)
      case Stop(entry) => entry.Some? ==> entry.value.finalUrl == url
  }

  lemma VisitsCareful(w: World, cached: Option<Entry>)
    ensures Careful(Visits(w, cached))
  {
  }

  /** At most six requests, each reached from the one before by a safe redirect. */
  lemma {:induction false} FetchChain(visit: Visitor, current: Url, redirects: nat)
    requires Careful(visit) && redirects <= MAXIMUM_REDIRECTS
    ensures var f := Fetch(visit, current, redirects);
            && 1 <= |f.sent| <= MAXIMUM_REDIRECTS + 1 - redirects
            && f.sent[0] == current && Chain(f.sent)
            && (f.entry.Some? ==> f.entry.value.finalUrl == f.sent[|f.sent| - 1])
    decreases MAXIMUM_REDIRECTS - redirects
  {
    var hop := visit(current, redirects);
    if hop.Go? { FetchChain(visit, hop.next, redirects + 1); }
  }

  lemma {:induction false} ChainSafe(sent: seq<Url>, reference: Url)
    requires sent != [] && Chain(sent) && SafeTarget(sent[0], reference)
    ensures SafeTarget(sent[|sent| - 1], reference)
    decreases |sent|
  {
    if |sent| > 1 {
      var front := sent[..|sent| - 1];
      ChainSafe(front, reference);
      SafeTransitive(sent[|sent| - 1], front[|front| - 1], reference);
    }
  }

  lemma InspectUrlSafe(service: Url)
    requires IsServiceUrl(service)
    ensures SafeTarget(InspectUrl(service), InspectUrl(service)) && SameOrigin(InspectUrl(service), service)
  {
  }

  /** Whatever an inspection fetches comes from a safe target of the advertised URL. */
  lemma FetchSafe(w: World, service: Url, cached: Option<Entry>)
    requires IsServiceUrl(service) && (cached.Some? ==> SafeTarget(cached.value.finalUrl, InspectUrl(service)))
    ensures var f := Fetch(Visits(w, cached), StartUrl(cached, InspectUrl(service)), 0);
            f.entry.Some? ==> SafeTarget(f.entry.value.finalUrl, InspectUrl(service))
  {
    var start := StartUrl(cached, InspectUrl(service));
    InspectUrlSafe(service);
    VisitsCareful(w, cached);
    FetchChain(Visits(w, cached), start, 0);
    ChainSafe(Fetch(Visits(w, cached), start, 0).sent, InspectUrl(service));
  }

  lemma SafeIsOnOrigin(url: Url, service: Url)
    requires IsServiceUrl(service) && SafeTarget(url, InspectUrl(service))
    ensures SameOrigin(url, service)
  {
  }

  /** Every successful inspection stays on the Service's origin, and so does the Service's DID. */
  lemma SuccessIsBound(w: World, service: Url, cache: Cache)
    requires IsServiceUrl(service)
    ensures var result := InspectOnce(w, service, cache).result;
            result.Ok? ==>
              var i := result.value;
              && SafeTarget(i.finalUrl, InspectUrl(service)) && SameOrigin(i.finalUrl, service)
              && "did:web:" <= i.document.serviceDid && w.didDocumentUrl(i.document.serviceDid).Some?
              && SameOrigin(w.didDocumentUrl(i.document.serviceDid).value, i.finalUrl)
  {
    FetchSafe(w, service, Reusable(cache, InspectUrl(service)));
    var result := InspectOnce(w, service, cache).result;
    if result.Ok? { SafeIsOnOrigin(result.value.finalUrl, service); }
  }

  /** An inspection sends at most six requests, all along one chain of safe redirects. */
  lemma RequestsBounded(w: World, service: Url, cache: Cache)
    ensures var sent := InspectOnce(w, service, cache).sent;
            |sent| <= MAXIMUM_REDIRECTS + 1 && Chain(sent)
  {
    var cached := Reusable(cache, InspectUrl(service));
    VisitsCareful(w, cached);
    FetchChain(Visits(w, cached), StartUrl(cached, InspectUrl(service)), 0);
  }

  /** Nothing, or one usable entry under the advertised URL and its final URL. */
  ghost predicate CacheOk(cache: Cache, inspectUrl: Url) {
    cache == map[] ||
    (inspectUrl in cache && Usable(cache[inspectUrl], inspectUrl) &&
     cache == map[inspectUrl := cache[inspectUrl]][cache[inspectUrl].finalUrl := cache[inspectUrl]])
  }

  lemma UpdatedOk(cache: Cache, inspectUrl: Url, entry: Entry)
    requires CacheOk(cache, inspectUrl) && SafeTarget(entry.finalUrl, inspectUrl)
    ensures var after := Updated(cache, inspectUrl, Reusable(cache, inspectUrl), entry);
            && CacheOk(after, inspectUrl)
            && after == if Storable(entry.headers) then map[inspectUrl := entry][entry.finalUrl := entry] else map[]
  {
    var previous := Reusable(cache, inspectUrl);
    var kept := if previous.Some? && previous.value.finalUrl != inspectUrl
                   && previous.value.finalUrl != entry.finalUrl
                then cache - {previous.value.finalUrl} else cache;
    assert kept.Keys <= {inspectUrl, entry.finalUrl};
  }

  /** Every inspection, whatever its outcome, leaves the cache in that shape. */
  lemma InspectKeepsCache(w: World, service: Url, cache: Cache)
    requires IsServiceUrl(service) && CacheOk(cache, InspectUrl(service))
    ensures CacheOk(InspectOnce(w, service, cache).cache, InspectUrl(service))
  {
    var cached := Reusable(cache, InspectUrl(service));
    assert Purged(cache, InspectUrl(service)) == cache;
    FetchSafe(w, service, cached);
    var fetched := Fetch(Visits(w, cached), StartUrl(cached, InspectUrl(service)), 0);
    if fetched.entry.Some? { UpdatedOk(cache, InspectUrl(service), fetched.entry.value); }
  }

  /** The cache after a session's inspections, each in a world of its own. */
  function CacheAfter(service: Url, worlds: seq<World>): Cache {
    if worlds == [] then map[]
    else InspectOnce(worlds[|worlds| - 1], service, CacheAfter(service, worlds[..|worlds| - 1])).cache
  }

  lemma {:induction false} SessionCacheOk(service: Url, worlds: seq<World>)
    requires IsServiceUrl(service)
    ensures CacheOk(CacheAfter(service, worlds), InspectUrl(service))
  {
    if worlds != [] {
      SessionCacheOk(service, worlds[..|worlds| - 1]);
      InspectKeepsCache(worlds[|worlds| - 1], service, CacheAfter(service, worlds[..|worlds| - 1]));
    }
  }

  // ----- Where documents come from

  /** A response of this world that carries the document: successful, of the right type and size, and parsed. */
  ghost predicate Carries(w: World, service: Url, r: Response, document: Document) {
    && 200 <= r.status < 300 && w.matchesMediaType(r.headers) && |r.body| <= w.maximumBytes
    && w.parse(r.body) == Some(document) && SafeTarget(r.finalUrl, InspectUrl(service))
  }

  /** The last of the requests sent was answered with the document. */
  ghost predicate Answered(w: World, service: Url, cached: Option<Entry>, sent: seq<Url>, document: Document) {
    sent != [] &&
    var last := |sent| - 1;
    var response := w.send(last, sent[last], ValidatorsOf(cached));
    response.Ok? && Carries(w, service, response.value, document)
  }

  /** This inspection, from this cache, sent a request that was answered with the document. */
  ghost predicate Received(w: World, service: Url, cache: Cache, document: Document) {
    Answered(w, service, Reusable(cache, InspectUrl(service)), InspectOnce(w, service, cache).sent, document)
  }

  /** The entry of a chain was given by the visit to its last URL. */
  lemma {:induction false} EntryFromLast(visit: Visitor, current: Url, redirects: nat)
    requires Fetch(visit, current, redirects).entry.Some?
    ensures var f := Fetch(visit, current, redirects);
            f.sent != [] && visit(f.sent[|f.sent| - 1], redirects + |f.sent| - 1) == Stop(f.entry)
    decreases MAXIMUM_REDIRECTS - redirects
  {
    var hop := visit(current, redirects);
    if hop.Go? {
      EntryFromLast(visit, hop.next, redirects + 1);
      var rest := Fetch(visit, hop.next, redirects + 1).sent;
      assert ([current] + rest)[|rest|] == rest[|rest| - 1];
    }
  }

  /** A new entry holds the document its last request received, or the cached one when the origin said 304. */
  lemma FetchedDocument(w: World, service: Url, cached: Option<Entry>)
    requires IsServiceUrl(service) && (cached.Some? ==> SafeTarget(cached.value.finalUrl, InspectUrl(service)))
    ensures var f := Fetch(Visits(w, cached), StartUrl(cached, InspectUrl(service)), 0);
            f.entry.Some? ==>
              || Answered(w, service, cached, f.sent, f.entry.value.document)
              || (cached.Some? && f.entry.value.document == cached.value.document)
  {
    var visit, start := Visits(w, cached), StartUrl(cached, InspectUrl(service));
    var f := Fetch(visit, start, 0);
    if f.entry.Some? {
      FetchSafe(w, service, cached);
      EntryFromLast(visit, start, 0);
      VisitAnswered(w, service, cached, f.sent[|f.sent| - 1], |f.sent| - 1, f.entry.value);
    }
  }

  lemma VisitAnswered(w: World, service: Url, cached: Option<Entry>, url: Url, at: nat, entry: Entry)
    requires Visited(w, cached, url, at) == Stop(Some(entry)) && SafeTarget(entry.finalUrl, InspectUrl(service))
    ensures var response := w.send(at, url, ValidatorsOf(cached));
            response.Ok? && (Carries(w, service, response.value, entry.document)
                             || (cached.Some? && entry.document == cached.value.document))
  {
  }

  /** The document was received from this world or is the one the cache already held. */
  ghost predicate Known(w: World, service: Url, cache: Cache, document: Document) {
    || Received(w, service, cache, document)
    || (InspectUrl(service) in cache && cache[InspectUrl(service)].document == document)
  }

  /** What one more inspection can cache or return. */
  lemma InspectedDocument(w: World, service: Url, cache: Cache)
    requires IsServiceUrl(service) && CacheOk(cache, InspectUrl(service))
    ensures var i := InspectOnce(w, service, cache);
            && (i.result.Ok? ==> Known(w, service, cache, i.result.value.document))
            && (InspectUrl(service) in i.cache ==> Known(w, service, cache, i.cache[InspectUrl(service)].document))
  {
    var inspectUrl := InspectUrl(service);
    var cached := Reusable(cache, inspectUrl);
    assert Purged(cache, inspectUrl) == cache;
    FetchedDocument(w, service, cached);
    FetchSafe(w, service, cached);
    var f := Fetch(Visits(w, cached), StartUrl(cached, inspectUrl), 0);
    if f.entry.Some? { UpdatedOk(cache, inspectUrl, f.entry.value); }
  }

  /** One of the session's inspections sent a request that was answered with the document. */
  ghost predicate ReceivedIn(service: Url, worlds: seq<World>, document: Document) {
    exists k :: 0 <= k < |worlds| && Received(worlds[k], service, CacheAfter(service, worlds[..k]), document)
  }

  lemma Widened(service: Url, front: seq<World>, last: World, document: Document)
    requires ReceivedIn(service, front, document) || Received(last, service, CacheAfter(service, front), document)
    ensures ReceivedIn(service, front + [last], document)
  {
    var worlds := front + [last];
    if ReceivedIn(service, front, document) {
      var k :| 0 <= k < |front| && Received(front[k], service, CacheAfter(service, front[..k]), document);
      assert worlds[k] == front[k] && worlds[..k] == front[..k];
    } else {
      assert worlds[|front|] == last && worlds[..|front|] == front;
    }
  }

  /** What is known after one more inspection was received in the longer session. */
  lemma KnownWidened(service: Url, front: seq<World>, last: World, document: Document)
    requires Known(last, service, CacheAfter(service, front), document)
    requires var cache := CacheAfter(service, front);
             InspectUrl(service) in cache ==> ReceivedIn(service, front, cache[InspectUrl(service)].document)
    ensures ReceivedIn(service, front + [last], document)
  {
    Widened(service, front, last, document);
  }

  lemma {:induction false} CachedDocument(service: Url, worlds: seq<World>)
    requires IsServiceUrl(service)
    ensures var cache := CacheAfter(service, worlds);
            InspectUrl(service) in cache ==> ReceivedIn(service, worlds, cache[InspectUrl(service)].document)
  {
    if worlds != [] {
      var front, last := worlds[..|worlds| - 1], worlds[|worlds| - 1];
      assert front + [last] == worlds;
      CachedDocument(service, front);
      InspectionReceived(service, front, last);
    }
  }

  /** An inspection after a session returns and caches only what the session, it included, received. */
  lemma InspectionReceived(service: Url, front: seq<World>, last: World)
    requires IsServiceUrl(service)
    requires var cache := CacheAfter(service, front);
             InspectUrl(service) in cache ==> ReceivedIn(service, front, cache[InspectUrl(service)].document)
    ensures var i := InspectOnce(last, service, CacheAfter(service, front));
            && (i.result.Ok? ==> ReceivedIn(service, front + [last], i.result.value.document))
            && (InspectUrl(service) in i.cache ==>
                  ReceivedIn(service, front + [last], i.cache[InspectUrl(service)].document))
  {
    var cache := CacheAfter(service, front);
    var i := InspectOnce(last, service, cache);
    SessionCacheOk(service, front);
    InspectedDocument(last, service, cache);
    if i.result.Ok? { KnownWidened(service, front, last, i.result.value.document); }
    if InspectUrl(service) in i.cache {
      KnownWidened(service, front, last, i.cache[InspectUrl(service)].document);
    }
  }

  /**
  Over any session, whatever was cached, revalidated or redirected: a document an inspection returns
  answered a request one of its inspections sent, as a successful response of the right type and size from
  the Service's origin.
  */
  lemma DocumentsWereReceived(service: Url, worlds: seq<World>, last: World)
    requires IsServiceUrl(service)
    ensures var result := InspectOnce(last, service, CacheAfter(service, worlds)).result;
            result.Ok? ==> ReceivedIn(service, worlds + [last], result.value.document)
  {
    CachedDocument(service, worlds);
    InspectionReceived(service, worlds, last);
  }

  // ----- The session as an object

  class Session {
    const serviceUrl: Url
    var cache: Cache
    var sent: seq<Url>

    constructor (serviceUrl: Url)
      ensures this.serviceUrl == serviceUrl && cache == map[] && sent == []
    {
      this.serviceUrl, cache, sent := serviceUrl, map[], [];
    }

    /** Drops a cached entry that may not be used, and gives one that may. */
    method Reuse() returns (cached: Option<Entry>)
      modifies this`cache
      ensures cache == Purged(old(cache), InspectUrl(serviceUrl))
      ensures cached == Reusable(old(cache), InspectUrl(serviceUrl))
      ensures var inspectUrl := InspectUrl(serviceUrl);
              if inspectUrl !in old(cache) then cached == None && cache == old(cache)
              else
                var entry := old(cache)[inspectUrl];
                var safe := SafeTarget(entry.finalUrl, inspectUrl);
                if safe && Storable(entry.headers) then cached == Some(entry) && cache == old(cache)
                else cached == None && cache == old(cache) - {inspectUrl} - if safe then {entry.finalUrl} else {}
    {
      var inspectUrl := InspectUrl(serviceUrl);
      cached := if inspectUrl in cache then Some(cache[inspectUrl]) else None;
      if cached.Some? && (!SafeTarget(cached.value.finalUrl, inspectUrl) || !Storable(cached.value.headers)) {
        cache := cache - {inspectUrl};
        if cached.value.finalUrl != inspectUrl && SafeTarget(cached.value.finalUrl, inspectUrl) {
          cache := cache - {cached.value.finalUrl};
        }
        cached := None;
      }
    }

    method Inspect(w: World) returns (result: Result<Inspection>)
      modifies this
      ensures old(sent) <= sent
      ensures Inspected(result, cache, sent[|old(sent)|..]) == InspectOnce(w, serviceUrl, old(cache))
    {
      var inspectUrl := InspectUrl(serviceUrl);
      var cached := Reuse();
      if cached.Some? && Fresh(cached.value.headers, cached.value.cachedAt, w.clock(0), w.date) {
        return FromEntry(w, serviceUrl, cached.value);
      }
      VisitsCareful(w, cached);
      var requests, entry := Follow(Visits(w, cached), if cached.Some? then cached.value.finalUrl else inspectUrl);
      sent := sent + requests;
      if entry == None { return Err; }
      result := FromEntry(w, serviceUrl, entry.value);
      if result.Ok? { Store(inspectUrl, cached, entry.value); }
    }

    /** Any number of inspections in a row. */
    method InspectAll(worlds: seq<World>)
      requires IsServiceUrl(serviceUrl) && cache == map[]
      modifies this
      ensures cache == CacheAfter(serviceUrl, worlds) && CacheOk(cache, InspectUrl(serviceUrl))
      ensures |sent| <= |old(sent)| + 6 * |worlds|
    {
      for i := 0 to |worlds|
        invariant cache == CacheAfter(serviceUrl, worlds[..i])
        invariant |sent| <= |old(sent)| + 6 * i
      {
        RequestsBounded(worlds[i], serviceUrl, cache);
        assert worlds[..i + 1][..i] == worlds[..i];
        var _ := Inspect(worlds[i]);
      }
      assert worlds[..|worlds|] == worlds;
      SessionCacheOk(serviceUrl, worlds);
    }

    method Store(inspectUrl: Url, previous: Option<Entry>, entry: Entry)
      modifies this`cache
      ensures cache == Updated(old(cache), inspectUrl, previous, entry)
    {
      if previous.Some? && previous.value.finalUrl != inspectUrl && previous.value.finalUrl != entry.finalUrl {
        cache := cache - {previous.value.finalUrl};
      }
      var keys := [inspectUrl];
      if entry.finalUrl != inspectUrl { keys := keys + [entry.finalUrl]; }
      ghost var kept := cache;
      SaveUnder(keys, entry);
      assert keys[..1] == [inspectUrl] && keys[..0] == [];
      assert Saved(kept, keys[..1], entry) == SavedOne(kept, inspectUrl, entry);
    }

    method SaveUnder(keys: seq<Url>, entry: Entry)
      modifies this`cache
      ensures cache == Saved(old(cache), keys, entry)
    {
      for i := 0 to |keys|
        invariant cache == Saved(old(cache), keys[..i], entry)
      {
        assert keys[..i + 1][..i] == keys[..i];
        if !Storable(entry.headers) {
          cache := cache - {keys[i]};
        } else {
          cache := cache[keys[i] := entry];
        }
      }
      assert keys[..|keys|] == keys;
    }
  }

  function SavedOne(cache: Cache, key: Url, entry: Entry): Cache {
    if Storable(entry.headers) then cache[key := entry] else cache - {key}
  }

  function Saved(cache: Cache, keys: seq<Url>, entry: Entry): Cache {
    if keys == [] then cache else SavedOne(Saved(cache, keys[..|keys| - 1], entry), keys[|keys| - 1], entry)
  }

  /** The redirect loop; its bound is never overrun. */
  method Follow(visit: Visitor, start: Url) returns (requests: seq<Url>, entry: Option<Entry>)
    requires Careful(visit)
    ensures Fetched(requests, entry) == Fetch(visit, start, 0)
    ensures 1 <= |requests| <= MAXIMUM_REDIRECTS + 1 && Chain(requests)
  {
    requests, entry := FollowLoop(visit, start);
    FetchChain(visit, start, 0);
  }

  method FollowLoop(visit: Visitor, start: Url) returns (requests: seq<Url>, entry: Option<Entry>)
    requires Careful(visit)
    ensures Fetched(requests, entry) == Fetch(visit, start, 0)
  {
    var current := start;
    requests := [];
    for redirects := 0 to MAXIMUM_REDIRECTS + 1
      invariant redirects <= MAXIMUM_REDIRECTS
      invariant Fetch(visit, start, 0).entry == Fetch(visit, current, redirects).entry
      invariant Fetch(visit, start, 0).sent == requests + Fetch(visit, current, redirects).sent
    {
      requests := requests + [current];
      var hop := visit(current, redirects);
      if hop.Stop? { return requests, hop.entry; }
      current := hop.next;
    }
    assert false;
  }
}
