/** When an inspection is served from the cache, and exactly which exchanges with the Service make it succeed. */
module InspectOutcomes {
  import opened Common
  import opened CacheControl
  import opened Freshness
  import opened Inspect

  /** The cached entry may be used at all: its final URL is safe and its headers may be stored. */
  predicate HasUsable(cache: Cache, inspectUrl: Url) {
    inspectUrl in cache && SafeTarget(cache[inspectUrl].finalUrl, inspectUrl) && Storable(cache[inspectUrl].headers)
  }

  /** Read at the first clock reading, the usable entry has not reached its deadline. */
  predicate Unexpired(w: World, cache: Cache, inspectUrl: Url) {
    HasUsable(cache, inspectUrl) &&
    var entry := cache[inspectUrl];
    var deadline := Deadline(entry.headers, entry.cachedAt, w.date);
    deadline.Some? && w.clock(0) < deadline.value
  }

  /**
  An inspection sends nothing if and only if the cache holds a usable entry that, by the clock, has not
  reached its deadline. Then it answers that entry's document and leaves the cache alone; otherwise its
  first request goes to the final URL of a usable entry, or to the advertised URL.
  */
  lemma ServedFromCacheIff(w: World, service: Url, cache: Cache)
    requires InspectUrl(service) in cache ==> cache[InspectUrl(service)].cachedAt <= w.clock(0)
    ensures var i, inspectUrl := InspectOnce(w, service, cache), InspectUrl(service);
            && (i.sent == [] <==> Unexpired(w, cache, inspectUrl))
            && (i.sent == [] ==>
                  && i.cache == cache && (i.result.Ok? <==> Bound(w, cache[inspectUrl]))
                  && (i.result.Ok? ==>
                        && i.result.value.document == cache[inspectUrl].document
                        && i.result.value.finalUrl == cache[inspectUrl].finalUrl))
            && (i.sent != [] ==>
                  i.sent[0] == if HasUsable(cache, inspectUrl) then cache[inspectUrl].finalUrl else inspectUrl)
  {
    var inspectUrl := InspectUrl(service);
    var cached := Reusable(cache, inspectUrl);
    if cached.Some? {
      FreshUntilDeadline(cached.value.headers, cached.value.cachedAt, w.clock(0), w.date);
    }
    VisitsCareful(w, cached);
    FetchChain(Visits(w, cached), StartUrl(cached, inspectUrl), 0);
  }

  /** The Service DID of an entry is a did:web whose document has the origin that served the entry. */
  predicate Bound(w: World, entry: Entry) {
    && "did:web:" <= entry.document.serviceDid
    && w.didDocumentUrl(entry.document.serviceDid).Some?
    && SameOrigin(w.didDocumentUrl(entry.document.serviceDid).value, entry.finalUrl)
  }

  // ----- Exchanges

  /** The first ETag and the first Last-Modified line of a cached entry. */
  function Conditions(cached: Option<Entry>): Validators {
    match cached
    case None => Validators(None, None)
    case Some(entry) =>
      var tags, dates := Lines(entry.headers, ETag), Lines(entry.headers, LastModified);
      Validators(if tags == [] then None else Some(tags[0]), if dates == [] then None else Some(dates[0]))
  }

  /** The request at this URL, the `at`-th, was answered by a redirect that leads safely to the other. */
  predicate Leads(w: World, v: Validators, from: Url, at: nat, to: Url) {
    var answer := w.send(at, from, v);
    answer.Ok? && answer.value.finalUrl == from
    && answer.value.status in {301, 302, 303, 307, 308}
    && var locations := Lines(answer.value.headers, OtherField("location"));
       && locations != [] && IsText(locations[0]) && w.join(from, locations[0]) == Some(to) && SafeTarget(to, from)
  }

  /** It was answered with an entry: the cached document again after a 304, or a document of its own. */
  predicate Gives(w: World, v: Validators, cached: Option<Entry>, from: Url, at: nat, entry: Entry) {
    var answer := w.send(at, from, v);
    var requested, received := w.clock(2 * at + 1), w.clock(2 * at + 2);
    answer.Ok? && answer.value.finalUrl == from && entry.finalUrl == from && entry.cachedAt == received &&
    if answer.value.status == 304 then
      && cached.Some? && entry.document == cached.value.document
      && entry.headers == CacheHeaders(answer.value.headers, Some(cached.value.headers), requested, received)
    else
      && 200 <= answer.value.status < 300 && w.matchesMediaType(answer.value.headers)
      && |answer.value.body| <= w.maximumBytes && w.parse(answer.value.body) == Some(entry.document)
      && entry.headers == CacheHeaders(answer.value.headers, None, requested, received)
  }

  /** A chain of at most five redirects from `start`, the first request being the `at`-th, that ends in an entry. */
  ghost predicate Obtains(w: World, cached: Option<Entry>, start: Url, at: nat, urls: seq<Url>, entry: Entry) {
    && 1 <= |urls| <= 6 - at && urls[0] == start
    && (forall i :: 0 <= i < |urls| - 1 ==> Leads(w, Conditions(cached), urls[i], at + i, urls[i + 1]))
    && Gives(w, Conditions(cached), cached, urls[|urls| - 1], at + |urls| - 1, entry)
  }

  lemma VisitGoes(w: World, cached: Option<Entry>, from: Url, at: nat, to: Url)
    ensures Visited(w, cached, from, at) == Go(to) <==> at < 5 && Leads(w, Conditions(cached), from, at, to)
  {
  }

  lemma VisitGives(w: World, cached: Option<Entry>, from: Url, at: nat, entry: Entry)
    ensures Visited(w, cached, from, at) == Stop(Some(entry)) <==>
            Gives(w, Conditions(cached), cached, from, at, entry)
  {
  }

  /** The same chain, for any visitor. */
  ghost predicate Walks(visit: Visitor, start: Url, at: nat, urls: seq<Url>, entry: Entry) {
    && 1 <= |urls| <= 6 - at && urls[0] == start
    && (forall i :: 0 <= i < |urls| - 1 ==> visit(urls[i], at + i) == Go(urls[i + 1]))
    && visit(urls[|urls| - 1], at + |urls| - 1) == Stop(Some(entry))
  }

  lemma {:induction false} FetchWalks(visit: Visitor, start: Url, at: nat)
    requires Careful(visit) && at <= 5
    ensures var f := Fetch(visit, start, at); f.entry.Some? ==> Walks(visit, start, at, f.sent, f.entry.value)
    decreases 5 - at
  {
    var hop := visit(start, at);
    if hop.Go? {
      FetchWalks(visit, hop.next, at + 1);
      var f, rest := Fetch(visit, start, at), Fetch(visit, hop.next, at + 1).sent;
      assert f.sent == [start] + rest;
      if f.entry.Some? {
        forall i | 0 <= i < |f.sent| - 1 ensures visit(f.sent[i], at + i) == Go(f.sent[i + 1]) {
          if i > 0 { assert visit(rest[i - 1], at + 1 + (i - 1)) == Go(rest[i]); }
        }
      }
    }
  }

  lemma {:induction false} WalksFetch(visit: Visitor, start: Url, at: nat, urls: seq<Url>, entry: Entry)
    requires Walks(visit, start, at, urls, entry)
    ensures Fetch(visit, start, at) == Fetched(urls, Some(entry))
    decreases |urls|
  {
    if |urls| > 1 {
      assert visit(urls[0], at + 0) == Go(urls[1]);
      var rest := urls[1..];
      forall i | 0 <= i < |rest| - 1 ensures visit(rest[i], at + 1 + i) == Go(rest[i + 1]) {
        assert visit(urls[i + 1], at + (i + 1)) == Go(urls[i + 2]);
      }
      WalksFetch(visit, urls[1], at + 1, rest, entry);
    }
  }

  lemma WalksIff(w: World, cached: Option<Entry>, start: Url, urls: seq<Url>, entry: Entry)
    ensures Walks(Visits(w, cached), start, 0, urls, entry) <==> Obtains(w, cached, start, 0, urls, entry)
  {
    if 1 <= |urls| <= 6 {
      forall i | 0 <= i < |urls| - 1
        ensures Visits(w, cached)(urls[i], 0 + i) == Go(urls[i + 1]) <==>
                Leads(w, Conditions(cached), urls[i], 0 + i, urls[i + 1])
      {
        VisitGoes(w, cached, urls[i], i, urls[i + 1]);
      }
      VisitGives(w, cached, urls[|urls| - 1], |urls| - 1, entry);
    }
  }

  /** The usable entry, if the cache has one. */
  function UsableEntry(cache: Cache, inspectUrl: Url): Option<Entry> {
    if HasUsable(cache, inspectUrl) then Some(cache[inspectUrl]) else None
  }

  /** The chain this inspection would follow, from the usable entry's URL or the advertised one. */
  ghost predicate Exchange(w: World, service: Url, cache: Cache, urls: seq<Url>, entry: Entry) {
    var cached := UsableEntry(cache, InspectUrl(service));
    Obtains(w, cached, if cached.Some? then cached.value.finalUrl else InspectUrl(service), 0, urls, entry)
  }

  function FetchedHere(w: World, service: Url, cache: Cache): Fetched {
    var cached := Reusable(cache, InspectUrl(service));
    Fetch(Visits(w, cached), StartUrl(cached, InspectUrl(service)), 0)
  }

  lemma ExchangeIff(w: World, service: Url, cache: Cache, urls: seq<Url>, entry: Entry)
    ensures Exchange(w, service, cache, urls, entry) <==>
            FetchedHere(w, service, cache) == Fetched(urls, Some(entry))
  {
    var cached := Reusable(cache, InspectUrl(service));
    var start := StartUrl(cached, InspectUrl(service));
    VisitsCareful(w, cached);
    WalksIff(w, cached, start, urls, entry);
    FetchWalks(Visits(w, cached), start, 0);
    if Walks(Visits(w, cached), start, 0, urls, entry) { WalksFetch(Visits(w, cached), start, 0, urls, entry); }
  }

  /** What an inspection makes of the chain it followed. */
  lemma FetchedOutcome(w: World, service: Url, cache: Cache)
    ensures var i, f := InspectOnce(w, service, cache), FetchedHere(w, service, cache);
            i.sent != [] ==>
              && i.sent == f.sent
              && (i.result.Ok? <==> f.entry.Some? && Bound(w, f.entry.value))
              && (i.result.Ok? ==> Answers(i, InspectUrl(service), f.entry.value))
  {
  }

  /** The answer is the entry's, and the cache holds it under both its URLs unless it may not be stored. */
  ghost predicate Answers(i: Inspected, inspectUrl: Url, entry: Entry) {
    && i.result.Ok?
    && i.result.value.document == entry.document && i.result.value.finalUrl == entry.finalUrl
    && forall url :: url == inspectUrl || url == entry.finalUrl ==>
         if Storable(entry.headers) then url in i.cache && i.cache[url] == entry else url !in i.cache
  }

  /**
  An inspection that sends anything succeeds if and only if some chain of at most five safe redirects, asked
  with the usable entry's validators, ends in an entry whose Service DID is bound to its origin. It then
  sent exactly that chain, answers that entry, and stores it, if it may be stored, under both its URLs.
  */
  lemma SucceedsIff(w: World, service: Url, cache: Cache)
    ensures var i := InspectOnce(w, service, cache);
            i.sent != [] ==>
              (i.result.Ok? <==> exists urls, entry :: Exchange(w, service, cache, urls, entry) && Bound(w, entry))
    ensures forall urls, entry :: Exchange(w, service, cache, urls, entry) ==>
              var i := InspectOnce(w, service, cache);
              i.sent != [] ==>
                && i.sent == urls && (i.result.Ok? <==> Bound(w, entry))
                && (i.result.Ok? ==> Answers(i, InspectUrl(service), entry))
  {
    FetchedOutcome(w, service, cache);
    var f := FetchedHere(w, service, cache);
    if f.entry.Some? { ExchangeIff(w, service, cache, f.sent, f.entry.value); }
    forall urls, entry | Exchange(w, service, cache, urls, entry) ensures f == Fetched(urls, Some(entry)) {
      ExchangeIff(w, service, cache, urls, entry);
    }
  }
}
