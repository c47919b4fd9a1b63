/**
Cached response metadata and its freshness, after RFC 9111 sections 4.2 and 4.2.3, with the integer
conversions of the Agent's implementation.
*/
module Freshness {
  import opened Common
  import opened CacheControl

  const U64_MAX: int := 0xffff_ffff_ffff_ffff
  const I64_MAX: int := 0x7fff_ffff_ffff_ffff

  /** The longest duration that can be represented. */
  const MAX_DURATION: int := I64_MAX * SECOND + 999_999_999

  /** Instants lie in the years -9999 to 9999. */
  type Instant = x: int | -377_705_116_800 * SECOND <= x < 253_402_300_800 * SECOND

  /** A reader of the HTTP date format. */
  type DateReader = Bytes -> Option<Instant>

  const DEFAULT_LIFETIME: int := 300 * SECOND

  datatype Name =
    | CacheControlField | Age | Date | Expires | ETag | LastModified | Vary | ContentType
    | OtherField(name: string)

  /** Fields by name, each with its lines in order. A name without lines is absent. */
  type Headers = map<Name, seq<Bytes>>

  const CACHED: seq<Name> := [CacheControlField, Age, Date, Expires, ETag, LastModified, Vary]

  function Lines(headers: Headers, name: Name): seq<Bytes> {
    if name in headers then headers[name] else []
  }

  // ----- Decimal numbers

  predicate IsDigit(b: Byte) {
    0x30 <= b <= 0x39
  }

  function DecimalValue(s: Bytes): int
    requires forall i :: 0 <= i < |s| ==> IsDigit(s[i])
  {
    if s == [] then 0 else
    var last: int := s[|s| - 1];
    DecimalValue(s[..|s| - 1]) * 10 + (last - 0x30)
  }

  /** A nonempty string of digits that fits an unsigned 64-bit number. */
  function DecimalSeconds(s: Bytes): Option<int> {
    if s != [] && (forall i :: 0 <= i < |s| ==> IsDigit(s[i])) && DecimalValue(s) <= U64_MAX
    then Some(DecimalValue(s)) else None
  }

  function Digits(n: nat): (s: Bytes)
    ensures s != [] && forall i :: 0 <= i < |s| ==> IsDigit(s[i])
    decreases n
  {
    (if n < 10 then [] else Digits(n / 10)) + [0x30 + n % 10]
  }

  lemma {:induction false} DigitsValue(n: nat)
    ensures DecimalValue(Digits(n)) == n
    decreases n
  {
    var s := Digits(n);
    assert s[..|s| - 1] == if n < 10 then [] else Digits(n / 10);
    if n >= 10 { DigitsValue(n / 10); }
  }

  // ----- Field access

  predicate IsVisible(b: Byte) {
    b == 0x09 || 0x20 <= b < 0x7f
  }

  predicate IsText(s: Bytes) {
    forall i :: 0 <= i < |s| ==> IsVisible(s[i])
  }

  /** All lines of a field as one string, when there is one and every line is text. */
  function FieldText(headers: Headers, name: Name): Option<Bytes> {
    var lines := Lines(headers, name);
    if lines != [] && (forall i :: 0 <= i < |lines| ==> IsText(lines[i])) then Some(Joined(lines)) else None
  }

  function AgeSeconds(headers: Headers): Option<int> {
    if Lines(headers, Age) == [] then Some(0) else
    match FieldText(headers, Age)
    case None => None
    case Some(text) => DecimalSeconds(Trim(text))
  }

  /** The instant a date field names; `date` reads the HTTP date format. */
  function FieldDate(headers: Headers, name: Name, date: DateReader): Option<Instant> {
    var lines := Lines(headers, name);
    if lines != [] && IsText(lines[0]) then date(lines[0]) else None
  }

  // ----- What is kept of a response

  /** A validation response has its own age and date, even when it states neither. */
  function KeptLines(response: Headers, prior: Option<Headers>, name: Name): seq<Bytes> {
    if Lines(response, name) != [] || name == Age || name == Date then Lines(response, name)
    else if prior.Some? then Lines(prior.value, name)
    else []
  }

  function KeptOf(response: Headers, prior: Option<Headers>, names: seq<Name>): Headers {
    map name | name in names && KeptLines(response, prior, name) != [] :: KeptLines(response, prior, name)
  }

  function Kept(response: Headers, prior: Option<Headers>): Headers {
    KeptOf(response, prior, CACHED)
  }

  /** Whole seconds of a duration, toward zero, and never negative. */
  function DelaySeconds(d: int): nat {
    if d >= 0 then d / SECOND else 0
  }

  function SaturatingSum(age: int, delay: nat): int {
    if age + delay > U64_MAX then U64_MAX else age + delay
  }

  function CacheHeaders(response: Headers, prior: Option<Headers>, requested: Instant, received: Instant): Headers {
    var kept := Kept(response, prior);
    match AgeSeconds(kept)
    case None => kept
    case Some(age) =>
      var corrected := SaturatingSum(age, DelaySeconds(received - requested));
      if corrected < 0 then kept else kept[Age := [Digits(corrected)]]
  }

  lemma KeptOfAppend(response: Headers, prior: Option<Headers>, names: seq<Name>, name: Name)
    ensures var lines, front := KeptLines(response, prior, name), KeptOf(response, prior, names);
            KeptOf(response, prior, names + [name]) == if lines != [] then front[name := lines] else front
  {
  }

  /** The same built field by field. */
  method KeepHeaders(response: Headers, prior: Option<Headers>, names: seq<Name>) returns (headers: Headers)
    ensures headers == KeptOf(response, prior, names)
  {
    headers := map[];
    var i := 0;
    while i < |names|
      invariant 0 <= i <= |names|
      invariant headers == KeptOf(response, prior, names[..i])
    {
      assert names[..i + 1] == names[..i] + [names[i]];
      KeptOfAppend(response, prior, names[..i], names[i]);
      var name := names[i];
      var source := if Lines(response, name) != [] || name == Age || name == Date then Some(response) else prior;
      var lines := if source.Some? then Lines(source.value, name) else [];
      if lines != [] { headers := headers[name := lines]; }
      i := i + 1;
    }
    assert names[..|names|] == names;
  }

  method BuildCacheHeaders(response: Headers, prior: Option<Headers>, requested: Instant, received: Instant)
    returns (headers: Headers)
    ensures headers == CacheHeaders(response, prior, requested, received)
  {
    headers := KeepHeaders(response, prior, CACHED);
    var age := AgeSeconds(headers);
    if age.Some? {
      var corrected := SaturatingSum(age.value, DelaySeconds(received - requested));
      if corrected >= 0 { headers := headers[Age := [Digits(corrected)]]; }
    }
  }

  // ----- Storable and fresh

  function LowerByte(b: Byte): Byte {
    if 0x41 <= b <= 0x5a then b + 0x20 else b
  }

  predicate SameIgnoringCase(a: Bytes, b: Bytes) {
    |a| == |b| && forall i :: 0 <= i < |a| ==> LowerByte(a[i]) == LowerByte(b[i])
  }

  const NO_STORE: Bytes := [0x6e, 0x6f, 0x2d, 0x73, 0x74, 0x6f, 0x72, 0x65]
  const NO_CACHE: Bytes := [0x6e, 0x6f, 0x2d, 0x63, 0x61, 0x63, 0x68, 0x65]
  const MAX_AGE: Bytes := [0x6d, 0x61, 0x78, 0x2d, 0x61, 0x67, 0x65]

  predicate Mentions(ds: seq<Directive>, name: Bytes) {
    exists i :: 0 <= i < |ds| && SameIgnoringCase(ds[i].0, name)
  }

  /** The directives with a name, in order. */
  function Named(ds: seq<Directive>, name: Bytes): seq<Directive> {
    if ds == [] then []
    else (if SameIgnoringCase(ds[0].0, name) then [ds[0]] else []) + Named(ds[1..], name)
  }

  /** The parts of a text between its commas. */
  function Parts(s: Bytes, from: nat): seq<Bytes>
    requires from <= |s|
    decreases |s| - from
  {
    var end := NextComma(s, from);
    if end == |s| then [s[from..]] else [s[from..end]] + Parts(s, end + 1)
  }

  function NextComma(s: Bytes, from: nat): (end: nat)
    requires from <= |s|
    ensures from <= end <= |s| && (end < |s| ==> s[end] == COMMA)
    decreases |s| - from
  {
    if from == |s| || s[from] == COMMA then from else NextComma(s, from + 1)
  }

  predicate VariesOnEverything(headers: Headers) {
    var vary := FieldText(headers, Vary);
    vary.Some? && var parts := Parts(vary.value, 0); exists i :: 0 <= i < |parts| && Trim(parts[i]) == [0x2a]
  }

  predicate Storable(headers: Headers) {
    var ds := AllDirectives(Lines(headers, CacheControlField));
    ds.Some? && !Mentions(ds.value, NO_STORE) && !VariesOnEverything(headers)
  }

  function Max(a: int, b: int): int {
    if a < b then b else a
  }

  /** How long a response stays fresh, as a duration; none when that cannot be told. */
  function Lifetime(headers: Headers, cachedAt: Instant, date: DateReader): Option<int> {
    match AllDirectives(Lines(headers, CacheControlField))
    case None => None
    case Some(ds) =>
      var ages := Named(ds, MAX_AGE);
      if |ages| > 1 then None
      else if |ages| == 1 then
        var seconds := if ages[0].1.Some? then DecimalSeconds(ages[0].1.value) else None;
        if seconds.Some? && seconds.value <= I64_MAX then Some(seconds.value * SECOND) else None
      else if Lines(headers, Expires) != [] then
        match FieldDate(headers, Expires, date)
        case None => None
        case Some(expires) =>
          var made := FieldDate(headers, Date, date);
          Some(Max(expires - (if made.Some? then made.value else cachedAt), 0))
      else Some(DEFAULT_LIFETIME)
  }

  /** The age at receipt: what the Age field says, or what the Date field suggests if that is more. */
  function InitialAge(headers: Headers, cachedAt: Instant, date: DateReader): Option<int> {
    match AgeSeconds(headers)
    case None => None
    case Some(age) =>
      if age > I64_MAX then None else
      var made := FieldDate(headers, Date, date);
      Some(Max(Max(cachedAt - (if made.Some? then made.value else cachedAt), 0), age * SECOND))
  }

  function SaturatingDuration(a: int, b: int): int {
    if a + b > MAX_DURATION then MAX_DURATION else a + b
  }

  predicate Fresh(headers: Headers, cachedAt: Instant, now: Instant, date: DateReader) {
    Storable(headers) &&
    !Mentions(AllDirectives(Lines(headers, CacheControlField)).value, NO_CACHE) &&
    var lifetime, initial := Lifetime(headers, cachedAt, date), InitialAge(headers, cachedAt, date);
    lifetime.Some? && initial.Some? &&
    SaturatingDuration(initial.value, Max(now - cachedAt, 0)) < lifetime.value
  }

  // ----- What it means

  /** Reading back a rendered age gives the age. */
  lemma AgeReadsBack(headers: Headers, n: nat)
    requires Lines(headers, Age) == [Digits(n)] && n <= U64_MAX
    ensures AgeSeconds(headers) == Some(n)
  {
    DigitsValue(n);
    var s := Digits(n);
    assert Joined([s]) == s;
    assert Trim(s) == s;
  }

  lemma {:induction false} DecimalValueNatural(s: Bytes)
    requires forall i :: 0 <= i < |s| ==> IsDigit(s[i])
    ensures DecimalValue(s) >= 0
  {
    if s != [] { DecimalValueNatural(s[..|s| - 1]); }
  }

  lemma AgeNatural(headers: Headers)
    ensures AgeSeconds(headers).Some? ==> 0 <= AgeSeconds(headers).value <= U64_MAX
  {
    if Lines(headers, Age) != [] && FieldText(headers, Age).Some? {
      var text := Trim(FieldText(headers, Age).value);
      if DecimalSeconds(text).Some? { DecimalValueNatural(text); }
    }
  }

  /** The stored age is the response's own age and the request delay, as far as 64 bits reach. */
  lemma StoredAge(response: Headers, prior: Option<Headers>, requested: Instant, received: Instant)
    ensures AgeSeconds(CacheHeaders(response, prior, requested, received)) ==
            match AgeSeconds(response)
            case None => None
            case Some(age) => Some(SaturatingSum(age, DelaySeconds(received - requested)))
  {
    var kept := Kept(response, prior);
    assert Lines(kept, Age) == Lines(response, Age);
    assert AgeSeconds(kept) == AgeSeconds(response);
    AgeNatural(kept);
    if AgeSeconds(kept).Some? {
      var corrected := SaturatingSum(AgeSeconds(kept).value, DelaySeconds(received - requested));
      AgeReadsBack(CacheHeaders(response, prior, requested, received), corrected);
    }
  }

  /** No lifetime reaches the longest duration, so a saturated age is never fresh. */
  lemma LifetimeBounded(headers: Headers, cachedAt: Instant, date: DateReader)
    ensures var l := Lifetime(headers, cachedAt, date); l.Some? ==> l.value < MAX_DURATION
  {
  }

  lemma FreshBelow(headers: Headers, cachedAt: Instant, now: Instant, date: DateReader)
    requires Fresh(headers, cachedAt, now, date)
    ensures Lifetime(headers, cachedAt, date).Some? && InitialAge(headers, cachedAt, date).Some?
    ensures InitialAge(headers, cachedAt, date).value + Max(now - cachedAt, 0) < Lifetime(headers, cachedAt, date).value
  {
    LifetimeBounded(headers, cachedAt, date);
  }

  lemma InitialAgeCoversAge(headers: Headers, cachedAt: Instant, date: DateReader)
    requires InitialAge(headers, cachedAt, date).Some?
    ensures AgeSeconds(headers).Some? && AgeSeconds(headers).value <= I64_MAX
    ensures AgeSeconds(headers).value * SECOND <= InitialAge(headers, cachedAt, date).value
  {
  }

  /**
  A fresh entry is younger than its lifetime: its own age, the whole seconds its request took and the
  time it has been kept add up to less, with no saturation or conversion in the way.
  */
  lemma FreshMeansYoung(response: Headers, prior: Option<Headers>, requested: Instant, received: Instant, now: Instant,
                        date: DateReader)
    requires requested <= received <= now
    ensures var headers := CacheHeaders(response, prior, requested, received);
            Fresh(headers, received, now, date) ==>
              && AgeSeconds(response).Some? && Lifetime(headers, received, date).Some?
              && (AgeSeconds(response).value + (received - requested) / SECOND) * SECOND + (now - received)
                   < Lifetime(headers, received, date).value
              && (FieldDate(headers, Date, date).Some? ==>
                    now - FieldDate(headers, Date, date).value < Lifetime(headers, received, date).value)
  {
    var headers := CacheHeaders(response, prior, requested, received);
    if Fresh(headers, received, now, date) {
      FreshBelow(headers, received, now, date);
      InitialAgeCoversAge(headers, received, date);
      StoredAge(response, prior, requested, received);
      assert AgeSeconds(headers).value == AgeSeconds(response).value + (received - requested) / SECOND;
    }
  }

  /** Once stale, an entry stays stale. */
  lemma StaleStaysStale(headers: Headers, cachedAt: Instant, now: Instant, later: Instant, date: DateReader)
    requires now <= later && !Fresh(headers, cachedAt, now, date)
    ensures !Fresh(headers, cachedAt, later, date)
  {
  }

  /** When an entry turns stale; none when it never is fresh. */
  function Deadline(headers: Headers, cachedAt: Instant, date: DateReader): Option<int> {
    var lifetime, initial := Lifetime(headers, cachedAt, date), InitialAge(headers, cachedAt, date);
    if Storable(headers) && !Mentions(AllDirectives(Lines(headers, CacheControlField)).value, NO_CACHE)
       && lifetime.Some? && initial.Some?
    then Some(cachedAt + lifetime.value - initial.value) else None
  }

  /** From its receipt on, an entry is fresh exactly until one fixed instant. */
  lemma FreshUntilDeadline(headers: Headers, cachedAt: Instant, now: Instant, date: DateReader)
    requires cachedAt <= now
    ensures Fresh(headers, cachedAt, now, date) <==>
            Deadline(headers, cachedAt, date).Some? && now < Deadline(headers, cachedAt, date).value
  {
    LifetimeBounded(headers, cachedAt, date);
  }

  // ----- The same, from the fields

  /** The names as they are spelled. */
  lemma NamesSpelled(noStore: string, noCache: string, maxAge: string)
    requires noStore == "no-store" && noCache == "no-cache" && maxAge == "max-age"
    ensures |NO_STORE| == |noStore| && forall i :: 0 <= i < |noStore| ==> NO_STORE[i] == noStore[i] as int
    ensures |NO_CACHE| == |noCache| && forall i :: 0 <= i < |noCache| ==> NO_CACHE[i] == noCache[i] as int
    ensures |MAX_AGE| == |maxAge| && forall i :: 0 <= i < |maxAge| ==> MAX_AGE[i] == maxAge[i] as int
  {
  }

  /** Position `i` holds a directive of this name in any case. */
  predicate IsNamed(ds: seq<Directive>, name: Bytes, i: int) {
    0 <= i < |ds| && SameIgnoringCase(ds[i].0, name)
  }

  /** Exactly one position does. */
  ghost predicate Lone(ds: seq<Directive>, name: Bytes, i: int) {
    IsNamed(ds, name, i) && forall j :: IsNamed(ds, name, j) ==> j == i
  }

  lemma RestNamed(ds: seq<Directive>, name: Bytes)
    requires ds != []
    ensures forall i :: IsNamed(ds[1..], name, i) <==> i >= 0 && IsNamed(ds, name, i + 1)
  {
  }

  lemma {:induction false} NamedNone(ds: seq<Directive>, name: Bytes)
    requires forall i :: !IsNamed(ds, name, i)
    ensures Named(ds, name) == []
  {
    if ds != [] {
      assert !IsNamed(ds, name, 0);
      RestNamed(ds, name);
      NamedNone(ds[1..], name);
    }
  }

  lemma {:induction false} NamedLone(ds: seq<Directive>, name: Bytes, i: nat)
    requires Lone(ds, name, i)
    ensures Named(ds, name) == [ds[i]]
  {
    RestNamed(ds, name);
    if i == 0 {
      forall j ensures !IsNamed(ds[1..], name, j) { assert IsNamed(ds, name, j + 1) ==> j + 1 == 0; }
      NamedNone(ds[1..], name);
    } else {
      assert !IsNamed(ds, name, 0);
      assert Lone(ds[1..], name, i - 1) by {
        forall j | IsNamed(ds[1..], name, j) ensures j == i - 1 { assert IsNamed(ds, name, j + 1); }
      }
      NamedLone(ds[1..], name, i - 1);
    }
  }

  lemma {:induction false} NamedSome(ds: seq<Directive>, name: Bytes, i: nat)
    requires IsNamed(ds, name, i)
    ensures |Named(ds, name)| > 0
  {
    if i > 0 { NamedSome(ds[1..], name, i - 1); }
  }

  lemma {:induction false} NamedTwice(ds: seq<Directive>, name: Bytes, i: nat, j: nat)
    requires i < j && IsNamed(ds, name, i) && IsNamed(ds, name, j)
    ensures |Named(ds, name)| > 1
  {
    if i == 0 { NamedSome(ds[1..], name, j - 1); } else { NamedTwice(ds[1..], name, i - 1, j - 1); }
  }

  lemma MaxAgeRead(headers: Headers, cachedAt: Instant, date: DateReader, ds: seq<Directive>, i: int, n: nat)
    requires AllDirectives(Lines(headers, CacheControlField)) == Some(ds)
    requires Lone(ds, MAX_AGE, i) && ds[i].1 == Some(Digits(n))
    ensures Lifetime(headers, cachedAt, date) == if n <= I64_MAX then Some(n * SECOND) else None
  {
    LoneMaxAge(headers, cachedAt, date, ds, i);
    DigitsRead(n);
  }

  /** A rendered number reads back unless it does not fit. */
  lemma DigitsRead(n: nat)
    ensures DecimalSeconds(Digits(n)) == if n <= U64_MAX then Some(n) else None
  {
    DigitsValue(n);
  }

  function MaxAgeOf(argument: Option<Bytes>): Option<int> {
    var seconds := if argument.Some? then DecimalSeconds(argument.value) else None;
    if seconds.Some? && seconds.value <= I64_MAX then Some(seconds.value * SECOND) else None
  }

  lemma LoneMaxAge(headers: Headers, cachedAt: Instant, date: DateReader, ds: seq<Directive>, i: int)
    requires AllDirectives(Lines(headers, CacheControlField)) == Some(ds) && Lone(ds, MAX_AGE, i)
    ensures Lifetime(headers, cachedAt, date) == MaxAgeOf(ds[i].1)
  {
    NamedLone(ds, MAX_AGE, i);
  }

  /**
  The lifetime of a response whose Cache-Control parses: one max-age in whole seconds goes first; several,
  or one that is no number, leave none; without one it is Expires less Date, never negative; and without
  that five minutes.
  */
  lemma LifetimeIs(headers: Headers, cachedAt: Instant, date: DateReader, ds: seq<Directive>)
    requires AllDirectives(Lines(headers, CacheControlField)) == Some(ds)
    ensures forall i, n: nat :: Lone(ds, MAX_AGE, i) && ds[i].1 == Some(Digits(n)) ==>
              Lifetime(headers, cachedAt, date) == if n <= I64_MAX then Some(n * SECOND) else None
    ensures forall i :: Lone(ds, MAX_AGE, i) && (ds[i].1.None? || DecimalSeconds(ds[i].1.value).None?) ==>
              Lifetime(headers, cachedAt, date) == None
    ensures forall i, j :: IsNamed(ds, MAX_AGE, i) && IsNamed(ds, MAX_AGE, j) && i != j ==>
              Lifetime(headers, cachedAt, date) == None
    ensures (forall i :: !IsNamed(ds, MAX_AGE, i)) ==>
              Lifetime(headers, cachedAt, date) == WithoutMaxAge(headers, cachedAt, date)
  {
    forall i, n: nat | Lone(ds, MAX_AGE, i) && ds[i].1 == Some(Digits(n))
      ensures Lifetime(headers, cachedAt, date) == if n <= I64_MAX then Some(n * SECOND) else None
    {
      MaxAgeRead(headers, cachedAt, date, ds, i, n);
    }
    forall i | Lone(ds, MAX_AGE, i) && (ds[i].1.None? || DecimalSeconds(ds[i].1.value).None?)
      ensures Lifetime(headers, cachedAt, date) == None
    {
      LoneMaxAge(headers, cachedAt, date, ds, i);
    }
    forall i, j | IsNamed(ds, MAX_AGE, i) && IsNamed(ds, MAX_AGE, j) && i != j
      ensures Lifetime(headers, cachedAt, date) == None
    {
      SeveralMaxAges(headers, cachedAt, date, ds, if i < j then i else j, if i < j then j else i);
    }
    if forall i :: !IsNamed(ds, MAX_AGE, i) { NoMaxAge(headers, cachedAt, date, ds); }
  }

  lemma SeveralMaxAges(headers: Headers, cachedAt: Instant, date: DateReader, ds: seq<Directive>, i: nat, j: nat)
    requires AllDirectives(Lines(headers, CacheControlField)) == Some(ds)
    requires i < j && IsNamed(ds, MAX_AGE, i) && IsNamed(ds, MAX_AGE, j)
    ensures Lifetime(headers, cachedAt, date) == None
  {
    NamedTwice(ds, MAX_AGE, i, j);
  }

  /** The lifetime that Expires gives, or the default. */
  function WithoutMaxAge(headers: Headers, cachedAt: Instant, date: DateReader): Option<int> {
    if Lines(headers, Expires) == [] then Some(300 * SECOND)
    else if FieldDate(headers, Expires, date).None? then None
    else
      var made := if FieldDate(headers, Date, date).Some? then FieldDate(headers, Date, date).value else cachedAt;
      var left := FieldDate(headers, Expires, date).value - made;
      Some(if left < 0 then 0 else left)
  }

  lemma NoMaxAge(headers: Headers, cachedAt: Instant, date: DateReader, ds: seq<Directive>)
    requires AllDirectives(Lines(headers, CacheControlField)) == Some(ds)
    requires forall i :: !IsNamed(ds, MAX_AGE, i)
    ensures Lifetime(headers, cachedAt, date) == WithoutMaxAge(headers, cachedAt, date)
  {
    NamedNone(ds, MAX_AGE);
  }

  /** A stretch of text between two commas, or an end, that is a star but for spaces. */
  ghost predicate StarBetween(s: Bytes, from: int, to: int) {
    && 0 <= from <= to <= |s| && (from == 0 || s[from - 1] == COMMA) && (to == |s| || s[to] == COMMA)
    && COMMA !in s[from..to] && Trim(s[from..to]) == [0x2a]
  }

  ghost predicate StarFrom(s: Bytes, from: int) {
    exists i, j :: from <= i && StarBetween(s, i, j)
  }

  predicate StarPart(parts: seq<Bytes>) {
    exists i :: 0 <= i < |parts| && Trim(parts[i]) == [0x2a]
  }

  lemma {:induction false} NextCommaIsNext(s: Bytes, from: nat)
    requires from <= |s|
    ensures forall k :: from <= k < NextComma(s, from) ==> s[k] != COMMA
    ensures COMMA !in s[from..NextComma(s, from)]
    decreases |s| - from
  {
    if from < |s| && s[from] != COMMA {
      NextCommaIsNext(s, from + 1);
    }
  }

  /** A stretch that starts at or after `from` is the first one, or starts after its comma. */
  lemma StretchStarts(s: Bytes, from: nat, i: int, j: int)
    requires from <= |s| && from <= i && StarBetween(s, i, j)
    ensures var end := NextComma(s, from); (i == from && j == end) || (end < |s| && end + 1 <= i)
  {
    var end := NextComma(s, from);
    NextCommaIsNext(s, from);
  }

  lemma StarFromSteps(s: Bytes, from: nat)
    requires from <= |s| && (from == 0 || s[from - 1] == COMMA)
    ensures var end := NextComma(s, from);
            StarFrom(s, from) <==> Trim(s[from..end]) == [0x2a] || (end < |s| && StarFrom(s, end + 1))
  {
    var end := NextComma(s, from);
    NextCommaIsNext(s, from);
    if StarFrom(s, from) {
      var i, j :| from <= i && StarBetween(s, i, j);
      StretchStarts(s, from, i, j);
    }
    if Trim(s[from..end]) == [0x2a] { assert StarBetween(s, from, end); }
  }

  lemma StarPartSteps(part: Bytes, rest: seq<Bytes>)
    ensures StarPart([part] + rest) <==> Trim(part) == [0x2a] || StarPart(rest)
  {
    var all := [part] + rest;
    assert all[0] == part && forall i :: 0 <= i < |rest| ==> all[i + 1] == rest[i];
    assert forall i :: 0 < i < |all| ==> all[i] == rest[i - 1];
  }

  lemma {:induction false} PartsExactly(s: Bytes, from: nat)
    requires from <= |s| && (from == 0 || s[from - 1] == COMMA)
    ensures StarPart(Parts(s, from)) <==> StarFrom(s, from)
    decreases |s| - from
  {
    var end := NextComma(s, from);
    StarFromSteps(s, from);
    if end == |s| {
      assert s[from..] == s[from..end];
      assert Parts(s, from) == [s[from..end]] + [];
      StarPartSteps(s[from..end], []);
    } else {
      PartsExactly(s, end + 1);
      StarPartSteps(s[from..end], Parts(s, end + 1));
    }
  }

  lemma MentionsIff(ds: seq<Directive>, name: Bytes)
    ensures Mentions(ds, name) <==> exists i :: IsNamed(ds, name, i)
  {
    if Mentions(ds, name) {
      var i :| 0 <= i < |ds| && SameIgnoringCase(ds[i].0, name);
      assert IsNamed(ds, name, i);
    }
  }

  /** What may be stored: Cache-Control parses and never says no-store, and Vary holds no star. */
  lemma StorableIff(headers: Headers)
    ensures Storable(headers) <==>
      && AllDirectives(Lines(headers, CacheControlField)).Some?
      && (forall i :: !IsNamed(AllDirectives(Lines(headers, CacheControlField)).value, NO_STORE, i))
      && var vary := FieldText(headers, Vary); !(vary.Some? && StarFrom(vary.value, 0))
  {
    var vary := FieldText(headers, Vary);
    if vary.Some? {
      PartsExactly(vary.value, 0);
      assert VariesOnEverything(headers) <==> StarPart(Parts(vary.value, 0));
    }
    if AllDirectives(Lines(headers, CacheControlField)).Some? {
      MentionsIff(AllDirectives(Lines(headers, CacheControlField)).value, NO_STORE);
    }
  }

  /** Saturation decides nothing: below every lifetime it does not occur, and above it is never below one. */
  lemma SumDecides(initial: int, resident: nat, lifetime: int)
    requires lifetime < MAX_DURATION
    ensures SaturatingDuration(initial, resident) < lifetime <==> initial + resident < lifetime
  {
  }

  /**
  When an entry is fresh, from the fields: it may be stored, no directive says no-cache, its lifetime and
  age can be told, and since its receipt less time has passed than its lifetime leaves beyond the greater
  of its stated age and the time since it was made.
  */
  lemma FreshIff(headers: Headers, cachedAt: Instant, now: Instant, date: DateReader)
    requires cachedAt <= now
    ensures Fresh(headers, cachedAt, now, date) <==>
      && Storable(headers)
      && (forall i :: !IsNamed(AllDirectives(Lines(headers, CacheControlField)).value, NO_CACHE, i))
      && AgeSeconds(headers).Some? && AgeSeconds(headers).value <= I64_MAX
      && Lifetime(headers, cachedAt, date).Some?
      && Younger(headers, cachedAt, now, date, AgeSeconds(headers).value, Lifetime(headers, cachedAt, date).value)
  {
    if Storable(headers) {
      MentionsIff(AllDirectives(Lines(headers, CacheControlField)).value, NO_CACHE);
      FreshAge(headers, cachedAt, now, date);
    }
  }

  lemma FreshAge(headers: Headers, cachedAt: Instant, now: Instant, date: DateReader)
    requires cachedAt <= now && Storable(headers)
    ensures Fresh(headers, cachedAt, now, date) <==>
      && !Mentions(AllDirectives(Lines(headers, CacheControlField)).value, NO_CACHE)
      && AgeSeconds(headers).Some? && AgeSeconds(headers).value <= I64_MAX
      && Lifetime(headers, cachedAt, date).Some?
      && Younger(headers, cachedAt, now, date, AgeSeconds(headers).value, Lifetime(headers, cachedAt, date).value)
  {
    LifetimeBounded(headers, cachedAt, date);
    var lifetime := Lifetime(headers, cachedAt, date);
    if lifetime.Some? { YoungerIff(headers, cachedAt, now, date, lifetime.value); }
  }

  lemma YoungerIff(headers: Headers, cachedAt: Instant, now: Instant, date: DateReader, lifetime: int)
    requires cachedAt <= now && lifetime < MAX_DURATION
    ensures var initial, age := InitialAge(headers, cachedAt, date), AgeSeconds(headers);
            && (initial.Some? <==> age.Some? && age.value <= I64_MAX)
            && (initial.Some? ==>
                  (SaturatingDuration(initial.value, Max(now - cachedAt, 0)) < lifetime
                   <==> Younger(headers, cachedAt, now, date, age.value, lifetime)))
  {
    AgeNatural(headers);
    var initial := InitialAge(headers, cachedAt, date);
    if initial.Some? { SumDecides(initial.value, now - cachedAt, lifetime); }
  }

  /** Younger than the lifetime by its stated age, by its Date, and by its time here. */
  predicate Younger(headers: Headers, cachedAt: Instant, now: Instant, date: DateReader, age: int, lifetime: int) {
    && age * SECOND + (now - cachedAt) < lifetime
    && (FieldDate(headers, Date, date).Some? ==> now - FieldDate(headers, Date, date).value < lifetime)
  }
}
