/** The Agent DIDs a Platform mints, the URLs it publishes their documents at, and the check that they agree. */
module AgentDid {
  import opened Common
  import opened Text
  import opened DidWeb

  const PLACEHOLDER := "{agent_did_id}"

  // ----- Minting

  function Trim(s: string): string {
    if s != "" && s[0] == '/' then Trim(s[1..])
    else if s != "" && s[|s| - 1] == '/' then Trim(s[..|s| - 1])
    else s
  }

  function NonEmpty(parts: seq<string>): (r: seq<string>)
    ensures forall part :: part in r <==> part in parts && part != ""
  {
    if parts == [] then []
    else
      var front := NonEmpty(parts[..|parts| - 1]);
      if parts[|parts| - 1] == "" then front else front + [parts[|parts| - 1]]
  }

  function PrefixParts(prefix: string): seq<string> {
    NonEmpty(Split(Trim(prefix), '/'))
  }

  predicate AllBytes(parts: seq<string>) {
    forall i :: 0 <= i < |parts| ==> Bytes(parts[i])
  }

  function EncodeAll(parts: seq<string>): (r: seq<string>)
    requires AllBytes(parts)
    ensures |r| == |parts|
  {
    seq(|parts|, i requires 0 <= i < |parts| => Encode(parts[i]))
  }

  lemma TrimBytes(s: string)
    requires Bytes(s)
    ensures Bytes(Trim(s))
  {}

  lemma SplitBytes(s: string, separator: char)
    requires Bytes(s)
    ensures AllBytes(Split(s, separator))
  {
    forall i, k | 0 <= i < |Split(s, separator)| && 0 <= k < |Split(s, separator)[i]|
      ensures Split(s, separator)[i][k] as int < 256
    {
      SplitTakes(s, separator, i, k);
    }
  }

  lemma NonEmptyBytes(parts: seq<string>)
    requires AllBytes(parts)
    ensures AllBytes(NonEmpty(parts))
  {
    forall i | 0 <= i < |NonEmpty(parts)| ensures Bytes(NonEmpty(parts)[i]) {
      assert NonEmpty(parts)[i] in parts;
    }
  }

  lemma PrefixBytes(prefix: string)
    requires Bytes(prefix)
    ensures AllBytes(PrefixParts(prefix))
  {
    TrimBytes(prefix);
    SplitBytes(Trim(prefix), '/');
    NonEmptyBytes(Split(Trim(prefix), '/'));
  }

  /** Host and prefix as configured. */
  datatype Naming = Naming(host: string, prefix: string) {
    predicate Valid() { Bytes(host) && Bytes(prefix) }
  }

  function Mint(n: Naming, id: string, parser: UrlParser): Result<string>
    requires n.Valid() && Bytes(id)
  {
    PrefixBytes(n.prefix);
    if n.host == "" || id == "" || parser.authority(n.host) != Some(n.host) then Err
    else Ok("did:web:" + Join([Encode(n.host)] + EncodeAll(PrefixParts(n.prefix)) + [Encode(id)], ':'))
  }

  lemma JoinTwo(all: seq<string>)
    requires |all| > 2
    ensures Join(all, ':') == all[0] + [':'] + (all[1] + [':'] + Join(all[2..], ':'))
  {
    assert all[1..][1..] == all[2..];
  }

  lemma SchemeText(s: string)
    ensures "did" + [':'] + ("web" + [':'] + s) == "did:web:" + s
  {}

  method PushParts(parts: seq<string>, all: seq<string>) returns (r: seq<string>)
    requires AllBytes(all)
    ensures AllBytes(NonEmpty(all)) && r == parts + EncodeAll(NonEmpty(all))
  {
    r := parts;
    for i := 0 to |all|
      invariant AllBytes(NonEmpty(all[..i])) && r == parts + EncodeAll(NonEmpty(all[..i]))
    {
      assert all[..i + 1][..i] == all[..i];
      if all[i] != "" {
        r := r + [Encode(all[i])];
      }
    }
    assert all[..|all|] == all;
  }

  method CreateServiceScopedAgentDid(n: Naming, id: string, parser: UrlParser) returns (r: Result<string>)
    requires n.Valid() && Bytes(id)
    ensures r == Mint(n, id, parser)
  {
    if n.host == "" || id == "" || parser.authority(n.host) != Some(n.host) { return Err; }
    TrimBytes(n.prefix);
    SplitBytes(Trim(n.prefix), '/');
    var parts := PushParts(["did", "web", Encode(n.host)], Split(Trim(n.prefix), '/'));
    parts := parts + [Encode(id)];
    ghost var rest := [Encode(n.host)] + EncodeAll(PrefixParts(n.prefix)) + [Encode(id)];
    assert parts[2..] == rest;
    JoinTwo(parts);
    SchemeText(Join(rest, ':'));
    return Ok(Join(parts, ':'));
  }

  // ----- Minted identifiers resolve

  function Slashed(parts: seq<string>): string {
    if parts == [] then "" else parts[0] + "/" + Slashed(parts[1..])
  }

  lemma {:induction false} JoinSlashed(parts: seq<string>, last: string)
    ensures Join(parts + [last], '/') == Slashed(parts) + last
  {
    if parts != [] {
      assert (parts + [last])[1..] == parts[1..] + [last];
      JoinSlashed(parts[1..], last);
    }
  }

  /** Everything before the identifier in a resolved URL. */
  function Base(n: Naming): string
    requires n.Valid()
  {
    PrefixBytes(n.prefix);
    "https://" + n.host + "/" + Slashed(EncodeAll(PrefixParts(n.prefix)))
  }

  /** The host and the prefix can be named in a did:web identifier at all. */
  predicate Nameable(n: Naming) {
    IsHost(n.host) && forall part :: part in PrefixParts(n.prefix) ==> IsPathSegment(part)
  }

  lemma MintedParts(n: Naming, id: string, parser: UrlParser)
    requires n.Valid() && Bytes(id) && Mint(n, id, parser).Ok?
    ensures AllBytes(PrefixParts(n.prefix))
    ensures var did := Mint(n, id, parser).value;
            "did:web:" <= did
            && Split(did[8..], ':') == [Encode(n.host)] + EncodeAll(PrefixParts(n.prefix)) + [Encode(id)]
  {
    PrefixBytes(n.prefix);
    var parts := [Encode(n.host)] + EncodeAll(PrefixParts(n.prefix)) + [Encode(id)];
    SplitJoin(parts, ':');
    assert Mint(n, id, parser).value[8..] == Join(parts, ':');
  }

  lemma EncodedNames(s: string)
    requires Bytes(s)
    ensures NamesSegment(Encode(s)) <==> IsPathSegment(s)
  {
    DecodeEncode(s);
  }

  lemma TailNames(n: Naming, id: string)
    requires n.Valid() && Bytes(id) && AllBytes(PrefixParts(n.prefix))
    ensures var tail := EncodeAll(PrefixParts(n.prefix)) + [Encode(id)];
            (forall i :: 0 <= i < |tail| ==> NamesSegment(tail[i]))
            <==> IsPathSegment(id) && forall part :: part in PrefixParts(n.prefix) ==> IsPathSegment(part)
  {
    var prefix := PrefixParts(n.prefix);
    var tail := EncodeAll(prefix) + [Encode(id)];
    EncodedNames(id);
    assert tail[|prefix|] == Encode(id);
    forall i | 0 <= i < |prefix|
      ensures tail[i] == Encode(prefix[i]) && (NamesSegment(tail[i]) <==> IsPathSegment(prefix[i]))
    {
      EncodedNames(prefix[i]);
    }
    if forall i :: 0 <= i < |tail| ==> NamesSegment(tail[i]) {
      forall part | part in prefix ensures IsPathSegment(part) {
        var i :| 0 <= i < |prefix| && prefix[i] == part;
        assert NamesSegment(tail[i]);
      }
    }
  }

  /** Resolution of an identifier whose parts are known. */
  lemma ResolveParts(did: string, host: string, tail: seq<string>, parser: UrlParser)
    requires "did:web:" <= did && Bytes(host) && host != "" && parser.authority(host) == Some(host)
    requires Split(did[8..], ':') == [Encode(host)] + tail
    ensures Resolve(did, parser) ==
            if IsHost(host) && forall i :: 0 <= i < |tail| ==> NamesSegment(tail[i])
            then Ok("https://" + host + DocumentPath(tail)) else Err
  {
    var parts := Split(did[8..], ':');
    DecodeEncode(host);
    assert parts[0] == Encode(host) && parts[1..] == tail;
    assert forall i :: 1 <= i < |parts| ==> parts[i] == tail[i - 1];
    assert forall i :: 0 <= i < |tail| ==> parts[i + 1] == tail[i];
  }

  lemma Regrouped(scheme: string, host: string, path: string, last: string, suffix: string)
    ensures scheme + host + ("/" + (path + last) + suffix) == scheme + host + "/" + path + last + suffix
  {}

  /** A minted identifier resolves exactly when each of its pieces is one a URL path can carry. */
  lemma MintedResolves(n: Naming, id: string, parser: UrlParser)
    requires n.Valid() && Bytes(id) && Mint(n, id, parser).Ok?
    ensures Resolve(Mint(n, id, parser).value, parser) ==
            if Nameable(n) && IsPathSegment(id) then Ok(Base(n) + Encode(id) + "/did.json") else Err
  {
    MintedParts(n, id, parser);
    var prefix := EncodeAll(PrefixParts(n.prefix));
    assert [Encode(n.host)] + prefix + [Encode(id)] == [Encode(n.host)] + (prefix + [Encode(id)]);
    ResolveParts(Mint(n, id, parser).value, n.host, prefix + [Encode(id)], parser);
    TailNames(n, id);
    JoinSlashed(prefix, Encode(id));
    Regrouped("https://", n.host, Slashed(prefix), Encode(id), "/did.json");
  }

  // ----- The published URL

  datatype Hole = Hole(before: string, after: string)

  /** The template around its placeholder, which must occur once. */
  function Around(template: string): Option<Hole> {
    match Find(template, PLACEHOLDER)
    case None => None
    case Some(i) =>
      var after := template[i + |PLACEHOLDER|..];
      if Find(after, PLACEHOLDER).Some? then None else Some(Hole(template[..i], after))
  }

  function RenderDidUrl(template: string, id: string, parser: UrlParser): Result<string>
    requires Bytes(id)
  {
    var around := Around(template);
    if around.None? then Err
    else
      var rendered := around.value.before + Encode(id) + around.value.after;
      if parser.absoluteHttps(rendered) then Ok(rendered) else Err
  }

  /** A probe word: nothing in it needs an escape. */
  predicate PlainWord(word: string) {
    IsPathSegment(word) && forall i :: 0 <= i < |word| ==> !Escaped(word[i])
  }

  /** The word a Platform does probe with. */
  lemma ValidationIsPlain()
    ensures PlainWord("validation") && Bytes("validation")
  {
    LettersPlain("validation");
  }

  lemma LettersPlain(word: string)
    requires word != "" && forall i :: 0 <= i < |word| ==> 'a' <= word[i] <= 'z'
    ensures PlainWord(word) && Bytes(word)
  {
    assert word[0] != '.';
  }

  /** The check a Platform makes once, for one word. */
  ghost predicate ProbePasses(n: Naming, template: string, word: string, parser: UrlParser)
    requires n.Valid() && Bytes(word)
  {
    var did, url := Mint(n, word, parser), RenderDidUrl(template, word, parser);
    did.Ok? && url.Ok? && Resolve(did.value, parser) == url
  }

  /** For one identifier: the minted DID resolves to the template with the identifier put in. */
  ghost predicate Agrees(n: Naming, template: string, id: string, parser: UrlParser)
    requires n.Valid() && Bytes(id)
  {
    var did, around := Mint(n, id, parser), Around(template);
    did.Ok? && around.Some?
    && Resolve(did.value, parser) == Ok(around.value.before + Encode(id) + around.value.after)
  }

  lemma {:induction false} EncodePlain(s: string)
    requires Bytes(s) && forall i :: 0 <= i < |s| ==> !Escaped(s[i])
    ensures Encode(s) == s
  {
    if s != "" {
      EncodePlain(s[1..]);
      assert s == [s[0]] + s[1..];
    }
  }

  lemma Probed(n: Naming, template: string, word: string, parser: UrlParser)
    requires n.Valid() && Bytes(word) && PlainWord(word) && ProbePasses(n, template, word, parser)
    ensures Around(template).Some? && Nameable(n) && parser.authority(n.host) == Some(n.host) && n.host != ""
    ensures RenderDidUrl(template, word, parser) == Ok(Base(n) + word + "/did.json")
    ensures Base(n) + word + "/did.json" == Around(template).value.before + word + Around(template).value.after
  {
    EncodePlain(word);
    MintedResolves(n, word, parser);
  }

  lemma AgreesWhen(n: Naming, template: string, id: string, parser: UrlParser)
    requires n.Valid() && Nameable(n) && parser.authority(n.host) == Some(n.host) && n.host != ""
    requires Around(template).Some? && IsPathSegment(id) && Bytes(id)
    ensures Agrees(n, template, id, parser) <==>
            Base(n) + Encode(id) + "/did.json" ==
            Around(template).value.before + Encode(id) + Around(template).value.after
  {
    MintedResolves(n, id, parser);
  }

  /** Two texts with one hole each, equal for one filling, are equal for all when the holes align. */
  lemma Aligned(a: string, a': string, b: string, b': string, filling: string, other: string)
    requires a + filling + a' == b + filling + b' && |a| == |b|
    ensures a + other + a' == b + other + b'
  {
    assert (a + filling + a')[..|a|] == a && (b + filling + b')[..|b|] == b;
    assert (a + filling + a')[|a| + |filling|..] == a' && (b + filling + b')[|b| + |filling|..] == b';
  }

  lemma AtHole(a: string, x: string, a': string, b: string, b': string)
    ensures x != "" ==> (a + x + a')[|a|] == x[0]
    ensures |a| < |b| ==> (b + x + b')[|a|] == b[|a|]
  {}

  /** Equal for two fillings that differ at once, the holes do align. */
  lemma Unaligned(a: string, a': string, b: string, b': string, x: string, y: string)
    requires a + x + a' == b + x + b' && a + y + a' == b + y + b'
    requires |x| == |y| > 0 && x[0] != y[0]
    ensures |a| >= |b|
  {
    if |a| < |b| {
      AtHole(a, x, a', b, b');
      AtHole(a, y, a', b, b');
    }
  }

  /**
  What the probe proves. When it passes, every identifier a URL path can carry resolves to its published
  URL if and only if the template's placeholder stands where the identifier stands in the resolved URL.
  */
  lemma ProbeDecides(n: Naming, template: string, word: string, parser: UrlParser)
    requires n.Valid() && Bytes(word) && PlainWord(word)
    ensures ProbePasses(n, template, word, parser) ==>
              ((forall id :: IsPathSegment(id) && Bytes(id) ==> Agrees(n, template, id, parser))
               <==> |Around(template).value.before| == |Base(n)|)
  {
    if !ProbePasses(n, template, word, parser) { return; }
    Probed(n, template, word, parser);
    var before, after, base := Around(template).value.before, Around(template).value.after, Base(n);
    if |before| == |base| {
      forall id | IsPathSegment(id) && Bytes(id) ensures Agrees(n, template, id, parser) {
        Aligned(base, "/did.json", before, after, word, Encode(id));
        AgreesWhen(n, template, id, parser);
      }
    } else if forall id :: IsPathSegment(id) && Bytes(id) ==> Agrees(n, template, id, parser) {
      DisagreeLetters(n, template, 'a', 'b', parser);
    }
  }

  lemma Letter(c: char)
    requires 'a' <= c <= 'z'
    ensures IsPathSegment([c]) && PlainWord([c]) && Bytes([c])
  {}

  lemma DisagreeLetters(n: Naming, template: string, c: char, d: char, parser: UrlParser)
    requires n.Valid() && Nameable(n) && parser.authority(n.host) == Some(n.host) && n.host != ""
    requires Around(template).Some? && 'a' <= c < d <= 'z'
    requires forall id :: IsPathSegment(id) && Bytes(id) ==> Agrees(n, template, id, parser)
    ensures |Around(template).value.before| == |Base(n)|
  {
    Letter(c);
    Letter(d);
    Disagree(n, template, [c], [d], parser);
  }

  lemma Disagree(n: Naming, template: string, x: string, y: string, parser: UrlParser)
    requires n.Valid() && Nameable(n) && parser.authority(n.host) == Some(n.host) && n.host != ""
    requires Around(template).Some? && IsPathSegment(x) && PlainWord(x) && IsPathSegment(y) && PlainWord(y)
    requires Bytes(x) && Bytes(y) && |x| == |y| && x[0] != y[0]
    requires Agrees(n, template, x, parser) && Agrees(n, template, y, parser)
    ensures |Around(template).value.before| == |Base(n)|
  {
    var before, after, base := Around(template).value.before, Around(template).value.after, Base(n);
    EncodePlain(x);
    EncodePlain(y);
    AgreesWhen(n, template, x, parser);
    AgreesWhen(n, template, y, parser);
    Unaligned(base, "/did.json", before, after, x, y);
    Unaligned(before, after, base, "/did.json", x, y);
  }

  ghost predicate OccursOnce(s: string, pattern: string) {
    forall i, j :: OccursAt(s, pattern, i) && OccursAt(s, pattern, j) ==> i == j
  }

  /** A probe URL in which the word occurs once leaves no choice. */
  lemma OnceSuffices(n: Naming, template: string, word: string, id: string, parser: UrlParser)
    requires n.Valid() && Bytes(word) && PlainWord(word) && IsPathSegment(id) && Bytes(id)
    ensures ProbePasses(n, template, word, parser) && OccursOnce(RenderDidUrl(template, word, parser).value, word)
            ==> Agrees(n, template, id, parser)
  {
    if !ProbePasses(n, template, word, parser) || !OccursOnce(RenderDidUrl(template, word, parser).value, word) {
      return;
    }
    Probed(n, template, word, parser);
    var before, after, base := Around(template).value.before, Around(template).value.after, Base(n);
    var url := RenderDidUrl(template, word, parser).value;
    assert url == base + word + "/did.json" == before + word + after;
    assert OccursAt(url, word, |base|);
    assert OccursAt(url, word, |before|);
    ProbeDecides(n, template, word, parser);
  }

  /** The word a Platform probes with is `validation`, and so both results are about its own check. */
  lemma ValidationDecides(n: Naming, template: string, word: string, parser: UrlParser)
    requires n.Valid() && word == "validation"
    ensures Bytes(word)
    ensures ProbePasses(n, template, word, parser) ==>
              ((forall id :: IsPathSegment(id) && Bytes(id) ==> Agrees(n, template, id, parser))
               <==> |Around(template).value.before| == |Base(n)|)
    ensures ProbePasses(n, template, word, parser) && OccursOnce(RenderDidUrl(template, word, parser).value, word)
            ==> forall id :: IsPathSegment(id) && Bytes(id) ==> Agrees(n, template, id, parser)
  {
    ValidationIsPlain();
    ProbeDecides(n, template, word, parser);
    forall id | IsPathSegment(id) && Bytes(id)
      ensures ProbePasses(n, template, word, parser) && OccursOnce(RenderDidUrl(template, word, parser).value, word)
              ==> Agrees(n, template, id, parser)
    {
      OnceSuffices(n, template, word, id, parser);
    }
  }

  lemma FindAt(before: string, pattern: string, after: string)
    requires pattern != "" && pattern[0] !in before && pattern[0] !in after
    ensures Find(before + pattern + after, pattern) == Some(|before|)
    ensures (before + pattern + after)[..|before|] == before
    ensures (before + pattern + after)[|before| + |pattern|..] == after
    ensures Find(after, pattern) == None
  {
    var s := before + pattern + after;
    assert OccursAt(s, pattern, |before|);
    forall i | 0 <= i < |before| ensures !OccursAt(s, pattern, i) {
      assert s[i] == before[i];
    }
  }

  lemma HoleAt(before: string, after: string)
    requires '{' !in before && '{' !in after
    ensures Around(before + PLACEHOLDER + after) == Some(Hole(before, after))
  {
    FindAt(before, PLACEHOLDER, after);
  }

  lemma LonePrefix(word: string)
    requires PlainWord(word)
    ensures PrefixParts(word) == [word]
  {
    assert Escaped('/');
    assert !Escaped(word[0]) && !Escaped(word[|word| - 1]);
    assert Trim(word) == word;
    SplitWhole(word, '/');
    var parts := [word];
    assert parts[..0] == [] && NonEmpty(parts[..0]) == [];
    assert NonEmpty(parts) == [] + [word];
  }

  lemma Swapped(start: string, word: string, end: string)
    ensures start + word + ("/" + word + end) == start + word + "/" + word + end
  {}

  lemma Misplaced(n: Naming, before: string, after: string, word: string, parser: UrlParser)
    requires n.Valid() && Nameable(n) && parser.authority(n.host) == Some(n.host) && n.host != ""
    requires PlainWord(word) && Bytes(word) && '{' !in before && '{' !in after
    requires before + word + after == Base(n) + word + "/did.json" && parser.absoluteHttps(before + word + after)
    requires |before| != |Base(n)|
    ensures ProbePasses(n, before + PLACEHOLDER + after, word, parser)
    ensures exists id :: IsPathSegment(id) && Bytes(id) && !Agrees(n, before + PLACEHOLDER + after, id, parser)
  {
    HoleAt(before, after);
    EncodePlain(word);
    MintedResolves(n, word, parser);
    ProbeDecides(n, before + PLACEHOLDER + after, word, parser);
  }

  lemma PrefixWordBase(host: string, word: string)
    requires Bytes(host) && Bytes(word) && PlainWord(word)
    ensures Base(Naming(host, word)) == "https://" + host + "/" + word + "/"
  {
    LonePrefix(word);
    EncodePlain(word);
    assert EncodeAll([word]) == [word];
    assert Slashed([word]) == word + "/" by {
      assert [word][1..] == [];
    }
  }

  /**
  Passing is not enough. A Platform whose prefix is the probe word passes with a template that puts the
  identifier where the prefix belongs, and some identifier then resolves to a URL it does not publish.
  */
  lemma ProbeCanMislead(host: string, word: string, parser: UrlParser)
    requires Bytes(host) && IsHost(host) && parser.authority(host) == Some(host)
    requires PlainWord(word) && Bytes(word)
    requires parser.absoluteHttps("https://" + host + "/" + word + ("/" + word + "/did.json"))
    ensures var n, template := Naming(host, word), "https://" + host + "/" + PLACEHOLDER + ("/" + word + "/did.json");
            ProbePasses(n, template, word, parser)
            && exists id :: IsPathSegment(id) && Bytes(id) && !Agrees(n, template, id, parser)
  {
    HostStaysHost(host);
    PrefixWordBase(host, word);
    LonePrefix(word);
    assert Escaped('{');
    var before, after := "https://" + host + "/", "/" + word + "/did.json";
    Swapped(before, word, "/did.json");
    Misplaced(Naming(host, word), before, after, word, parser);
  }
}
