/** did:web identifiers: what a Platform mints, where a Service looks, and where the Platform publishes. */
module DidWeb {
  import opened Common
  import opened Text

  /** A string is its UTF-8 bytes, one `char` for each. */
  predicate Bytes(s: string) {
    forall i :: 0 <= i < |s| ==> s[i] as int < 256
  }

  /** What the URL parser answers: the normal form of an authority, and whether a URL is absolute HTTPS. */
  datatype UrlParser = UrlParser(authority: string -> Option<string>, absoluteHttps: string -> bool)

  // ----- Percent encoding

  /** The bytes an identifier component escapes. */
  predicate Escaped(c: char) {
    c < ' ' || c as int >= 0x7f || c in " \"#%/:<>?[\\]^`{|}"
  }

  function Hex(n: int): char
    requires 0 <= n < 16
  {
    if n < 10 then '0' + n as char else 'A' + (n - 10) as char
  }

  predicate IsHex(c: char) {
    '0' <= c <= '9' || 'a' <= c <= 'f' || 'A' <= c <= 'F'
  }

  function HexValue(c: char): (n: int)
    requires IsHex(c)
    ensures 0 <= n < 16
  {
    if c <= '9' then (c - '0') as int else if c <= 'F' then (c - 'A') as int + 10 else (c - 'a') as int + 10
  }

  function EncodeByte(c: char): string
    requires c as int < 256
  {
    if Escaped(c) then ['%', Hex(c as int / 16), Hex(c as int % 16)] else [c]
  }

  function Encode(s: string): (e: string)
    requires Bytes(s)
    ensures forall i :: 0 <= i < |e| ==> e[i] == '%' || !Escaped(e[i])
    ensures s != "" ==> e != ""
  {
    if s == "" then "" else EncodeByte(s[0]) + Encode(s[1..])
  }

  /** Every percent sign must begin an escape. Bytes that are not UTF-8 fail the checks that follow in any case. */
  function Decode(s: string): Option<string> {
    if s == "" then Some("")
    else if s[0] == '%' then
      if |s| < 3 || !IsHex(s[1]) || !IsHex(s[2]) then None
      else
        var rest := Decode(s[3..]);
        if rest.None? then None
        else Some([(HexValue(s[1]) * 16 + HexValue(s[2])) as char] + rest.value)
    else
      var rest := Decode(s[1..]);
      if rest.None? then None else Some([s[0]] + rest.value)
  }

  lemma DecodeByte(c: char, rest: string)
    requires c as int < 256 && Decode(rest).Some?
    ensures Decode(EncodeByte(c) + rest) == Some([c] + Decode(rest).value)
  {
    var e := EncodeByte(c) + rest;
    if Escaped(c) {
      var high, low := c as int / 16, c as int % 16;
      assert HexValue(Hex(high)) == high && HexValue(Hex(low)) == low;
      assert e[0] == '%' && e[1] == Hex(high) && e[2] == Hex(low) && e[3..] == rest;
    } else {
      assert e[1..] == rest;
    }
  }

  lemma {:induction false} DecodeEncode(s: string)
    requires Bytes(s)
    ensures Decode(Encode(s)) == Some(s)
  {
    if s != "" {
      DecodeEncode(s[1..]);
      DecodeByte(s[0], Encode(s[1..]));
      assert s == [s[0]] + s[1..];
    }
  }

  /** A byte that is neither percent sign nor hexadecimal survives decoding. */
  lemma {:induction false} DecodeKeeps(s: string, c: char)
    requires Decode(s).Some? && c in s && c != '%' && !IsHex(c)
    ensures c in Decode(s).value
  {
    if s[0] == '%' {
      assert s == [s[0], s[1], s[2]] + s[3..];
      DecodeKeeps(s[3..], c);
    } else if s[0] != c {
      assert s == [s[0]] + s[1..];
      DecodeKeeps(s[1..], c);
    }
  }

  // ----- What an identifier may name

  predicate Digit(c: char) { '0' <= c <= '9' }

  predicate Alphanumeric(c: char) { Digit(c) || 'a' <= c <= 'z' || 'A' <= c <= 'Z' }

  /** One decoded path segment: no separator, query, fragment or dot segment. */
  predicate IsPathSegment(value: string) {
    value != "" && value != "." && value != ".."
    && forall i :: 0 <= i < |value| ==> Alphanumeric(value[i]) || value[i] in "-._~!$&'()*+,;=:@%"
  }

  predicate IsPort(port: string) {
    0 < |port| <= 5 && forall i :: 0 <= i < |port| ==> Digit(port[i])
  }

  predicate IsName(name: string) {
    name != "" && var labels := Split(name, '.');
    forall i :: 0 <= i < |labels| ==>
      labels[i] != "" && forall k :: 0 <= k < |labels[i]| ==> Alphanumeric(labels[i][k]) || labels[i][k] == '-'
  }

  predicate IsLiteral(name: string) {
    |name| > 2 && forall i :: 1 <= i < |name| - 1 ==> IsHex(name[i]) || name[i] == ':' || name[i] == '.'
  }

  /** A name or a bracketed literal, and then at most one port. */
  predicate IsHost(value: string) {
    var literal := value != "" && value[0] == '[';
    match if literal then Find(value, "]") else FindLast(value, ':', |value|)
    case None => !literal && IsName(value)
    case Some(i) =>
      if literal then
        IsLiteral(value[..i + 1]) && (i + 1 == |value| || (value[i + 1] == ':' && IsPort(value[i + 2..])))
      else IsPort(value[i + 1..]) && IsName(value[..i])
  }

  function FindLast(s: string, c: char, end: nat): (at: Option<nat>)
    requires end <= |s|
    ensures at.Some? ==> at.value < end && s[at.value] == c && c !in s[at.value + 1..end]
    ensures at.None? ==> c !in s[..end]
  {
    if end == 0 then None
    else if s[end - 1] == c then Some(end - 1)
    else FindLast(s, c, end - 1)
  }

  /** The characters a host, a bracketed literal or a port is made of. */
  predicate HostChar(c: char) {
    Alphanumeric(c) || c == '-' || c == '.' || c == ':' || c == '[' || c == ']'
  }

  predicate HostChars(s: string) {
    forall i :: 0 <= i < |s| ==> HostChar(s[i])
  }

  lemma NameChars(name: string)
    requires IsName(name)
    ensures HostChars(name)
  {
    var labels := Split(name, '.');
    forall k | 0 <= k < |name| ensures HostChar(name[k]) {
      JoinSplit(name, '.');
      if name[k] != '.' {
        var i := JoinTakes(labels, '.', name[k]);
        var j :| 0 <= j < |labels[i]| && labels[i][j] == name[k];
      }
    }
  }

  lemma LiteralChars(name: string)
    requires IsLiteral(name) && name[0] == '[' && name[|name| - 1] == ']'
    ensures HostChars(name)
  {}

  /**
  A host that passes holds nothing a URL parser could take for user information, a path, a query, a
  fragment, an escape or a space.
  */
  lemma HostStaysHost(value: string)
    requires IsHost(value)
    ensures value != "" && HostChars(value)
  {
    if value != "" && value[0] == '[' {
      var i := Find(value, "]").value;
      LiteralChars(value[..i + 1]);
      assert value == value[..i + 1] + value[i + 1..];
    } else if FindLast(value, ':', |value|).Some? {
      var i := FindLast(value, ':', |value|).value;
      NameChars(value[..i]);
      assert value == value[..i] + [value[i]] + value[i + 1..];
    } else {
      NameChars(value);
    }
  }

  // ----- Resolution

  predicate NamesSegment(part: string) {
    Decode(part).Some? && IsPathSegment(Decode(part).value)
  }

  function PathParts(parts: seq<string>): (path: seq<string>)
    ensures path != []
  {
    if parts == [] then [".well-known"] else parts
  }

  function DocumentPath(parts: seq<string>): string {
    "/" + Join(PathParts(parts), '/') + "/did.json"
  }

  /** The document URL of an identifier. Path parts keep their escapes. */
  function Resolve(did: string, parser: UrlParser): Result<string> {
    if !("did:web:" <= did) then Err
    else
      var parts := Split(did[8..], ':');
      var host := Decode(parts[0]);
      if parts[0] == "" || host.None? || !IsHost(host.value) || parser.authority(host.value).None? then Err
      else if exists i :: 1 <= i < |parts| && !NamesSegment(parts[i]) then Err
      else Ok("https://" + parser.authority(host.value).value + DocumentPath(parts[1..]))
  }

  lemma AuthorityOff(authority: string, rest: string)
    requires '/' !in authority
    ensures Split("https://" + authority + "/" + rest, '/') == ["https:", "", authority] + Split(rest, '/')
  {
    var tail := authority + ['/'] + rest;
    SplitOff(authority, rest, '/');
    SplitOff("", tail, '/');
    SplitOff("https:", "" + ['/'] + tail, '/');
    assert "https://" + authority + "/" + rest == "https:" + ['/'] + ("" + ['/'] + tail);
  }

  lemma UrlSegments(authority: string, path: seq<string>)
    requires '/' !in authority && |path| > 0 && forall i :: 0 <= i < |path| ==> '/' !in path[i]
    ensures Split("https://" + authority + "/" + Join(path, '/') + "/did.json", '/') ==
            ["https:", "", authority] + path + ["did.json"]
  {
    var rest := Join(path + ["did.json"], '/');
    JoinLast(path, "did.json", '/');
    SplitJoin(path + ["did.json"], '/');
    AuthorityOff(authority, rest);
    assert "https://" + authority + "/" + Join(path, '/') + "/did.json" == "https://" + authority + "/" + rest;
  }

  lemma DocumentUrlSegments(authority: string, parts: seq<string>)
    requires '/' !in authority && forall i :: 0 <= i < |parts| ==> '/' !in parts[i]
    ensures Split("https://" + authority + DocumentPath(parts), '/') ==
            ["https:", "", authority] + PathParts(parts) + ["did.json"]
  {
    UrlSegments(authority, PathParts(parts));
    Regrouped("https://" + authority, Join(PathParts(parts), '/'), "/did.json");
  }

  lemma Regrouped(start: string, path: string, end: string)
    ensures start + ("/" + path + end) == start + "/" + path + end
  {}

  lemma PartKeepsInside(part: string)
    requires NamesSegment(part)
    ensures '/' !in part && '?' !in part && '#' !in part
    ensures Decode(part).value != "" && Decode(part).value != "." && Decode(part).value != ".."
  {
    forall c | c in "/?#" ensures c !in part {
      if c in part {
        DecodeKeeps(part, c);
      }
    }
    assert '/' in "/?#" && '?' in "/?#" && '#' in "/?#";
  }

  /**
  A resolved URL is the authority, the identifier's own parts and the document name: no part can add a
  segment, drop one or start a query.
  */
  lemma ResolvedWhereNamed(did: string, parser: UrlParser)
    requires Resolve(did, parser).Ok?
    requires forall h :: IsHost(h) && parser.authority(h).Some? ==> '/' !in parser.authority(h).value
    ensures var parts := Split(did[8..], ':');
            var authority := parser.authority(Decode(parts[0]).value).value;
            Split(Resolve(did, parser).value, '/') ==
            ["https:", "", authority] + PathParts(parts[1..]) + ["did.json"]
    ensures forall part :: part in Split(did[8..], ':')[1..] ==>
      '?' !in part && '#' !in part && Decode(part).Some? && Decode(part).value !in ["", ".", ".."]
  {
    var parts := Split(did[8..], ':');
    var authority := parser.authority(Decode(parts[0]).value).value;
    forall i | 1 <= i < |parts|
      ensures '/' !in parts[i] && '?' !in parts[i] && '#' !in parts[i]
      ensures Decode(parts[i]).Some? && Decode(parts[i]).value !in ["", ".", ".."]
    {
      PartKeepsInside(parts[i]);
    }
    DocumentUrlSegments(authority, parts[1..]);
  }

  /** A bare host keeps its document at the well-known path, and a path part after it moves it there. */
  lemma HostResolves(host: string, part: string, parser: UrlParser)
    requires ':' !in host && host != "" && Decode(host).Some? && IsHost(Decode(host).value)
    requires parser.authority(Decode(host).value).Some?
    requires ':' !in part && NamesSegment(part)
    ensures var start := "https://" + parser.authority(Decode(host).value).value;
            && Resolve("did:web:" + host, parser) == Ok(start + "/.well-known/did.json")
            && Resolve("did:web:" + host + ":" + part, parser) == Ok(start + "/" + part + "/did.json")
  {
    BareHostResolves(host, parser);
    PartResolves(host, part, parser);
  }

  lemma BareHostResolves(host: string, parser: UrlParser)
    requires ':' !in host && host != "" && Decode(host).Some? && IsHost(Decode(host).value)
    requires parser.authority(Decode(host).value).Some?
    ensures Resolve("did:web:" + host, parser)
         == Ok("https://" + parser.authority(Decode(host).value).value + "/.well-known/did.json")
  {
    var did := "did:web:" + host;
    assert did[8..] == host;
    SplitWhole(host, ':');
    WellKnownPath();
    assert Split(did[8..], ':')[1..] == [];
  }

  lemma WellKnownPath()
    ensures DocumentPath([]) == "/.well-known/did.json"
  {
    assert "/" + ".well-known" + "/did.json" == "/.well-known/did.json";
  }

  lemma PartResolves(host: string, part: string, parser: UrlParser)
    requires ':' !in host && host != "" && Decode(host).Some? && IsHost(Decode(host).value)
    requires parser.authority(Decode(host).value).Some?
    requires ':' !in part && NamesSegment(part)
    ensures Resolve("did:web:" + host + ":" + part, parser)
         == Ok("https://" + parser.authority(Decode(host).value).value + "/" + part + "/did.json")
  {
    var did := "did:web:" + host + ":" + part;
    assert did[8..] == host + [':'] + part;
    SplitOff(host, part, ':');
    SplitWhole(part, ':');
    TwoPartsResolve(did, host, part, parser);
  }

  lemma TwoPartsResolve(did: string, host: string, part: string, parser: UrlParser)
    requires "did:web:" <= did && Split(did[8..], ':') == [host] + [part] && NamesSegment(part)
    requires host != "" && Decode(host).Some? && IsHost(Decode(host).value)
    requires parser.authority(Decode(host).value).Some?
    ensures Resolve(did, parser)
         == Ok("https://" + parser.authority(Decode(host).value).value + "/" + part + "/did.json")
  {
    var parts := Split(did[8..], ':');
    assert parts[1..] == [part];
    Regrouped("https://" + parser.authority(Decode(host).value).value, part, "/did.json");
  }

  /** Nonempty labels of letters, digits and hyphens make a host, alone or with a port of up to five digits. */
  lemma LabelsMakeHost(labels: seq<string>, port: string)
    requires |labels| > 0 && forall i :: 0 <= i < |labels| ==>
      labels[i] != "" && forall k :: 0 <= k < |labels[i]| ==> Alphanumeric(labels[i][k]) || labels[i][k] == '-'
    requires 0 < |port| <= 5 && forall i :: 0 <= i < |port| ==> '0' <= port[i] <= '9'
    ensures IsHost(Join(labels, '.')) && IsHost(Join(labels, '.') + ":" + port)
  {
    var name := Join(labels, '.');
    SplitJoin(labels, '.');
    NameChars(name);
    JoinStarts(labels);
    NameHasNoColon(name);
    PortHost(name, port);
  }

  lemma JoinStarts(labels: seq<string>)
    requires |labels| > 0 && labels[0] != ""
    ensures Join(labels, '.') != "" && Join(labels, '.')[0] == labels[0][0]
  {
  }

  lemma {:induction false} NameHasNoColon(name: string)
    requires IsName(name)
    ensures ':' !in name
  {
    if ':' in name {
      JoinSplit(name, '.');
      var i := JoinTakes(Split(name, '.'), '.', ':');
    }
  }

  lemma FindLastAt(s: string, c: char, i: nat)
    requires i < |s| && s[i] == c && forall k :: i < k < |s| ==> s[k] != c
    ensures FindLast(s, c, |s|) == Some(i)
  {
    assert c in s[..|s|];
  }

  lemma PortHost(name: string, port: string)
    requires IsName(name) && ':' !in name && name[0] != '[' && IsPort(port)
    ensures IsHost(name) && IsHost(name + ":" + port)
  {
    var value := name + ":" + port;
    assert value[|name|] == ':' && value[|name| + 1..] == port && value[..|name|] == name;
    forall k | |name| < k < |value| ensures value[k] != ':' { assert value[k] == port[k - |name| - 1]; }
    FindLastAt(value, ':', |name|);
    assert value[0] == name[0];
  }
}
