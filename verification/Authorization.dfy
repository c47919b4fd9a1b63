/** The field value that carries one credential, rendered by Agents and parsed by Services. */
module Authorization {
  import opened Common

  datatype Carrier = Standard | Dedicated

  datatype Scheme = Aep | Bearer | Basic

  datatype Presentation = Presentation(carrier: Carrier, scheme: Scheme, credentials: string)

  predicate IsTokenChar(c: char) {
    '!' <= c <= '~'
  }

  /** Visible ASCII without spaces, and not empty. */
  predicate IsCredentialToken(s: string) {
    s != "" && forall i :: 0 <= i < |s| ==> IsTokenChar(s[i])
  }

  predicate IsBlank(c: char) {
    c == ' ' || c == '\t'
  }

  predicate AllBlank(s: string) {
    forall i :: 0 <= i < |s| ==> IsBlank(s[i])
  }

  function LowerChar(c: char): char {
    if 'A' <= c <= 'Z' then (c as int + 32) as char else c
  }

  function Lower(s: string): (r: string)
    ensures |r| == |s| && forall i :: 0 <= i < |s| ==> r[i] == LowerChar(s[i])
  {
    seq(|s|, i requires 0 <= i < |s| => LowerChar(s[i]))
  }

  function HeaderName(carrier: Carrier): string {
    match carrier case Standard => "Authorization" case Dedicated => "AEP-Authorization"
  }

  function SchemeText(scheme: Scheme): string {
    match scheme case Aep => "AEP" case Bearer => "Bearer" case Basic => "Basic"
  }

  /** The header name and field value for a credential; none when the credential is not a token. */
  function Render(v: Presentation): Option<(string, string)> {
    if IsCredentialToken(v.credentials)
    then Some((HeaderName(v.carrier), SchemeText(v.scheme) + " " + v.credentials)) else None
  }

  function FirstBlank(s: string): (n: nat)
    ensures n <= |s| && (n < |s| ==> IsBlank(s[n])) && forall i :: 0 <= i < n ==> !IsBlank(s[i])
  {
    if s == "" || IsBlank(s[0]) then 0 else 1 + FirstBlank(s[1..])
  }

  function TrimStart(s: string): (r: string)
    ensures |r| <= |s|
  {
    if s != "" && IsBlank(s[0]) then TrimStart(s[1..]) else s
  }

  function TrimEnd(s: string): string {
    if s != "" && IsBlank(s[|s| - 1]) then TrimEnd(s[..|s| - 1]) else s
  }

  function SchemeOf(text: string): Option<Scheme> {
    if Lower(text) == "aep" then Some(Aep)
    else if Lower(text) == "bearer" then Some(Bearer)
    else if Lower(text) == "basic" then Some(Basic)
    else None
  }

  function Parse(field: string, carrier: Carrier): Option<Presentation> {
    if carrier == Dedicated && ',' in field then None else
    var n := FirstBlank(field);
    if n == |field| then None else
    var credentials := TrimEnd(TrimStart(field[n..]));
    if n == 0 || !IsCredentialToken(credentials) then None else
    match SchemeOf(field[..n])
    case None => None
    case Some(scheme) => Some(Presentation(carrier, scheme, credentials))
  }

  // ----- The grammar it accepts

  /** A scheme in any case, blanks, one token, and blanks. */
  ghost predicate Spells(text: string, before: string, after: string, field: string, v: Presentation) {
    && field == text + before + v.credentials + after
    && SchemeOf(text) == Some(v.scheme)
    && before != "" && AllBlank(before) && AllBlank(after)
    && IsCredentialToken(v.credentials)
  }

  ghost predicate Grammatical(field: string, v: Presentation) {
    exists text, before, after :: Spells(text, before, after, field, v)
  }

  lemma {:induction false} TrimStartSkips(blank: string, s: string)
    requires AllBlank(blank) && s != "" && !IsBlank(s[0])
    ensures TrimStart(blank + s) == s
  {
    if blank == "" {
      assert blank + s == s;
    } else {
      assert (blank + s)[1..] == blank[1..] + s;
      TrimStartSkips(blank[1..], s);
    }
  }

  lemma {:induction false} TrimEndSkips(s: string, blank: string)
    requires AllBlank(blank) && s != "" && !IsBlank(s[|s| - 1])
    ensures TrimEnd(s + blank) == s
  {
    if blank == "" {
      assert s + blank == s;
    } else {
      assert (s + blank)[..|s + blank| - 1] == s + blank[..|blank| - 1];
      TrimEndSkips(s, blank[..|blank| - 1]);
    }
  }

  lemma {:induction false} TrimStartParts(s: string) returns (blank: string)
    ensures s == blank + TrimStart(s) && AllBlank(blank)
  {
    if s != "" && IsBlank(s[0]) {
      blank := TrimStartParts(s[1..]);
      blank := [s[0]] + blank;
    } else {
      blank := "";
    }
  }

  lemma {:induction false} TrimEndParts(s: string) returns (blank: string)
    ensures s == TrimEnd(s) + blank && AllBlank(blank)
  {
    if s != "" && IsBlank(s[|s| - 1]) {
      blank := TrimEndParts(s[..|s| - 1]);
      blank := blank + [s[|s| - 1]];
    } else {
      blank := "";
    }
  }

  lemma SchemeHasNoBlank(text: string)
    requires SchemeOf(text).Some?
    ensures text != "" && forall i :: 0 <= i < |text| ==> !IsBlank(text[i])
  {
    assert |Lower(text)| == |text|;
    forall i | 0 <= i < |text| ensures !IsBlank(text[i]) {
      assert Lower(text)[i] == LowerChar(text[i]);
      assert 'a' <= Lower(text)[i] <= 'z';
    }
  }

  lemma SpellsParses(text: string, before: string, after: string, field: string, v: Presentation)
    requires Spells(text, before, after, field, v)
    requires !(v.carrier == Dedicated && ',' in field)
    ensures Parse(field, v.carrier) == Some(v)
  {
    SchemeHasNoBlank(text);
    assert field[|text|] == before[0];
    assert forall i :: 0 <= i < |text| ==> field[i] == text[i];
    assert FirstBlank(field) == |text|;
    assert field[..|text|] == text && field[|text|..] == before + (v.credentials + after);
    TrimStartSkips(before, v.credentials + after);
    TrimEndSkips(v.credentials, after);
  }

  /** Parsing accepts exactly the grammar, except that the dedicated field may hold no comma. */
  lemma ParsesExactly(field: string, v: Presentation)
    ensures Parse(field, v.carrier) == Some(v) <==>
            Grammatical(field, v) && !(v.carrier == Dedicated && ',' in field)
  {
    if Parse(field, v.carrier) == Some(v) {
      var n := FirstBlank(field);
      var before := TrimStartParts(field[n..]);
      var after := TrimEndParts(TrimStart(field[n..]));
      assert IsBlank(field[n..][0]) && |TrimStart(field[n..][1..])| <= |field[n..]| - 1;
      assert Spells(field[..n], before, after, field, v);
    } else if Grammatical(field, v) && !(v.carrier == Dedicated && ',' in field) {
      var text, before, after :| Spells(text, before, after, field, v);
      SpellsParses(text, before, after, field, v);
    }
  }

  lemma SchemeTextReads(scheme: Scheme)
    ensures SchemeOf(SchemeText(scheme)) == Some(scheme)
  {
    assert Lower("AEP") == "aep" && Lower("Bearer") == "bearer" && Lower("Basic") == "basic";
  }

  /** Parsing inverts rendering exactly when a dedicated credential has no comma. */
  lemma ParseInvertsRender(v: Presentation)
    requires Render(v).Some?
    ensures Parse(Render(v).value.1, v.carrier) == Some(v) <==> !(v.carrier == Dedicated && ',' in v.credentials)
  {
    var field := Render(v).value.1;
    SchemeTextReads(v.scheme);
    assert field == SchemeText(v.scheme) + " " + v.credentials + "";
    assert ',' in field <==> ',' in v.credentials;
    if !(v.carrier == Dedicated && ',' in v.credentials) {
      SpellsParses(SchemeText(v.scheme), " ", "", field, v);
    }
  }

  /** What was parsed can be rendered, and parses as the same again. */
  lemma RenderNormalizes(field: string, carrier: Carrier)
    requires Parse(field, carrier).Some?
    ensures var v := Parse(field, carrier).value;
            Render(v).Some? && Parse(Render(v).value.1, carrier) == Some(v)
  {
    var v := Parse(field, carrier).value;
    ParsesExactly(field, v);
    var text, before, after :| Spells(text, before, after, field, v);
    assert ',' in v.credentials ==> ',' in field;
    ParseInvertsRender(v);
  }
}
