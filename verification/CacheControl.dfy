/**
The byte-cursor parser for Cache-Control field lines, and what it has in common with the grammar of
RFC 9110 sections 5.3, 5.6.2 and 5.6.4.
*/
module CacheControl {
  import opened Common

  type Byte = x: int | 0 <= x < 256
  type Bytes = seq<Byte>

  const COMMA: Byte := 0x2c
  const EQUALS: Byte := 0x3d
  const QUOTE: Byte := 0x22
  const BACKSLASH: Byte := 0x5c
  const BLANK: Byte := 0x20

  /** The punctuation of a token, in the order of the codes. */
  const TOKEN_MARKS: set<Byte> :=
    {0x21, 0x23, 0x24, 0x25, 0x26, 0x27, 0x2a, 0x2b, 0x2d, 0x2e, 0x5e, 0x5f, 0x60, 0x7c, 0x7e}

  predicate IsTokenByte(b: Byte) {
    0x30 <= b <= 0x39 || 0x41 <= b <= 0x5a || 0x61 <= b <= 0x7a || b in TOKEN_MARKS
  }

  predicate IsSpace(b: Byte) {
    b == 0x09 || b == 0x0a || b == 0x0c || b == 0x0d || b == 0x20
  }

  /** A byte that stands for itself inside a quoted string. */
  predicate IsQuotedText(b: Byte) {
    b == 0x09 || b == 0x20 || b == 0x21 || 0x23 <= b <= 0x5b || 0x5d <= b <= 0x7e || b >= 0x80
  }

  /** A byte that may follow a backslash inside a quoted string. */
  predicate IsEscapable(b: Byte) {
    b == 0x09 || 0x20 <= b <= 0x7e || b >= 0x80
  }

  /** A directive name and its argument; a quoted argument keeps its escapes. */
  type Directive = (Bytes, Option<Bytes>)

  // ----- The parser as functions of the remaining bytes

  function TrimStart(s: Bytes): (r: Bytes)
    ensures |r| <= |s| && (r != [] ==> !IsSpace(r[0]))
  {
    if s != [] && IsSpace(s[0]) then TrimStart(s[1..]) else s
  }

  function TrimEnd(s: Bytes): (r: Bytes)
    ensures |r| <= |s| && (r != [] ==> !IsSpace(r[|r| - 1]))
  {
    if s != [] && IsSpace(s[|s| - 1]) then TrimEnd(s[..|s| - 1]) else s
  }

  function Trim(s: Bytes): Bytes {
    TrimEnd(TrimStart(s))
  }

  function TokenLength(s: Bytes): (n: nat)
    ensures n <= |s|
  {
    if s != [] && IsTokenByte(s[0]) then 1 + TokenLength(s[1..]) else 0
  }

  /** A leading token and what follows it. */
  function Token(s: Bytes): (r: Option<(Bytes, Bytes)>)
    ensures r.Some? ==> r.value.0 + r.value.1 == s && r.value.0 != []
  {
    var n := TokenLength(s);
    if n == 0 then None else Some((s[..n], s[n..]))
  }

  /** The closing quote of a quoted string whose contents start at `index`. */
  function ClosingQuote(s: Bytes, index: nat): (r: Option<nat>)
    requires 1 <= index
    ensures r.Some? ==> index <= r.value < |s| && s[r.value] == QUOTE
    decreases |s| - index
  {
    if index >= |s| then None
    else if s[index] == QUOTE then Some(index)
    else if s[index] == BACKSLASH then
      if index + 1 < |s| && IsEscapable(s[index + 1]) then ClosingQuote(s, index + 2) else None
    else if IsQuotedText(s[index]) then ClosingQuote(s, index + 1)
    else None
  }

  function ParameterValue(s: Bytes): (r: Option<(Bytes, Bytes)>)
    ensures r.Some? ==> |r.value.1| < |s|
  {
    if s == [] || s[0] != QUOTE then Token(s) else
    match ClosingQuote(s, 1)
    case None => None
    case Some(end) => Some((s[1..end], s[end + 1..]))
  }

  function Prepend(d: Directive, rest: Option<seq<Directive>>): Option<seq<Directive>> {
    match rest
    case None => None
    case Some(ds) => Some([d] + ds)
  }

  /** The directives in what is left of a line that has been trimmed at its start. */
  function Directives(s: Bytes): Option<seq<Directive>>
    decreases |s|, 1
  {
    if s == [] then Some([])
    else if s[0] == COMMA then Directives(TrimStart(s[1..]))
    else
      match Token(s)
      case None => None
      case Some((name, rest)) =>
        if rest != [] && rest[0] == EQUALS then
          match ParameterValue(rest[1..])
          case None => None
          case Some((value, after)) => Following((name, Some(value)), after)
        else
          Following((name, None), rest)
  }

  /** After a directive: the end of the line, or a comma and more. */
  function Following(d: Directive, after: Bytes): Option<seq<Directive>>
    decreases |after|, 2
  {
    var rest := TrimStart(after);
    if rest == [] then Some([d])
    else if rest[0] == COMMA then Prepend(d, Directives(TrimStart(rest[1..])))
    else None
  }

  function LineDirectives(line: Bytes): Option<seq<Directive>> {
    Directives(Trim(line))
  }

  /** Every field line parsed on its own, in order. */
  function AllDirectives(lines: seq<Bytes>): Option<seq<Directive>> {
    if lines == [] then Some([]) else
    match (LineDirectives(lines[0]), AllDirectives(lines[1..]))
    case (Some(first), Some(rest)) => Some(first + rest)
    case _ => None
  }

  // ----- Joining lines

  /** The single field line that combines several. */
  function Joined(lines: seq<Bytes>): Bytes
    requires lines != []
  {
    if |lines| == 1 then lines[0] else lines[0] + [COMMA, BLANK] + Joined(lines[1..])
  }

  ghost predicate AllSpace(w: Bytes) {
    forall i :: 0 <= i < |w| ==> IsSpace(w[i])
  }

  lemma {:induction false} TrimStartSkips(w: Bytes, s: Bytes)
    requires AllSpace(w)
    ensures TrimStart(w + s) == TrimStart(s)
  {
    if w == [] {
      assert w + s == s;
    } else {
      assert (w + s)[1..] == w[1..] + s;
      TrimStartSkips(w[1..], s);
    }
  }

  lemma {:induction false} TrimStartSplits(s: Bytes, rest: Bytes)
    ensures TrimStart(s + rest) == if TrimStart(s) == [] then TrimStart(rest) else TrimStart(s) + rest
  {
    if s == [] {
      assert s + rest == rest;
    } else if IsSpace(s[0]) {
      assert (s + rest)[1..] == s[1..] + rest;
      TrimStartSplits(s[1..], rest);
    }
  }

  lemma {:induction false} TrimEndSplits(first: Bytes, s: Bytes)
    ensures TrimEnd(first + s) == if TrimEnd(s) == [] then TrimEnd(first) else first + TrimEnd(s)
  {
    if s == [] {
      assert first + s == first;
    } else if IsSpace(s[|s| - 1]) {
      assert (first + s)[..|first + s| - 1] == first + s[..|s| - 1];
      TrimEndSplits(first, s[..|s| - 1]);
    }
  }

  lemma {:induction false} TrimEndRest(s: Bytes) returns (w: Bytes)
    ensures s == TrimEnd(s) + w && AllSpace(w)
  {
    if s != [] && IsSpace(s[|s| - 1]) {
      w := TrimEndRest(s[..|s| - 1]);
      w := w + [s[|s| - 1]];
    } else {
      w := [];
    }
  }

  lemma {:induction false} TrimsCommute(s: Bytes)
    ensures TrimStart(TrimEnd(s)) == TrimEnd(TrimStart(s))
  {
    if s != [] && IsSpace(s[0]) {
      TrimEndSplits([s[0]], s[1..]);
      assert [s[0]] + s[1..] == s;
      TrimsCommute(s[1..]);
      if TrimEnd(s[1..]) != [] { assert ([s[0]] + TrimEnd(s[1..]))[1..] == TrimEnd(s[1..]); }
    } else if s != [] {
      TrimEndSplits([s[0]], s[1..]);
      assert [s[0]] + s[1..] == s;
    }
  }

  lemma {:induction false} TokenLengthSplits(s: Bytes, rest: Bytes)
    requires rest != [] && !IsTokenByte(rest[0])
    ensures TokenLength(s + rest) == TokenLength(s)
  {
    if s == [] {
      assert s + rest == rest;
    } else {
      assert (s + rest)[1..] == s[1..] + rest;
      TokenLengthSplits(s[1..], rest);
    }
  }

  /** Bytes appended after a token that they cannot extend are left over. */
  lemma TokenSplits(s: Bytes, rest: Bytes)
    requires Token(s).Some? && rest != [] && !IsTokenByte(rest[0])
    ensures Token(s + rest) == Some((Token(s).value.0, Token(s).value.1 + rest))
  {
    TokenLengthSplits(s, rest);
    var n := TokenLength(s);
    assert (s + rest)[..n] == s[..n] && (s + rest)[n..] == s[n..] + rest;
  }

  lemma {:induction false} ClosingQuoteSplits(s: Bytes, rest: Bytes, index: nat)
    requires 1 <= index && ClosingQuote(s, index).Some?
    ensures ClosingQuote(s + rest, index) == ClosingQuote(s, index)
    decreases |s| - index
  {
    if s[index] == BACKSLASH {
      ClosingQuoteSplits(s, rest, index + 2);
    } else if s[index] != QUOTE {
      ClosingQuoteSplits(s, rest, index + 1);
    }
  }

  lemma ParameterValueSplits(s: Bytes, rest: Bytes)
    requires ParameterValue(s).Some? && rest != [] && !IsTokenByte(rest[0])
    ensures ParameterValue(s + rest) == Some((ParameterValue(s).value.0, ParameterValue(s).value.1 + rest))
  {
    if s[0] == QUOTE {
      ClosingQuoteSplits(s, rest, 1);
      var end := ClosingQuote(s, 1).value;
      assert (s + rest)[1..end] == s[1..end] && (s + rest)[end + 1..] == s[end + 1..] + rest;
    } else {
      TokenSplits(s, rest);
    }
  }

  function Concat(a: Option<seq<Directive>>, b: Option<seq<Directive>>): Option<seq<Directive>> {
    if a.Some? && b.Some? then Some(a.value + b.value) else None
  }

  /** A separator after what parses: spaces, a comma, and anything. */
  ghost predicate IsSeparated(tail: Bytes, w: Bytes, c: Bytes) {
    AllSpace(w) && tail == w + ([COMMA] + c)
  }

  lemma TailFacts(tail: Bytes, w: Bytes, c: Bytes)
    requires IsSeparated(tail, w, c)
    ensures tail != [] && !IsTokenByte(tail[0]) && tail[0] != EQUALS
    ensures TrimStart(tail) == [COMMA] + c
  {
    TrimStartSkips(w, [COMMA] + c);
    assert tail[0] == if w == [] then COMMA else w[0];
  }

  /** Parsing goes on after a separator as if it started afresh there. */
  lemma {:induction false} DirectivesSplit(s: Bytes, tail: Bytes, w: Bytes, c: Bytes)
    requires Directives(s).Some? && IsSeparated(tail, w, c) && (s == [] ==> w == [])
    ensures Directives(s + tail) == Concat(Directives(s), Directives(TrimStart(c)))
    decreases |s|, 1
  {
    if s == [] {
      assert s + tail == [COMMA] + c;
      assert ([COMMA] + c)[1..] == c;
      assert forall more: seq<Directive> :: [] + more == more;
    } else if s[0] == COMMA {
      assert (s + tail)[1..] == s[1..] + tail;
      AfterCommaSplits(s[1..], tail, w, c);
    } else {
      DirectiveSplits(s, tail, w, c);
    }
  }

  lemma {:induction false} DirectiveSplits(s: Bytes, tail: Bytes, w: Bytes, c: Bytes)
    requires s != [] && s[0] != COMMA && Directives(s).Some? && IsSeparated(tail, w, c)
    ensures Directives(s + tail) == Concat(Directives(s), Directives(TrimStart(c)))
    decreases |s|, 0
  {
    TailFacts(tail, w, c);
    TokenSplits(s, tail);
    var (name, rest) := Token(s).value;
    if rest != [] && rest[0] == EQUALS {
      ArgumentSplits(rest, tail);
      var (value, after) := ParameterValue(rest[1..]).value;
      FollowingSplits((name, Some(value)), after, tail, w, c);
    } else {
      FollowingSplits((name, None), rest, tail, w, c);
    }
  }

  lemma ArgumentSplits(s: Bytes, rest: Bytes)
    requires s != [] && ParameterValue(s[1..]).Some? && rest != [] && !IsTokenByte(rest[0])
    ensures ParameterValue((s + rest)[1..]) ==
            Some((ParameterValue(s[1..]).value.0, ParameterValue(s[1..]).value.1 + rest))
  {
    assert (s + rest)[1..] == s[1..] + rest;
    ParameterValueSplits(s[1..], rest);
  }

  lemma {:induction false} AfterCommaSplits(s: Bytes, tail: Bytes, w: Bytes, c: Bytes)
    requires Directives(TrimStart(s)).Some? && IsSeparated(tail, w, c)
    ensures Directives(TrimStart(s + tail)) == Concat(Directives(TrimStart(s)), Directives(TrimStart(c)))
    decreases |s|, 2
  {
    TailFacts(tail, w, c);
    TrimStartSplits(s, tail);
    if TrimStart(s) == [] {
      DirectivesSplit([], [COMMA] + c, [], c);
      assert [] + ([COMMA] + c) == [COMMA] + c;
    } else {
      DirectivesSplit(TrimStart(s), tail, w, c);
    }
  }

  lemma {:induction false} FollowingSplits(d: Directive, after: Bytes, tail: Bytes, w: Bytes, c: Bytes)
    requires Following(d, after).Some? && IsSeparated(tail, w, c)
    ensures Following(d, after + tail) == Concat(Following(d, after), Directives(TrimStart(c)))
    decreases |after|, 3
  {
    TailFacts(tail, w, c);
    TrimStartSplits(after, tail);
    var rest := TrimStart(after);
    if rest == [] {
      assert ([COMMA] + c)[1..] == c;
    } else {
      assert (rest + tail)[1..] == rest[1..] + tail;
      AfterCommaSplits(rest[1..], tail, w, c);
      var more := Directives(TrimStart(rest[1..])).value;
      if Directives(TrimStart(c)).Some? {
        assert [d] + (more + Directives(TrimStart(c)).value) == ([d] + more) + Directives(TrimStart(c)).value;
      }
    }
  }

  lemma TrimsAfterComma(b: Bytes)
    ensures var end := TrimEnd([BLANK] + b);
            TrimEnd([COMMA] + ([BLANK] + b)) == [COMMA] + end && TrimStart(end) == Trim(b)
  {
    TrimEndSplits([COMMA], [BLANK] + b);
    TrimsCommute([BLANK] + b);
    TrimStartSkips([BLANK], b);
  }

  lemma TrimJoinedStart(a: Bytes, b: Bytes) returns (end: Bytes)
    ensures Trim(a + [COMMA, BLANK] + b) == TrimStart(a) + ([COMMA] + end)
    ensures TrimStart(end) == Trim(b)
  {
    var start, tail := TrimStart(a), [COMMA] + ([BLANK] + b);
    end := TrimEnd([BLANK] + b);
    TrimsAfterComma(b);
    assert a + [COMMA, BLANK] + b == a + tail;
    assert TrimStart(a + tail) == start + tail by { TrimStartSplits(a, tail); }
    assert TrimEnd(start + tail) == start + ([COMMA] + end) by { TrimEndSplits(start, tail); }
  }

  /** How two joined lines are trimmed: the first keeps its trailing spaces before the comma. */
  lemma TrimJoined(a: Bytes, b: Bytes) returns (w: Bytes, end: Bytes)
    ensures AllSpace(w) && (Trim(a) == [] ==> w == [])
    ensures Trim(a + [COMMA, BLANK] + b) == Trim(a) + (w + ([COMMA] + end))
    ensures TrimStart(end) == Trim(b)
  {
    end := TrimJoinedStart(a, b);
    w := TrimEndRest(TrimStart(a));
    Reassociate(Trim(a), w, [COMMA] + end);
  }

  lemma Reassociate(a: Bytes, b: Bytes, c: Bytes)
    ensures (a + b) + c == a + (b + c)
  {}

  /** Two lines that each parse give the same directives when joined by a comma. */
  lemma TwoLinesJoin(a: Bytes, b: Bytes)
    requires LineDirectives(a).Some?
    ensures LineDirectives(a + [COMMA, BLANK] + b) == Concat(LineDirectives(a), LineDirectives(b))
  {
    var w, end := TrimJoined(a, b);
    DirectivesSplit(Trim(a), w + ([COMMA] + end), w, end);
  }

  /** Field lines that each parse may be combined into one, and nothing changes. */
  lemma {:induction false} LinesJoin(lines: seq<Bytes>)
    requires lines != [] && AllDirectives(lines).Some?
    ensures LineDirectives(Joined(lines)) == AllDirectives(lines)
  {
    if |lines| == 1 {
      assert AllDirectives(lines[1..]) == Some([]);
      assert LineDirectives(lines[0]).value + [] == LineDirectives(lines[0]).value;
    } else {
      LinesJoin(lines[1..]);
      TwoLinesJoin(lines[0], Joined(lines[1..]));
    }
  }

  // ----- Printing

  /** A byte of a quoted string: itself, or escaped. */
  datatype Item = Plain(b: Byte) | Escaped(b: Byte)

  datatype Argument = Absent | Word(text: Bytes) | Quoted(items: seq<Item>)

  datatype Written = Written(name: Bytes, argument: Argument)

  predicate IsToken(s: Bytes) {
    s != [] && forall i :: 0 <= i < |s| ==> IsTokenByte(s[i])
  }

  predicate ValidItem(item: Item) {
    match item
    case Plain(b) => IsQuotedText(b)
    case Escaped(b) => IsEscapable(b)
  }

  predicate ValidWritten(d: Written) {
    IsToken(d.name) &&
    match d.argument
    case Absent => true
    case Word(text) => IsToken(text)
    case Quoted(items) => forall i :: 0 <= i < |items| ==> ValidItem(items[i])
  }

  function Raw(items: seq<Item>): Bytes {
    if items == [] then []
    else (match items[0] case Plain(b) => [b] case Escaped(b) => [BACKSLASH, b]) + Raw(items[1..])
  }

  function PrintOne(d: Written): Bytes {
    match d.argument
    case Absent => d.name
    case Word(text) => d.name + [EQUALS] + text
    case Quoted(items) => d.name + [EQUALS] + [QUOTE] + Raw(items) + [QUOTE]
  }

  function Print(ds: seq<Written>): Bytes {
    if ds == [] then [] else if |ds| == 1 then PrintOne(ds[0])
    else PrintOne(ds[0]) + [COMMA, BLANK] + Print(ds[1..])
  }

  function Meant(d: Written): Directive {
    match d.argument
    case Absent => (d.name, None)
    case Word(text) => (d.name, Some(text))
    case Quoted(items) => (d.name, Some(Raw(items)))
  }

  function AllMeant(ds: seq<Written>): seq<Directive> {
    if ds == [] then [] else [Meant(ds[0])] + AllMeant(ds[1..])
  }

  lemma {:induction false} TokenLengthOfToken(s: Bytes)
    requires forall i :: 0 <= i < |s| ==> IsTokenByte(s[i])
    ensures TokenLength(s) == |s|
  {
    if s != [] { TokenLengthOfToken(s[1..]); }
  }

  lemma {:induction false} ClosingQuoteOfRaw(before: Bytes, items: seq<Item>)
    requires before != [] && forall i :: 0 <= i < |items| ==> ValidItem(items[i])
    ensures ClosingQuote(before + Raw(items) + [QUOTE], |before|) == Some(|before| + |Raw(items)|)
    decreases |items|
  {
    var s := before + Raw(items) + [QUOTE];
    if items != [] {
      var first: Bytes := match items[0] case Plain(b) => [b] case Escaped(b) => [BACKSLASH, b];
      assert ValidItem(items[0]);
      assert s == (before + first) + Raw(items[1..]) + [QUOTE];
      ClosingQuoteOfRaw(before + first, items[1..]);
      assert s[|before|] == first[0] && (|first| == 2 ==> s[|before| + 1] == first[1]);
    }
  }

  lemma PrintedIsTrimmed(d: Written)
    requires ValidWritten(d)
    ensures Trim(PrintOne(d)) == PrintOne(d)
  {
    var s := PrintOne(d);
    assert s[0] == d.name[0] && IsTokenByte(s[0]);
    assert !IsSpace(s[|s| - 1]);
  }

  lemma ParsesName(name: Bytes)
    requires IsToken(name)
    ensures Directives(name) == Some([(name, None)])
  {
    TokenLengthOfToken(name);
    assert name[..|name|] == name && name[|name|..] == [];
    assert name[0] != COMMA;
  }

  lemma ParsesArgument(name: Bytes, argument: Bytes, value: Bytes)
    requires IsToken(name) && ParameterValue(argument) == Some((value, []))
    ensures Directives(name + ([EQUALS] + argument)) == Some([(name, Some(value))])
  {
    var rest := [EQUALS] + argument;
    var s := name + rest;
    TokenLengthOfToken(name);
    TokenLengthSplits(name, rest);
    assert s[..|name|] == name && s[|name|..] == rest && rest[1..] == argument;
    assert s[0] == name[0] && s[0] != COMMA;
  }

  lemma ParameterOfWord(text: Bytes)
    requires IsToken(text)
    ensures ParameterValue(text) == Some((text, []))
  {
    TokenLengthOfToken(text);
    assert text[..|text|] == text && text[|text|..] == [] && IsTokenByte(text[0]);
  }

  lemma ParameterOfQuoted(items: seq<Item>)
    requires forall i :: 0 <= i < |items| ==> ValidItem(items[i])
    ensures ParameterValue([QUOTE] + Raw(items) + [QUOTE]) == Some((Raw(items), []))
  {
    var quoted := [QUOTE] + Raw(items) + [QUOTE];
    ClosingQuoteOfRaw([QUOTE], items);
    assert quoted[1..|Raw(items)| + 1] == Raw(items) && quoted[|Raw(items)| + 2..] == [];
  }

  lemma ParsesOne(d: Written)
    requires ValidWritten(d)
    ensures LineDirectives(PrintOne(d)) == Some([Meant(d)])
  {
    PrintedIsTrimmed(d);
    match d.argument
    case Absent => ParsesName(d.name);
    case Word(text) =>
      ParameterOfWord(text);
      assert PrintOne(d) == d.name + ([EQUALS] + text);
      ParsesArgument(d.name, text, text);
    case Quoted(items) =>
      ParameterOfQuoted(items);
      assert PrintOne(d) == d.name + ([EQUALS] + ([QUOTE] + Raw(items) + [QUOTE]));
      ParsesArgument(d.name, [QUOTE] + Raw(items) + [QUOTE], Raw(items));
  }

  /** Parsing inverts printing, whatever the arguments. */
  lemma {:induction false} ParsesPrinted(ds: seq<Written>)
    requires forall i :: 0 <= i < |ds| ==> ValidWritten(ds[i])
    ensures LineDirectives(Print(ds)) == Some(AllMeant(ds))
  {
    if ds != [] {
      ParsesOne(ds[0]);
      if |ds| == 1 {
        assert AllMeant(ds[1..]) == [];
        assert AllMeant(ds) == [Meant(ds[0])];
      } else {
        ParsesPrinted(ds[1..]);
        TwoLinesJoin(PrintOne(ds[0]), Print(ds[1..]));
      }
    }
  }

  lemma UnclosedQuoteFails()
    ensures LineDirectives([0x61, EQUALS, QUOTE]) == None
  {
    var a: Bytes := [0x61, EQUALS, QUOTE];
    assert Trim(a) == a;
    assert a[1..] == [EQUALS, QUOTE] && TokenLength(a[1..]) == 0;
    assert Token(a) == Some((a[..1], a[1..]));
    assert a[1..][1..] == [QUOTE] && ClosingQuote([QUOTE], 1) == None;
    assert ParameterValue(a[1..][1..]) == None;
  }

  lemma QuotedCommaParses()
    ensures LineDirectives([0x61, EQUALS, QUOTE, COMMA, BLANK, QUOTE]).Some?
  {
    var items := [Plain(COMMA), Plain(BLANK)];
    var d := Written([0x61], Quoted(items));
    assert ValidWritten(d);
    ParsesOne(d);
    assert items[1..] == [Plain(BLANK)] && Raw(items[1..]) == [BLANK];
    assert Raw(items) == [COMMA, BLANK];
    assert PrintOne(d) == [0x61, EQUALS, QUOTE, COMMA, BLANK, QUOTE];
  }

  /** Joining can do more than the lines: a quoted string may span the comma that joins two of them. */
  lemma JoinedMayParseAlone()
    ensures LineDirectives([0x61, EQUALS, QUOTE]) == None
    ensures LineDirectives(Joined([[0x61, EQUALS, QUOTE], [QUOTE]])).Some?
  {
    UnclosedQuoteFails();
    QuotedCommaParses();
    var lines: seq<Bytes> := [[0x61, EQUALS, QUOTE], [QUOTE]];
    assert lines[1..] == [[QUOTE]];
    assert Joined(lines) == [0x61, EQUALS, QUOTE, COMMA, BLANK, QUOTE];
  }

  // ----- Exactly when a line that fails can be completed

  /** The quoted string whose contents start at `index` is sound so far but not closed. */
  predicate Unclosed(s: Bytes, index: nat)
    requires 1 <= index
    decreases |s| - index
  {
    if index >= |s| then true
    else if s[index] == QUOTE then false
    else if s[index] == BACKSLASH then
      index + 1 >= |s| || (IsEscapable(s[index + 1]) && Unclosed(s, index + 2))
    else IsQuotedText(s[index]) && Unclosed(s, index + 1)
  }

  /** What parses up to a quoted string that it does not close. */
  predicate Open(s: Bytes)
    decreases |s|, 1
  {
    s != [] &&
    if s[0] == COMMA then Open(TrimStart(s[1..]))
    else
      match Token(s)
      case None => false
      case Some((_, rest)) =>
        if rest != [] && rest[0] == EQUALS then OpenArgument(rest[1..]) else OpenAfter(rest)
  }

  predicate OpenArgument(s: Bytes)
    decreases |s|, 3
  {
    || (s != [] && s[0] == QUOTE && Unclosed(s, 1))
    || (ParameterValue(s).Some? && OpenAfter(ParameterValue(s).value.1))
  }

  predicate OpenAfter(after: Bytes)
    decreases |after|, 2
  {
    var rest := TrimStart(after);
    rest != [] && rest[0] == COMMA && Open(TrimStart(rest[1..]))
  }

  const CLOSING: Bytes := [COMMA, BLANK, QUOTE]

  lemma {:induction false} UnclosedCloses(s: Bytes, index: nat)
    requires 1 <= index <= |s| && Unclosed(s, index)
    ensures ClosingQuote(s + CLOSING, index) == Some(|s| + 2)
    decreases |s| - index
  {
    var all := s + CLOSING;
    assert all[|s|] == COMMA && all[|s| + 1] == BLANK && all[|s| + 2] == QUOTE;
    if index == |s| {
      assert ClosingQuote(all, |s| + 2) == Some(|s| + 2);
      assert ClosingQuote(all, |s| + 1) == Some(|s| + 2);
    } else if s[index] == BACKSLASH {
      if index + 1 == |s| {
        assert ClosingQuote(all, |s| + 2) == Some(|s| + 2);
        assert ClosingQuote(all, |s| + 1) == Some(|s| + 2);
      } else {
        UnclosedCloses(s, index + 2);
      }
    } else {
      UnclosedCloses(s, index + 1);
    }
  }

  lemma {:induction false} OpenCloses(s: Bytes)
    requires Open(s)
    ensures Directives(s + CLOSING).Some?
    decreases |s|, 1
  {
    if s[0] == COMMA {
      assert (s + CLOSING)[1..] == s[1..] + CLOSING;
      TrimStartSplits(s[1..], CLOSING);
      OpenCloses(TrimStart(s[1..]));
    } else {
      TokenSplits(s, CLOSING);
      var (name, rest) := Token(s).value;
      if rest != [] && rest[0] == EQUALS {
        assert (rest + CLOSING)[1..] == rest[1..] + CLOSING;
        OpenArgumentCloses(name, rest[1..]);
      } else {
        OpenAfterCloses((name, None), rest);
      }
    }
  }

  lemma {:induction false} OpenArgumentCloses(name: Bytes, s: Bytes)
    requires OpenArgument(s)
    ensures ParameterValue(s + CLOSING).Some?
    ensures var (value, after) := ParameterValue(s + CLOSING).value; Following((name, Some(value)), after).Some?
    decreases |s|, 3
  {
    if s != [] && s[0] == QUOTE && Unclosed(s, 1) {
      UnclosedCloses(s, 1);
      assert (s + CLOSING)[|s| + 3..] == [];
    } else {
      ParameterValueSplits(s, CLOSING);
      var (value, after) := ParameterValue(s).value;
      OpenAfterCloses((name, Some(value)), after);
    }
  }

  lemma {:induction false} OpenAfterCloses(d: Directive, after: Bytes)
    requires OpenAfter(after)
    ensures Following(d, after + CLOSING).Some?
    decreases |after|, 2
  {
    var rest := TrimStart(after);
    TrimStartSplits(after, CLOSING);
    assert (rest + CLOSING)[1..] == rest[1..] + CLOSING;
    TrimStartSplits(rest[1..], CLOSING);
    OpenCloses(TrimStart(rest[1..]));
  }

  lemma {:induction false} ClosesInside(s: Bytes, tail: Bytes, index: nat)
    requires 1 <= index && ClosingQuote(s, index) == None
    requires !Unclosed(s, index) || QUOTE !in tail
    ensures ClosingQuote(s + tail, index) == None
    decreases |s + tail| - index
  {
    var all := s + tail;
    if index < |all| {
      assert all[index] == if index < |s| then s[index] else tail[index - |s|];
      if all[index] == BACKSLASH {
        if index + 1 < |all| {
          assert all[index + 1] == if index + 1 < |s| then s[index + 1] else tail[index + 1 - |s|];
          if IsEscapable(all[index + 1]) { ClosesInside(s, tail, index + 2); }
        }
      } else if all[index] != QUOTE && IsQuotedText(all[index]) {
        ClosesInside(s, tail, index + 1);
      }
    }
  }

  /** What follows a line: it cannot extend a token or begin an argument. */
  ghost predicate Separates(tail: Bytes) {
    tail != [] && (IsSpace(tail[0]) || tail[0] == COMMA)
  }

  lemma TokenFails(s: Bytes, tail: Bytes)
    requires Token(s) == None && Separates(tail)
    ensures Token(s + tail) == None
  {
    assert (s + tail)[0] == if s == [] then tail[0] else s[0];
  }

  lemma ParameterValueFails(s: Bytes, tail: Bytes)
    requires ParameterValue(s) == None && Separates(tail)
    requires !(s != [] && s[0] == QUOTE && Unclosed(s, 1)) || QUOTE !in tail
    ensures ParameterValue(s + tail) == None
  {
    assert (s + tail)[0] == if s == [] then tail[0] else s[0];
    if s != [] && s[0] == QUOTE {
      ClosesInside(s, tail, 1);
    } else {
      TokenFails(s, tail);
    }
  }

  /** A line that is not open fails whatever follows it; an open one fails until a quote does. */
  lemma {:induction false} FailsStill(s: Bytes, tail: Bytes)
    requires Directives(s) == None && Separates(tail)
    requires !Open(s) || QUOTE !in tail
    ensures Directives(s + tail) == None
    decreases |s|, 1
  {
    if s[0] == COMMA {
      assert (s + tail)[1..] == s[1..] + tail;
      AfterCommaFailsStill(s[1..], tail);
    } else {
      DirectiveFailsStill(s, tail);
    }
  }

  lemma {:induction false} AfterCommaFailsStill(s: Bytes, tail: Bytes)
    requires Directives(TrimStart(s)) == None && Separates(tail)
    requires !Open(TrimStart(s)) || QUOTE !in tail
    ensures Directives(TrimStart(s + tail)) == None
    decreases |s|, 2
  {
    TrimStartSplits(s, tail);
    FailsStill(TrimStart(s), tail);
  }

  lemma {:induction false} DirectiveFailsStill(s: Bytes, tail: Bytes)
    requires s != [] && s[0] != COMMA && Directives(s) == None && Separates(tail)
    requires !Open(s) || QUOTE !in tail
    ensures Directives(s + tail) == None
    decreases |s|, 0
  {
    if Token(s) == None {
      TokenFails(s, tail);
    } else {
      TokenSplits(s, tail);
      var (name, rest) := Token(s).value;
      if rest != [] && rest[0] == EQUALS {
        assert (rest + tail)[1..] == rest[1..] + tail;
        ArgumentFailsStill(name, rest[1..], tail);
      } else {
        FollowingFailsStill((name, None), rest, tail);
      }
    }
  }

  lemma {:induction false} ArgumentFailsStill(name: Bytes, s: Bytes, tail: Bytes)
    requires Separates(tail) && (!OpenArgument(s) || QUOTE !in tail)
    requires ParameterValue(s).Some? ==>
               var (value, after) := ParameterValue(s).value; Following((name, Some(value)), after) == None
    ensures ParameterValue(s + tail).Some? ==>
              var (value, after) := ParameterValue(s + tail).value; Following((name, Some(value)), after) == None
    decreases |s|, 3
  {
    if ParameterValue(s) == None {
      ParameterValueFails(s, tail);
    } else {
      ParameterValueSplits(s, tail);
      var (value, after) := ParameterValue(s).value;
      FollowingFailsStill((name, Some(value)), after, tail);
    }
  }

  lemma {:induction false} FollowingFailsStill(d: Directive, after: Bytes, tail: Bytes)
    requires Following(d, after) == None && Separates(tail)
    requires !OpenAfter(after) || QUOTE !in tail
    ensures Following(d, after + tail) == None
    decreases |after|, 2
  {
    var rest := TrimStart(after);
    TrimStartSplits(after, tail);
    if rest[0] == COMMA {
      assert (rest + tail)[1..] == rest[1..] + tail;
      AfterCommaFailsStill(rest[1..], tail);
    }
  }

  lemma TrimOfFailing(a: Bytes)
    requires LineDirectives(a) == None
    ensures Directives(TrimStart(a)) == None
  {
    var w := TrimEndRest(TrimStart(a));
    if w == [] {
      assert TrimStart(a) == Trim(a);
    } else {
      FailsStill(Trim(a), w);
    }
  }

  lemma OpenLineCloses(a: Bytes)
    requires Open(TrimStart(a))
    ensures LineDirectives(a + [COMMA, BLANK] + [QUOTE]).Some?
  {
    var s := TrimStart(a);
    assert a + [COMMA, BLANK] + [QUOTE] == a + CLOSING;
    TrimStartSplits(a, CLOSING);
    assert (s + CLOSING)[|s| + 2] == QUOTE;
    assert Trim(a + CLOSING) == s + CLOSING;
    OpenCloses(s);
  }

  lemma ClosedLineFails(a: Bytes, b: Bytes)
    requires LineDirectives(a) == None && !Open(TrimStart(a))
    ensures LineDirectives(a + [COMMA, BLANK] + b) == None
  {
    var end := TrimJoinedStart(a, b);
    TrimOfFailing(a);
    FailsStill(TrimStart(a), [COMMA] + end);
  }

  /**
  A line that does not parse can be joined to another so that the whole does, if and only if it ends inside
  a quoted string. With TwoLinesJoin this settles joining for every first line.
  */
  lemma FailingLineJoinsIff(a: Bytes)
    requires LineDirectives(a) == None
    ensures (exists b: Bytes :: LineDirectives(a + [COMMA, BLANK] + b).Some?) <==> Open(TrimStart(a))
  {
    if Open(TrimStart(a)) {
      OpenLineCloses(a);
    } else {
      forall b: Bytes ensures LineDirectives(a + [COMMA, BLANK] + b) == None { ClosedLineFails(a, b); }
    }
  }

  // ----- The parser as it runs, moving a cursor

  method TakeToken(remaining: Bytes) returns (value: Option<Bytes>, rest: Bytes)
    ensures value == None ==> rest == remaining
    ensures value.Some? ==> |rest| < |remaining| && value.value + rest == remaining
    ensures Token(remaining) == if value == None then None else Some((value.value, rest))
  {
    var length := 0;
    while length < |remaining| && IsTokenByte(remaining[length])
      invariant 0 <= length <= |remaining|
      invariant TokenLength(remaining) == length + TokenLength(remaining[length..])
    {
      assert remaining[length..][1..] == remaining[length + 1..];
      length := length + 1;
    }
    if length == 0 { return None, remaining; }
    return Some(remaining[..length]), remaining[length..];
  }

  method TakeParameterValue(remaining: Bytes) returns (value: Option<Bytes>, rest: Bytes)
    ensures value.Some? ==> |rest| < |remaining|
    ensures ParameterValue(remaining) == if value == None then None else Some((value.value, rest))
  {
    if remaining == [] || remaining[0] != QUOTE {
      value, rest := TakeToken(remaining);
      return;
    }
    var index := 1;
    while index < |remaining|
      invariant 1 <= index
      invariant ClosingQuote(remaining, 1) == ClosingQuote(remaining, index)
    {
      if remaining[index] == QUOTE {
        return Some(remaining[1..index]), remaining[index + 1..];
      } else if remaining[index] == BACKSLASH {
        index := index + 1;
        if index >= |remaining| || !IsEscapable(remaining[index]) { return None, remaining; }
      } else if !IsQuotedText(remaining[index]) {
        return None, remaining;
      }
      index := index + 1;
    }
    return None, remaining;
  }

  lemma ConcatAssociates(a: seq<Directive>, b: seq<Directive>, c: Option<seq<Directive>>)
    ensures Concat(Some(a), Concat(Some(b), c)) == Concat(Some(a + b), c)
  {
    if c.Some? { assert a + (b + c.value) == (a + b) + c.value; }
  }

  method CacheDirectives(lines: seq<Bytes>) returns (result: Option<seq<Directive>>)
    ensures result == AllDirectives(lines)
  {
    var found: seq<Directive> := [];
    assert forall more: seq<Directive> :: [] + more == more;
    var i := 0;
    while i < |lines|
      invariant 0 <= i <= |lines|
      invariant AllDirectives(lines) == Concat(Some(found), AllDirectives(lines[i..]))
    {
      var parsed := LineLoop(lines[i]);
      assert lines[i..][0] == lines[i] && lines[i..][1..] == lines[i + 1..];
      if parsed == None { return None; }
      ConcatAssociates(found, parsed.value, AllDirectives(lines[i + 1..]));
      found := found + parsed.value;
      i := i + 1;
    }
    assert found + [] == found;
    return Some(found);
  }

  method TakeDirective(remaining: Bytes) returns (taken: Option<Directive>, rest: Bytes)
    requires remaining != [] && remaining[0] != COMMA
    ensures Directives(remaining) == if taken == None then None else Following(taken.value, rest)
    ensures |rest| <= |remaining| && (taken.Some? ==> |rest| < |remaining|)
  {
    var name;
    name, rest := TakeToken(remaining);
    if name == None { return None, rest; }
    var argument: Option<Bytes> := None;
    if rest != [] && rest[0] == EQUALS {
      argument, rest := TakeParameterValue(rest[1..]);
      if argument == None { return None, remaining; }
    }
    return Some((name.value, argument)), rest;
  }

  method LineLoop(line: Bytes) returns (result: Option<seq<Directive>>)
    ensures result == LineDirectives(line)
  {
    var found: seq<Directive> := [];
    assert forall more: seq<Directive> :: [] + more == more;
    var remaining := Trim(line);
    while remaining != []
      invariant LineDirectives(line) == Concat(Some(found), Directives(remaining))
      decreases |remaining|
    {
      if remaining[0] == COMMA {
        remaining := TrimStart(remaining[1..]);
        continue;
      }
      var taken, rest := TakeDirective(remaining);
      if taken == None { return None; }
      var d := taken.value;
      assert forall more: seq<Directive> :: found + ([d] + more) == (found + [d]) + more;
      rest := TrimStart(rest);
      if rest == [] {
        found, remaining := found + [d], [];
        assert found + [] == found;
      } else if rest[0] == COMMA {
        found, remaining := found + [d], TrimStart(rest[1..]);
      } else {
        return None;
      }
    }
    assert found + [] == found;
    return Some(found);
  }
}
