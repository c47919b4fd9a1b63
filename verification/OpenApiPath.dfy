/** Choosing the OpenAPI path template that documents a request. */
module OpenApiPath {
  import opened Text

  datatype TrailingSlash = Exact | Equivalent

  datatype Outcome =
    | Matched(method_: string, template: string)
    | InvalidTarget
    | NotDocumented
    | Ambiguous

  // ----- Segments

  predicate EndsInSlash(s: string) {
    s != "" && s[|s| - 1] == '/'
  }

  function WithoutSuffix(path: string, mode: TrailingSlash): string {
    if mode.Equivalent? && path != "/" && EndsInSlash(path) then path[..|path| - 1] else path
  }

  function Segments(path: string, mode: TrailingSlash): (parts: seq<string>)
    ensures |parts| > 0
  {
    var trimmed := WithoutSuffix(path, mode);
    Split(if trimmed != "" && trimmed[0] == '/' then trimmed[1..] else trimmed, '/')
  }

  lemma SplitTrailing(s: string)
    ensures Split(s + "/", '/') == Split(s, '/') + [""]
  {
    var parts := Split(s, '/');
    JoinSplit(s, '/');
    JoinLast(parts, "", '/');
    assert Join(parts + [""], '/') == s + "/";
    SplitJoin(parts + [""], '/');
  }

  /** Equivalent mode ignores one final slash: exactly, not every one of several. */
  lemma OneTrailingSlash(p: string)
    ensures Segments(p + "/", Equivalent) == Segments(p, Equivalent) <==> p == "/" || !EndsInSlash(p)
  {
    if p == "" {
    } else {
      assert (p + "/")[..|p|] == p;
      assert WithoutSuffix(p + "/", Equivalent) == p;
      if p == "/" {
        assert Segments("/", Equivalent) == Split("", '/');
      } else if EndsInSlash(p) {
        var q := p[..|p| - 1];
        var body := if q[0] == '/' then q[1..] else q;
        assert p == q + "/";
        assert body + "/" == if p[0] == '/' then p[1..] else p;
        SplitTrailing(body);
        assert WithoutSuffix(p, Equivalent) == q;
      }
    }
  }

  // ----- What it means to match, and how well

  predicate Placeholder(segment: string) {
    |segment| > 2 && segment[0] == '{' && segment[|segment| - 1] == '}'
  }

  predicate Matches(template: seq<string>, request: seq<string>) {
    |template| == |request|
    && forall i :: 0 <= i < |template| ==> Placeholder(template[i]) || template[i] == request[i]
  }

  function Score(template: seq<string>): seq<nat> {
    seq(|template|, i requires 0 <= i < |template| => if Placeholder(template[i]) then 0 else 1)
  }

  /** The lexicographic order of byte vectors. */
  predicate Less(a: seq<nat>, b: seq<nat>) {
    b != [] && (a == [] || a[0] < b[0] || (a[0] == b[0] && Less(a[1..], b[1..])))
  }

  lemma {:induction false} LessTransitive(a: seq<nat>, b: seq<nat>, c: seq<nat>)
    requires Less(a, b) && Less(b, c)
    ensures Less(a, c)
  {
    if a != [] && a[0] == b[0] == c[0] {
      LessTransitive(a[1..], b[1..], c[1..]);
    }
  }

  lemma {:induction false} LessTotal(a: seq<nat>, b: seq<nat>)
    ensures a == b || Less(a, b) || Less(b, a)
    ensures !(Less(a, b) && Less(b, a))
    ensures a == b ==> !Less(a, b)
  {
    if a != [] && b != [] && a[0] == b[0] {
      LessTotal(a[1..], b[1..]);
      assert a == [a[0]] + a[1..] && b == [b[0]] + b[1..];
    }
  }

  /** A template list read as segments, and the request's segments. */
  datatype Question = Question(templates: seq<seq<string>>, request: seq<string>)

  predicate At(q: Question, i: int) {
    0 <= i < |q.templates| && Matches(q.templates[i], q.request)
  }

  /** Position `i` matches, and no other position matches more specifically. */
  ghost predicate Top(q: Question, i: int) {
    At(q, i) && forall j :: At(q, j) ==> !Less(Score(q.templates[i]), Score(q.templates[j]))
  }

  function Asked(templates: seq<string>, path: string, mode: TrailingSlash): Question {
    Question(seq(|templates|, i requires 0 <= i < |templates| => Segments(templates[i], mode)), Segments(path, mode))
  }

  predicate InvalidRequest(method_: string, path: string) {
    method_ == "" || path == "" || '?' in path
  }

  function Upper(s: string): string {
    seq(|s|, i requires 0 <= i < |s| => if 'a' <= s[i] <= 'z' then s[i] - 'a' + 'A' else s[i])
  }

  /** The answer the order of templates cannot change: one most specific position, several, or none. */
  ghost predicate Answers(r: Outcome, method_: string, templates: seq<string>, path: string, mode: TrailingSlash) {
    var q := Asked(templates, path, mode);
    match r
    case InvalidTarget => InvalidRequest(method_, path)
    case Matched(m, t) =>
      && !InvalidRequest(method_, path) && m == Upper(method_)
      && exists i :: Top(q, i) && t == templates[i] && forall j :: Top(q, j) ==> j == i
    case Ambiguous => !InvalidRequest(method_, path) && exists i, j :: i != j && Top(q, i) && Top(q, j)
    case NotDocumented => !InvalidRequest(method_, path) && forall i :: !At(q, i)
  }

  // ----- The scan

  method MatchSegments(template: seq<string>, request: seq<string>) returns (matched: bool, specificity: seq<nat>)
    requires |template| == |request|
    ensures matched <==> Matches(template, request)
    ensures matched ==> specificity == Score(template)
  {
    specificity := [];
    for i := 0 to |template|
      invariant specificity == Score(template)[..i]
      invariant Matches(template[..i], request[..i])
    {
      if Placeholder(template[i]) {
        specificity := specificity + [0];
      } else {
        specificity := specificity + [1];
        if template[i] != request[i] {
          return false, specificity;
        }
      }
    }
    matched := true;
  }

  /** One template against the request: whether it matches, and how well. */
  method TryTemplate(template: string, mode: TrailingSlash, request: seq<string>)
    returns (matched: bool, specificity: seq<nat>)
    ensures matched <==> Matches(Segments(template, mode), request)
    ensures matched ==> specificity == Score(Segments(template, mode))
  {
    var segments := Segments(template, mode);
    if |segments| != |request| { return false, []; }
    matched, specificity := MatchSegments(segments, request);
  }

  /** The best position among the first `k`, and whether another is as good. */
  ghost predicate BestSoFar(q: Question, k: int, b: int, ambiguous: bool) {
    && 0 <= b < k && At(q, b)
    && (forall j :: j < k && At(q, j) ==> !Less(Score(q.templates[b]), Score(q.templates[j])))
    && (ambiguous <==> exists j :: j < k && j != b && At(q, j) && Score(q.templates[j]) == Score(q.templates[b]))
  }

  ghost predicate NoneSoFar(q: Question, k: int) {
    forall j :: j < k ==> !At(q, j)
  }

  lemma FirstFound(q: Question, k: int)
    requires NoneSoFar(q, k) && At(q, k)
    ensures BestSoFar(q, k + 1, k, false)
  {
    LessTotal(Score(q.templates[k]), Score(q.templates[k]));
  }

  lemma BetterReplaces(q: Question, k: int, b: int, ambiguous: bool)
    requires BestSoFar(q, k, b, ambiguous) && At(q, k)
    requires Less(Score(q.templates[b]), Score(q.templates[k]))
    ensures BestSoFar(q, k + 1, k, false)
  {
    var score, best := Score(q.templates[k]), Score(q.templates[b]);
    LessTotal(score, score);
    forall j | j < k && At(q, j) ensures !Less(score, Score(q.templates[j])) && Score(q.templates[j]) != score {
      if Less(score, Score(q.templates[j])) {
        LessTransitive(best, score, Score(q.templates[j]));
      }
    }
  }

  lemma OtherwiseKept(q: Question, k: int, b: int, ambiguous: bool)
    requires BestSoFar(q, k, b, ambiguous)
    requires At(q, k) ==> !Less(Score(q.templates[b]), Score(q.templates[k]))
    ensures BestSoFar(q, k + 1, b, ambiguous || (At(q, k) && Score(q.templates[k]) == Score(q.templates[b])))
  {}

  lemma BestIsTop(q: Question, b: int, ambiguous: bool)
    requires BestSoFar(q, |q.templates|, b, ambiguous)
    ensures Top(q, b)
    ensures ambiguous <==> exists j :: j != b && Top(q, j)
  {
    forall j | At(q, j) ensures Top(q, j) <==> Score(q.templates[j]) == Score(q.templates[b]) {
      LessTotal(Score(q.templates[j]), Score(q.templates[b]));
    }
  }

  method MatchOpenApiPath(method_: string, templates: seq<string>, path: string, mode: TrailingSlash)
    returns (r: Outcome)
    ensures Answers(r, method_, templates, path, mode)
  {
    if method_ == "" || path == "" || '?' in path { return InvalidTarget; }
    var request := Segments(path, mode);
    var found, best, score, ambiguous := false, "", [], false;
    ghost var q, b := Asked(templates, path, mode), 0;
    for k := 0 to |templates|
      invariant found ==> BestSoFar(q, k, b, ambiguous) && best == templates[b] && score == Score(q.templates[b])
      invariant !found ==> NoneSoFar(q, k)
    {
      var matched, specificity := TryTemplate(templates[k], mode, request);
      assert matched <==> At(q, k);
      if matched && !found {
        FirstFound(q, k);
        found, best, score, ambiguous, b := true, templates[k], specificity, false, k;
      } else if matched && Less(score, specificity) {
        BetterReplaces(q, k, b, ambiguous);
        best, score, ambiguous, b := templates[k], specificity, false, k;
      } else if found {
        OtherwiseKept(q, k, b, ambiguous);
        ambiguous := ambiguous || (matched && specificity == score);
      }
    }
    if !found { return NotDocumented; }
    BestIsTop(q, b, ambiguous);
    if ambiguous { return Ambiguous; }
    return Matched(Upper(method_), best);
  }

  // ----- What the answer depends on

  lemma Removed(s: seq<string>, i: nat, x: string)
    requires i < |s|
    ensures multiset(s)[x] == multiset(s[..i] + s[i + 1..])[x] + if x == s[i] then 1 else 0
  {
    assert s == s[..i] + [s[i]] + s[i + 1..];
  }

  /** Two list positions of one list are two list positions of any rearrangement of it. */
  lemma Rearranged(us: seq<string>, ts: seq<string>, a: nat, b: nat) returns (i: nat, j: nat)
    requires multiset(us) == multiset(ts)
    requires a < b < |us|
    ensures i < |ts| && j < |ts| && i != j && ts[i] == us[a] && ts[j] == us[b]
  {
    assert us[a] in multiset(ts);
    i :| 0 <= i < |ts| && ts[i] == us[a];
    var left, others := us[..a] + us[a + 1..], ts[..i] + ts[i + 1..];
    Removed(us, a, us[b]);
    Removed(ts, i, us[b]);
    assert us[b] == left[b - 1];
    assert us[b] in multiset(left);
    assert us[b] in multiset(others);
    var k :| 0 <= k < |others| && others[k] == us[b];
    j := if k < i then k else k + 1;
  }

  lemma TopRearranged(us: seq<string>, ts: seq<string>, path: string, mode: TrailingSlash, a: nat, i: nat)
    requires multiset(us) == multiset(ts) && i < |ts|
    requires Top(Asked(us, path, mode), a) && us[a] == ts[i]
    ensures Top(Asked(ts, path, mode), i)
  {
    var p, q := Asked(us, path, mode), Asked(ts, path, mode);
    forall j | At(q, j) ensures !Less(Score(q.templates[i]), Score(q.templates[j])) {
      assert ts[j] in multiset(us);
      var k :| 0 <= k < |us| && us[k] == ts[j];
      assert At(p, k);
    }
  }

  lemma TwoTopsRearranged(us: seq<string>, ts: seq<string>, path: string, mode: TrailingSlash, a: nat, b: nat)
    requires multiset(us) == multiset(ts) && a != b
    requires Top(Asked(us, path, mode), a) && Top(Asked(us, path, mode), b)
    ensures exists i, j :: i != j && Top(Asked(ts, path, mode), i) && Top(Asked(ts, path, mode), j)
  {
    var first, second := if a < b then a else b, if a < b then b else a;
    var i, j := Rearranged(us, ts, first, second);
    TopRearranged(us, ts, path, mode, first, i);
    TopRearranged(us, ts, path, mode, second, j);
  }

  lemma MatchedRearranged(us: seq<string>, ts: seq<string>, method_: string, path: string, mode: TrailingSlash,
                          r: Outcome, r': Outcome)
    requires multiset(us) == multiset(ts) && r.Matched?
    requires Answers(r, method_, us, path, mode) && Answers(r', method_, ts, path, mode)
    ensures r == r'
  {
    var p, q := Asked(us, path, mode), Asked(ts, path, mode);
    var a :| Top(p, a) && r.template == us[a] && forall j :: Top(p, j) ==> j == a;
    assert us[a] in multiset(ts);
    var i :| 0 <= i < |ts| && ts[i] == us[a];
    TopRearranged(us, ts, path, mode, a, i);
    if r'.Ambiguous? {
      var c, d :| c != d && Top(q, c) && Top(q, d);
      TwoTopsRearranged(ts, us, path, mode, c, d);
      assert false;
    }
  }

  /** The outcome is fixed by the request and the templates as a bag: their order cannot change it. */
  lemma OrderIrrelevant(us: seq<string>, ts: seq<string>, method_: string, path: string, mode: TrailingSlash,
                        r: Outcome, r': Outcome)
    requires multiset(us) == multiset(ts)
    requires Answers(r, method_, us, path, mode) && Answers(r', method_, ts, path, mode)
    ensures r == r'
  {
    if r.Matched? {
      MatchedRearranged(us, ts, method_, path, mode, r, r');
    } else if r'.Matched? {
      MatchedRearranged(ts, us, method_, path, mode, r', r);
    } else if r.Ambiguous? {
      var a, b :| a != b && Top(Asked(us, path, mode), a) && Top(Asked(us, path, mode), b);
      TwoTopsRearranged(us, ts, path, mode, a, b);
    } else if r'.Ambiguous? {
      var a, b :| a != b && Top(Asked(ts, path, mode), a) && Top(Asked(ts, path, mode), b);
      TwoTopsRearranged(ts, us, path, mode, a, b);
    }
  }

  /** The first position where exactly one of the two has a placeholder is one where it is the first's. */
  ghost predicate LiteralFirst(a: seq<string>, b: seq<string>, p: nat) {
    && p < |a| && p < |b| && Placeholder(a[p]) && !Placeholder(b[p])
    && forall k :: 0 <= k < p ==> (Placeholder(a[k]) <==> Placeholder(b[k]))
  }

  lemma {:induction false} LessFrom(x: seq<nat>, y: seq<nat>, p: nat)
    requires p < |x| && p < |y| && x[p] < y[p] && forall k :: 0 <= k < p ==> x[k] == y[k]
    ensures Less(x, y)
    decreases p
  {
    if p > 0 { LessFrom(x[1..], y[1..], p - 1); }
  }

  lemma {:induction false} LessFinds(x: seq<nat>, y: seq<nat>) returns (p: nat)
    requires |x| == |y| && Less(x, y)
    ensures p < |x| && x[p] < y[p] && forall k :: 0 <= k < p ==> x[k] == y[k]
  {
    p := 0;
    if x[0] == y[0] {
      var q := LessFinds(x[1..], y[1..]);
      p := q + 1;
      forall k | 0 <= k < p ensures x[k] == y[k] {
        if k > 0 { assert x[1..][k - 1] == y[1..][k - 1]; }
      }
    }
  }

  /** Of two templates of one length the second is more specific when it is literal where they first differ. */
  lemma LiteralPreferred(a: seq<string>, b: seq<string>)
    requires |a| == |b|
    ensures Less(Score(a), Score(b)) <==> exists p :: LiteralFirst(a, b, p)
  {
    if Less(Score(a), Score(b)) {
      var p := LessFinds(Score(a), Score(b));
      forall k | 0 <= k < p ensures Placeholder(a[k]) <==> Placeholder(b[k]) {
        assert Score(a)[k] == Score(b)[k];
      }
      assert LiteralFirst(a, b, p);
    }
    if exists p :: LiteralFirst(a, b, p) {
      var p :| LiteralFirst(a, b, p);
      LessFrom(Score(a), Score(b), p);
    }
  }

  /** Rendering a method name in upper case leaves no lower-case letter and changes nothing else. */
  lemma UpperExactly(s: string)
    ensures |Upper(s)| == |s|
    ensures forall i :: 0 <= i < |s| ==>
      if 'a' <= s[i] <= 'z' then 'A' <= Upper(s)[i] <= 'Z' && Upper(s)[i] - 'A' == s[i] - 'a' else Upper(s)[i] == s[i]
  {
  }

  /** Segment for segment the same text, or placeholders both. */
  predicate Alike(a: seq<string>, b: seq<string>) {
    |a| == |b| && forall k :: 0 <= k < |a| ==> a[k] == b[k] || (Placeholder(a[k]) && Placeholder(b[k]))
  }

  /** What ties with a most specific template is what differs from it in placeholder names only. */
  lemma TiesAreAlike(q: Question, i: int, j: int)
    requires Top(q, i) && 0 <= j < |q.templates|
    ensures Top(q, j) <==> Alike(q.templates[i], q.templates[j])
  {
    var a, b := q.templates[i], q.templates[j];
    if Top(q, j) {
      LessTotal(Score(a), Score(b));
      forall k | 0 <= k < |a| ensures a[k] == b[k] || (Placeholder(a[k]) && Placeholder(b[k])) {
        assert Score(a)[k] == Score(b)[k];
      }
    }
    if Alike(a, b) {
      assert Score(a) == Score(b);
      assert At(q, j);
    }
  }
}
