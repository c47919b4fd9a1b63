/** Splitting text at a separator, and joining it again. */
module Text {
  import opened Common

  function Join(parts: seq<string>, separator: char): string
    requires |parts| > 0
  {
    if |parts| == 1 then parts[0] else parts[0] + [separator] + Join(parts[1..], separator)
  }

  function Split(s: string, separator: char): (parts: seq<string>)
    ensures |parts| > 0
    ensures forall i :: 0 <= i < |parts| ==> separator !in parts[i]
  {
    if s == "" then [""]
    else
      var rest := Split(s[1..], separator);
      if s[0] == separator then [""] + rest else [[s[0]] + rest[0]] + rest[1..]
  }

  lemma {:induction false} JoinSplit(s: string, separator: char)
    ensures Join(Split(s, separator), separator) == s
  {
    if s != "" {
      var rest := Split(s[1..], separator);
      JoinSplit(s[1..], separator);
      if s[0] == separator {
        assert ([""] + rest)[1..] == rest;
      } else {
        assert ([[s[0]] + rest[0]] + rest[1..])[1..] == rest[1..];
      }
      assert s == [s[0]] + s[1..];
    }
  }

  lemma {:induction false} SplitOff(part: string, rest: string, separator: char)
    requires separator !in part
    ensures Split(part + [separator] + rest, separator) == [part] + Split(rest, separator)
  {
    var s := part + [separator] + rest;
    if part == "" {
      assert s[1..] == rest;
    } else {
      SplitOff(part[1..], rest, separator);
      assert s[1..] == part[1..] + [separator] + rest;
      assert part == [part[0]] + part[1..];
    }
  }

  lemma {:induction false} SplitWhole(part: string, separator: char)
    requires separator !in part
    ensures Split(part, separator) == [part]
  {
    if part != "" {
      SplitWhole(part[1..], separator);
      assert part == [part[0]] + part[1..];
    }
  }

  lemma {:induction false} SplitJoin(parts: seq<string>, separator: char)
    requires |parts| > 0 && forall i :: 0 <= i < |parts| ==> separator !in parts[i]
    ensures Split(Join(parts, separator), separator) == parts
  {
    if |parts| == 1 {
      SplitWhole(parts[0], separator);
    } else {
      SplitJoin(parts[1..], separator);
      SplitOff(parts[0], Join(parts[1..], separator), separator);
    }
  }

  lemma {:induction false} JoinLast(parts: seq<string>, last: string, separator: char)
    requires |parts| > 0
    ensures Join(parts + [last], separator) == Join(parts, separator) + [separator] + last
  {
    if |parts| == 1 {
      assert (parts + [last])[1..] == [last];
    } else {
      assert (parts + [last])[1..] == parts[1..] + [last];
      JoinLast(parts[1..], last, separator);
    }
  }

  lemma {:induction false} SplitTakes(s: string, separator: char, i: nat, k: nat)
    requires i < |Split(s, separator)| && k < |Split(s, separator)[i]|
    ensures Split(s, separator)[i][k] in s
  {
    if s[0] == separator {
      SplitTakes(s[1..], separator, i - 1, k);
    } else if i > 0 {
      SplitTakes(s[1..], separator, i, k);
    } else if k > 0 {
      SplitTakes(s[1..], separator, 0, k - 1);
    }
  }

  lemma {:induction false} JoinTakes(parts: seq<string>, separator: char, c: char) returns (i: nat)
    requires |parts| > 0 && c in Join(parts, separator) && c != separator
    ensures i < |parts| && c in parts[i]
  {
    if c in parts[0] {
      i := 0;
    } else {
      i := JoinTakes(parts[1..], separator, c);
      i := i + 1;
    }
  }

  function Find(s: string, pattern: string): (at: Option<nat>)
    ensures at.Some? ==> OccursAt(s, pattern, at.value) && forall i :: 0 <= i < at.value ==> !OccursAt(s, pattern, i)
    ensures at.None? ==> forall i :: 0 <= i <= |s| ==> !OccursAt(s, pattern, i)
  {
    FindFrom(s, pattern, 0)
  }

  predicate OccursAt(s: string, pattern: string, i: int) {
    0 <= i <= |s| - |pattern| && s[i..i + |pattern|] == pattern
  }

  function FindFrom(s: string, pattern: string, start: nat): (at: Option<nat>)
    requires start <= |s|
    ensures at.Some? ==> start <= at.value && OccursAt(s, pattern, at.value)
                         && forall i :: start <= i < at.value ==> !OccursAt(s, pattern, i)
    ensures at.None? ==> forall i :: start <= i <= |s| ==> !OccursAt(s, pattern, i)
    decreases |s| - start
  {
    if OccursAt(s, pattern, start) then Some(start)
    else if start == |s| then None
    else FindFrom(s, pattern, start + 1)
  }
}
