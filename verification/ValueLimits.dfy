/** The bounds on a claim document: one counter threaded through a short-circuiting traversal. */
module ValueLimits {

  datatype Value =
    | Null
    | Bool(b: bool)
    | Number(text: string)
    | String(text: string)
    | Array(values: seq<Value>)
    | Object(members: seq<Member>)

  datatype Member = Member(name: string, value: Value)

  datatype Limits = Limits(maximumMembers: nat, maximumDepth: nat, maximumLength: nat)

  // ----- The plain conditions

  /** Members of all objects, at any depth. */
  function Members(v: Value): nat
    decreases v, 1
  {
    match v
    case Array(values) => ArrayMembers(values)
    case Object(members) => ObjectMembers(members)
    case _ => 0
  }

  function ArrayMembers(values: seq<Value>): nat
    decreases values, 0
  {
    if values == [] then 0 else ArrayMembers(values[..|values| - 1]) + Members(values[|values| - 1])
  }

  function ObjectMembers(members: seq<Member>): nat
    decreases members, 0
  {
    if members == [] then 0
    else ObjectMembers(members[..|members| - 1]) + 1 + Members(members[|members| - 1].value)
  }

  /** Arrays and objects lie at most so deep; the outermost is at depth one. */
  predicate DepthOk(v: Value, depth: nat, maximum: nat)
    decreases v
  {
    match v
    case Array(values) =>
      depth <= maximum && forall i :: 0 <= i < |values| ==> DepthOk(values[i], depth + 1, maximum)
    case Object(members) =>
      depth <= maximum && forall i :: 0 <= i < |members| ==> DepthOk(members[i].value, depth + 1, maximum)
    case _ => true
  }

  /** Strings and member names are at most so long. */
  predicate LengthsOk(v: Value, maximum: nat)
    decreases v
  {
    match v
    case String(text) => |text| <= maximum
    case Array(values) => forall i :: 0 <= i < |values| ==> LengthsOk(values[i], maximum)
    case Object(members) =>
      forall i :: 0 <= i < |members| ==> |members[i].name| <= maximum && LengthsOk(members[i].value, maximum)
    case _ => true
  }

  /** How deep arrays and objects nest; a scalar does not. */
  function Nesting(v: Value): nat
    decreases v, 1
  {
    match v
    case Array(values) => 1 + ArrayNesting(values)
    case Object(members) => 1 + ObjectNesting(members)
    case _ => 0
  }

  function ArrayNesting(values: seq<Value>): nat
    decreases values, 0
  {
    if values == [] then 0
    else
      var first, rest := Nesting(values[0]), ArrayNesting(values[1..]);
      if first < rest then rest else first
  }

  function ObjectNesting(members: seq<Member>): nat
    decreases members, 0
  {
    if members == [] then 0
    else
      var first, rest := Nesting(members[0].value), ObjectNesting(members[1..]);
      if first < rest then rest else first
  }

  /** What holds at every depth is a bound on the deepest nesting. */
  lemma {:induction false} DepthOkIff(v: Value, depth: nat, maximum: nat)
    ensures DepthOk(v, depth, maximum) <==> Nesting(v) == 0 || depth + Nesting(v) <= maximum + 1
    decreases v, 1
  {
    match v
    case Array(values) => ArrayDepthIff(values, depth + 1, maximum);
    case Object(members) => ObjectDepthIff(members, depth + 1, maximum);
    case _ =>
  }

  lemma {:induction false} ArrayDepthIff(values: seq<Value>, depth: nat, maximum: nat)
    ensures (forall i :: 0 <= i < |values| ==> DepthOk(values[i], depth, maximum)) <==>
            ArrayNesting(values) == 0 || depth + ArrayNesting(values) <= maximum + 1
    decreases values, 0
  {
    if values != [] {
      DepthOkIff(values[0], depth, maximum);
      ArrayDepthIff(values[1..], depth, maximum);
      assert values == [values[0]] + values[1..];
    }
  }

  lemma {:induction false} ObjectDepthIff(members: seq<Member>, depth: nat, maximum: nat)
    ensures (forall i :: 0 <= i < |members| ==> DepthOk(members[i].value, depth, maximum)) <==>
            ObjectNesting(members) == 0 || depth + ObjectNesting(members) <= maximum + 1
    decreases members, 0
  {
    if members != [] {
      DepthOkIff(members[0].value, depth, maximum);
      ObjectDepthIff(members[1..], depth, maximum);
      assert members == [members[0]] + members[1..];
    }
  }

  /** Every string in a value, member names included. */
  function Texts(v: Value): set<string>
    decreases v
  {
    match v
    case String(text) => {text}
    case Array(values) => set i, text | 0 <= i < |values| && text in Texts(values[i]) :: text
    case Object(members) =>
      (set i | 0 <= i < |members| :: members[i].name)
      + set i, text | 0 <= i < |members| && text in Texts(members[i].value) :: text
    case _ => {}
  }

  lemma {:induction false} LengthsOkIff(v: Value, maximum: nat)
    ensures LengthsOk(v, maximum) <==> forall text :: text in Texts(v) ==> |text| <= maximum
    decreases v
  {
    match v
    case Array(values) =>
      forall i | 0 <= i < |values|
        ensures LengthsOk(values[i], maximum) <==> forall text :: text in Texts(values[i]) ==> |text| <= maximum
        ensures Texts(values[i]) <= Texts(v)
      {
        LengthsOkIff(values[i], maximum);
      }
    case Object(members) =>
      forall i | 0 <= i < |members|
        ensures LengthsOk(members[i].value, maximum) <==>
                forall text :: text in Texts(members[i].value) ==> |text| <= maximum
        ensures Texts(members[i].value) <= Texts(v) && members[i].name in Texts(v)
      {
        LengthsOkIff(members[i].value, maximum);
      }
    case _ =>
  }

  predicate Meets(v: Value, depth: nat, limits: Limits) {
    DepthOk(v, depth, limits.maximumDepth) && LengthsOk(v, limits.maximumLength)
  }

  predicate MemberMeets(m: Member, depth: nat, limits: Limits) {
    |m.name| <= limits.maximumLength && Meets(m.value, depth, limits)
  }

  // ----- The traversal

  lemma {:induction false} ArrayMembersGrow(values: seq<Value>, i: nat)
    requires i <= |values|
    ensures ArrayMembers(values[..i]) <= ArrayMembers(values)
    decreases |values| - i
  {
    if i < |values| {
      assert values[..i + 1][..i] == values[..i];
      ArrayMembersGrow(values, i + 1);
    } else {
      assert values[..i] == values;
    }
  }

  lemma {:induction false} ObjectMembersGrow(members: seq<Member>, i: nat)
    requires i <= |members|
    ensures ObjectMembers(members[..i]) <= ObjectMembers(members)
    decreases |members| - i
  {
    if i < |members| {
      assert members[..i + 1][..i] == members[..i];
      ObjectMembersGrow(members, i + 1);
    } else {
      assert members[..i] == members;
    }
  }

  /**
  `counted` members came before. The traversal stops at the first excess, and still its answer is
  that all three plain conditions hold.
  */
  method WithinLimits(v: Value, depth: nat, limits: Limits, counted: nat) returns (ok: bool, total: nat)
    requires counted <= limits.maximumMembers
    ensures ok <==> Meets(v, depth, limits) && counted + Members(v) <= limits.maximumMembers
    ensures ok ==> total == counted + Members(v)
    decreases v, 1
  {
    match v {
      case String(text) => ok, total := |text| <= limits.maximumLength, counted;
      case Array(values) =>
        if depth > limits.maximumDepth { return false, counted; }
        ok, total := WithinArray(values, depth, limits, counted);
      case Object(members) =>
        if depth > limits.maximumDepth { return false, counted; }
        ok, total := WithinObject(members, depth, limits, counted);
      case _ => ok, total := true, counted;
    }
  }

  method WithinArray(values: seq<Value>, depth: nat, limits: Limits, counted: nat) returns (ok: bool, total: nat)
    requires counted <= limits.maximumMembers
    ensures ok <==> (forall i :: 0 <= i < |values| ==> Meets(values[i], depth + 1, limits))
                    && counted + ArrayMembers(values) <= limits.maximumMembers
    ensures ok ==> total == counted + ArrayMembers(values)
    decreases values, 0
  {
    total := counted;
    for i := 0 to |values|
      invariant total == counted + ArrayMembers(values[..i]) <= limits.maximumMembers
      invariant forall j :: 0 <= j < i ==> Meets(values[j], depth + 1, limits)
    {
      assert values[..i + 1][..i] == values[..i];
      ArrayMembersGrow(values, i + 1);
      ok, total := WithinLimits(values[i], depth + 1, limits, total);
      if !ok { return; }
    }
    assert values[..|values|] == values;
    ok := true;
  }

  method WithinObject(members: seq<Member>, depth: nat, limits: Limits, counted: nat) returns (ok: bool, total: nat)
    requires counted <= limits.maximumMembers
    ensures ok <==> (forall i :: 0 <= i < |members| ==> MemberMeets(members[i], depth + 1, limits))
                    && counted + ObjectMembers(members) <= limits.maximumMembers
    ensures ok ==> total == counted + ObjectMembers(members)
    decreases members, 0
  {
    total := counted;
    for i := 0 to |members|
      invariant total == counted + ObjectMembers(members[..i]) <= limits.maximumMembers
      invariant forall j :: 0 <= j < i ==> MemberMeets(members[j], depth + 1, limits)
    {
      assert members[..i + 1][..i] == members[..i];
      ObjectMembersGrow(members, i + 1);
      total := total + 1;
      if total > limits.maximumMembers || |members[i].name| > limits.maximumLength { return false, total; }
      ok, total := WithinLimits(members[i].value, depth + 1, limits, total);
      if !ok { return; }
    }
    assert members[..|members|] == members;
    ok := true;
  }

  /** A document is inside its limits exactly when the plain conditions hold of it as a whole. */
  method WithinValueLimits(v: Value, limits: Limits) returns (ok: bool)
    ensures ok <==> && Members(v) <= limits.maximumMembers && Nesting(v) <= limits.maximumDepth
                    && forall text :: text in Texts(v) ==> |text| <= limits.maximumLength
  {
    DepthOkIff(v, 1, limits.maximumDepth);
    LengthsOkIff(v, limits.maximumLength);
    var total;
    ok, total := WithinLimits(v, 1, limits, 0);
  }
}
