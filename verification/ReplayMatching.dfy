/**
 * The matcher of the protocol replay agent: a recorded frame may contain `<any>` for a whole
 * value, `<any>` inside a text for an arbitrary stretch of characters, and `<workspace>` for
 * the directory of this replay.
 */
module ReplayMatching {
  import opened Options
  import opened JsValues
  import opened Texts

  const ANY := "<any>"
  const WORKSPACE := "<workspace>"

  // ---------------------------------------------------------------- placing the parts of a pattern

  /** The parts occur at the given places, in order and without overlapping, from `offset` on. */
  predicate Placement(parts: seq<string>, text: string, offset: nat, at: seq<nat>) {
    && |at| == |parts|
    && (forall k :: 0 <= k < |parts| ==> OccursAt(text, parts[k], at[k]))
    && (|at| > 0 ==> offset <= at[0])
    && (forall k :: 0 <= k < |parts| - 1 ==> at[k] + |parts[k]| <= at[k + 1])
  }

  ghost predicate Placeable(parts: seq<string>, text: string, offset: nat) {
    exists at :: Placement(parts, text, offset, at)
  }

  /** Always take the leftmost occurrence of the next part. */
  function Greedy(parts: seq<string>, text: string, offset: nat): bool
    requires offset <= |text|
  {
    if parts == [] then true
    else
      match IndexOf(text, parts[0], offset)
      case None => false
      case Some(i) => Greedy(parts[1..], text, i + |parts[0]|)
  }

  /** The greedy search is sound and never misses a placement. */
  lemma {:induction false} GreedyIffPlaceable(parts: seq<string>, text: string, offset: nat)
    requires offset <= |text|
    ensures Greedy(parts, text, offset) <==> Placeable(parts, text, offset)
    decreases |parts|
  {
    if parts == [] {
      assert Placement(parts, text, offset, []);
    } else {
      var first := IndexOf(text, parts[0], offset);
      if first.Some? {
        var next := first.value + |parts[0]|;
        GreedyIffPlaceable(parts[1..], text, next);
        if at :| Placement(parts[1..], text, next, at) {
          assert Placement(parts, text, offset, [first.value] + at);
        }
      }
      if at :| Placement(parts, text, offset, at) {
        assert OccursAt(text, parts[0], at[0]);
        assert first.value <= at[0];
        assert Placement(parts[1..], text, first.value + |parts[0]|, at[1..]);
      }
    }
  }

  // ---------------------------------------------------------------- the matcher

  function Expanded(expected: string, workspace: string): string {
    ReplaceAll(expected, WORKSPACE, workspace)
  }

  function TextMatches(expected: string, actual: string, workspace: string): bool {
    var expanded := Expanded(expected, workspace);
    if !Includes(expanded, ANY) then expanded == actual
    else Greedy(Split(expanded, ANY), actual, 0)
  }

  function Matches(expected: Value, actual: Value, workspace: string): bool
    decreases expected
  {
    if expected == Text(ANY) then true
    else if expected.Text? && actual.Text? then TextMatches(expected.s, actual.s, workspace)
    else if expected.List? then
      && actual.List?
      && |expected.items| == |actual.items|
      && forall i :: 0 <= i < |expected.items| ==> Matches(expected.items[i], actual.items[i], workspace)
    else if expected.Record? then
      && actual.Record?
      && expected.fields.Keys == actual.fields.Keys
      && forall k :: k in expected.fields ==> Matches(expected.fields[k], actual.fields[k], workspace)
    else expected == actual
  }

  /** The offset loop of the matcher. */
  method MatchParts(parts: seq<string>, actual: string) returns (found: bool)
    ensures found <==> Placeable(parts, actual, 0)
  {
    var offset: nat := 0;
    var k := 0;
    while k < |parts|
      invariant 0 <= k <= |parts| && offset <= |actual|
      invariant Greedy(parts, actual, 0) == Greedy(parts[k..], actual, offset)
    {
      var index := IndexOf(actual, parts[k], offset);
      assert parts[k..][1..] == parts[k + 1..];
      if index.None? {
        GreedyIffPlaceable(parts, actual, 0);
        return false;
      }
      offset := index.value + |parts[k]|;
      k := k + 1;
    }
    GreedyIffPlaceable(parts, actual, 0);
    return true;
  }

  /** A text pattern matches exactly the texts its parts can be placed in. */
  lemma TextMatchesIffPlaceable(expected: string, actual: string, workspace: string)
    ensures var expanded := Expanded(expected, workspace);
            TextMatches(expected, actual, workspace)
            <==> if Includes(expanded, ANY) then Placeable(Split(expanded, ANY), actual, 0)
                 else actual == expanded
  {
    GreedyIffPlaceable(Split(Expanded(expected, workspace), ANY), actual, 0);
  }

  /**
   * The directory is put in the place of every placeholder, provided no dollar sign in its
   * path is followed by one of the characters that replacing gives a meaning.
   */
  lemma ExpandedIsJoined(expected: string, workspace: string)
    requires Literal(workspace)
    ensures Expanded(expected, workspace) == Join(Split(expected, WORKSPACE), workspace)
  {
    ReplaceJoins("", expected, WORKSPACE, workspace);
  }

  /** A path with a dollar sign and an ampersand gets the placeholder back into it. */
  lemma DollarPathIsGarbled(front: string, back: string)
    requires '$' !in front && '$' !in back
    ensures Expanded(WORKSPACE, front + "$&" + back) == front + WORKSPACE + back
  {
    var path := front + "$&" + back;
    SubstitutedAfter(front, "$&" + back, "", WORKSPACE, "");
    assert path == front + ("$&" + back);
    assert ("$&" + back)[2..] == back;
    LiteralStays(back, "", WORKSPACE, "");
    assert WORKSPACE[|WORKSPACE|..] == "";
    assert Expanded(WORKSPACE, path) == Substituted(path, "", WORKSPACE, "") + "";
  }

  lemma {:induction false} SubstitutedAfter(front: string, rest: string, before: string, match_: string, after: string)
    requires '$' !in front
    ensures Substituted(front + rest, before, match_, after) == front + Substituted(rest, before, match_, after)
  {
    if front == "" {
      assert front + rest == rest;
    } else {
      assert (front + rest)[1..] == front[1..] + rest;
      SubstitutedAfter(front[1..], rest, before, match_, after);
    }
  }

  // ---------------------------------------------------------------- the matcher, place by place

  datatype Step = Item(index: nat) | Field(key: string)

  /** The part of a value at a path of list indices and record keys. */
  function At(v: Value, path: seq<Step>): Option<Value>
    decreases |path|
  {
    if path == [] then Some(v)
    else
      match path[0]
      case Item(i) => if v.List? && i < |v.items| then At(v.items[i], path[1..]) else None
      case Field(k) => if v.Record? && k in v.fields then At(v.fields[k], path[1..]) else None
  }

  /** What a place of the pattern asks of the same place of the value, leaving out what lies below. */
  predicate AgreesHere(expected: Value, actual: Value, workspace: string) {
    match expected
    case Text(s) => s == ANY || (actual.Text? && TextMatches(s, actual.s, workspace))
    case List(items) => actual.List? && |actual.items| == |items|
    case Record(fields) => actual.Record? && actual.fields.Keys == fields.Keys
    case _ => actual == expected
  }

  ghost predicate AgreesEverywhere(expected: Value, actual: Value, workspace: string) {
    forall path: seq<Step> :: At(expected, path).Some? ==>
      At(actual, path).Some? && AgreesHere(At(expected, path).value, At(actual, path).value, workspace)
  }

  lemma AtItem(v: Value, i: nat, path: seq<Step>)
    requires v.List? && i < |v.items|
    ensures At(v, [Item(i)] + path) == At(v.items[i], path)
  {
    assert ([Item(i)] + path)[1..] == path;
  }

  lemma AtField(v: Value, k: string, path: seq<Step>)
    requires v.Record? && k in v.fields
    ensures At(v, [Field(k)] + path) == At(v.fields[k], path)
  {
    assert ([Field(k)] + path)[1..] == path;
  }

  lemma ItemsAgree(expected: Value, actual: Value, workspace: string)
    requires expected.List?
    ensures AgreesEverywhere(expected, actual, workspace)
            <==> AgreesHere(expected, actual, workspace)
                 && forall i :: 0 <= i < |expected.items| ==>
                      AgreesEverywhere(expected.items[i], actual.items[i], workspace)
  {
    if AgreesEverywhere(expected, actual, workspace) {
      assert At(expected, []).Some?;
      forall i, path | 0 <= i < |expected.items| && At(expected.items[i], path).Some?
        ensures At(actual.items[i], path).Some?
        ensures AgreesHere(At(expected.items[i], path).value, At(actual.items[i], path).value, workspace)
      {
        AtItem(expected, i, path);
        AtItem(actual, i, path);
      }
    } else if AgreesHere(expected, actual, workspace)
              && forall i :: 0 <= i < |expected.items| ==>
                   AgreesEverywhere(expected.items[i], actual.items[i], workspace) {
      forall path: seq<Step> | At(expected, path).Some?
        ensures At(actual, path).Some?
        ensures AgreesHere(At(expected, path).value, At(actual, path).value, workspace)
      {
        if path != [] {
          assert AgreesEverywhere(expected.items[path[0].index], actual.items[path[0].index], workspace);
        }
      }
    }
  }

  lemma FieldsAgree(expected: Value, actual: Value, workspace: string)
    requires expected.Record?
    ensures AgreesEverywhere(expected, actual, workspace)
            <==> AgreesHere(expected, actual, workspace)
                 && forall k :: k in expected.fields ==>
                      AgreesEverywhere(expected.fields[k], actual.fields[k], workspace)
  {
    if AgreesEverywhere(expected, actual, workspace) {
      assert At(expected, []).Some?;
      forall k, path | k in expected.fields && At(expected.fields[k], path).Some?
        ensures At(actual.fields[k], path).Some?
        ensures AgreesHere(At(expected.fields[k], path).value, At(actual.fields[k], path).value, workspace)
      {
        AtField(expected, k, path);
        AtField(actual, k, path);
      }
    } else if AgreesHere(expected, actual, workspace)
              && forall k :: k in expected.fields ==>
                   AgreesEverywhere(expected.fields[k], actual.fields[k], workspace) {
      forall path: seq<Step> | At(expected, path).Some?
        ensures At(actual, path).Some?
        ensures AgreesHere(At(expected, path).value, At(actual, path).value, workspace)
      {
        if path != [] {
          assert AgreesEverywhere(expected.fields[path[0].key], actual.fields[path[0].key], workspace);
        }
      }
    }
  }

  lemma LeafAgrees(expected: Value, actual: Value, workspace: string)
    requires !expected.List? && !expected.Record?
    ensures AgreesEverywhere(expected, actual, workspace) <==> AgreesHere(expected, actual, workspace)
  {
    assert At(expected, []) == Some(expected) && At(actual, []) == Some(actual);
  }

  /**
   * A pattern matches exactly the values that agree with it at every place: a whole `<any>`
   * with anything, a text with the texts it stands for, lists in length, records in keys.
   */
  lemma {:induction false} MatchesExactly(expected: Value, actual: Value, workspace: string)
    ensures Matches(expected, actual, workspace) <==> AgreesEverywhere(expected, actual, workspace)
    decreases expected
  {
    match expected
    case List(items) =>
      ItemsAgree(expected, actual, workspace);
      if actual.List? && |items| == |actual.items| {
        forall i | 0 <= i < |items|
          ensures Matches(items[i], actual.items[i], workspace)
                  <==> AgreesEverywhere(items[i], actual.items[i], workspace)
        {
          MatchesExactly(items[i], actual.items[i], workspace);
        }
      }
    case Record(fields) =>
      FieldsAgree(expected, actual, workspace);
      if actual.Record? && fields.Keys == actual.fields.Keys {
        forall k | k in fields
          ensures Matches(fields[k], actual.fields[k], workspace)
                  <==> AgreesEverywhere(fields[k], actual.fields[k], workspace)
        {
          MatchesExactly(fields[k], actual.fields[k], workspace);
        }
      }
    case _ => LeafAgrees(expected, actual, workspace);
  }

  /** No text anywhere in the value mentions a placeholder. */
  predicate Plain(v: Value) {
    match v
    case Text(s) => !Includes(s, ANY) && !Includes(s, WORKSPACE)
    case List(items) => forall i :: 0 <= i < |items| ==> Plain(items[i])
    case Record(fields) => forall k :: k in fields ==> Plain(fields[k])
    case _ => true
  }

  /** Without placeholders matching is structural equality. */
  lemma {:induction false} PlainMatchesOnlyItself(expected: Value, actual: Value, workspace: string)
    requires Plain(expected)
    ensures Matches(expected, actual, workspace) <==> expected == actual
    decreases expected
  {
    match expected
    case Text(s) =>
      assert OccursAt(ANY, ANY, 0);
      ReplaceNothing("", s, WORKSPACE, workspace);
    case List(items) =>
      if actual.List? && |items| == |actual.items| {
        forall i | 0 <= i < |items|
          ensures Matches(items[i], actual.items[i], workspace) <==> items[i] == actual.items[i]
        {
          PlainMatchesOnlyItself(items[i], actual.items[i], workspace);
        }
      }
    case Record(fields) =>
      if actual.Record? && fields.Keys == actual.fields.Keys {
        forall k | k in fields
          ensures Matches(fields[k], actual.fields[k], workspace) <==> fields[k] == actual.fields[k]
        {
          PlainMatchesOnlyItself(fields[k], actual.fields[k], workspace);
        }
        if forall k :: k in fields ==> fields[k] == actual.fields[k] {
          assert fields == actual.fields;
        }
      }
    case _ =>
  }
}
