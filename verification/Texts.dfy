/** The text functions of the JavaScript library that the modelled code relies on. */
module Texts {
  import opened Options

  predicate OccursAt(text: string, part: string, i: nat) {
    i + |part| <= |text| && text[i..i + |part|] == part
  }

  function IndexOf(text: string, part: string, offset: nat): (r: Option<nat>)
    requires offset <= |text|
    ensures r.Some? ==> offset <= r.value && OccursAt(text, part, r.value)
    ensures r.Some? ==> forall i :: offset <= i < r.value ==> !OccursAt(text, part, i)
    ensures r.None? ==> forall i :: offset <= i ==> !OccursAt(text, part, i)
    decreases |text| - offset
  {
    if OccursAt(text, part, offset) then Some(offset)
    else if offset == |text| then None
    else IndexOf(text, part, offset + 1)
  }

  function Includes(text: string, part: string): bool {
    IndexOf(text, part, 0).Some?
  }

  /** `text.split(separator)`: cut at every leftmost, non-overlapping occurrence. */
  function Split(text: string, separator: string): (parts: seq<string>)
    requires separator != ""
    ensures |parts| >= 1
  {
    if text == "" then [""]
    else if separator <= text then [""] + Split(text[|separator|..], separator)
    else
      var rest := Split(text[1..], separator);
      [[text[0]] + rest[0]] + rest[1..]
  }

  /** `text.replaceAll(pattern, template)`: every leftmost, non-overlapping occurrence is replaced. */
  function ReplaceAll(text: string, pattern: string, template: string): string
    requires pattern != ""
  {
    ReplaceRest("", text, pattern, template)
  }

  function ReplaceRest(before: string, text: string, pattern: string, template: string): string
    requires pattern != ""
    decreases |text|
  {
    if text == "" then ""
    else if pattern <= text then
      var after := text[|pattern|..];
      Substituted(template, before, pattern, after) + ReplaceRest(before + pattern, after, pattern, template)
    else [text[0]] + ReplaceRest(before + [text[0]], text[1..], pattern, template)
  }

  /** What stands for the match in a template: a dollar sign, the match, or the text around it. */
  predicate Special(c: char) {
    c == '$' || c == '&' || c == '`' || c == '\''
  }

  function Substituted(template: string, before: string, match_: string, after: string): string {
    if template == "" then ""
    else if |template| >= 2 && template[0] == '$' && Special(template[1]) then
      (match template[1]
       case '$' => "$"
       case '&' => match_
       case '`' => before
       case _ => after)
      + Substituted(template[2..], before, match_, after)
    else [template[0]] + Substituted(template[1..], before, match_, after)
  }

  function Join(parts: seq<string>, separator: string): string {
    if parts == [] then ""
    else if |parts| == 1 then parts[0]
    else parts[0] + separator + Join(parts[1..], separator)
  }

  lemma JoinCons(c: char, parts: seq<string>, separator: string)
    requires |parts| >= 1
    ensures Join([[c] + parts[0]] + parts[1..], separator) == [c] + Join(parts, separator)
  {
    var more := [[c] + parts[0]] + parts[1..];
    assert more[1..] == parts[1..];
    if |parts| > 1 {
      var rest := Join(parts[1..], separator);
      assert [c] + parts[0] + separator + rest == [c] + (parts[0] + separator + rest);
    }
  }

  lemma JoinEmpty(parts: seq<string>, separator: string)
    requires |parts| >= 1
    ensures Join([""] + parts, separator) == separator + Join(parts, separator)
  {
    assert ([""] + parts)[1..] == parts;
    assert "" + separator + Join(parts, separator) == separator + Join(parts, separator);
  }

  /** Splitting loses nothing. */
  lemma {:induction false} SplitJoins(text: string, separator: string)
    requires separator != ""
    ensures Join(Split(text, separator), separator) == text
  {
    if text != "" {
      if separator <= text {
        var tail := text[|separator|..];
        SplitJoins(tail, separator);
        JoinEmpty(Split(tail, separator), separator);
        assert text == separator + tail;
      } else {
        SplitJoins(text[1..], separator);
        JoinCons(text[0], Split(text[1..], separator), separator);
        assert text == [text[0]] + text[1..];
      }
    }
  }

  lemma OccursInCons(c: char, s: string, part: string, i: nat)
    requires part != ""
    ensures OccursAt([c] + s, part, i) <==> if i == 0 then part <= [c] + s else OccursAt(s, part, i - 1)
  {
    if i > 0 && i + |part| <= |s| + 1 {
      assert ([c] + s)[i..i + |part|] == s[i - 1..i - 1 + |part|];
    }
  }

  /** Splitting cuts everywhere it can: no part contains the separator. */
  lemma {:induction false} SplitIsThorough(text: string, separator: string)
    requires separator != ""
    ensures Split(text, separator)[0] <= text
    ensures forall part :: part in Split(text, separator) ==> !Includes(part, separator)
  {
    if text != "" {
      if separator <= text {
        SplitIsThorough(text[|separator|..], separator);
      } else {
        SplitIsThorough(text[1..], separator);
        var rest := Split(text[1..], separator);
        var first := [text[0]] + rest[0];
        assert first <= text by {
          assert text == [text[0]] + text[1..];
        }
        assert rest[0] in rest;
        forall i: nat ensures !OccursAt(first, separator, i) {
          OccursInCons(text[0], rest[0], separator, i);
        }
        var parts := Split(text, separator);
        forall part | part in parts ensures !Includes(part, separator) {
          if part != first {
            assert part in rest[1..];
          }
        }
      }
    }
  }

  lemma OccursInTail(text: string, pattern: string)
    requires text != "" && !Includes(text, pattern)
    ensures !OccursAt(text, pattern, 0) && !Includes(text[1..], pattern)
  {
    forall i: nat ensures !OccursAt(text[1..], pattern, i) {
      assert !OccursAt(text, pattern, i + 1);
      if i + |pattern| <= |text| - 1 {
        assert text[1..][i..i + |pattern|] == text[i + 1..i + 1 + |pattern|];
      }
    }
  }

  lemma {:induction false} ReplaceNothing(before: string, text: string, pattern: string, template: string)
    requires pattern != "" && !Includes(text, pattern)
    ensures ReplaceRest(before, text, pattern, template) == text
    decreases |text|
  {
    if text != "" {
      OccursInTail(text, pattern);
      ReplaceNothing(before + [text[0]], text[1..], pattern, template);
    }
  }

  /** No dollar sign of the template is followed by a character that gives it a meaning. */
  predicate Literal(template: string) {
    forall i :: 0 <= i < |template| - 1 && template[i] == '$' ==> !Special(template[i + 1])
  }

  /** A template stands for itself in every text exactly when it is literal. */
  lemma {:induction false} LiteralExactly(template: string)
    ensures (forall b, m, a :: Substituted(template, b, m, a) == template) <==> Literal(template)
  {
    if Literal(template) {
      forall b, m, a ensures Substituted(template, b, m, a) == template {
        LiteralStays(template, b, m, a);
      }
    } else {
      SubstitutedShrinks(template);
      assert Substituted(template, "", "", "") != template;
    }
  }

  lemma {:induction false} LiteralStays(template: string, before: string, match_: string, after: string)
    requires Literal(template)
    ensures Substituted(template, before, match_, after) == template
  {
    if template != "" {
      assert forall i :: 0 <= i < |template| - 1 ==> template[1..][i] == template[i + 1];
      LiteralStays(template[1..], before, match_, after);
    }
  }

  lemma {:induction false} SubstitutedShrinks(template: string)
    ensures |Substituted(template, "", "", "")| <= |template|
    ensures !Literal(template) ==> |Substituted(template, "", "", "")| < |template|
  {
    if |template| >= 2 && template[0] == '$' && Special(template[1]) {
      SubstitutedShrinks(template[2..]);
    } else if template != "" {
      SubstitutedShrinks(template[1..]);
      if !Literal(template) {
        var i :| 0 <= i < |template| - 1 && template[i] == '$' && Special(template[i + 1]);
        assert template[1..][i - 1] == '$' && template[1..][i] == template[i + 1];
      }
    }
  }

  /** Replacing by a literal text is splitting and joining. */
  lemma {:induction false} ReplaceJoins(before: string, text: string, pattern: string, template: string)
    requires pattern != "" && Literal(template)
    ensures ReplaceRest(before, text, pattern, template) == Join(Split(text, pattern), template)
    decreases |text|
  {
    if text != "" {
      if pattern <= text {
        var after := text[|pattern|..];
        LiteralStays(template, before, pattern, after);
        ReplaceJoins(before + pattern, after, pattern, template);
        JoinEmpty(Split(after, pattern), template);
      } else {
        ReplaceJoins(before + [text[0]], text[1..], pattern, template);
        JoinCons(text[0], Split(text[1..], pattern), template);
      }
    }
  }

  /** Joining parts that do not contain the separator and splitting again gives the parts. */
  lemma {:induction false} JoinSplits(parts: seq<string>, c: char)
    requires |parts| >= 1 && forall k :: 0 <= k < |parts| ==> c !in parts[k]
    ensures Split(Join(parts, [c]), [c]) == parts
    decreases |parts|, |parts[0]|
  {
    var text := Join(parts, [c]);
    if parts[0] == "" {
      if |parts| > 1 {
        JoinSplits(parts[1..], c);
        assert text == [c] + Join(parts[1..], [c]);
        assert text[1..] == Join(parts[1..], [c]);
      }
    } else {
      var shorter := [parts[0][1..]] + parts[1..];
      JoinSplits(shorter, c);
      assert shorter[1..] == parts[1..];
      assert text[1..] == Join(shorter, [c]) && text[0] == parts[0][0];
      assert parts[0] == [parts[0][0]] + parts[0][1..];
    }
  }

  lemma DropPrefix(p: string, x: string, y: string)
    requires p + x == p + y
    ensures x == y
  {
    assert x == (p + x)[|p|..] == (p + y)[|p|..] == y;
  }

  /** JavaScript white space, as `trim` and `\s` see it. */
  predicate IsSpace(c: char) {
    c == ' ' || c == '\t' || c == '\n' || c == '\r' || c == '\U{0B}' || c == '\U{0C}' || c == '\U{A0}'
    || c == '\U{1680}' || '\U{2000}' <= c <= '\U{200A}' || c == '\U{2028}' || c == '\U{2029}'
    || c == '\U{202F}' || c == '\U{205F}' || c == '\U{3000}' || c == '\U{FEFF}'
  }

  function TrimStart(s: string): string {
    if s != "" && IsSpace(s[0]) then TrimStart(s[1..]) else s
  }

  function TrimEnd(s: string): string {
    if s != "" && IsSpace(s[|s| - 1]) then TrimEnd(s[..|s| - 1]) else s
  }

  function Trim(s: string): string {
    TrimEnd(TrimStart(s))
  }

  function LowerChar(c: char): char {
    if 'A' <= c <= 'Z' then (c as int + 32) as char else c
  }

  /** Lower case for the letters A to Z; other letters are left alone. */
  function Lower(s: string): (r: string)
    ensures |r| == |s| && forall i :: 0 <= i < |s| ==> r[i] == LowerChar(s[i])
  {
    seq(|s|, i requires 0 <= i < |s| => LowerChar(s[i]))
  }
}
