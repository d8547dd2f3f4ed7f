/**
 * Cursor positions in the composer. The editor shows a token as one character, so every
 * position exists twice: expanded, in the prompt text, and collapsed, in the editor. Two
 * separately written loops convert between them.
 */
module ComposerCursor {
  import opened ComposerSegments

  // ---------------------------------------------------------------- lengths

  function Width(s: Segment): nat {
    if s.Plain? then |s.text| else 1
  }

  function TextLength(segments: seq<Segment>): nat {
    if segments == [] then 0
    else |segments[0].Source()| + TextLength(segments[1..])
  }

  function CollapsedLength(segments: seq<Segment>): nat {
    if segments == [] then 0 else Width(segments[0]) + CollapsedLength(segments[1..])
  }

  // ---------------------------------------------------------------- the two maps

  function Expand(segments: seq<Segment>, c: nat): nat {
    if segments == [] then 0
    else
      var s, length := segments[0], |segments[0].Source()|;
      if s.IsToken() then
        if c == 0 then 0 else if c == 1 then length else length + Expand(segments[1..], c - 1)
      else if c <= length then c
      else length + Expand(segments[1..], c - length)
  }

  function Collapse(segments: seq<Segment>, e: nat): nat {
    if segments == [] then 0
    else
      var s, length := segments[0], |segments[0].Source()|;
      if s.IsToken() then
        if e == 0 then 0 else if e <= length then 1 else 1 + Collapse(segments[1..], e - length)
      else if e <= length then e
      else length + Collapse(segments[1..], e - length)
  }

  lemma ExpandHead(segments: seq<Segment>, c: nat)
    requires segments != []
    ensures c > Width(segments[0])
            ==> Expand(segments, c) == |segments[0].Source()| + Expand(segments[1..], c - Width(segments[0]))
    ensures segments[0].IsToken() && c <= 1
            ==> Expand(segments, c) == if c == 0 then 0 else |segments[0].Source()|
    ensures !segments[0].IsToken() && c <= Width(segments[0]) ==> Expand(segments, c) == c
  {
  }

  lemma CollapseHead(segments: seq<Segment>, e: nat)
    requires segments != []
    ensures e > |segments[0].Source()|
            ==> Collapse(segments, e) == Width(segments[0]) + Collapse(segments[1..], e - |segments[0].Source()|)
    ensures segments[0].IsToken() && e <= |segments[0].Source()|
            ==> Collapse(segments, e) == if e == 0 then 0 else 1
    ensures !segments[0].IsToken() && e <= |segments[0].Source()| ==> Collapse(segments, e) == e
  {
  }

  predicate NonEmpty(segments: seq<Segment>) {
    forall i :: 0 <= i < |segments| ==> |segments[i].Source()| > 0
  }

  lemma {:induction false} Ranges(segments: seq<Segment>, p: nat)
    requires NonEmpty(segments)
    ensures Expand(segments, p) <= TextLength(segments)
    ensures Collapse(segments, p) <= CollapsedLength(segments) <= TextLength(segments)
    ensures Expand(segments, 0) == 0 && (p > 0 && segments != [] ==> Expand(segments, p) > 0 && Collapse(segments, p) > 0)
    decreases |segments|
  {
    if segments != [] {
      var s, length := segments[0], |segments[0].Source()|;
      ExpandHead(segments, p);
      CollapseHead(segments, p);
      Ranges(segments[1..], if p >= Width(s) then p - Width(s) else 0);
      Ranges(segments[1..], if p >= length then p - length else 0);
    }
  }

  /** The maps form a Galois connection: each determines the other. */
  lemma {:induction false} Galois(segments: seq<Segment>, e: nat, c: nat)
    requires NonEmpty(segments) && e <= TextLength(segments)
    ensures Collapse(segments, e) <= c <==> e <= Expand(segments, c)
    decreases |segments|
  {
    if segments != [] {
      var s, rest, length := segments[0], segments[1..], |segments[0].Source()|;
      Ranges(rest, if c >= Width(s) then c - Width(s) else 0);
      if e > length {
        Ranges(rest, e - length);
        if c >= Width(s) {
          Galois(rest, e - length, c - Width(s));
        }
      }
    }
  }

  /** A collapsed position survives the trip to the text and back. */
  lemma {:induction false} CollapseAfterExpand(segments: seq<Segment>, c: nat)
    requires NonEmpty(segments) && c <= CollapsedLength(segments)
    ensures Collapse(segments, Expand(segments, c)) == c
    decreases |segments|
  {
    if segments != [] {
      var s, rest := segments[0], segments[1..];
      if c > Width(s) {
        CollapseAfterExpand(rest, c - Width(s));
        if rest != [] {
          Ranges(rest, c - Width(s));
        }
      }
    }
  }

  /** Position `e` lies strictly inside the token at index `i`. */
  predicate InsideToken(segments: seq<Segment>, i: nat, e: nat) {
    && i < |segments| && segments[i].IsToken()
    && TextLength(segments[..i]) < e < TextLength(segments[..i]) + |segments[i].Source()|
  }

  lemma TextLengthSplit(segments: seq<Segment>, i: nat)
    requires 0 < i <= |segments|
    ensures TextLength(segments[..i]) == |segments[0].Source()| + TextLength(segments[1..][..i - 1])
    ensures CollapsedLength(segments[..i]) == Width(segments[0]) + CollapsedLength(segments[1..][..i - 1])
  {
    assert segments[..i][1..] == segments[1..][..i - 1];
  }

  /** A text position strictly inside a token comes back as the end of that token. */
  lemma {:induction false} InsideRoundsUp(segments: seq<Segment>, i: nat, e: nat)
    requires NonEmpty(segments) && InsideToken(segments, i, e)
    ensures Expand(segments, Collapse(segments, e)) == TextLength(segments[..i]) + |segments[i].Source()|
    decreases |segments|
  {
    if i == 0 {
      assert segments[..0] == [];
      CollapseHead(segments, e);
      ExpandHead(segments, 1);
    } else {
      var length := |segments[0].Source()|;
      TextLengthSplit(segments, i);
      assert segments[i] == segments[1..][i - 1];
      InsideRoundsUp(segments[1..], i - 1, e - length);
      Ranges(segments[1..], e - length);
      CollapseHead(segments, e);
      ExpandHead(segments, Collapse(segments, e));
    }
  }

  /** Any other text position survives the trip to the editor and back. */
  lemma {:induction false} OutsideIsKept(segments: seq<Segment>, e: nat)
    requires NonEmpty(segments) && e <= TextLength(segments)
    requires forall i: nat :: !InsideToken(segments, i, e)
    ensures Expand(segments, Collapse(segments, e)) == e
    decreases |segments|
  {
    if segments != [] {
      var rest, length := segments[1..], |segments[0].Source()|;
      assert segments[..0] == [] && !InsideToken(segments, 0, e);
      if e > length {
        var e' := e - length;
        forall i: nat ensures !InsideToken(rest, i, e') {
          assert !InsideToken(segments, i + 1, e);
          if i < |rest| {
            TextLengthSplit(segments, i + 1);
          }
        }
        OutsideIsKept(rest, e');
        Ranges(rest, e');
        CollapseHead(segments, e);
        ExpandHead(segments, Collapse(segments, e));
      }
    }
  }

  /** At segment boundaries the two maps agree on which boundary it is. */
  lemma {:induction false} Boundaries(segments: seq<Segment>, i: nat)
    requires NonEmpty(segments) && i <= |segments|
    ensures Expand(segments, CollapsedLength(segments[..i])) == TextLength(segments[..i])
    ensures CollapsedLength(segments[..i]) <= CollapsedLength(segments)
    decreases |segments|
  {
    if i > 0 {
      TextLengthSplit(segments, i);
      Boundaries(segments[1..], i - 1);
      Ranges(segments[1..], 0);
    } else {
      Ranges(segments, 0);
    }
  }

  /** Expanding never merges two collapsed positions, so it reflects boundaries too. */
  lemma BoundaryReflected(segments: seq<Segment>, c: nat, i: nat)
    requires NonEmpty(segments) && i <= |segments| && c <= CollapsedLength(segments)
    ensures c == CollapsedLength(segments[..i]) <==> Expand(segments, c) == TextLength(segments[..i])
  {
    Boundaries(segments, i);
    CollapseAfterExpand(segments, c);
    CollapseAfterExpand(segments, CollapsedLength(segments[..i]));
  }

  // ---------------------------------------------------------------- clamping

  /** A cursor argument: a JavaScript number, finite or not. */
  datatype Cursor = NotFinite | Finite(x: real)

  function Clamp(length: nat, cursor: Cursor): (p: nat)
    ensures p <= length
    ensures cursor.Finite? && 0.0 <= cursor.x <= length as real ==> p as real <= cursor.x < p as real + 1.0
  {
    match cursor
    case NotFinite => length
    case Finite(x) => if x.Floor < 0 then 0 else if x.Floor > length then length else x.Floor
  }

  lemma {:induction false} TextLengthIsLength(segments: seq<Segment>)
    ensures TextLength(segments) == |Sources(segments)|
  {
    if segments != [] {
      var front := segments[..|segments| - 1];
      TextLengthIsLength(front);
      TextLengthSnoc(front, segments[|segments| - 1]);
      assert segments == front + [segments[|segments| - 1]];
    }
  }

  lemma {:induction false} TextLengthSnoc(segments: seq<Segment>, s: Segment)
    ensures TextLength(segments + [s]) == TextLength(segments) + |s.Source()|
    ensures CollapsedLength(segments + [s]) == CollapsedLength(segments) + Width(s)
  {
    if segments != [] {
      assert (segments + [s])[1..] == segments[1..] + [s];
      TextLengthSnoc(segments[1..], s);
    } else {
      assert (segments + [s])[1..] == [];
    }
  }

  // ---------------------------------------------------------------- the loops

  method ExpandLoop(segments: seq<Segment>, collapsed: nat) returns (expanded: nat)
    ensures expanded == Expand(segments, collapsed)
  {
    var remaining: nat := collapsed;
    expanded := 0;
    for i := 0 to |segments|
      invariant Expand(segments, collapsed) == expanded + Expand(segments[i..], remaining)
    {
      var segment := segments[i];
      assert segments[i..][0] == segment && segments[i..][1..] == segments[i + 1..];
      ExpandHead(segments[i..], remaining);
      if segment.Plain? {
        if remaining <= |segment.text| {
          return expanded + remaining;
        }
        remaining := remaining - |segment.text|;
        expanded := expanded + |segment.text|;
      } else {
        var length := TokenLength(segment);
        if remaining <= 1 {
          return expanded + if remaining == 0 then 0 else length;
        }
        remaining := remaining - 1;
        expanded := expanded + length;
      }
    }
  }

  method CollapseLoop(segments: seq<Segment>, expanded: nat) returns (collapsed: nat)
    ensures collapsed == Collapse(segments, expanded)
  {
    var remaining: nat := expanded;
    collapsed := 0;
    for i := 0 to |segments|
      invariant Collapse(segments, expanded) == collapsed + Collapse(segments[i..], remaining)
    {
      var segment := segments[i];
      assert segments[i..][0] == segment && segments[i..][1..] == segments[i + 1..];
      CollapseHead(segments[i..], remaining);
      if segment.Plain? {
        if remaining <= |segment.text| {
          return collapsed + remaining;
        }
        remaining := remaining - |segment.text|;
        collapsed := collapsed + |segment.text|;
      } else {
        var length := TokenLength(segment);
        if remaining == 0 {
          return;
        }
        if remaining <= length {
          return collapsed + 1;
        }
        remaining := remaining - length;
        collapsed := collapsed + 1;
      }
    }
  }

  /** A skill is shown by its name after a dollar sign; every other token by its source. */
  function TokenLength(segment: Segment): (length: nat)
    requires segment.IsToken()
    ensures length == |segment.Source()|
  {
    if segment.Skill? then |segment.name| + 1 else |segment.source|
  }

  method ExpandCollapsedCursor(text: string, tokens: seq<Token>, cursorInput: Cursor) returns (r: nat)
    requires TokensOf(text, tokens)
    ensures r == Expand(Segments(text, tokens), Clamp(|text|, cursorInput)) <= |text|
  {
    var collapsed := Clamp(|text|, cursorInput);
    var segments := Split(text, tokens);
    TextLengthIsLength(segments);
    Ranges(segments, collapsed);
    if |segments| == 0 {
      return collapsed;
    }
    r := ExpandLoop(segments, collapsed);
  }

  method CollapseExpandedCursor(text: string, tokens: seq<Token>, cursorInput: Cursor) returns (r: nat)
    requires TokensOf(text, tokens)
    ensures r == Collapse(Segments(text, tokens), Clamp(|text|, cursorInput))
    ensures r <= CollapsedLength(Segments(text, tokens))
  {
    var expanded := Clamp(|text|, cursorInput);
    var segments := Split(text, tokens);
    TextLengthIsLength(segments);
    Ranges(segments, expanded);
    if |segments| == 0 {
      return expanded;
    }
    r := CollapseLoop(segments, expanded);
  }

  /** The two conversions of one prompt determine each other, at every pair of positions. */
  lemma PromptGalois(text: string, tokens: seq<Token>, e: nat, c: nat)
    requires TokensOf(text, tokens) && e <= |text|
    ensures Collapse(Segments(text, tokens), e) <= c <==> e <= Expand(Segments(text, tokens), c)
  {
    SegmentsAreLossless(text, tokens);
    TextLengthIsLength(Segments(text, tokens));
    Galois(Segments(text, tokens), e, c);
  }

  datatype Direction = Left | Right

  /** The cursor `e` is at that edge of the token at index `i`. */
  predicate EdgeAt(segments: seq<Segment>, e: nat, i: nat, direction: Direction) {
    && i < |segments| && segments[i].IsToken()
    && e == TextLength(segments[..i]) + if direction.Left? then |segments[i].Source()| else 0
  }

  /** The editor's question, put to the text: is the expanded cursor at that edge of a token? */
  ghost predicate AtTokenEdge(segments: seq<Segment>, e: nat, direction: Direction) {
    exists i: nat :: EdgeAt(segments, e, i, direction)
  }

  /** The edges of a token in the text and in the editor correspond. */
  lemma EdgesReflected(segments: seq<Segment>, c: nat, i: nat, direction: Direction)
    requires NonEmpty(segments) && i < |segments| && c <= CollapsedLength(segments)
    ensures CollapsedLength(segments[..i + 1]) == CollapsedLength(segments[..i]) + Width(segments[i])
    ensures EdgeAt(segments, Expand(segments, c), i, direction)
            <==> segments[i].IsToken() && c == CollapsedLength(segments[..i]) + if direction.Left? then 1 else 0
  {
    assert segments[..i + 1] == segments[..i] + [segments[i]];
    TextLengthSnoc(segments[..i], segments[i]);
    BoundaryReflected(segments, c, i);
    BoundaryReflected(segments, c, i + 1);
  }

  /** The adjacency loop answers that question without expanding the cursor. */
  method IsAdjacentToToken(segments: seq<Segment>, cursorInput: Cursor, direction: Direction) returns (adjacent: bool)
    requires NonEmpty(segments)
    ensures adjacent
            <==> AtTokenEdge(segments, Expand(segments, Clamp(CollapsedLength(segments), cursorInput)), direction)
  {
    var cursor := Clamp(CollapsedLength(segments), cursorInput);
    ghost var e := Expand(segments, cursor);
    var offset := 0;
    for i := 0 to |segments|
      invariant offset == CollapsedLength(segments[..i])
      invariant forall j: nat :: j < i ==> !EdgeAt(segments, e, j, direction)
    {
      EdgesReflected(segments, cursor, i, direction);
      if segments[i].IsToken() {
        if direction.Left? && cursor == offset + 1 {
          return true;
        }
        if direction.Right? && cursor == offset {
          return true;
        }
      }
      offset := offset + Width(segments[i]);
    }
    return false;
  }
}
