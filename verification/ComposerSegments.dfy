/**
 * Splitting a prompt into text and inline tokens (mentions, skills, quotes and context
 * references). The tokens come from the collectors; how they are ordered does not matter
 * for the results here.
 */
module ComposerSegments {

  datatype Segment =
    | Plain(text: string)
    | Mention(path: string, source: string)
    | Skill(name: string)
    | Citation(citation: string, source: string)
    | Reference(contextId: string, source: string)
  {
    predicate IsToken() { !Plain? }

    /** The stretch of the prompt the segment stands for. */
    function Source(): string {
      match this
      case Plain(text) => text
      case Skill(name) => "$" + name
      case _ => source
    }
  }

  datatype Token = Token(segment: Segment, start: nat, end: nat)

  /** What the collectors guarantee: non-empty tokens whose source is the text they span. */
  predicate TokensOf(text: string, tokens: seq<Token>) {
    forall k :: 0 <= k < |tokens| ==>
      && tokens[k].start < tokens[k].end <= |text|
      && tokens[k].segment.IsToken()
      && tokens[k].segment.Source() == text[tokens[k].start..tokens[k].end]
  }

  function Sources(segments: seq<Segment>): string {
    if segments == [] then ""
    else Sources(segments[..|segments| - 1]) + segments[|segments| - 1].Source()
  }

  function TokensIn(segments: seq<Segment>): seq<Segment> {
    if segments == [] then []
    else
      var last := segments[|segments| - 1];
      TokensIn(segments[..|segments| - 1]) + if last.IsToken() then [last] else []
  }

  /** A token is kept unless it starts inside the one kept before it. */
  function Kept(tokens: seq<Token>): seq<Token> {
    if tokens == [] then []
    else
      var before, last := Kept(tokens[..|tokens| - 1]), tokens[|tokens| - 1];
      if last.start < EndOf(before) then before else before + [last]
  }

  function EndOf(kept: seq<Token>): nat {
    if kept == [] then 0 else kept[|kept| - 1].end
  }

  function SegmentsOf(tokens: seq<Token>): (r: seq<Segment>)
    ensures |r| == |tokens| && forall k :: 0 <= k < |tokens| ==> r[k] == tokens[k].segment
  {
    seq(|tokens|, k requires 0 <= k < |tokens| => tokens[k].segment)
  }

  /** No segment is empty and no two texts are adjacent. */
  predicate Canonical(segments: seq<Segment>) {
    && (forall i :: 0 <= i < |segments| ==> segments[i].Source() != "")
    && (forall i :: 0 <= i < |segments| - 1 ==> segments[i].IsToken() || segments[i + 1].IsToken())
  }

  function PushText(segments: seq<Segment>, text: string): seq<Segment> {
    if text == "" then segments
    else if segments != [] && segments[|segments| - 1].Plain? then
      segments[..|segments| - 1] + [Plain(segments[|segments| - 1].text + text)]
    else segments + [Plain(text)]
  }

  lemma SourcesSnoc(segments: seq<Segment>, s: Segment)
    ensures Sources(segments + [s]) == Sources(segments) + s.Source()
    ensures TokensIn(segments + [s]) == TokensIn(segments) + if s.IsToken() then [s] else []
  {
    assert (segments + [s])[..|segments|] == segments;
  }

  lemma PushTextAppends(segments: seq<Segment>, text: string)
    ensures Sources(PushText(segments, text)) == Sources(segments) + text
    ensures TokensIn(PushText(segments, text)) == TokensIn(segments)
  {
    if text != "" {
      if segments != [] && segments[|segments| - 1].Plain? {
        var front, last := segments[..|segments| - 1], segments[|segments| - 1];
        assert segments == front + [last];
        SourcesSnoc(front, last);
        SourcesSnoc(front, Plain(last.text + text));
        assert Sources(front) + (last.text + text) == Sources(front) + last.text + text;
      } else {
        SourcesSnoc(segments, Plain(text));
      }
    }
  }

  lemma PushTextCanonical(segments: seq<Segment>, text: string)
    requires Canonical(segments)
    ensures Canonical(PushText(segments, text))
  {
  }

  /** The segments in front of `text[EndOf(Kept(tokens))..]`. */
  function SegmentsUpTo(text: string, tokens: seq<Token>): seq<Segment>
    requires TokensOf(text, tokens)
  {
    if tokens == [] then []
    else
      var front, last := tokens[..|tokens| - 1], tokens[|tokens| - 1];
      var cursor := EndOf(Kept(front));
      if last.start < cursor then SegmentsUpTo(text, front)
      else PushText(SegmentsUpTo(text, front), text[cursor..last.start]) + [last.segment]
  }

  lemma {:induction false} KeptEnds(text: string, tokens: seq<Token>)
    requires TokensOf(text, tokens)
    ensures EndOf(Kept(tokens)) <= |text|
  {
    if tokens != [] {
      KeptEnds(text, tokens[..|tokens| - 1]);
    }
  }

  function Segments(text: string, tokens: seq<Token>): seq<Segment>
    requires TokensOf(text, tokens)
  {
    KeptEnds(text, tokens);
    PushText(SegmentsUpTo(text, tokens), text[EndOf(Kept(tokens))..])
  }

  lemma SourcesAfter(before: seq<Segment>, gap: string, s: Segment)
    requires s.IsToken()
    ensures Sources(PushText(before, gap) + [s]) == Sources(before) + gap + s.Source()
    ensures TokensIn(PushText(before, gap) + [s]) == TokensIn(before) + [s]
  {
    PushTextAppends(before, gap);
    SourcesSnoc(PushText(before, gap), s);
  }

  lemma Stretches(text: string, i: nat, j: nat)
    requires i <= j <= |text|
    ensures text[..i] + text[i..j] == text[..j]
  {
  }

  lemma {:induction false} StepIsLossless(text: string, before: seq<Segment>, cursor: nat, token: Token)
    requires cursor <= token.start < token.end <= |text| && token.segment.IsToken()
    requires token.segment.Source() == text[token.start..token.end]
    requires Sources(before) == text[..cursor]
    ensures Sources(PushText(before, text[cursor..token.start]) + [token.segment]) == text[..token.end]
    ensures TokensIn(PushText(before, text[cursor..token.start]) + [token.segment])
            == TokensIn(before) + [token.segment]
  {
    SourcesAfter(before, text[cursor..token.start], token.segment);
    Stretches(text, cursor, token.start);
    Stretches(text, token.start, token.end);
  }

  lemma {:induction false} PrefixIsLossless(text: string, tokens: seq<Token>)
    requires TokensOf(text, tokens)
    ensures EndOf(Kept(tokens)) <= |text|
    ensures Sources(SegmentsUpTo(text, tokens)) == text[..EndOf(Kept(tokens))]
    ensures TokensIn(SegmentsUpTo(text, tokens)) == SegmentsOf(Kept(tokens))
  {
    KeptEnds(text, tokens);
    if tokens != [] {
      var front, last := tokens[..|tokens| - 1], tokens[|tokens| - 1];
      PrefixIsLossless(text, front);
      var cursor, before := EndOf(Kept(front)), SegmentsUpTo(text, front);
      if last.start >= cursor {
        StepIsLossless(text, before, cursor, last);
        assert SegmentsOf(Kept(tokens)) == SegmentsOf(Kept(front)) + [last.segment];
      }
    }
  }

  lemma {:induction false} PrefixIsCanonical(text: string, tokens: seq<Token>)
    requires TokensOf(text, tokens)
    ensures Canonical(SegmentsUpTo(text, tokens))
  {
    if tokens != [] {
      var front, last := tokens[..|tokens| - 1], tokens[|tokens| - 1];
      PrefixIsCanonical(text, front);
      var cursor := EndOf(Kept(front));
      if last.start >= cursor {
        PushTextCanonical(SegmentsUpTo(text, front), text[cursor..last.start]);
        assert |last.segment.Source()| == last.end - last.start;
      }
    }
  }

  /**
   * No character of the prompt is lost, no segment is empty, no two texts are adjacent, and
   * the tokens among the segments are exactly the kept ones.
   */
  lemma {:induction false} SegmentsAreLossless(text: string, tokens: seq<Token>)
    requires TokensOf(text, tokens)
    ensures Sources(Segments(text, tokens)) == text
    ensures Canonical(Segments(text, tokens))
    ensures TokensIn(Segments(text, tokens)) == SegmentsOf(Kept(tokens))
  {
    PrefixIsLossless(text, tokens);
    PrefixIsCanonical(text, tokens);
    var before, cursor := SegmentsUpTo(text, tokens), EndOf(Kept(tokens));
    var rest := text[cursor..];
    PushTextAppends(before, rest);
    PushTextCanonical(before, rest);
    Stretches(text, cursor, |text|);
    assert text[..|text|] == text && text[cursor..|text|] == rest;
  }

  lemma NextToken(text: string, tokens: seq<Token>, k: nat)
    requires TokensOf(text, tokens) && k < |tokens|
    ensures TokensOf(text, tokens[..k]) && TokensOf(text, tokens[..k + 1])
    ensures var cursor := EndOf(Kept(tokens[..k]));
            if tokens[k].start < cursor
            then Kept(tokens[..k + 1]) == Kept(tokens[..k])
                 && SegmentsUpTo(text, tokens[..k + 1]) == SegmentsUpTo(text, tokens[..k])
            else Kept(tokens[..k + 1]) == Kept(tokens[..k]) + [tokens[k]]
                 && SegmentsUpTo(text, tokens[..k + 1])
                    == PushText(SegmentsUpTo(text, tokens[..k]), text[cursor..tokens[k].start]) + [tokens[k].segment]
  {
    assert tokens[..k + 1][..k] == tokens[..k];
  }

  /** The splitting loop. */
  method Split(text: string, tokens: seq<Token>) returns (segments: seq<Segment>)
    requires TokensOf(text, tokens)
    ensures segments == Segments(text, tokens)
    ensures Sources(segments) == text && Canonical(segments)
  {
    segments := [];
    var cursor := 0;
    for k := 0 to |tokens|
      invariant cursor == EndOf(Kept(tokens[..k])) <= |text|
      invariant TokensOf(text, tokens[..k])
      invariant segments == SegmentsUpTo(text, tokens[..k])
    {
      var token := tokens[k];
      NextToken(text, tokens, k);
      if token.start < cursor {
        continue;
      }
      if token.start > cursor {
        segments := PushText(segments, text[cursor..token.start]);
      }
      segments := segments + [token.segment];
      cursor := token.end;
    }
    assert tokens[..|tokens|] == tokens;
    if cursor < |text| {
      segments := PushText(segments, text[cursor..]);
    }
    SegmentsAreLossless(text, tokens);
  }
}
