/**
 * Exactly which texts the data-URL reader accepts, said without its loops: a scheme, a header
 * of parameters between semicolons, a comma, and padded base64 with blanks anywhere.
 */
module DataUrlGrammar {
  import opened Options
  import opened Texts
  import opened DataUrls

  /** One of the 64 data characters of section 4 of RFC 4648, by its code. */
  predicate Data(c: char) {
    var code := c as int;
    65 <= code <= 90 || 97 <= code <= 122 || 48 <= code <= 57 || code == 43 || code == 47
  }

  /** Whole groups of four, of which the last may end in one or two padding characters. */
  predicate Padded(base64: string, pads: nat) {
    && |base64| > 0 && |base64| % 4 == 0 && pads <= 2
    && (forall i :: 0 <= i < |base64| - pads ==> Data(base64[i]))
    && (forall i :: 0 <= i < |base64| && i >= |base64| - pads ==> base64[i] == '=')
  }

  lemma LetterIsData(c: char)
    ensures Letter(c) <==> Data(c)
  {
    assert 'A' as int == 65 && 'Z' as int == 90 && 'a' as int == 97 && 'z' as int == 122;
    assert '0' as int == 48 && '9' as int == 57 && '+' as int == 43 && '/' as int == 47;
  }

  lemma PaddedExactly(base64: string)
    ensures WellPadded(base64) <==> exists pads :: Padded(base64, pads)
  {
    forall c ensures Letter(c) <==> Data(c) {
      LetterIsData(c);
    }
    var n := |base64|;
    if WellPadded(base64) {
      WellPaddedChars(base64);
      PaddingExactly(base64);
      var pads := if base64[n - 2] == '=' then 2 else if base64[n - 1] == '=' then 1 else 0;
      assert Padded(base64, pads);
    }
    if pads :| Padded(base64, pads) {
      PaddingExactly(base64);
    }
  }

  /** The data is the payload without its line breaks and spaces. */
  predicate DropsBlanks(payload: string, base64: string) {
    if payload == "" then base64 == ""
    else if payload[0] in "\r\n " then DropsBlanks(payload[1..], base64)
    else base64 != "" && base64[0] == payload[0] && DropsBlanks(payload[1..], base64[1..])
  }

  lemma FilteredHead(payload: string)
    requires payload != ""
    ensures Filtered(payload)
            == (if Base64Char(payload[0]) then [payload[0]] else "") + Filtered(payload[1..])
    ensures Clean(payload) <==> (Base64Char(payload[0]) || Blank(payload[0])) && Clean(payload[1..])
  {
    assert payload == [payload[0]] + payload[1..];
    FilteredConcat([payload[0]], payload[1..]);
    assert [payload[0]][..0] == "";
  }

  lemma {:induction false} DropsExactly(payload: string, base64: string)
    requires forall i :: 0 <= i < |base64| ==> Base64Char(base64[i])
    ensures DropsBlanks(payload, base64) <==> Clean(payload) && Filtered(payload) == base64
  {
    if payload != "" {
      FilteredHead(payload);
      var c, rest := payload[0], Filtered(payload[1..]);
      assert Blank(c) <==> c in "\r\n ";
      if Blank(c) {
        DropsExactly(payload[1..], base64);
      } else if base64 != "" {
        DropsExactly(payload[1..], base64[1..]);
        assert base64 == [base64[0]] + base64[1..];
        assert ([c] + rest)[1..] == rest;
      }
    }
  }

  lemma PayloadExactly(payload: string, base64: string)
    ensures PayloadOf(payload) == Some(base64) <==> DropsBlanks(payload, base64) && WellPadded(base64)
  {
    if WellPadded(base64) {
      WellPaddedChars(base64);
      DropsExactly(payload, base64);
    }
  }

  predicate IsBlankPart(part: string) {
    Trim(part) == ""
  }

  /**
   * Of the header's parameters, cut at semicolons, the one at `i` is the first that is not
   * blank and the one at `j` the last; they say the media type and the encoding.
   */
  predicate HeaderSays(header: string, mimeType: string, parts: seq<string>, i: nat, j: nat) {
    && i < j < |parts|
    && (forall k :: 0 <= k < |parts| ==> ';' !in parts[k])
    && header == Join(parts, ";")
    && EndsAt(parts, i, j)
    && mimeType == Lower(Trim(parts[i])) && Lower(Trim(parts[j])) == "base64"
  }

  predicate EndsAt(parts: seq<string>, i: nat, j: nat) {
    && i <= j < |parts|
    && !IsBlankPart(parts[i]) && !IsBlankPart(parts[j])
    && (forall k :: 0 <= k < |parts| && (k < i || j < k) ==> IsBlankPart(parts[k]))
  }

  lemma {:induction false} HeaderPartsConcat(a: seq<string>, b: seq<string>)
    ensures HeaderParts(a + b) == HeaderParts(a) + HeaderParts(b)
  {
    if b == [] {
      assert a + b == a;
    } else {
      assert (a + b)[..|a + b| - 1] == a + b[..|b| - 1];
      HeaderPartsConcat(a, b[..|b| - 1]);
    }
  }

  lemma {:induction false} BlankParts(parts: seq<string>)
    requires forall k :: 0 <= k < |parts| ==> IsBlankPart(parts[k])
    ensures HeaderParts(parts) == []
  {
    if parts != [] {
      BlankParts(parts[..|parts| - 1]);
    }
  }

  lemma OnePart(part: string)
    requires !IsBlankPart(part)
    ensures HeaderParts([part]) == [Trim(part)]
  {
    assert [part][..0] == [];
  }

  /** Blank parts around a stretch of parts leave no trace. */
  lemma BlankAround(before: seq<string>, parts: seq<string>, after: seq<string>)
    requires forall k :: 0 <= k < |before| ==> IsBlankPart(before[k])
    requires forall k :: 0 <= k < |after| ==> IsBlankPart(after[k])
    ensures HeaderParts(before + parts + after) == HeaderParts(parts)
  {
    BlankParts(before);
    BlankParts(after);
    HeaderPartsConcat(before, parts);
    HeaderPartsConcat(before + parts, after);
  }

  lemma BetweenEnds(first: string, middle: seq<string>, last: string)
    requires !IsBlankPart(first) && !IsBlankPart(last)
    ensures HeaderParts([first] + middle + [last]) == [Trim(first)] + HeaderParts(middle) + [Trim(last)]
  {
    OnePart(first);
    OnePart(last);
    HeaderPartsConcat([first], middle);
    HeaderPartsConcat([first] + middle, [last]);
  }

  lemma StretchKept(parts: seq<string>, i: nat, j: nat)
    requires EndsAt(parts, i, j)
    ensures HeaderParts(parts) == HeaderParts(parts[i..j + 1])
  {
    var before, stretch, after := parts[..i], parts[i..j + 1], parts[j + 1..];
    assert parts == before + stretch + after;
    BlankAround(before, stretch, after);
  }

  lemma PartsFrom(parts: seq<string>, i: nat, j: nat)
    requires EndsAt(parts, i, j)
    ensures var kept := HeaderParts(parts);
            && kept != [] && kept[0] == Trim(parts[i]) && kept[|kept| - 1] == Trim(parts[j])
            && (|kept| >= 2 <==> i < j)
  {
    StretchKept(parts, i, j);
    if i == j {
      assert parts[i..j + 1] == [parts[i]];
      OnePart(parts[i]);
    } else {
      assert parts[i..j + 1] == [parts[i]] + parts[i + 1..j] + [parts[j]];
      BetweenEnds(parts[i], parts[i + 1..j], parts[j]);
    }
  }

  lemma {:induction false} FindEnds(parts: seq<string>) returns (i: nat, j: nat)
    requires HeaderParts(parts) != []
    ensures EndsAt(parts, i, j)
  {
    var front, last := parts[..|parts| - 1], |parts| - 1;
    if HeaderParts(front) == [] {
      NoneKept(front);
      assert forall k :: 0 <= k < last ==> front[k] == parts[k];
      i, j := last, last;
    } else {
      i, j := FindEnds(front);
      EndsLater(parts, i, j);
      j := if IsBlankPart(parts[last]) then j else last;
    }
  }

  lemma EndsLater(parts: seq<string>, i: nat, j: nat)
    requires parts != [] && EndsAt(parts[..|parts| - 1], i, j)
    ensures EndsAt(parts, i, if IsBlankPart(parts[|parts| - 1]) then j else |parts| - 1)
  {
    var front := parts[..|parts| - 1];
    forall k | 0 <= k < |front| ensures front[k] == parts[k] {
    }
  }

  lemma {:induction false} NoneKept(parts: seq<string>)
    requires HeaderParts(parts) == []
    ensures forall k :: 0 <= k < |parts| ==> IsBlankPart(parts[k])
  {
    if parts != [] {
      NoneKept(parts[..|parts| - 1]);
    }
  }

  lemma HeaderMeans(header: string, mimeType: string, parts: seq<string>, i: nat, j: nat)
    requires HeaderSays(header, mimeType, parts, i, j)
    ensures MimeTypeOf(header) == Some(mimeType)
  {
    JoinSplits(parts, ';');
    PartsFrom(parts, i, j);
  }

  lemma HeaderFound(header: string) returns (parts: seq<string>, i: nat, j: nat)
    requires MimeTypeOf(header).Some?
    ensures HeaderSays(header, MimeTypeOf(header).value, parts, i, j)
  {
    parts := Split(header, ";");
    SplitJoins(header, ";");
    SplitIsThorough(header, ";");
    forall k | 0 <= k < |parts| ensures ';' !in parts[k] {
      NoSemicolon(parts[k]);
    }
    i, j := FindEnds(parts);
    PartsFrom(parts, i, j);
  }

  lemma NoSemicolon(part: string)
    requires !Includes(part, ";")
    ensures ';' !in part
  {
    forall k: nat | k < |part| ensures part[k] != ';' {
      assert !OccursAt(part, ";", k);
      assert part[k..k + 1] == [part[k]];
    }
  }

  /** The text, apart from blanks around it, is a scheme, a header, a comma and a payload. */
  ghost predicate Says(dataUrl: string, d: DataUrl, scheme: string, header: string, payload: string) {
    && Trim(dataUrl) == scheme + header + "," + payload
    && |scheme| == 5 && Lower(scheme) == "data:" && ',' !in header
    && (exists parts, i, j :: HeaderSays(header, d.mimeType, parts, i, j))
    && DropsBlanks(payload, d.base64) && (exists pads :: Padded(d.base64, pads))
  }

  lemma SchemeHasNoComma(scheme: string)
    requires |scheme| == 5 && Lower(scheme) == "data:"
    ensures ',' !in scheme
  {
    forall i | 0 <= i < 5 ensures scheme[i] != ',' {
      assert "data:"[i] == LowerChar(scheme[i]);
    }
  }

  lemma SaidIsParsed(dataUrl: string, d: DataUrl, scheme: string, header: string, payload: string)
    requires Says(dataUrl, d, scheme, header, payload)
    ensures Parsed(dataUrl) == Some(d)
  {
    var trimmed, front := Trim(dataUrl), scheme + header;
    SchemeHasNoComma(scheme);
    FirstComma(front, payload);
    assert trimmed == front + "," + payload;
    assert trimmed[..5] == scheme && trimmed[5..|front|] == header && trimmed[|front| + 1..] == payload;
    var parts, i, j :| HeaderSays(header, d.mimeType, parts, i, j);
    HeaderMeans(header, d.mimeType, parts, i, j);
    PayloadExactly(payload, d.base64);
    PaddedExactly(d.base64);
  }

  lemma ParsedIsSaid(dataUrl: string) returns (scheme: string, header: string, payload: string)
    requires Parsed(dataUrl).Some?
    ensures Says(dataUrl, Parsed(dataUrl).value, scheme, header, payload)
  {
    var trimmed := Trim(dataUrl);
    var comma := IndexOf(trimmed, ",", 0).value;
    scheme, header, payload := trimmed[..5], trimmed[5..comma], trimmed[comma + 1..];
    assert trimmed[comma] == trimmed[comma..comma + 1][0] == ',';
    assert trimmed == scheme + header + "," + payload;
    forall i | 0 <= i < |header| ensures header[i] != ',' {
      assert !OccursAt(trimmed, ",", 5 + i);
      assert trimmed[5 + i..5 + i + 1] == [header[i]];
    }
    var parts, i, j := HeaderFound(header);
    PayloadExactly(payload, Parsed(dataUrl).value.base64);
    PaddedExactly(Parsed(dataUrl).value.base64);
  }

  /** A text is read as a media type and data exactly when it says so. */
  lemma ParsedExactly(dataUrl: string, d: DataUrl)
    ensures Parsed(dataUrl) == Some(d)
            <==> exists scheme, header, payload :: Says(dataUrl, d, scheme, header, payload)
  {
    if scheme, header, payload :| Says(dataUrl, d, scheme, header, payload) {
      SaidIsParsed(dataUrl, d, scheme, header, payload);
    }
    if Parsed(dataUrl) == Some(d) {
      var scheme, header, payload := ParsedIsSaid(dataUrl);
    }
  }
}
