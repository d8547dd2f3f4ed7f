/**
 * Reading a base64 data URL without regular expressions: the header is split into its
 * parameters, and one pass over the payload collects the stretches between blanks.
 */
module DataUrls {
  import opened Options
  import opened Texts

  // ---------------------------------------------------------------- the payload

  predicate Letter(c: char) {
    'a' <= c <= 'z' || 'A' <= c <= 'Z' || '0' <= c <= '9' || c == '+' || c == '/'
  }

  predicate Base64Char(c: char) {
    Letter(c) || c == '='
  }

  predicate Blank(c: char) {
    c == '\r' || c == '\n' || c == ' '
  }

  predicate Clean(payload: string) {
    forall i :: 0 <= i < |payload| ==> Base64Char(payload[i]) || Blank(payload[i])
  }

  /** The payload without its blanks. */
  function Filtered(payload: string): string {
    if payload == "" then ""
    else
      var last := payload[|payload| - 1];
      Filtered(payload[..|payload| - 1]) + if Base64Char(last) then [last] else ""
  }

  function Concat(runs: seq<string>): string {
    if runs == [] then "" else Concat(runs[..|runs| - 1]) + runs[|runs| - 1]
  }

  lemma ConcatSnoc(runs: seq<string>, run: string)
    ensures Concat(runs + [run]) == Concat(runs) + run
  {
    assert (runs + [run])[..|runs|] == runs;
  }

  lemma FilteredStep(payload: string, i: nat)
    requires i < |payload|
    ensures Filtered(payload[..i + 1]) == Filtered(payload[..i]) + if Base64Char(payload[i]) then [payload[i]] else ""
  {
    assert payload[..i + 1][..i] == payload[..i];
  }

  lemma {:induction false} FilteredConcat(a: string, b: string)
    ensures Filtered(a + b) == Filtered(a) + Filtered(b)
  {
    if b == "" {
      assert a + b == a;
    } else {
      assert (a + b)[..|a + b| - 1] == a + b[..|b| - 1];
      FilteredConcat(a, b[..|b| - 1]);
    }
  }

  lemma {:induction false} FilteredKeepsAll(s: string)
    requires forall i :: 0 <= i < |s| ==> Base64Char(s[i])
    ensures Filtered(s) == s
  {
    if s != "" {
      FilteredKeepsAll(s[..|s| - 1]);
      assert s == s[..|s| - 1] + [s[|s| - 1]];
    }
  }

  lemma {:induction false} FilteredChars(s: string)
    ensures forall i :: 0 <= i < |Filtered(s)| ==> Base64Char(Filtered(s)[i])
  {
    if s != "" {
      FilteredChars(s[..|s| - 1]);
    }
  }

  lemma {:induction false} BlanksVanish(s: string)
    requires forall i :: 0 <= i < |s| ==> Blank(s[i])
    ensures Filtered(s) == "" && Clean(s)
  {
    if s != "" {
      BlanksVanish(s[..|s| - 1]);
    }
  }

  /** The pass over the payload; `None` for a character that is neither data nor a blank. */
  method CollectRuns(payload: string) returns (base64: Option<string>)
    ensures base64 == if Clean(payload) then Some(Filtered(payload)) else None
  {
    var runs: seq<string> := [];
    var runStart := -1;
    assert payload[..0] == "";
    for index := 0 to |payload|
      invariant -1 <= runStart <= index
      invariant Clean(payload[..index])
      invariant runStart == -1 ==> Concat(runs) == Filtered(payload[..index])
      invariant runStart != -1 ==> Concat(runs) + payload[runStart..index] == Filtered(payload[..index])
    {
      FilteredStep(payload, index);
      var code := payload[index];
      if Base64Char(code) {
        if runStart == -1 {
          runStart := index;
        }
        RunGrows(Concat(runs), payload, runStart, index);
        continue;
      }
      if !Blank(code) {
        return None;
      }
      if runStart != -1 {
        ConcatSnoc(runs, payload[runStart..index]);
        runs := runs + [payload[runStart..index]];
        runStart := -1;
      }
    }
    assert payload[..|payload|] == payload;
    if runStart != -1 {
      ConcatSnoc(runs, payload[runStart..]);
      runs := runs + [payload[runStart..]];
    }
    if |runs| == 1 {
      ConcatOne(runs[0]);
      assert runs == [runs[0]];
      return Some(runs[0]);
    }
    return Some(Concat(runs));
  }

  lemma ConcatOne(run: string)
    ensures Concat([run]) == run
  {
    assert [run][..0] == [];
    assert "" + run == run;
  }

  lemma RunGrows(before: string, payload: string, start: nat, index: nat)
    requires start <= index < |payload|
    ensures before + payload[start..index + 1] == before + payload[start..index] + [payload[index]]
  {
    assert payload[start..index + 1] == payload[start..index] + [payload[index]];
  }

  // ---------------------------------------------------------------- padding

  /** A final group of section 4 of RFC 4648: no padding, one character of it, or two. */
  predicate FinalGroup(g: string) {
    && |g| == 4 && Letter(g[0]) && Letter(g[1])
    && ((Letter(g[2]) && (Letter(g[3]) || g[3] == '=')) || (g[2] == '=' && g[3] == '='))
  }

  predicate FullGroup(g: string) {
    |g| == 4 && Letter(g[0]) && Letter(g[1]) && Letter(g[2]) && Letter(g[3])
  }

  /** Groups of four characters of which only the last may be padded. */
  predicate WellPadded(s: string) {
    if |s| <= 4 then FinalGroup(s) else FullGroup(s[..4]) && WellPadded(s[4..])
  }

  /** What the code looks at: the length and where padding characters are. */
  predicate PaddingPlaced(s: string) {
    && |s| > 0 && |s| % 4 == 0
    && (forall i :: 0 <= i < |s| && s[i] == '=' ==> i >= |s| - 2)
    && (|s| >= 2 && s[|s| - 2] == '=' ==> s[|s| - 1] == '=')
  }

  /** The checks on length and padding accept exactly the padded base64 of the standard. */
  lemma {:induction false} PaddingExactly(s: string)
    requires forall i :: 0 <= i < |s| ==> Base64Char(s[i])
    ensures PaddingPlaced(s) <==> WellPadded(s)
  {
    if |s| > 4 {
      var head, tail := s[..4], s[4..];
      PaddingExactly(tail);
      assert forall i :: 0 <= i < |tail| ==> tail[i] == s[i + 4];
      if PaddingPlaced(s) {
        assert forall i :: 0 <= i < 4 ==> s[i] != '=';
        assert PaddingPlaced(tail);
      }
      if WellPadded(s) {
        PaddedFrom(s);
      }
    }
  }

  lemma PaddedFrom(s: string)
    requires |s| > 4 && FullGroup(s[..4]) && PaddingPlaced(s[4..])
    ensures PaddingPlaced(s)
  {
    var tail := s[4..];
    assert s[0] == s[..4][0] && s[1] == s[..4][1] && s[2] == s[..4][2] && s[3] == s[..4][3];
    forall i | 0 <= i < |s| && s[i] == '=' ensures i >= |s| - 2 {
      assert i >= 4 && tail[i - 4] == '=';
    }
    assert tail[|tail| - 2] == s[|s| - 2] && tail[|tail| - 1] == s[|s| - 1];
  }

  method CheckPadding(base64: string) returns (ok: bool)
    requires forall i :: 0 <= i < |base64| ==> Base64Char(base64[i])
    ensures ok <==> WellPadded(base64)
  {
    PaddingExactly(base64);
    if |base64| == 0 || |base64| % 4 != 0 {
      return false;
    }
    var firstPad := FirstPad(base64);
    if firstPad.Some? {
      if |base64| - firstPad.value > 2 {
        return false;
      }
      for index := firstPad.value to |base64|
        invariant forall j :: firstPad.value <= j < index ==> base64[j] == '='
      {
        if base64[index] != '=' {
          return false;
        }
      }
    }
    return true;
  }

  function FirstPad(s: string): (r: Option<nat>)
    ensures r.None? <==> '=' !in s
    ensures r.Some? ==> r.value < |s| && s[r.value] == '=' && forall i :: 0 <= i < r.value ==> s[i] != '='
  {
    if s == "" then None
    else if s[0] == '=' then Some(0)
    else
      match FirstPad(s[1..])
      case None => None
      case Some(i) => Some(i + 1)
  }

  // ---------------------------------------------------------------- the whole URL

  datatype DataUrl = DataUrl(mimeType: string, base64: string)

  /** The parameters of the header, trimmed, without empty ones. */
  function HeaderParts(parts: seq<string>): seq<string> {
    if parts == [] then []
    else
      var last := Trim(parts[|parts| - 1]);
      HeaderParts(parts[..|parts| - 1]) + if |last| > 0 then [last] else []
  }

  function MimeTypeOf(header: string): Option<string> {
    var parts := HeaderParts(Split(header, ";"));
    if header == "" || |parts| < 2 || Lower(parts[|parts| - 1]) != "base64" then None else Some(Lower(parts[0]))
  }

  function PayloadOf(payload: string): Option<string> {
    if Clean(payload) && WellPadded(Filtered(payload)) then Some(Filtered(payload)) else None
  }

  predicate HasScheme(trimmed: string) {
    |trimmed| >= 5 && Lower(trimmed[..5]) == "data:"
  }

  function ParsedAt(trimmed: string, comma: nat): Option<DataUrl>
    requires 5 <= comma < |trimmed|
  {
    Both(MimeTypeOf(trimmed[5..comma]), PayloadOf(trimmed[comma + 1..]))
  }

  function Parsed(dataUrl: string): Option<DataUrl> {
    var trimmed := Trim(dataUrl);
    var comma := IndexOf(trimmed, ",", 0);
    if !HasScheme(trimmed) || comma.None? || comma.value < 5 then None else ParsedAt(trimmed, comma.value)
  }

  function Both(mimeType: Option<string>, base64: Option<string>): Option<DataUrl> {
    if mimeType.Some? && base64.Some? then Some(DataUrl(mimeType.value, base64.value)) else None
  }

  lemma CommaAfterScheme(trimmed: string, comma: nat)
    requires |trimmed| >= 5 && Lower(trimmed[..5]) == "data:" && OccursAt(trimmed, ",", comma)
    ensures comma >= 5
  {
    assert trimmed[comma] == trimmed[comma..comma + 1][0] == ',';
    forall i | 0 <= i < 5 ensures trimmed[i] != ',' {
      assert "data:"[i] == LowerChar(trimmed[i]);
    }
  }

  method CollectParts(header: string) returns (headerParts: seq<string>)
    ensures headerParts == HeaderParts(Split(header, ";"))
  {
    var parts := Split(header, ";");
    headerParts := [];
    for i := 0 to |parts|
      invariant headerParts == HeaderParts(parts[..i])
    {
      assert parts[..i + 1][..i] == parts[..i];
      var partTrimmed := Trim(parts[i]);
      if |partTrimmed| > 0 {
        headerParts := headerParts + [partTrimmed];
      }
    }
    assert parts[..|parts|] == parts;
  }

  method ParseBase64DataUrl(dataUrl: string) returns (r: Option<DataUrl>)
    ensures r == Parsed(dataUrl)
  {
    var trimmed := Trim(dataUrl);
    if |trimmed| < 5 || Lower(trimmed[..5]) != "data:" {
      return None;
    }
    var comma := IndexOf(trimmed, ",", 0);
    if comma.None? {
      return None;
    }
    CommaAfterScheme(trimmed, comma.value);
    var header := trimmed[5..comma.value];
    if |header| == 0 {
      return None;
    }
    var headerParts := CollectParts(header);
    if |headerParts| < 2 || Lower(headerParts[|headerParts| - 1]) != "base64" {
      return None;
    }
    var payload := trimmed[comma.value + 1..];
    var base64 := CollectRuns(payload);
    if base64.None? {
      return None;
    }
    FilteredChars(payload);
    var ok := CheckPadding(base64.value);
    if !ok {
      return None;
    }
    return Some(DataUrl(Lower(headerParts[0]), base64.value));
  }

  /** Blanks anywhere in the payload make no difference. */
  lemma BlanksDoNotMatter(a: string, blanks: string, b: string)
    requires forall i :: 0 <= i < |blanks| ==> Blank(blanks[i])
    ensures PayloadOf(a + blanks + b) == PayloadOf(a + b)
  {
    BlanksVanish(blanks);
    FilteredConcat(a + blanks, b);
    FilteredConcat(a, blanks);
    FilteredConcat(a, b);
    assert Filtered(a) + "" == Filtered(a);
    CleanParts(a, blanks, b);
  }

  lemma CleanParts(a: string, blanks: string, b: string)
    requires Clean(blanks)
    ensures Clean(a + blanks + b) <==> Clean(a + b)
  {
    var s, t := a + blanks + b, a + b;
    if Clean(t) {
      forall i | 0 <= i < |s| ensures Base64Char(s[i]) || Blank(s[i]) {
        assert s[i] == if i < |a| then t[i] else if i < |a| + |blanks| then blanks[i - |a|] else t[i - |blanks|];
      }
    }
    if Clean(s) {
      forall i | 0 <= i < |t| ensures Base64Char(t[i]) || Blank(t[i]) {
        assert t[i] == if i < |a| then s[i] else s[i + |blanks|];
      }
    }
  }

  // ---------------------------------------------------------------- round trip

  predicate PlainMime(mime: string) {
    mime != "" && ';' !in mime && ',' !in mime && Trim(mime) == mime && Lower(mime) == mime
  }

  function UrlOf(d: DataUrl): string {
    "data:" + d.mimeType + ";base64," + d.base64
  }

  lemma {:induction false} WellPaddedChars(s: string)
    requires WellPadded(s)
    ensures |s| >= 4 && forall i :: 0 <= i < |s| ==> Base64Char(s[i])
  {
    if |s| > 4 {
      WellPaddedChars(s[4..]);
      assert s == s[..4] + s[4..];
    }
  }

  lemma TrimmedAlready(s: string)
    requires s != "" && !IsSpace(s[0]) && !IsSpace(s[|s| - 1])
    ensures Trim(s) == s
  {
  }

  lemma HeaderJoins(mime: string)
    ensures Join([mime, "base64"], ";") == mime + ";base64"
  {
    assert [mime, "base64"][1..] == ["base64"];
    assert mime + ";" + "base64" == mime + ";base64";
  }

  lemma Base64Word()
    ensures Trim("base64") == "base64" && Lower("base64") == "base64" && ';' !in "base64"
  {
    TrimmedAlready("base64");
  }

  lemma TwoParts(a: string, b: string)
    requires a != "" && b != "" && Trim(a) == a && Trim(b) == b
    ensures HeaderParts([a, b]) == [a, b]
  {
    assert [a][..0] == [];
    assert HeaderParts([a]) == [a];
    assert [a, b][..1] == [a];
  }

  lemma HeaderReads(mime: string)
    requires PlainMime(mime)
    ensures MimeTypeOf(mime + ";base64") == Some(mime)
  {
    HeaderJoins(mime);
    Base64Word();
    JoinSplits([mime, "base64"], ';');
    TwoParts(mime, "base64");
  }

  lemma PayloadReads(base64: string)
    requires WellPadded(base64)
    ensures PayloadOf(base64) == Some(base64)
  {
    WellPaddedChars(base64);
    FilteredKeepsAll(base64);
  }

  lemma FirstComma(front: string, rest: string)
    requires ',' !in front
    ensures IndexOf(front + "," + rest, ",", 0) == Some(|front|)
  {
    var s := front + "," + rest;
    assert s[|front|..|front| + 1] == ",";
    assert OccursAt(s, ",", |front|);
    forall i | 0 <= i < |front| ensures !OccursAt(s, ",", i) {
      assert s[i..i + 1] == [front[i]];
    }
  }

  lemma UrlPieces(d: DataUrl)
    requires PlainMime(d.mimeType)
    ensures var url, comma := UrlOf(d), |d.mimeType| + 12;
            && comma < |url| && IndexOf(url, ",", 0) == Some(comma)
            && url[..5] == "data:" && url[5..comma] == d.mimeType + ";base64" && url[comma + 1..] == d.base64
  {
    var front := "data:" + d.mimeType + ";base64";
    var url := UrlOf(d);
    assert url == front + "," + d.base64;
    FirstComma(front, d.base64);
    assert url[5..|front|] == d.mimeType + ";base64";
    assert url[|front| + 1..] == d.base64;
  }

  lemma UrlIsTrimmed(d: DataUrl)
    requires WellPadded(d.base64)
    ensures Trim(UrlOf(d)) == UrlOf(d)
  {
    var url := UrlOf(d);
    WellPaddedChars(d.base64);
    assert url[|url| - 1] == d.base64[|d.base64| - 1];
    TrimmedAlready(url);
  }

  lemma SchemeReads(url: string)
    requires |url| >= 5 && url[..5] == "data:"
    ensures HasScheme(url)
  {
    assert Lower(url[..5]) == url[..5];
  }

  /** A data URL put together from a plain media type and padded base64 reads back as both. */
  lemma UrlReadsBack(d: DataUrl)
    requires PlainMime(d.mimeType) && WellPadded(d.base64)
    ensures Parsed(UrlOf(d)) == Some(d)
  {
    UrlIsTrimmed(d);
    UrlPieces(d);
    HeaderReads(d.mimeType);
    PayloadReads(d.base64);
    SchemeReads(UrlOf(d));
    assert ParsedAt(UrlOf(d), |d.mimeType| + 12) == Some(d);
  }
}
