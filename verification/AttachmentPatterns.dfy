/**
 * What the attachment code accepts, said without its loops: the pattern of an id as words and
 * groups of digits, the extensions it keeps, and which files the sweep deletes.
 */
module AttachmentPatterns {
  import opened Options
  import opened Texts
  import opened AttachmentIds

  // ---------------------------------------------------------------- characters, by their codes

  predicate Alphanumeric(c: char) {
    var code := c as int;
    65 <= code <= 90 || 97 <= code <= 122 || 48 <= code <= 57
  }

  predicate HexDigit(c: char) {
    var code := c as int;
    65 <= code <= 70 || 97 <= code <= 102 || 48 <= code <= 57
  }

  lemma ClassesAre(c: char)
    ensures Word(c) <==> Alphanumeric(c)
    ensures Hex(c) <==> HexDigit(c)
    ensures c == '_' <==> c as int == 95
    ensures c == '-' <==> c as int == 45
  {
    assert 'a' as int == 97 && 'z' as int == 122 && 'A' as int == 65 && 'Z' as int == 90;
    assert 'f' as int == 102 && 'F' as int == 70 && '0' as int == 48 && '9' as int == 57;
    assert '_' as int == 95 && '-' as int == 45;
    assert c as int as char == c;
  }

  // ---------------------------------------------------------------- the segment of a thread id

  /** `part` is `whole` without the dashes and underscores at its end. */
  predicate EndsTrimmed(whole: string, part: string) {
    && part <= whole
    && (part != "" ==> part[|part| - 1] != '-' && part[|part| - 1] != '_')
    && forall i :: |part| <= i < |whole| ==> whole[i] == '-' || whole[i] == '_'
  }

  /** And without those at its start, `skipped` of them. */
  predicate BothTrimmed(whole: string, part: string, skipped: nat) {
    && skipped <= |whole| && EndsTrimmed(whole[skipped..], part)
    && (forall i :: 0 <= i < skipped ==> whole[i] == '-' || whole[i] == '_')
    && (skipped < |whole| ==> whole[skipped] != '-' && whole[skipped] != '_')
  }

  lemma TrimEndIs(t: string)
    ensures EndsTrimmed(t, StripEnd(t))
  {
    StripEndIsPrefix(t);
  }

  lemma TrimStartIs(t: string) returns (skipped: nat)
    ensures skipped <= |t| && StripStart(t) == t[skipped..]
    ensures forall i :: 0 <= i < skipped ==> t[i] == '-' || t[i] == '_'
    ensures skipped < |t| ==> t[skipped] != '-' && t[skipped] != '_'
  {
    StripStartIsSuffix(t);
    skipped := |t| - |StripStart(t)|;
  }

  /**
   * The segment of any thread id: the id trimmed and in lower case, with one dash for each run
   * of other characters than letters, digits and underscores, without dashes and underscores
   * at its ends, cut to 80 characters and trimmed at the end once more.
   */
  lemma SegmentExactly(threadId: string) returns (skipped: nat, full: string, segment: string)
    ensures BothTrimmed(Slugged(Lower(Trim(threadId))), full, skipped)
    ensures EndsTrimmed(if |full| > 80 then full[..80] else full, segment)
    ensures Segment(threadId)
            == if segment == "" then None else if segment == "pending" then Some("_pending") else Some(segment)
  {
    var w := Slugged(Lower(Trim(threadId)));
    SluggedIs(Lower(Trim(threadId)));
    skipped := TrimStartIs(w);
    full := StripEnd(StripStart(w));
    TrimEndIs(StripStart(w));
    segment := StripEnd(Truncate(full));
    TrimEndIs(Truncate(full));
  }

  // ---------------------------------------------------------------- the segment: words joined by dashes

  predicate IsWord(w: string) {
    w != "" && forall i :: 0 <= i < |w| ==> Alphanumeric(w[i]) || w[i] as int == 95
  }

  predicate AreWords(words: seq<string>) {
    words != [] && forall k :: 0 <= k < |words| ==> IsWord(words[k])
  }

  lemma {:induction false} WordsOfSegment(s: string) returns (words: seq<string>)
    requires IsSegment(s)
    ensures AreWords(words) && s == Join(words, "-") && words[0][0] == s[0]
    decreases |s|
  {
    ClassesAre(s[0]);
    assert IsWord([s[0]]);
    if |s| == 1 {
      words := [s];
    } else if s[1] == '-' {
      assert s[2] != '-';
      TailIsSegment(s, 2);
      var rest := WordsOfSegment(s[2..]);
      words := [[s[0]]] + rest;
      assert words[1..] == rest;
      assert s == [s[0]] + "-" + s[2..];
    } else {
      TailIsSegment(s, 1);
      var rest := WordsOfSegment(s[1..]);
      words := [[s[0]] + rest[0]] + rest[1..];
      JoinCons(s[0], rest, "-");
      LongerWord(s[0], rest[0]);
      assert s == [s[0]] + s[1..];
    }
  }

  lemma TailIsSegment(s: string, k: nat)
    requires IsSegment(s) && k < |s| && s[k] != '-'
    ensures IsSegment(s[k..])
  {
    var t := s[k..];
    assert forall i :: 0 <= i < |t| ==> t[i] == s[k + i];
  }

  lemma LongerWord(c: char, w: string)
    requires IsWord([c]) && IsWord(w)
    ensures IsWord([c] + w)
  {
    assert Alphanumeric([c][0]) || [c][0] as int == 95;
  }

  lemma {:induction false} JoinedWordsAreSegment(words: seq<string>)
    requires AreWords(words)
    ensures IsSegment(Join(words, "-"))
  {
    WordIsSegment(words[0]);
    if |words| > 1 {
      JoinedWordsAreSegment(words[1..]);
      SegmentsJoin(words[0], Join(words[1..], "-"));
    }
  }

  lemma WordIsSegment(w: string)
    requires IsWord(w)
    ensures IsSegment(w)
  {
    forall i | 0 <= i < |w| ensures (Word(w[i]) || w[i] == '_') && w[i] != '-' {
      ClassesAre(w[i]);
    }
  }

  lemma SegmentsJoin(a: string, b: string)
    requires IsSegment(a) && IsSegment(b)
    ensures IsSegment(a + "-" + b)
  {
    var s := a + "-" + b;
    assert forall i :: 0 <= i < |s| ==> s[i] == if i < |a| then a[i] else if i == |a| then '-' else b[i - |a| - 1];
  }

  // ---------------------------------------------------------------- the uuid: five groups of hexadecimal digits

  predicate IsGroup(g: string, length: nat) {
    |g| == length && forall i :: 0 <= i < length ==> HexDigit(g[i])
  }

  predicate AreGroups(a: string, b: string, c: string, d: string, e: string) {
    IsGroup(a, 8) && IsGroup(b, 4) && IsGroup(c, 4) && IsGroup(d, 4) && IsGroup(e, 12)
  }

  function Grouped(a: string, b: string, c: string, d: string, e: string): string {
    a + "-" + b + "-" + c + "-" + d + "-" + e
  }

  lemma GroupOf(u: string, from: nat, length: nat)
    requires IsUuid(u) && from + length <= 36
    requires forall i :: from <= i < from + length ==> !DashPlace(i)
    ensures IsGroup(u[from..from + length], length)
  {
    var g := u[from..from + length];
    forall i | 0 <= i < length ensures HexDigit(g[i]) {
      assert !DashPlace(from + i);
      ClassesAre(u[from + i]);
    }
  }

  lemma UuidGroups(u: string) returns (a: string, b: string, c: string, d: string, e: string)
    requires IsUuid(u)
    ensures AreGroups(a, b, c, d, e) && u == Grouped(a, b, c, d, e)
  {
    a, b, c, d, e := u[0..0 + 8], u[9..9 + 4], u[14..14 + 4], u[19..19 + 4], u[24..24 + 12];
    GroupOf(u, 0, 8);
    GroupOf(u, 9, 4);
    GroupOf(u, 14, 4);
    GroupOf(u, 19, 4);
    GroupOf(u, 24, 12);
    assert DashPlace(8) && DashPlace(13) && DashPlace(18) && DashPlace(23);
    assert u == a + [u[8]] + b + [u[13]] + c + [u[18]] + d + [u[23]] + e;
  }

  lemma GroupsMakeUuid(a: string, b: string, c: string, d: string, e: string)
    requires AreGroups(a, b, c, d, e)
    ensures IsUuid(Grouped(a, b, c, d, e))
  {
    var u := Grouped(a, b, c, d, e);
    forall i | 0 <= i < 36 ensures if DashPlace(i) then u[i] == '-' else Hex(u[i]) {
      ClassesAre(u[i]);
      if !DashPlace(i) {
        assert u[i] == if i < 8 then a[i] else if i < 13 then b[i - 9] else if i < 18 then c[i - 14]
                       else if i < 23 then d[i - 19] else e[i - 24];
      }
    }
  }

  // ---------------------------------------------------------------- the whole id

  predicate ExtensionText(e: string) {
    1 <= |e| <= 10 && forall i :: 0 <= i < |e| ==> Alphanumeric(e[i])
  }

  lemma ExtensionIs(e: string)
    ensures IsExtension(e) <==> ExtensionText(e)
  {
    forall i | 0 <= i < |e| ensures Word(e[i]) <==> Alphanumeric(e[i]) {
      ClassesAre(e[i]);
    }
  }

  /** Words joined by dashes, a dash, five groups of hexadecimal digits, and perhaps an extension. */
  ghost predicate Pattern(p: Parts) {
    && (exists words :: AreWords(words) && p.segment == Join(words, "-"))
    && (exists a, b, c, d, e :: AreGroups(a, b, c, d, e) && p.uuid == Grouped(a, b, c, d, e))
    && (p.extension.Some? ==> ExtensionText(p.extension.value))
  }

  lemma PatternIs(p: Parts)
    ensures ValidParts(p) <==> Pattern(p)
  {
    if p.extension.Some? {
      ExtensionIs(p.extension.value);
    }
    if ValidParts(p) {
      var words := WordsOfSegment(p.segment);
      var a, b, c, d, e := UuidGroups(p.uuid);
    }
    if Pattern(p) {
      var words :| AreWords(words) && p.segment == Join(words, "-");
      JoinedWordsAreSegment(words);
      var a, b, c, d, e :| AreGroups(a, b, c, d, e) && p.uuid == Grouped(a, b, c, d, e);
      GroupsMakeUuid(a, b, c, d, e);
    }
  }

  /** An id is read as its parts exactly when it is put together from parts of that pattern. */
  lemma ReadsPattern(id: string, p: Parts)
    ensures Parse(id) == Some(p)
            <==> Pattern(p)
                 && id == p.segment + "-" + p.uuid
                          + (match p.extension case None => "" case Some(e) => "-" + e)
  {
    PatternIs(p);
    ParseExactly(id, p);
  }

  // ---------------------------------------------------------------- extensions

  /** What an extension means: itself without a leading dot, in lower case, if that has the pattern. */
  predicate Means(given: string, e: string) {
    && ExtensionText(e)
    && (e == Lower(given) || (given != "" && given[0] == '.' && e == Lower(given[1..])))
  }

  /** The extension an id is given is the one meant; without one there is none, and any other text is "bin". */
  lemma ExtensionPartExactly(given: string)
    ensures ExtensionPart(None) == None && ExtensionPart(Some("")) == None
    ensures forall e :: given != "" && Means(given, e) ==> ExtensionPart(Some(given)) == Some(e)
    ensures given != "" && !(exists e :: Means(given, e)) ==> ExtensionPart(Some(given)) == Some("bin")
  {
    if given != "" {
      var plain := if given[0] == '.' then given[1..] else given;
      ExtensionIs(Lower(plain));
      forall e | Means(given, e) ensures e == Lower(plain) {
        if given[0] == '.' && e == Lower(given) {
          DotIsNoExtension(given);
        }
      }
      if ExtensionText(Lower(plain)) {
        assert Means(given, Lower(plain));
      }
    }
  }

  lemma DotIsNoExtension(given: string)
    requires given != "" && given[0] == '.'
    ensures !ExtensionText(Lower(given))
  {
    assert Lower(given)[0] == '.';
    assert '.' as int == 46;
    assert !Alphanumeric(Lower(given)[0]);
  }

  /** A file is stored under the extension of its name in lower case, or ".bin" where that has not the pattern. */
  lemma StoredExtensionExactly(given: string)
    ensures forall e :: ExtensionText(e) && e != "part" && Lower(given) == "." + e ==> StoredExtension(given) == "." + e
    ensures !(exists e :: ExtensionText(e) && e != "part" && Lower(given) == "." + e) ==> StoredExtension(given) == ".bin"
  {
    var x := Lower(given);
    assert "." + "part" == ".part";
    forall e | x == "." + e ensures x[0] == '.' && x[1..] == e && (x == ".part" <==> e == "part") {
      assert x == ".part" ==> x[1..] == ".part"[1..] == "part";
    }
    if x != "" {
      ExtensionIs(x[1..]);
      if x[0] == '.' {
        assert x == "." + x[1..];
      }
    }
  }

  /** An id is created exactly for thread ids that have a segment. */
  lemma CreatesExactly(threadId: string, uuid: string, extension: Option<string>)
    ensures CreateId(threadId, uuid, extension).Some? <==> Segment(threadId).Some?
  {
  }

  // ---------------------------------------------------------------- the sweep

  lemma {:induction false} LastDotIs(s: string, i: nat)
    requires i <= |s|
    ensures LastDot(s, i).Some? ==> s[LastDot(s, i).value] == '.'
    ensures LastDot(s, i).None? ==> forall j :: 0 <= j < i ==> s[j] != '.'
    ensures LastDot(s, i).Some? ==> forall j :: LastDot(s, i).value < j < i ==> s[j] != '.'
  {
    if i > 0 && s[i - 1] != '.' {
      LastDotIs(s, i - 1);
    }
  }

  /** A name carries an id if it has just one dot, and something before it. */
  predicate NameSays(name: string, id: string, rest: string) {
    name == id + "." + rest && id != "" && '.' !in id && '.' !in rest
  }

  lemma IdOfFileExactly(name: string, id: string)
    ensures IdOfFile(name) == Some(id) <==> exists rest :: NameSays(name, id, rest)
  {
    LastDotIs(name, |name|);
    if IdOfFile(name) == Some(id) {
      var d := LastDot(name, |name|).value;
      assert name == id + "." + name[d + 1..];
      assert NameSays(name, id, name[d + 1..]);
    }
    if rest :| NameSays(name, id, rest) {
      assert name[|id|] == '.' && name[..|id|] == id;
      assert forall j :: |id| < j < |name| ==> name[j] == rest[j - |id| - 1];
      LastDotFound(name, |id|, |name|);
    }
  }

  /** The name is that of an upload nobody has claimed: an id whose segment is the pending one. */
  ghost predicate PendingName(name: string) {
    exists id, rest, p :: NameSays(name, id, rest) && Parse(id) == Some(p) && Lower(p.segment) == "pending"
  }

  lemma PendingIs(name: string)
    ensures IsPendingUpload(name) <==> PendingName(name)
  {
    if IsPendingUpload(name) {
      var id := IdOfFile(name).value;
      IdOfFileExactly(name, id);
      var rest :| NameSays(name, id, rest);
      assert Parse(id) == Some(Parse(id).value) && Lower(Parse(id).value.segment) == "pending";
    }
    if id, rest, p :| NameSays(name, id, rest) && Parse(id) == Some(p) && Lower(p.segment) == "pending" {
      IdOfFileExactly(name, id);
    }
  }

  lemma PartialIs(name: string)
    ensures IsPartial(name) <==> exists front :: name == front + ".part"
  {
    if IsPartial(name) {
      var n: nat := |name| - 5;
      assert name == name[..n] + ".part";
    }
    if front :| name == front + ".part" {
      assert name[|name| - 5..] == ".part";
    }
  }

  /**
   * Which entries are stale, for any file name: a partial upload of more than an hour, and a
   * pending one of more than a day.
   */
  lemma StaleExactly(e: Entry)
    ensures Stale(e)
            <==> if exists front :: e.name == front + ".part" then e.age > 3_600_000
                 else PendingName(e.name) && e.age > 86_400_000
  {
    PendingIs(e.name);
    PartialIs(e.name);
  }

  /** The sweep treats each entry for itself and keeps the others in order. */
  lemma {:induction false} SweepsEachEntry(a: seq<Entry>, b: seq<Entry>, e: Entry)
    ensures Swept(a + b) == Swept(a) + Swept(b)
    ensures Swept([e]) == if Stale(e) && e.accessible then [] else [e]
  {
    assert [e][..0] == [];
    if b == [] {
      assert a + b == a;
    } else {
      assert (a + b)[..|a + b| - 1] == a + b[..|b| - 1];
      SweepsEachEntry(a, b[..|b| - 1], e);
    }
  }
}
