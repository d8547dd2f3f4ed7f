/**
 * Attachment ids: `<segment>-<uuid>` or `<segment>-<uuid>-<extension>`, where the segment is
 * `pending` for an upload not yet claimed and otherwise derived from the owning thread's id.
 */
module AttachmentIds {
  import opened Options
  import opened Texts

  const MAX_SEGMENT := 80
  const PENDING := "pending"

  // ---------------------------------------------------------------- the thread segment

  predicate SafeChar(c: char) {
    'a' <= c <= 'z' || '0' <= c <= '9' || c == '_' || c == '-'
  }

  predicate Edge(c: char) {
    c == '-' || c == '_'
  }

  function DropUnsafe(t: string): (r: string)
    ensures |r| <= |t|
  {
    if t != "" && !SafeChar(t[0]) then DropUnsafe(t[1..]) else t
  }

  /** Every run of unsafe characters becomes one dash. */
  function ReplaceUnsafe(t: string): string
    decreases |t|
  {
    if t == "" then ""
    else if SafeChar(t[0]) then [t[0]] + ReplaceUnsafe(t[1..])
    else "-" + ReplaceUnsafe(DropUnsafe(t[1..]))
  }

  function CollapseDashes(t: string): string {
    if |t| < 2 then t
    else if t[0] == '-' && t[1] == '-' then CollapseDashes(t[1..])
    else [t[0]] + CollapseDashes(t[1..])
  }

  function StripStart(t: string): string {
    if t != "" && Edge(t[0]) then StripStart(t[1..]) else t
  }

  function StripEnd(t: string): string {
    if t != "" && Edge(t[|t| - 1]) then StripEnd(t[..|t| - 1]) else t
  }

  function Truncate(t: string): (r: string) {
    if |t| > MAX_SEGMENT then t[..MAX_SEGMENT] else t
  }

  function Cleaned(t: string): string {
    StripEnd(Truncate(StripEnd(StripStart(CollapseDashes(ReplaceUnsafe(t))))))
  }

  /** The segment of a thread id. */
  function Segment(threadId: string): Option<string> {
    var s := Cleaned(Lower(Trim(threadId)));
    if s == "" then None
    else if s == PENDING then Some("_pending")
    else Some(s)
  }

  predicate NoDoubleDash(t: string) {
    forall i :: 0 <= i < |t| - 1 ==> !(t[i] == '-' && t[i + 1] == '-')
  }

  predicate AllSafe(t: string) {
    forall i :: 0 <= i < |t| ==> SafeChar(t[i])
  }

  /** Safe, with neither end a dash or underscore and no two dashes in a row. */
  predicate Clean(t: string) {
    && AllSafe(t) && NoDoubleDash(t) && |t| <= MAX_SEGMENT
    && (t != "" ==> !Edge(t[0]) && !Edge(t[|t| - 1]))
  }

  lemma {:induction false} ReplacedIsSafe(t: string)
    ensures AllSafe(ReplaceUnsafe(t))
    ensures AllSafe(t) ==> ReplaceUnsafe(t) == t
    decreases |t|
  {
    if t != "" {
      if SafeChar(t[0]) {
        ReplacedIsSafe(t[1..]);
      } else {
        ReplacedIsSafe(DropUnsafe(t[1..]));
      }
    }
  }

  lemma {:induction false} CollapsedHasNoDouble(t: string)
    requires AllSafe(t)
    ensures AllSafe(CollapseDashes(t)) && NoDoubleDash(CollapseDashes(t))
    ensures t != "" ==> CollapseDashes(t) != "" && CollapseDashes(t)[0] == t[0]
    ensures NoDoubleDash(t) ==> CollapseDashes(t) == t
  {
    if |t| >= 2 {
      CollapsedHasNoDouble(t[1..]);
      if NoDoubleDash(t) {
        assert !(t[0] == '-' && t[0 + 1] == '-');
        PieceIsClean(t, 1, |t|);
        assert t[1..|t|] == t[1..];
      }
    }
  }

  lemma {:induction false} StripStartIsSuffix(t: string)
    ensures |StripStart(t)| <= |t| && StripStart(t) == t[|t| - |StripStart(t)|..]
    ensures StripStart(t) != "" ==> !Edge(StripStart(t)[0])
    ensures forall i :: 0 <= i < |t| - |StripStart(t)| ==> Edge(t[i])
    ensures t == "" || !Edge(t[0]) ==> StripStart(t) == t
  {
    if t != "" && Edge(t[0]) {
      StripStartIsSuffix(t[1..]);
    }
  }

  lemma {:induction false} StripEndIsPrefix(t: string)
    ensures StripEnd(t) <= t
    ensures StripEnd(t) != "" ==> !Edge(StripEnd(t)[|StripEnd(t)| - 1])
    ensures forall i :: |StripEnd(t)| <= i < |t| ==> Edge(t[i])
    ensures t == "" || !Edge(t[|t| - 1]) ==> StripEnd(t) == t
  {
    if t != "" && Edge(t[|t| - 1]) {
      StripEndIsPrefix(t[..|t| - 1]);
    }
  }

  lemma PieceIsClean(t: string, from: nat, to: nat)
    requires AllSafe(t) && NoDoubleDash(t) && from <= to <= |t|
    ensures AllSafe(t[from..to]) && NoDoubleDash(t[from..to])
  {
    var p := t[from..to];
    forall i | 0 <= i < |p| - 1 ensures !(p[i] == '-' && p[i + 1] == '-') {
      assert p[i] == t[from + i] && p[i + 1] == t[from + i + 1];
    }
  }

  lemma StrippedIsClean(b: string)
    requires AllSafe(b) && NoDoubleDash(b)
    ensures var c := StripStart(b);
            AllSafe(c) && NoDoubleDash(c) && (c != "" ==> !Edge(c[0]))
  {
    var c := StripStart(b);
    StripStartIsSuffix(b);
    PieceIsClean(b, |b| - |c|, |b|);
    assert b[|b| - |c|..|b|] == c;
  }

  lemma CutIsClean(c: string)
    requires AllSafe(c) && NoDoubleDash(c) && (c != "" ==> !Edge(c[0]))
    ensures Clean(StripEnd(Truncate(StripEnd(c))))
  {
    var d := StripEnd(c);
    var e := Truncate(d);
    var f := StripEnd(e);
    StripEndIsPrefix(c);
    StripEndIsPrefix(e);
    assert |e| <= |d| && e == d[..|e|];
    assert f == c[0..|f|];
    PieceIsClean(c, 0, |f|);
  }

  lemma CleanedIsClean(t: string)
    ensures Clean(Cleaned(t))
  {
    var a := ReplaceUnsafe(t);
    ReplacedIsSafe(t);
    CollapsedHasNoDouble(a);
    StrippedIsClean(CollapseDashes(a));
    CutIsClean(StripStart(CollapseDashes(a)));
  }

  lemma CleanIsKept(t: string)
    requires Clean(t)
    ensures Cleaned(t) == t
  {
    ReplacedIsSafe(t);
    CollapsedHasNoDouble(t);
    StripStartIsSuffix(t);
    StripEndIsPrefix(t);
  }

  lemma UnderscoreIsStripped(t: string)
    requires Clean(t) && t != "" && |t| < MAX_SEGMENT
    ensures Cleaned("_" + t) == t
  {
    var u := ['_'] + t;
    forall i | 0 <= i < |u| - 1 ensures !(u[i] == '-' && u[i + 1] == '-') {
      assert i > 0 ==> u[i] == t[i - 1] && u[i + 1] == t[i];
    }
    ReplacedIsSafe(u);
    CollapsedHasNoDouble(u);
    StripOneEdge(t);
    StripEndIsPrefix(t);
  }

  lemma StripOneEdge(t: string)
    requires t != "" && !Edge(t[0])
    ensures StripStart(['_'] + t) == t
  {
    assert (['_'] + t)[1..] == t;
  }

  lemma PendingIsRenamed()
    ensures Cleaned("_pending") == PENDING
  {
    assert "_" + PENDING == "_pending";
    UnderscoreIsStripped(PENDING);
  }

  lemma SafeIsPlain(t: string)
    requires AllSafe(t)
    ensures Trim(t) == t && Lower(t) == t
  {
    assert t != "" ==> SafeChar(t[0]) && SafeChar(t[|t| - 1]);
    forall i | 0 <= i < |t| ensures LowerChar(t[i]) == t[i] {
      assert SafeChar(t[i]);
    }
  }

  lemma SegmentAgain(s: string)
    requires Clean(s) && s != "" && s != PENDING
    ensures Segment(s) == Some(s)
  {
    SafeIsPlain(s);
    CleanIsKept(s);
  }

  lemma RenamedIsSafe()
    ensures AllSafe("_pending") && IsSegment("_pending")
  {
  }

  lemma PendingAgain()
    ensures Segment("_pending") == Some("_pending")
  {
    RenamedIsSafe();
    SafeIsPlain("_pending");
    PendingIsRenamed();
  }

  lemma SegmentShape(threadId: string)
    requires Segment(threadId).Some?
    ensures var s := Segment(threadId).value;
            s == "_pending" || (Clean(s) && s != "" && s != PENDING)
  {
    CleanedIsClean(Lower(Trim(threadId)));
  }

  lemma CleanIsSegment(s: string)
    requires Clean(s) && s != ""
    ensures IsSegment(s)
  {
  }

  /** A segment never collides with the pending one, and deriving it again changes nothing. */
  lemma SegmentIsStable(threadId: string)
    requires Segment(threadId).Some?
    ensures Segment(threadId).value != PENDING
    ensures Segment(Segment(threadId).value) == Segment(threadId)
    ensures IsSegment(Segment(threadId).value) && |Segment(threadId).value| <= MAX_SEGMENT
  {
    SegmentShape(threadId);
    var s := Segment(threadId).value;
    if s == "_pending" {
      RenamedIsSafe();
      PendingAgain();
    } else {
      CleanIsSegment(s);
      SegmentAgain(s);
    }
  }

  // ---------------------------------------------------------------- the segment in one pass

  /** A lower-case letter, a digit or an underscore, by its code. */
  predicate Kept(c: char) {
    var code := c as int;
    97 <= code <= 122 || 48 <= code <= 57 || code == 95
  }

  /** The kept characters in their order, with one dash for each run of other characters. */
  function Slugged(t: string): string {
    if t == "" then ""
    else
      var rest := Slugged(t[1..]);
      if Kept(t[0]) then [t[0]] + rest
      else if rest != "" && rest[0] == '-' then rest
      else ['-'] + rest
  }

  lemma KeptIsSafe(c: char)
    ensures SafeChar(c) <==> Kept(c) || c == '-'
    ensures Kept(c) ==> c != '-'
  {
    assert 'a' as int == 97 && 'z' as int == 122 && '0' as int == 48 && '9' as int == 57 && '_' as int == 95;
    assert '-' as int == 45;
  }

  lemma CollapseHead(t: string)
    ensures |CollapseDashes(t)| <= |t| && (t == "" <==> CollapseDashes(t) == "")
    ensures t != "" ==> CollapseDashes(t)[0] == t[0]
  {
  }

  lemma {:induction false} ReplacedStart(t: string)
    requires t != "" && !SafeChar(t[0])
    ensures ReplaceUnsafe(t) == "-" + ReplaceUnsafe(DropUnsafe(t))
  {
    assert DropUnsafe(t) == DropUnsafe(t[1..]);
  }

  lemma {:induction false} SluggedIs(t: string)
    ensures CollapseDashes(ReplaceUnsafe(t)) == Slugged(t)
  {
    if t != "" {
      var c, rest := t[0], t[1..];
      SluggedIs(rest);
      KeptIsSafe(c);
      CollapseHead(ReplaceUnsafe(rest));
      if SafeChar(c) {
        assert ReplaceUnsafe(t)[1..] == ReplaceUnsafe(rest);
      } else if rest != "" && !SafeChar(rest[0]) {
        ReplacedStart(rest);
        assert DropUnsafe(rest) == DropUnsafe(rest[1..]);
        assert ReplaceUnsafe(t) == ReplaceUnsafe(rest);
      } else {
        assert ReplaceUnsafe(t) == "-" + ReplaceUnsafe(rest);
        assert ReplaceUnsafe(t)[1..] == ReplaceUnsafe(rest);
      }
    }
  }

  // ---------------------------------------------------------------- the id pattern

  predicate Word(c: char) {
    'a' <= c <= 'z' || 'A' <= c <= 'Z' || '0' <= c <= '9'
  }

  predicate Hex(c: char) {
    'a' <= c <= 'f' || 'A' <= c <= 'F' || '0' <= c <= '9'
  }

  /** Runs of letters, digits and underscores joined by single dashes. */
  predicate IsSegment(s: string) {
    && s != "" && s[0] != '-' && s[|s| - 1] != '-' && NoDoubleDash(s)
    && forall i :: 0 <= i < |s| ==> Word(s[i]) || s[i] == '_' || s[i] == '-'
  }

  predicate DashPlace(i: int) {
    i == 8 || i == 13 || i == 18 || i == 23
  }

  /** Groups of 8, 4, 4, 4 and 12 hexadecimal digits. */
  predicate IsUuid(u: string) {
    |u| == 36 && forall i :: 0 <= i < 36 ==> if DashPlace(i) then u[i] == '-' else Hex(u[i])
  }

  predicate IsExtension(e: string) {
    1 <= |e| <= 10 && forall i :: 0 <= i < |e| ==> Word(e[i])
  }

  datatype Parts = Parts(segment: string, uuid: string, extension: Option<string>)

  function Suffix(extension: Option<string>): string {
    match extension
    case None => ""
    case Some(e) => "-" + e
  }

  function Build(p: Parts): string {
    p.segment + "-" + p.uuid + Suffix(p.extension)
  }

  predicate ValidParts(p: Parts) {
    IsSegment(p.segment) && IsUuid(p.uuid) && (p.extension.Some? ==> IsExtension(p.extension.value))
  }

  /** The id matches the pattern with these groups. */
  predicate Splits(id: string, p: Parts) {
    ValidParts(p) && id == Build(p)
  }

  /** Where the last dash of a well-formed id lies: 13 from the end, or one before the extension. */
  lemma LastDash(p: Parts)
    requires ValidParts(p)
    ensures var id := Build(p);
            var d := if p.extension.None? then |id| - 13 else |id| - 1 - |p.extension.value|;
            0 <= d < |id| && id[d] == '-' && forall i :: d < i < |id| ==> id[i] != '-'
  {
    var id := Build(p);
    var n := |p.segment| + 1;
    assert forall i :: 0 <= i < 36 ==> id[n + i] == p.uuid[i];
    if p.extension.Some? {
      assert forall i :: 0 <= i < |p.extension.value| ==> id[n + 36 + 1 + i] == p.extension.value[i];
    } else {
      assert |id| == n + 36;
      assert id[n + 23] == p.uuid[23];
      forall i | n + 23 < i < |id| ensures id[i] != '-' {
        assert id[i] == p.uuid[i - n];
      }
    }
  }

  /** The group lengths exclude every other split. */
  lemma SplitIsUnique(id: string, p: Parts, q: Parts)
    requires Splits(id, p) && Splits(id, q)
    ensures p == q
  {
    LastDash(p);
    LastDash(q);
    assert p.extension.Some? <==> q.extension.Some?;
    var k := |id| - |Suffix(p.extension)|;
    assert id[k..] == Suffix(p.extension) && id[k..] == Suffix(q.extension);
    assert id[k - 36..k] == p.uuid && id[k - 36..k] == q.uuid;
    assert id[..k - 37] == p.segment && id[..k - 37] == q.segment;
    if p.extension.Some? {
      assert Suffix(p.extension)[1..] == p.extension.value && Suffix(q.extension)[1..] == q.extension.value;
    }
  }

  function LastDashFrom(id: string, i: nat): (d: Option<nat>)
    requires i <= |id|
    ensures d.Some? ==> d.value < i
  {
    if i == 0 then None else if id[i - 1] == '-' then Some(i - 1) else LastDashFrom(id, i - 1)
  }

  function SplitAt(id: string, k: nat, extension: Option<string>): Option<Parts>
    requires k <= |id|
  {
    if k < 38 then None
    else
      var p := Parts(id[..k - 37], id[k - 36..k], extension);
      if Splits(id, p) then Some(p) else None
  }

  /** Matching an id against the pattern. */
  function Parse(id: string): Option<Parts> {
    match SplitAt(id, |id|, None)
    case Some(p) => Some(p)
    case None =>
      match LastDashFrom(id, |id|)
      case None => None
      case Some(d) => SplitAt(id, d, Some(id[d + 1..]))
  }

  lemma {:induction false} LastDashFound(id: string, d: nat, i: nat)
    requires d < i <= |id| && id[d] == '-' && forall j :: d < j < i ==> id[j] != '-'
    ensures LastDashFrom(id, i) == Some(d)
  {
    if i > d + 1 {
      LastDashFound(id, d, i - 1);
    }
  }

  /** Parsing finds a split exactly when there is one, and then the only one. */
  lemma ParseExactly(id: string, p: Parts)
    ensures Parse(id) == Some(p) <==> Splits(id, p)
  {
    if Splits(id, p) {
      LastDash(p);
      var k := |id| - |Suffix(p.extension)|;
      assert id[k - 36..k] == p.uuid && id[..k - 37] == p.segment;
      if p.extension.Some? {
        assert id[k + 1..] == p.extension.value;
        LastDashFound(id, k, |id|);
        if SplitAt(id, |id|, None).Some? {
          SplitIsUnique(id, p, SplitAt(id, |id|, None).value);
        }
      }
    }
  }

  // ---------------------------------------------------------------- creating ids

  /**
   * The extension part of a new id: none for a missing or empty extension; else the extension
   * without a leading dot and in lower case, if it is usable, and otherwise "bin".
   */
  function ExtensionPart(extension: Option<string>): Option<string> {
    match extension
    case None => None
    case Some(e) =>
      if e == "" then None
      else
        var normalized := Lower(if e[0] == '.' then e[1..] else e);
        if IsExtension(normalized) then Some(normalized) else Some("bin")
  }

  lemma ExtensionPartIsUsable(extension: Option<string>)
    ensures ExtensionPart(extension).Some? ==>
              IsExtension(ExtensionPart(extension).value)
              && Lower(ExtensionPart(extension).value) == ExtensionPart(extension).value
  {
    assert IsExtension("bin") && Lower("bin") == "bin";
    if extension.Some? && extension.value != "" {
      var e := extension.value;
      LowerTwice(if e[0] == '.' then e[1..] else e);
    }
  }

  lemma LowerTwice(t: string)
    ensures Lower(Lower(t)) == Lower(t)
  {
  }

  function CreateId(threadId: string, uuid: string, extension: Option<string>): Option<string> {
    match Segment(threadId)
    case None => None
    case Some(s) => Some(Build(Parts(s, uuid, ExtensionPart(extension))))
  }

  function CreatePendingId(uuid: string, extension: Option<string>): string {
    Build(Parts(PENDING, uuid, ExtensionPart(extension)))
  }

  /** What the readers of an id make of it: its three groups in lower case. */
  function Read(id: string): Option<Parts> {
    match Parse(id)
    case None => None
    case Some(p) => Some(Lowered(p))
  }

  function Lowered(p: Parts): Parts {
    Parts(Lower(p.segment), Lower(p.uuid), if p.extension.Some? then Some(Lower(p.extension.value)) else None)
  }

  /** A created id reads back as exactly the segment, uuid and extension it was built from. */
  lemma CreatedIdParses(threadId: string, uuid: string, extension: Option<string>)
    requires IsUuid(uuid) && Segment(threadId).Some?
    ensures Read(CreateId(threadId, uuid, extension).value)
            == Some(Parts(Segment(threadId).value, Lower(uuid), ExtensionPart(extension)))
  {
    SegmentIsStable(threadId);
    SegmentIsLower(threadId);
    ExtensionPartIsUsable(extension);
    var p := Parts(Segment(threadId).value, uuid, ExtensionPart(extension));
    ParseExactly(Build(p), p);
  }

  lemma PendingIdParses(uuid: string, extension: Option<string>)
    requires IsUuid(uuid)
    ensures Read(CreatePendingId(uuid, extension)) == Some(Parts(PENDING, Lower(uuid), ExtensionPart(extension)))
  {
    PendingPartsAreValid(uuid, extension);
    ExtensionPartIsUsable(extension);
    assert Lower(PENDING) == PENDING;
    var p := Parts(PENDING, uuid, ExtensionPart(extension));
    ParseExactly(Build(p), p);
  }

  // ---------------------------------------------------------------- stored files and the sweep

  const PENDING_MAX_AGE := 24 * 60 * 60 * 1000
  const PARTIAL_MAX_AGE := 60 * 60 * 1000

  /** The extension a file is stored under, from the extension of its name. */
  function StoredExtension(extension: string): string {
    var x := Lower(extension);
    if x == ".part" || !(x != "" && x[0] == '.' && IsExtension(x[1..])) then ".bin" else x
  }

  predicate EndsWith(s: string, tail: string) {
    |s| >= |tail| && s[|s| - |tail|..] == tail
  }

  function LastDot(s: string, i: nat): (d: Option<nat>)
    requires i <= |s|
    ensures d.Some? ==> d.value < i
  {
    if i == 0 then None else if s[i - 1] == '.' then Some(i - 1) else LastDot(s, i - 1)
  }

  lemma {:induction false} LastDotFound(s: string, d: nat, i: nat)
    requires d < i <= |s| && s[d] == '.' && forall j :: d < j < i ==> s[j] != '.'
    ensures LastDot(s, i) == Some(d)
  {
    if i > d + 1 {
      LastDotFound(s, d, i - 1);
    }
  }

  /** The id a file name carries, if it has one. */
  function IdOfFile(name: string): Option<string> {
    match LastDot(name, |name|)
    case None => None
    case Some(d) => if d > 0 && '.' !in name[..d] then Some(name[..d]) else None
  }

  /** A directory entry: its name and age in milliseconds, and whether reading and deleting it work. */
  datatype Entry = Entry(name: string, age: int, accessible: bool)

  predicate IsPartial(name: string) {
    EndsWith(name, ".part")
  }

  predicate IsPendingUpload(name: string) {
    match IdOfFile(name)
    case None => false
    case Some(id) =>
      match Read(id)
      case None => false
      case Some(p) => p.segment == PENDING
  }

  predicate Stale(e: Entry) {
    if IsPartial(e.name) then e.age > PARTIAL_MAX_AGE
    else IsPendingUpload(e.name) && e.age > PENDING_MAX_AGE
  }

  function Swept(entries: seq<Entry>): seq<Entry> {
    if entries == [] then []
    else
      var e := entries[|entries| - 1];
      Swept(entries[..|entries| - 1]) + if Stale(e) && e.accessible then [] else [e]
  }

  /** The sweep deletes exactly the accessible stale entries and counts them. */
  method Sweep(entries: seq<Entry>) returns (kept: seq<Entry>, deleted: nat)
    ensures kept == Swept(entries)
    ensures |kept| + deleted == |entries|
  {
    kept, deleted := [], 0;
    for i := 0 to |entries|
      invariant kept == Swept(entries[..i]) && |kept| + deleted == i
    {
      var e := entries[i];
      assert entries[..i + 1][..i] == entries[..i];
      var isPartial := IsPartial(e.name);
      if !isPartial && !IsPendingUpload(e.name) {
        kept := kept + [e];
        continue;
      }
      var maxAge := if isPartial then PARTIAL_MAX_AGE else PENDING_MAX_AGE;
      if e.age > maxAge && e.accessible {
        deleted := deleted + 1;
      } else {
        kept := kept + [e];
      }
    }
    assert entries[..|entries|] == entries;
  }

  lemma StoredExtensionShape(extension: string)
    ensures var x := StoredExtension(extension);
            x != ".part" && |x| >= 2 && x[0] == '.' && forall i :: 1 <= i < |x| ==> x[i] != '.'
  {
    var x := StoredExtension(extension);
    if x == Lower(extension) {
      forall i | 1 <= i < |x| ensures x[i] != '.' {
        assert x[i] == x[1..][i - 1];
      }
    }
  }

  predicate NoDot(s: string) {
    forall i :: 0 <= i < |s| ==> s[i] != '.'
  }

  lemma BuiltHasNoDot(p: Parts)
    requires ValidParts(p)
    ensures NoDot(Build(p)) && Build(p) != ""
  {
    assert NoDot(p.segment) && NoDot(p.uuid) && NoDot(Suffix(p.extension));
  }

  lemma PartTail(name: string)
    requires IsPartial(name)
    ensures |name| >= 5 && name[|name| - 5..] == ".part" && name[|name| - 5] == '.'
  {
    assert name[|name| - 5..][0] == name[|name| - 5];
  }

  /** A stored file name gives back its id, and is never taken for a partial upload. */
  lemma StoredNameReadsBack(p: Parts, extension: string)
    requires ValidParts(p)
    ensures IdOfFile(Build(p) + StoredExtension(extension)) == Some(Build(p))
    ensures !IsPartial(Build(p) + StoredExtension(extension))
  {
    var id, x := Build(p), StoredExtension(extension);
    var name := id + x;
    BuiltHasNoDot(p);
    StoredExtensionShape(extension);
    assert forall j :: |id| < j < |name| ==> name[j] == x[j - |id|];
    LastDotFound(name, |id|, |name|);
    assert name[..|id|] == id && name[|id|..] == x;
    if IsPartial(name) {
      PartTail(name);
    }
  }

  /** A stored file is stale exactly when its id is a pending one and it is more than a day old. */
  lemma StoredFileIsStale(p: Parts, stored: string, e: Entry)
    requires ValidParts(p) && e.name == Build(p) + StoredExtension(stored)
    ensures Stale(e) <==> Lower(p.segment) == PENDING && e.age > PENDING_MAX_AGE
  {
    StoredNameReadsBack(p, stored);
    ParseExactly(Build(p), p);
  }

  /** No file a thread owns is ever stale, however old it is. */
  lemma SweepSparesThreadFiles(threadId: string, uuid: string, extension: Option<string>, stored: string, e: Entry)
    requires IsUuid(uuid) && Segment(threadId).Some?
    requires e.name == CreateId(threadId, uuid, extension).value + StoredExtension(stored)
    ensures !Stale(e)
  {
    SegmentIsStable(threadId);
    SegmentIsLower(threadId);
    ExtensionPartIsUsable(extension);
    StoredFileIsStale(Parts(Segment(threadId).value, uuid, ExtensionPart(extension)), stored, e);
  }

  lemma SegmentIsLower(threadId: string)
    requires Segment(threadId).Some?
    ensures Lower(Segment(threadId).value) == Segment(threadId).value
  {
    CleanedIsClean(Lower(Trim(threadId)));
    SafeIsPlain(Segment(threadId).value);
  }

  lemma PendingPartsAreValid(uuid: string, extension: Option<string>)
    requires IsUuid(uuid)
    ensures ValidParts(Parts(PENDING, uuid, ExtensionPart(extension)))
  {
    ExtensionPartIsUsable(extension);
  }

  /** A pending upload is stale exactly when it is more than a day old. */
  lemma PendingFilesExpire(uuid: string, extension: Option<string>, stored: string, e: Entry)
    requires IsUuid(uuid) && e.name == CreatePendingId(uuid, extension) + StoredExtension(stored)
    ensures Stale(e) <==> e.age > PENDING_MAX_AGE
  {
    PendingPartsAreValid(uuid, extension);
    StoredFileIsStale(Parts(PENDING, uuid, ExtensionPart(extension)), stored, e);
    assert Lower(PENDING) == PENDING;
  }
}
