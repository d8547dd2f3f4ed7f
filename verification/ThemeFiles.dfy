/**
 * What the environment publishes: the theme files of one directory, read in name order under
 * limits on how many files are opened and how many bytes travel to clients.
 */
module ThemeFiles {
  import opened Options

  datatype Theme = Theme(id: string, colors: string)

  const MAX_THEME_FILES := 32
  const MAX_THEME_TOTAL_BYTES := 192 * 1024

  /**
   * A directory entry: its name, whether that is the name of a publishable theme, and the theme
   * its file decodes to with its size in bytes, if the file is usable.
   */
  datatype File = File(name: string, named: bool, content: Option<Theme>, bytes: nat)

  // ---------------------------------------------------------------- name order

  predicate Before(a: string, b: string) {
    if a == "" then true
    else if b == "" then false
    else if a[0] != b[0] then a[0] < b[0]
    else Before(a[1..], b[1..])
  }

  lemma {:induction false} BeforeIsTotal(a: string, b: string)
    ensures Before(a, b) || Before(b, a)
    ensures Before(a, b) && Before(b, a) ==> a == b
  {
    if a != "" && b != "" && a[0] == b[0] {
      BeforeIsTotal(a[1..], b[1..]);
      assert a == [a[0]] + a[1..] && b == [b[0]] + b[1..];
    }
  }

  lemma {:induction false} BeforeIsTransitive(a: string, b: string, c: string)
    requires Before(a, b) && Before(b, c)
    ensures Before(a, c)
  {
    if a != "" && a[0] == b[0] == c[0] {
      BeforeIsTransitive(a[1..], b[1..], c[1..]);
    }
  }

  /** The place of the first difference decides, the smaller character coming first. */
  predicate SmallerAt(a: string, b: string, k: nat) {
    k < |a| && k < |b| && a[..k] == b[..k] && a[k] < b[k]
  }

  /** A name comes first exactly when it starts the other or is smaller where they first differ. */
  lemma {:induction false} BeforeExactly(a: string, b: string)
    ensures Before(a, b) <==> a <= b || exists k: nat :: SmallerAt(a, b, k)
  {
    if a != "" && b != "" {
      if a[0] == b[0] {
        BeforeExactly(a[1..], b[1..]);
        assert a == [a[0]] + a[1..] && b == [b[0]] + b[1..];
        if k: nat :| SmallerAt(a[1..], b[1..], k) {
          assert a[..k + 1] == [a[0]] + a[1..][..k] && b[..k + 1] == [b[0]] + b[1..][..k];
          assert SmallerAt(a, b, k + 1);
        }
        if k: nat :| SmallerAt(a, b, k) {
          assert a[1..][..k - 1] == a[..k][1..] && b[1..][..k - 1] == b[..k][1..];
          assert SmallerAt(a[1..], b[1..], k - 1);
        }
      } else {
        assert SmallerAt(a, b, 0) <==> a[0] < b[0];
        assert forall k: nat :: SmallerAt(a, b, k) && k > 0 ==> a[..k][0] == b[..k][0];
      }
    }
  }

  function Insert(f: File, sorted: seq<File>): (r: seq<File>)
    ensures multiset(r) == multiset(sorted) + multiset{f}
  {
    if sorted == [] then [f]
    else if Before(f.name, sorted[0].name) then [f] + sorted
    else
      assert sorted == [sorted[0]] + sorted[1..];
      [sorted[0]] + Insert(f, sorted[1..])
  }

  /** The entries in name order. */
  function Sort(files: seq<File>): (r: seq<File>)
    ensures multiset(r) == multiset(files)
  {
    if files == [] then []
    else
      assert files == files[..|files| - 1] + [files[|files| - 1]];
      Insert(files[|files| - 1], Sort(files[..|files| - 1]))
  }

  predicate InOrder(files: seq<File>) {
    forall i, j :: 0 <= i < j < |files| ==> Before(files[i].name, files[j].name)
  }

  lemma {:induction false} InsertKeepsOrder(f: File, sorted: seq<File>)
    requires InOrder(sorted)
    ensures InOrder(Insert(f, sorted))
  {
    if sorted != [] {
      var head, tail := sorted[0], sorted[1..];
      if Before(f.name, head.name) {
        FirstIsLeast(f, sorted);
      } else {
        BeforeIsTotal(f.name, head.name);
        InsertKeepsOrder(f, tail);
        var r := Insert(f, tail);
        forall j | 0 <= j < |r| ensures Before(head.name, r[j].name) {
          assert r[j] in multiset(r);
          if r[j] != f {
            assert r[j] in tail;
          }
        }
      }
    }
  }

  lemma FirstIsLeast(f: File, sorted: seq<File>)
    requires InOrder(sorted) && sorted != [] && Before(f.name, sorted[0].name)
    ensures InOrder([f] + sorted)
  {
    forall j | 0 <= j < |sorted| ensures Before(f.name, sorted[j].name) {
      if j > 0 {
        BeforeIsTransitive(f.name, sorted[0].name, sorted[j].name);
      }
    }
  }

  lemma {:induction false} SortIsInOrder(files: seq<File>)
    ensures InOrder(Sort(files))
  {
    if files != [] {
      SortIsInOrder(files[..|files| - 1]);
      InsertKeepsOrder(files[|files| - 1], Sort(files[..|files| - 1]));
    }
  }

  /** The entries of one directory have different names. */
  predicate OneDirectory(files: seq<File>) {
    forall f, g :: f in files && g in files && f.name == g.name ==> f == g
  }

  lemma HeadsAgree(a: seq<File>, b: seq<File>)
    requires InOrder(a) && InOrder(b) && multiset(a) == multiset(b) && OneDirectory(a) && a != [] && b != []
    ensures a[0] == b[0]
  {
    assert a[0] in multiset(b) && b[0] in multiset(a);
    var i :| 0 <= i < |b| && b[i] == a[0];
    var j :| 0 <= j < |a| && a[j] == b[0];
    BeforeIsTotal(a[0].name, b[0].name);
    assert j == 0 || Before(a[0].name, a[j].name);
    assert i == 0 || Before(b[0].name, b[i].name);
    assert a[0] in a && a[j] in a;
  }

  lemma TailsAgree(a: seq<File>, b: seq<File>)
    requires multiset(a) == multiset(b) && a != [] && b != [] && a[0] == b[0]
    ensures multiset(a[1..]) == multiset(b[1..])
  {
    assert a == [a[0]] + a[1..] && b == [b[0]] + b[1..];
    assert multiset(a[1..]) == multiset(a) - multiset{a[0]};
    assert multiset(b[1..]) == multiset(b) - multiset{b[0]};
  }

  lemma SameSize(a: seq<File>, b: seq<File>)
    requires multiset(a) == multiset(b)
    ensures |a| == |b|
  {
    assert |multiset(a)| == |a| && |multiset(b)| == |b|;
  }

  lemma TailIsInOrder(a: seq<File>)
    requires InOrder(a) && OneDirectory(a) && a != []
    ensures InOrder(a[1..]) && OneDirectory(a[1..])
  {
  }

  lemma {:induction false} OrderIsUnique(a: seq<File>, b: seq<File>)
    requires InOrder(a) && InOrder(b) && multiset(a) == multiset(b) && OneDirectory(a)
    ensures a == b
  {
    SameSize(a, b);
    if a != [] {
      HeadsAgree(a, b);
      TailsAgree(a, b);
      TailIsInOrder(a);
      OrderIsUnique(a[1..], b[1..]);
      assert a == [a[0]] + a[1..] && b == [b[0]] + b[1..];
    }
  }

  // ---------------------------------------------------------------- what is published

  function Candidates(files: seq<File>): seq<File> {
    if files == [] then []
    else Candidates(files[..|files| - 1]) + if files[|files| - 1].named then [files[|files| - 1]] else []
  }

  function Usable(files: seq<File>): seq<File> {
    if files == [] then []
    else Usable(files[..|files| - 1]) + if files[|files| - 1].content.Some? then [files[|files| - 1]] else []
  }

  function TotalBytes(files: seq<File>): nat {
    if files == [] then 0 else TotalBytes(files[..|files| - 1]) + files[|files| - 1].bytes
  }

  /** Only the first 32 candidates are ever opened. */
  function Examined(files: seq<File>): seq<File> {
    var c := Candidates(files);
    if |c| <= MAX_THEME_FILES then c else c[..MAX_THEME_FILES]
  }

  /** The published set is the longest run of usable examined files that fits the byte budget. */
  ghost predicate IsPublished(files: seq<File>, themes: seq<Theme>) {
    var usable := Usable(Examined(files));
    && |themes| <= |usable|
    && (forall i :: 0 <= i < |themes| ==> usable[i].content == Some(themes[i]))
    && TotalBytes(usable[..|themes|]) <= MAX_THEME_TOTAL_BYTES
    && (|themes| < |usable| ==> TotalBytes(usable[..|themes| + 1]) > MAX_THEME_TOTAL_BYTES)
  }

  lemma {:induction false} CandidatesPrefix(files: seq<File>, i: nat)
    requires i <= |files|
    ensures Candidates(files[..i]) <= Candidates(files)
    decreases |files|
  {
    if i < |files| {
      assert files[..|files| - 1][..i] == files[..i];
      CandidatesPrefix(files[..|files| - 1], i);
    } else {
      assert files[..i] == files;
    }
  }

  lemma {:induction false} UsablePrefix(files: seq<File>, i: nat)
    requires i <= |files|
    ensures Usable(files[..i]) <= Usable(files)
    decreases |files|
  {
    if i < |files| {
      assert files[..|files| - 1][..i] == files[..i];
      UsablePrefix(files[..|files| - 1], i);
    } else {
      assert files[..i] == files;
    }
  }

  /** The files opened before entry `i`, and the accepted ones among them, start the whole list. */
  lemma SoFar(files: seq<File>, i: nat)
    requires i <= |files| && |Candidates(files[..i])| <= MAX_THEME_FILES
    ensures Usable(Candidates(files[..i])) <= Usable(Examined(files))
  {
    CandidatesPrefix(files, i);
    var c := Candidates(files[..i]);
    assert c <= Examined(files) && Examined(files)[..|c|] == c;
    UsablePrefix(Examined(files), |c|);
  }

  predicate Matching(files: seq<File>, themes: seq<Theme>) {
    |themes| == |files| && forall k :: 0 <= k < |themes| ==> files[k].content == Some(themes[k])
  }

  /** What the loop keeps about the candidates opened so far. */
  predicate Opened(c: seq<File>, themes: seq<Theme>, examined: nat, totalBytes: nat) {
    && examined == |c| <= MAX_THEME_FILES
    && Matching(Usable(c), themes)
    && totalBytes == TotalBytes(Usable(c)) <= MAX_THEME_TOTAL_BYTES
  }

  predicate Progress(files: seq<File>, i: nat, themes: seq<Theme>, examined: nat, totalBytes: nat)
    requires i <= |files|
  {
    Opened(Candidates(files[..i]), themes, examined, totalBytes)
  }

  lemma NextCandidate(files: seq<File>, i: nat)
    requires i < |files|
    ensures Candidates(files[..i + 1])
            == if files[i].named then Candidates(files[..i]) + [files[i]] else Candidates(files[..i])
  {
    assert files[..i + 1][..i] == files[..i];
  }

  lemma UsableSnoc(c: seq<File>, f: File)
    ensures Usable(c + [f]) == if f.content.Some? then Usable(c) + [f] else Usable(c)
  {
    assert (c + [f])[..|c|] == c;
  }

  lemma {:induction false} BytesAdd(a: seq<File>, b: seq<File>)
    ensures TotalBytes(a + b) == TotalBytes(a) + TotalBytes(b)
  {
    if b == [] {
      assert a + b == a;
    } else {
      assert (a + b)[..|a + b| - 1] == a + b[..|b| - 1];
      BytesAdd(a, b[..|b| - 1]);
    }
  }

  lemma BytesSnoc(usable: seq<File>, f: File)
    ensures TotalBytes(usable + [f]) == TotalBytes(usable) + f.bytes
  {
    BytesAdd(usable, [f]);
    assert [f][..0] == [];
  }

  lemma LimitReached(files: seq<File>, i: nat, themes: seq<Theme>, examined: nat, totalBytes: nat)
    requires i < |files| && Progress(files, i, themes, examined, totalBytes)
    requires files[i].named && examined == MAX_THEME_FILES
    ensures IsPublished(files, themes)
  {
    var c := Candidates(files[..i]);
    NextCandidate(files, i);
    CandidatesPrefix(files, i + 1);
    FirstAreExamined(files, c, files[i]);
    AllTaken(files, c, themes);
  }

  lemma FirstAreExamined(files: seq<File>, c: seq<File>, f: File)
    requires c + [f] <= Candidates(files) && |c| == MAX_THEME_FILES
    ensures Examined(files) == c
  {
    assert Candidates(files)[..|c| + 1] == c + [f];
    assert Candidates(files)[..|c|] == c;
  }

  lemma AllTaken(files: seq<File>, c: seq<File>, themes: seq<Theme>)
    requires Examined(files) == c && Matching(Usable(c), themes) && TotalBytes(Usable(c)) <= MAX_THEME_TOTAL_BYTES
    ensures IsPublished(files, themes)
  {
    assert Usable(c)[..|themes|] == Usable(c);
  }

  lemma BudgetSpent(files: seq<File>, i: nat, themes: seq<Theme>, examined: nat, totalBytes: nat)
    requires i < |files| && Progress(files, i, themes, examined, totalBytes)
    requires files[i].named && examined < MAX_THEME_FILES && files[i].content.Some?
    requires totalBytes + files[i].bytes > MAX_THEME_TOTAL_BYTES
    ensures IsPublished(files, themes)
  {
    var c := Candidates(files[..i]);
    NextCandidate(files, i);
    SoFar(files, i + 1);
    UsableSnoc(c, files[i]);
    BytesSnoc(Usable(c), files[i]);
    StopsHere(Usable(Examined(files)), Usable(c), files[i], themes);
  }

  lemma StopsHere(usable: seq<File>, u: seq<File>, f: File, themes: seq<Theme>)
    requires u + [f] <= usable && Matching(u, themes)
    ensures usable[..|themes|] == u && usable[..|themes| + 1] == u + [f] && |themes| < |usable|
    ensures forall i :: 0 <= i < |themes| ==> usable[i].content == Some(themes[i])
  {
    assert forall i :: 0 <= i < |u| ==> usable[i] == (u + [f])[i] == u[i];
  }

  lemma AllRead(files: seq<File>, themes: seq<Theme>, examined: nat, totalBytes: nat)
    requires Progress(files, |files|, themes, examined, totalBytes)
    ensures IsPublished(files, themes)
  {
    assert files[..|files|] == files;
    AllTaken(files, Candidates(files), themes);
  }

  lemma NotNamed(files: seq<File>, i: nat, themes: seq<Theme>, examined: nat, totalBytes: nat)
    requires i < |files| && Progress(files, i, themes, examined, totalBytes) && !files[i].named
    ensures Progress(files, i + 1, themes, examined, totalBytes)
  {
    NextCandidate(files, i);
  }

  lemma Unusable(files: seq<File>, i: nat, themes: seq<Theme>, examined: nat, totalBytes: nat)
    requires i < |files| && Progress(files, i, themes, examined, totalBytes)
    requires files[i].named && examined < MAX_THEME_FILES && files[i].content.None?
    ensures Progress(files, i + 1, themes, examined + 1, totalBytes)
  {
    NextCandidate(files, i);
    UsableSnoc(Candidates(files[..i]), files[i]);
  }

  lemma AcceptedFile(files: seq<File>, i: nat, themes: seq<Theme>, examined: nat, totalBytes: nat)
    requires i < |files| && Progress(files, i, themes, examined, totalBytes)
    requires files[i].named && examined < MAX_THEME_FILES && files[i].content.Some?
    requires totalBytes + files[i].bytes <= MAX_THEME_TOTAL_BYTES
    ensures Progress(files, i + 1, themes + [files[i].content.value], examined + 1, totalBytes + files[i].bytes)
  {
    NextCandidate(files, i);
    OneOpened(Candidates(files[..i]), files[i], themes, examined, totalBytes);
  }

  lemma OneOpened(c: seq<File>, f: File, themes: seq<Theme>, examined: nat, totalBytes: nat)
    requires Opened(c, themes, examined, totalBytes) && examined < MAX_THEME_FILES && f.content.Some?
    requires totalBytes + f.bytes <= MAX_THEME_TOTAL_BYTES
    ensures Opened(c + [f], themes + [f.content.value], examined + 1, totalBytes + f.bytes)
  {
    UsableSnoc(c, f);
    BytesSnoc(Usable(c), f);
    MatchingSnoc(Usable(c), themes, f);
  }

  lemma MatchingSnoc(usable: seq<File>, themes: seq<Theme>, f: File)
    requires Matching(usable, themes) && f.content.Some?
    ensures Matching(usable + [f], themes + [f.content.value])
  {
  }

  method ReadPublished(entries: seq<File>) returns (themes: seq<Theme>)
    ensures IsPublished(Sort(entries), themes)
  {
    themes := ReadSorted(Sort(entries));
  }

  method ReadSorted(files: seq<File>) returns (themes: seq<Theme>)
    ensures IsPublished(files, themes)
  {
    themes := [];
    var examined: nat, totalBytes: nat := 0, 0;
    var i := 0;
    while i < |files|
      invariant 0 <= i <= |files| && Progress(files, i, themes, examined, totalBytes)
      decreases |files| - i
    {
      var file := files[i];
      if !file.named {
        NotNamed(files, i, themes, examined, totalBytes);
      } else if examined + 1 > MAX_THEME_FILES {
        LimitReached(files, i, themes, examined, totalBytes);
        return;
      } else if file.content.None? {
        Unusable(files, i, themes, examined, totalBytes);
        examined := examined + 1;
      } else if totalBytes + file.bytes > MAX_THEME_TOTAL_BYTES {
        BudgetSpent(files, i, themes, examined, totalBytes);
        return;
      } else {
        AcceptedFile(files, i, themes, examined, totalBytes);
        examined := examined + 1;
        totalBytes := totalBytes + file.bytes;
        themes := themes + [file.content.value];
      }
      i := i + 1;
    }
    AllRead(files, themes, examined, totalBytes);
  }

  lemma {:induction false} BytesGrow(files: seq<File>, i: nat, j: nat)
    requires i <= j <= |files|
    ensures TotalBytes(files[..i]) <= TotalBytes(files[..j])
  {
    if i < j {
      assert files[..j][..j - 1] == files[..j - 1];
      BytesGrow(files, i, j - 1);
    }
  }

  lemma NoneLonger(files: seq<File>, t: seq<Theme>, u: seq<Theme>)
    requires IsPublished(files, t) && IsPublished(files, u)
    ensures |u| <= |t|
  {
    if |t| < |u| {
      BytesGrow(Usable(Examined(files)), |t| + 1, |u|);
    }
  }

  lemma PublishedIsUnique(files: seq<File>, t: seq<Theme>, u: seq<Theme>)
    requires IsPublished(files, t) && IsPublished(files, u)
    ensures t == u
  {
    NoneLonger(files, t, u);
    NoneLonger(files, u, t);
  }

  /** What is published depends on the directory alone, not on the order it is listed in. */
  lemma ListingOrderDoesNotMatter(a: seq<File>, b: seq<File>, t: seq<Theme>, u: seq<Theme>)
    requires multiset(a) == multiset(b) && OneDirectory(a)
    requires IsPublished(Sort(a), t) && IsPublished(Sort(b), u)
    ensures t == u
  {
    SortIsInOrder(a);
    SortIsInOrder(b);
    forall f, g | f in Sort(a) && g in Sort(a) && f.name == g.name ensures f == g {
      assert f in multiset(Sort(a)) && g in multiset(Sort(a));
    }
    OrderIsUnique(Sort(a), Sort(b));
    PublishedIsUnique(Sort(a), t, u);
  }
}
