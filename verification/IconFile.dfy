/**
 * Writing a multi-resolution icon file: a header, a directory of 16-byte entries written into
 * one buffer at computed offsets, and the images one after the other.
 */
module IconFile {
  import opened Options

  type Byte = b: int | 0 <= b < 256

  datatype Image = Image(size: int, contents: seq<Byte>)

  datatype Error = NoImages | BadSize | DuplicateSize | EmptyImage | TooLarge

  datatype Result = Encoded(file: seq<Byte>) | Rejected(error: Error)

  const HEADER_SIZE := 6
  const ENTRY_SIZE := 16

  function U16(v: nat): (b: seq<Byte>)
    ensures |b| == 2
  {
    [v % 256, v / 256 % 256]
  }

  function U32(v: nat): (b: seq<Byte>)
    ensures |b| == 4
  {
    [v % 256, v / 256 % 256, v / 65536 % 256, v / 16777216 % 256]
  }

  const U32_LIMIT: nat := 0x1_0000_0000

  // ---------------------------------------------------------------- what is accepted

  function Sizes(images: seq<Image>): set<int> {
    set i | 0 <= i < |images| :: images[i].size
  }

  function CheckImage(image: Image, seen: set<int>): Option<Error> {
    if image.size < 1 || image.size > 256 then Some(BadSize)
    else if image.size in seen then Some(DuplicateSize)
    else if |image.contents| == 0 then Some(EmptyImage)
    else None
  }

  /** The first complaint about the images, in order. */
  function Check(images: seq<Image>): Option<Error> {
    if images == [] then None
    else
      var front := images[..|images| - 1];
      match Check(front)
      case Some(e) => Some(e)
      case None => CheckImage(images[|images| - 1], Sizes(front))
  }

  predicate WellFormed(images: seq<Image>) {
    && (forall i :: 0 <= i < |images| ==> 1 <= images[i].size <= 256 && images[i].contents != [])
    && (forall i, j :: 0 <= i < j < |images| ==> images[i].size != images[j].size)
  }

  lemma {:induction false} CheckExactly(images: seq<Image>)
    ensures Check(images).None? <==> WellFormed(images)
  {
    if images != [] {
      var front := images[..|images| - 1];
      CheckExactly(front);
      assert Check(images).None? ==> images[|images| - 1].size !in Sizes(front);
      if WellFormed(images) {
        assert WellFormed(front);
      }
    }
  }

  function Range(n: nat): set<int> {
    if n == 0 then {} else Range(n - 1) + {n}
  }

  lemma {:induction false} RangeSize(n: nat)
    ensures |Range(n)| == n && forall v :: v in Range(n) <==> 1 <= v <= n
  {
    if n > 0 {
      RangeSize(n - 1);
    }
  }

  lemma {:induction false} SubsetSize<T>(xs: set<T>, ys: set<T>)
    requires xs <= ys
    ensures |xs| <= |ys|
  {
    if xs != {} {
      var x :| x in xs;
      SubsetSize(xs - {x}, ys - {x});
    }
  }

  lemma {:induction false} DistinctSizes(images: seq<Image>)
    requires forall i, j :: 0 <= i < j < |images| ==> images[i].size != images[j].size
    ensures |Sizes(images)| == |images|
  {
    if images != [] {
      var front, last := images[..|images| - 1], images[|images| - 1];
      DistinctSizes(front);
      assert Sizes(images) == Sizes(front) + {last.size};
      assert last.size !in Sizes(front);
    }
  }

  /** Sizes are distinct and at most 256, so the 16-bit count never overflows. */
  lemma CountFits(images: seq<Image>)
    requires WellFormed(images)
    ensures |images| <= 256
  {
    DistinctSizes(images);
    RangeSize(256);
    SubsetSize(Sizes(images), Range(256));
  }

  // ---------------------------------------------------------------- the layout

  function DirectoryEnd(images: seq<Image>): nat {
    HEADER_SIZE + ENTRY_SIZE * |images|
  }

  function TotalBytes(images: seq<Image>): nat {
    if images == [] then 0 else TotalBytes(images[..|images| - 1]) + |images[|images| - 1].contents|
  }

  /** Where the bytes of the image at index `i` start. */
  function Offset(images: seq<Image>, i: nat): nat
    requires i <= |images|
  {
    DirectoryEnd(images) + TotalBytes(images[..i])
  }

  predicate Fits(images: seq<Image>) {
    forall i :: 0 <= i < |images| ==> |images[i].contents| < U32_LIMIT && Offset(images, i) < U32_LIMIT
  }

  function SizeByte(size: int): Byte
    requires 1 <= size <= 256
  {
    if size == 256 then 0 else size
  }

  function EntryBytes(images: seq<Image>, i: nat): (b: seq<Byte>)
    requires i < |images| && 1 <= images[i].size <= 256
    ensures |b| == ENTRY_SIZE
  {
    var s := SizeByte(images[i].size);
    [s] + [s] + [0] + [0] + U16(1) + U16(32) + U32(|images[i].contents|) + U32(Offset(images, i))
  }

  /** The directory entries of the first `k` images. */
  function Directory(images: seq<Image>, k: nat): (b: seq<Byte>)
    requires k <= |images| && WellFormed(images)
    ensures |b| == ENTRY_SIZE * k
  {
    if k == 0 then [] else Directory(images, k - 1) + EntryBytes(images, k - 1)
  }

  function Contents(images: seq<Image>): (b: seq<Byte>)
    ensures |b| == TotalBytes(images)
  {
    if images == [] then [] else Contents(images[..|images| - 1]) + images[|images| - 1].contents
  }

  function Header(count: nat): (b: seq<Byte>)
    ensures |b| == HEADER_SIZE
  {
    U16(0) + U16(1) + U16(count)
  }

  function FileOf(images: seq<Image>): (b: seq<Byte>)
    requires WellFormed(images)
    ensures |b| == DirectoryEnd(images) + TotalBytes(images)
  {
    Header(|images|) + Directory(images, |images|) + Contents(images)
  }

  // ---------------------------------------------------------------- a reader

  function Read16(file: seq<Byte>, at: nat): nat
    requires at + 2 <= |file|
  {
    file[at] as nat + 256 * file[at + 1] as nat
  }

  function Read32(file: seq<Byte>, at: nat): nat
    requires at + 4 <= |file|
  {
    file[at] as nat + 256 * file[at + 1] as nat + 65536 * file[at + 2] as nat + 16777216 * file[at + 3] as nat
  }

  /** Follows the directory entry at index `i` to its image. */
  function ReadImage(file: seq<Byte>, i: nat): Option<Image> {
    var at := HEADER_SIZE + ENTRY_SIZE * i;
    if at + ENTRY_SIZE > |file| then None
    else
      var length, offset := Read32(file, at + 8), Read32(file, at + 12);
      if offset + length > |file| || file[at] != file[at + 1] then None
      else Some(Image(if file[at] == 0 then 256 else file[at], file[offset..offset + length]))
  }

  /** How many images the header announces. */
  function ReadCount(file: seq<Byte>): Option<nat> {
    if |file| < HEADER_SIZE || Read16(file, 0) != 0 || Read16(file, 2) != 1 then None else Some(Read16(file, 4))
  }

  lemma ReadsU32(v: nat)
    requires v < U32_LIMIT
    ensures Read32(U32(v), 0) == v
  {
    assert v == v % 256 + 256 * (v / 256);
    assert v / 256 == v / 256 % 256 + 256 * (v / 65536);
    assert v / 65536 == v / 65536 % 256 + 256 * (v / 16777216);
  }

  lemma {:induction false} Read32At(file: seq<Byte>, at: nat, v: nat)
    requires at + 4 <= |file| && file[at..at + 4] == U32(v) && v < U32_LIMIT
    ensures Read32(file, at) == v
  {
    ReadsU32(v);
    var w := file[at..at + 4];
    assert w[0] == file[at] && w[1] == file[at + 1] && w[2] == file[at + 2] && w[3] == file[at + 3];
  }

  lemma {:induction false} EntryAt(images: seq<Image>, k: nat, i: nat)
    requires i < k <= |images| && WellFormed(images)
    ensures Directory(images, k)[ENTRY_SIZE * i..ENTRY_SIZE * i + ENTRY_SIZE] == EntryBytes(images, i)
  {
    if i < k - 1 {
      EntryAt(images, k - 1, i);
      var d := Directory(images, k - 1);
      assert Directory(images, k)[ENTRY_SIZE * i..ENTRY_SIZE * i + ENTRY_SIZE]
          == d[ENTRY_SIZE * i..ENTRY_SIZE * i + ENTRY_SIZE];
    }
  }

  lemma {:induction false} ContentsAt(images: seq<Image>, i: nat)
    requires i < |images|
    ensures TotalBytes(images[..i]) + |images[i].contents| <= TotalBytes(images)
    ensures Contents(images)[TotalBytes(images[..i])..TotalBytes(images[..i]) + |images[i].contents|]
            == images[i].contents
    decreases |images|
  {
    var front := images[..|images| - 1];
    if i < |front| {
      assert front[..i] == images[..i];
      ContentsAt(front, i);
      var a, b := TotalBytes(images[..i]), TotalBytes(images[..i]) + |images[i].contents|;
      assert Contents(images)[a..b] == Contents(front)[a..b];
    } else {
      assert images[..i] == front;
    }
  }

  lemma EntryFields(images: seq<Image>, file: seq<Byte>, at: nat, i: nat)
    requires i < |images| && 1 <= images[i].size <= 256 && at + ENTRY_SIZE <= |file|
    requires file[at..at + ENTRY_SIZE] == EntryBytes(images, i)
    ensures file[at] == file[at + 1] == SizeByte(images[i].size)
    ensures file[at + 8..at + 12] == U32(|images[i].contents|)
    ensures file[at + 12..at + 16] == U32(Offset(images, i))
  {
    var e := EntryBytes(images, i);
    var w := file[at..at + ENTRY_SIZE];
    assert w[0] == file[at] && w[1] == file[at + 1];
    SliceOfSlice(file, at, at + ENTRY_SIZE, 8, 12);
    SliceOfSlice(file, at, at + ENTRY_SIZE, 12, 16);
    assert e[8..12] == U32(|images[i].contents|) && e[12..16] == U32(Offset(images, i));
  }

  lemma SliceOfSlice(file: seq<Byte>, from: nat, to: nat, a: nat, b: nat)
    requires from <= to <= |file| && a <= b <= to - from
    ensures file[from..to][a..b] == file[from + a..from + b]
  {
    var x, y := file[from..to][a..b], file[from + a..from + b];
    assert |x| == |y| == b - a;
    forall k | 0 <= k < b - a ensures x[k] == y[k] {
      assert x[k] == file[from..to][a + k] == file[from + a + k] == y[k];
    }
  }

  lemma EntryInFile(images: seq<Image>, i: nat)
    requires WellFormed(images) && i < |images|
    ensures var at := HEADER_SIZE + ENTRY_SIZE * i;
            at + ENTRY_SIZE <= |FileOf(images)| && FileOf(images)[at..at + ENTRY_SIZE] == EntryBytes(images, i)
  {
    var d := Directory(images, |images|);
    EntryAt(images, |images|, i);
    assert ENTRY_SIZE * i + ENTRY_SIZE <= ENTRY_SIZE * |images|;
    var at := HEADER_SIZE + ENTRY_SIZE * i;
    assert FileOf(images)[at..at + ENTRY_SIZE] == d[ENTRY_SIZE * i..ENTRY_SIZE * i + ENTRY_SIZE];
  }

  lemma ImageInFile(images: seq<Image>, i: nat)
    requires WellFormed(images) && i < |images|
    ensures var o := Offset(images, i);
            o + |images[i].contents| <= |FileOf(images)|
            && FileOf(images)[o..o + |images[i].contents|] == images[i].contents
  {
    ContentsAt(images, i);
    var o, n, t := Offset(images, i), |images[i].contents|, TotalBytes(images[..i]);
    assert FileOf(images)[o..o + n] == Contents(images)[t..t + n];
  }

  /** Following the directory of a written file gives back every size and every byte, in order. */
  lemma ReadsBack(images: seq<Image>, i: nat)
    requires WellFormed(images) && Fits(images) && i < |images|
    ensures ReadImage(FileOf(images), i) == Some(images[i])
  {
    EntryInFile(images, i);
    EntryReads(images, FileOf(images), HEADER_SIZE + ENTRY_SIZE * i, i);
    ImageInFile(images, i);
  }

  lemma {:induction false} EntryReads(images: seq<Image>, file: seq<Byte>, at: nat, i: nat)
    requires i < |images| && 1 <= images[i].size <= 256 && Fits(images) && at + ENTRY_SIZE <= |file|
    requires file[at..at + ENTRY_SIZE] == EntryBytes(images, i)
    ensures file[at] == file[at + 1] == SizeByte(images[i].size)
    ensures Read32(file, at + 8) == |images[i].contents| && Read32(file, at + 12) == Offset(images, i)
  {
    EntryFields(images, file, at, i);
    Read32At(file, at + 8, |images[i].contents|);
    Read32At(file, at + 12, Offset(images, i));
  }

  /** Every entry has the reserved bytes zero, one colour plane and 32 bits for each pixel. */
  lemma EntriesAreTrueColour(images: seq<Image>, i: nat)
    requires WellFormed(images) && i < |images|
    ensures var file, at := FileOf(images), HEADER_SIZE + ENTRY_SIZE * i;
            && at + ENTRY_SIZE <= |file|
            && file[at + 2] == file[at + 3] == 0
            && Read16(file, at + 4) == 1 && Read16(file, at + 6) == 32
  {
    EntryInFile(images, i);
    var file, at := FileOf(images), HEADER_SIZE + ENTRY_SIZE * i;
    var w, e := file[at..at + ENTRY_SIZE], EntryBytes(images, i);
    assert w[2] == file[at + 2] && w[3] == file[at + 3];
    assert w[4] == file[at + 4] && w[5] == file[at + 5] && w[6] == file[at + 6] && w[7] == file[at + 7];
  }

  lemma {:induction false} BytesBefore(images: seq<Image>, i: nat, j: nat)
    requires i < j <= |images|
    ensures TotalBytes(images[..i]) + |images[i].contents| <= TotalBytes(images[..j])
  {
    assert images[..j][..j - 1] == images[..j - 1];
    if i < j - 1 {
      BytesBefore(images, i, j - 1);
    }
  }

  /** All lengths and offsets need at most 32 bits exactly when those of the last image do. */
  lemma FitsExactly(images: seq<Image>)
    requires images != []
    ensures var last := |images| - 1;
            Fits(images) <==> |images[last].contents| < U32_LIMIT && Offset(images, last) < U32_LIMIT
  {
    var last := |images| - 1;
    forall i: nat | i < last
      ensures |images[i].contents| <= Offset(images, last) && Offset(images, i) <= Offset(images, last)
    {
      BytesBefore(images, i, last);
    }
  }

  lemma CountReadsBack(images: seq<Image>)
    requires WellFormed(images)
    ensures ReadCount(FileOf(images)) == Some(|images|)
  {
    CountFits(images);
    var file := FileOf(images);
    assert file[..6] == Header(|images|);
    assert file[0] == file[..6][0] && file[1] == file[..6][1] && file[2] == file[..6][2];
    assert file[3] == file[..6][3] && file[4] == file[..6][4] && file[5] == file[..6][5];
  }

  /** The images lie one after the other, from the end of the directory to the end of the file. */
  lemma ImagesTileTheFile(images: seq<Image>, i: nat)
    requires WellFormed(images) && i < |images|
    ensures Offset(images, 0) == DirectoryEnd(images)
    ensures Offset(images, i + 1) == Offset(images, i) + |images[i].contents|
    ensures Offset(images, |images|) == |FileOf(images)|
  {
    assert images[..i + 1][..i] == images[..i];
    assert images[..|images|] == images;
    assert images[..0] == [];
  }

  // ---------------------------------------------------------------- the writer

  function Splice(s: seq<Byte>, at: nat, b: seq<Byte>): (r: seq<Byte>)
    requires at + |b| <= |s|
    ensures |r| == |s|
  {
    s[..at] + b + s[at + |b|..]
  }

  lemma SpliceTwice(s: seq<Byte>, at: nat, a: seq<Byte>, b: seq<Byte>)
    requires at + |a| + |b| <= |s|
    ensures Splice(Splice(s, at, a), at + |a|, b) == Splice(s, at, a + b)
  {
  }

  method WriteBytes(buffer: array<Byte>, bytes: seq<Byte>, at: nat)
    requires at + |bytes| <= buffer.Length
    modifies buffer
    ensures buffer[..] == Splice(old(buffer[..]), at, bytes)
  {
    for k := 0 to |bytes|
      invariant forall j :: 0 <= j < buffer.Length ==>
                  buffer[j] == if at <= j < at + k then bytes[j - at] else old(buffer[j])
    {
      buffer[at + k] := bytes[k];
    }
  }

  /** The eight fields of one directory entry, at consecutive offsets. */
  method WriteEntry(header: array<Byte>, images: seq<Image>, i: nat, at: nat, imageOffset: nat)
    requires i < |images| && 1 <= images[i].size <= 256 && imageOffset == Offset(images, i)
    requires at + ENTRY_SIZE <= header.Length
    modifies header
    ensures header[..] == Splice(old(header[..]), at, EntryBytes(images, i))
  {
    ghost var start := header[..];
    var image := images[i];
    var s := SizeByte(image.size);
    WriteBytes(header, [s], at);
    WriteBytes(header, [s], at + 1);
    SpliceTwice(start, at, [s], [s]);
    WriteBytes(header, [0], at + 2);
    SpliceTwice(start, at, [s] + [s], [0]);
    WriteBytes(header, [0], at + 3);
    SpliceTwice(start, at, [s] + [s] + [0], [0]);
    WriteBytes(header, U16(1), at + 4);
    SpliceTwice(start, at, [s] + [s] + [0] + [0], U16(1));
    WriteBytes(header, U16(32), at + 6);
    SpliceTwice(start, at, [s] + [s] + [0] + [0] + U16(1), U16(32));
    WriteBytes(header, U32(|image.contents|), at + 8);
    SpliceTwice(start, at, [s] + [s] + [0] + [0] + U16(1) + U16(32), U32(|image.contents|));
    WriteBytes(header, U32(imageOffset), at + 12);
    SpliceTwice(start, at, [s] + [s] + [0] + [0] + U16(1) + U16(32) + U32(|image.contents|), U32(imageOffset));
  }

  method CheckImages(images: seq<Image>) returns (error: Option<Error>)
    ensures error == Check(images)
  {
    var seenSizes := {};
    for i := 0 to |images|
      invariant Check(images[..i]).None?
      invariant seenSizes == Sizes(images[..i])
    {
      var image := images[i];
      assert images[..i + 1][..i] == images[..i];
      error := CheckImage(image, seenSizes);
      if error.Some? {
        CheckStops(images, i + 1);
        return;
      }
      seenSizes := seenSizes + {image.size};
      assert Sizes(images[..i + 1]) == Sizes(images[..i]) + {image.size};
    }
    assert images[..|images|] == images;
    error := None;
  }

  lemma {:induction false} CheckStops(images: seq<Image>, i: nat)
    requires i <= |images| && Check(images[..i]).Some?
    ensures Check(images) == Check(images[..i])
    decreases |images|
  {
    if i < |images| {
      assert images[..|images| - 1][..i] == images[..i];
      CheckStops(images[..|images| - 1], i);
    } else {
      assert images[..i] == images;
    }
  }

  method WriteHeader(count: nat) returns (header: array<Byte>)
    ensures fresh(header) && header.Length == HEADER_SIZE + ENTRY_SIZE * count
    ensures header[..HEADER_SIZE] == Header(count)
  {
    header := new Byte[HEADER_SIZE + ENTRY_SIZE * count](_ => 0);
    ghost var start := header[..];
    WriteBytes(header, U16(0), 0);
    WriteBytes(header, U16(1), 2);
    SpliceTwice(start, 0, U16(0), U16(1));
    WriteBytes(header, U16(count), 4);
    SpliceTwice(start, 0, U16(0) + U16(1), U16(count));
    assert header[..] == Splice(start, 0, Header(count));
    assert header[..HEADER_SIZE] == header[..][..HEADER_SIZE];
  }

  /** Encoding succeeds exactly for well-formed images that fit 32-bit offsets, and then writes the layout. */
  method EncodePngIco(images: seq<Image>) returns (result: Result)
    ensures images == [] ==> result == Rejected(NoImages)
    ensures images != [] && Check(images).Some? ==> result == Rejected(Check(images).value)
    ensures images != [] && WellFormed(images) ==>
              result == if Fits(images) then Encoded(FileOf(images)) else Rejected(TooLarge)
  {
    CheckExactly(images);
    if |images| == 0 {
      return Rejected(NoImages);
    }
    var error := CheckImages(images);
    if error.Some? {
      return Rejected(error.value);
    }
    var header := WriteHeader(|images|);
    var fits := WriteDirectory(header, images);
    if !fits {
      return Rejected(TooLarge);
    }
    var contents := ConcatContents(images);
    result := Encoded(header[..] + contents);
  }

  /** Writing a length or an offset that needs more than 32 bits is refused. */
  method WriteDirectory(header: array<Byte>, images: seq<Image>) returns (fits: bool)
    requires WellFormed(images) && header.Length == DirectoryEnd(images)
    requires header[..HEADER_SIZE] == Header(|images|)
    modifies header
    ensures fits <==> Fits(images)
    ensures fits ==> header[..] == Header(|images|) + Directory(images, |images|)
  {
    var imageOffset := header.Length;
    assert images[..0] == [];
    assert header[..][..HEADER_SIZE] == header[..HEADER_SIZE];
    for i := 0 to |images|
      invariant imageOffset == Offset(images, i)
      invariant Begun(images, i, header[..])
      invariant forall j :: 0 <= j < i ==> |images[j].contents| < U32_LIMIT && Offset(images, j) < U32_LIMIT
    {
      if |images[i].contents| >= U32_LIMIT || imageOffset >= U32_LIMIT {
        return false;
      }
      ghost var before := header[..];
      WriteEntry(header, images, i, HEADER_SIZE + ENTRY_SIZE * i, imageOffset);
      EntryWritten(images, i, before, header[..]);
      ImagesTileTheFile(images, i);
      imageOffset := imageOffset + |images[i].contents|;
    }
    assert header[..][..header.Length] == header[..];
    return true;
  }

  /** The buffer starts with the header and the first `i` entries. */
  predicate Begun(images: seq<Image>, i: nat, buffer: seq<Byte>) {
    && WellFormed(images) && i <= |images| && |buffer| == DirectoryEnd(images)
    && HEADER_SIZE + ENTRY_SIZE * i <= |buffer|
    && buffer[..HEADER_SIZE + ENTRY_SIZE * i] == Header(|images|) + Directory(images, i)
  }

  lemma EntryWritten(images: seq<Image>, i: nat, before: seq<Byte>, after: seq<Byte>)
    requires i < |images| && Begun(images, i, before)
    requires HEADER_SIZE + ENTRY_SIZE * i + ENTRY_SIZE <= |before|
    requires after == Splice(before, HEADER_SIZE + ENTRY_SIZE * i, EntryBytes(images, i))
    ensures Begun(images, i + 1, after)
  {
    var at, h, d, e := HEADER_SIZE + ENTRY_SIZE * i, Header(|images|), Directory(images, i), EntryBytes(images, i);
    SplicePrefix(before, at, e, after);
    assert Directory(images, i + 1) == d + e;
    assert h + (d + e) == (h + d) + e;
  }

  lemma SplicePrefix(s: seq<Byte>, at: nat, b: seq<Byte>, r: seq<Byte>)
    requires at + |b| <= |s| && r == Splice(s, at, b)
    ensures r[..at + |b|] == s[..at] + b
  {
  }

  method ConcatContents(images: seq<Image>) returns (contents: seq<Byte>)
    ensures contents == Contents(images)
  {
    contents := [];
    for i := 0 to |images|
      invariant contents == Contents(images[..i])
    {
      assert images[..i + 1][..i] == images[..i];
      contents := contents + images[i].contents;
    }
    assert images[..|images|] == images;
  }
}
