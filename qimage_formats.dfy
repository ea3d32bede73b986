/** The Qt image-reader decoder: the list of formats it announces (Qt's reader formats
  * and nine built-in defaults, lower-cased, through an ordered set) and the choice
  * between Qt's automatic transform and the viewer's own Exif orientation when it
  * loads a file. The std::set is modelled as a strictly ascending sequence under
  * QString's code-unit order. */
module QImageFormats {
  import opened Common

  const DECODER_QIMAGE_PRIORITY: int := 100

  /** The formats listed even when Qt's reader does not report them. */
  const DEFAULT_READER_FORMATS: seq<string> :=
    ["bmp", "jpg", "jpeg", "png", "pbm", "pgm", "ppm", "xbm", "xpm"]

  /** QString's operator<: lexicographic on code units, a proper prefix first. */
  predicate Less(a: string, b: string)
    decreases |a|
  {
    if a == [] then b != []
    else if b == [] then false
    else if a[0] != b[0] then a[0] < b[0]
    else Less(a[1..], b[1..])
  }

  lemma {:induction false} LessIrreflexive(a: string)
    ensures !Less(a, a)
    decreases |a|
  {
    if a != [] {
      LessIrreflexive(a[1..]);
    }
  }

  lemma {:induction false} LessTransitive(a: string, b: string, c: string)
    requires Less(a, b) && Less(b, c)
    ensures Less(a, c)
    decreases |a|
  {
    if a != [] && b != [] && c != [] && a[0] == b[0] && b[0] == c[0] {
      LessTransitive(a[1..], b[1..], c[1..]);
    }
  }

  lemma {:induction false} LessTotal(a: string, b: string)
    requires a != b
    ensures Less(a, b) || Less(b, a)
    decreases |a|
  {
    if a != [] && b != [] && a[0] == b[0] {
      assert a == [a[0]] + a[1..] && b == [b[0]] + b[1..];
      LessTotal(a[1..], b[1..]);
    }
  }

  /** Strictly ascending: what iterating a std::set yields. */
  predicate Ascending(s: seq<string>)
  {
    forall i, j :: 0 <= i < j < |s| ==> Less(s[i], s[j])
  }

  /** std::set::insert on the sorted model: x joins the set at its place. */
  function Insert(s: seq<string>, x: string): (r: seq<string>)
    requires Ascending(s)
    ensures Ascending(r)
    ensures forall y :: y in r <==> y in s || y == x
    decreases |s|
  {
    if s == [] then [x]
    else if x == s[0] then s
    else if Less(x, s[0]) then
      assert forall j :: 0 <= j < |s| ==> Less(x, s[j]) by {
        forall j | 0 <= j < |s| ensures Less(x, s[j]) {
          if j > 0 { LessTransitive(x, s[0], s[j]); }
        }
      }
      [x] + s
    else
      var rest := Insert(s[1..], x);
      LessTotal(x, s[0]);
      assert forall y :: y in rest ==> Less(s[0], y);
      [s[0]] + rest
  }

  datatype FormatInfo = FormatInfo(format: string, decoderPriority: int)

  /** The formats of a list, modelled as Qt's toLower on ASCII letters. */
  function LowerAll(fs: seq<string>): (r: seq<string>)
    ensures |r| == |fs| && forall k :: 0 <= k < |fs| ==> r[k] == ToLower(fs[k])
  {
    seq(|fs|, k requires 0 <= k < |fs| => ToLower(fs[k]))
  }

  /** supportedFormats, given what QImageReader::supportedImageFormats returns. */
  method SupportedFormats(readerFormats: seq<string>) returns (result: seq<FormatInfo>)
    ensures forall i, j :: 0 <= i < j < |result| ==> Less(result[i].format, result[j].format)
    ensures forall f :: (exists k :: 0 <= k < |result| && result[k].format == f) <==>
      f in LowerAll(readerFormats) || f in LowerAll(DEFAULT_READER_FORMATS)
    ensures forall k :: 0 <= k < |result| ==> result[k].decoderPriority == DECODER_QIMAGE_PRIORITY
  {
    var all := InsertLowered([], readerFormats);
    all := InsertLowered(all, DEFAULT_READER_FORMATS);
    result := [];
    for i := 0 to |all|
      invariant |result| == i
      invariant forall k :: 0 <= k < i ==> result[k] == FormatInfo(all[k], DECODER_QIMAGE_PRIORITY)
    {
      result := result + [FormatInfo(all[i], DECODER_QIMAGE_PRIORITY)];
    }
    assert forall f :: (exists k :: 0 <= k < |result| && result[k].format == f) <==> f in all by {
      forall f | f in all ensures exists k :: 0 <= k < |result| && result[k].format == f {
        var k :| 0 <= k < |all| && all[k] == f;
        assert result[k].format == f;
      }
    }
  }

  /** The std::set insertions of one list, each format lower-cased. */
  method InsertLowered(start: seq<string>, fs: seq<string>) returns (all: seq<string>)
    requires Ascending(start)
    ensures Ascending(all)
    ensures forall y :: y in all <==> y in start || y in LowerAll(fs)
  {
    all := start;
    for i := 0 to |fs|
      invariant Ascending(all)
      invariant forall y :: y in all <==> y in start || y in LowerAll(fs[..i])
    {
      assert LowerAll(fs[..i + 1]) == LowerAll(fs[..i]) + [ToLower(fs[i])];
      all := Insert(all, ToLower(fs[i]));
    }
    assert fs[..|fs|] == fs;
  }

  /** No format is announced twice. */
  lemma AscendingHasNoDuplicates(s: seq<string>)
    requires Ascending(s)
    ensures forall i, j :: 0 <= i < |s| && 0 <= j < |s| && i != j ==> s[i] != s[j]
  {
    forall i, j | 0 <= i < |s| && 0 <= j < |s| && i != j ensures s[i] != s[j] {
      if i < j { LessIrreflexive(s[i]); } else { LessIrreflexive(s[j]); }
    }
  }

  /** The defaults are already lower case, so each is announced under its own name. */
  lemma DefaultsAlwaysListed(k: nat)
    requires k < |DEFAULT_READER_FORMATS|
    ensures DEFAULT_READER_FORMATS[k] in LowerAll(DEFAULT_READER_FORMATS)
  {
    var d := DEFAULT_READER_FORMATS[k];
    assert IsLower(d);
    LowerIsFixed(d);
    assert LowerAll(DEFAULT_READER_FORMATS)[k] == d;
  }

  /** What loadImage does with a file. */
  datatype Load = NoItem | Item(autoTransform: bool, exifOrientation: Option<int>)

  /** loadImage: `fileOk` is "exists and is readable", `orientation` the Exif
    * orientation read from the file and `readOk` whether QImageReader::read gave a
    * non-null image. */
  function LoadImage(fileOk: bool, orientation: int, readOk: bool): (r: Load)
    ensures r == NoItem <==> !fileOk || !readOk
    ensures r.Item? ==> (r.autoTransform <==> orientation == 1)
    ensures r.Item? ==> (r.exifOrientation.Some? <==> orientation != 1)
    ensures r.Item? && r.exifOrientation.Some? ==> r.exifOrientation.value == orientation
  {
    if !fileOk then NoItem
    else if orientation != 1 then (if readOk then Item(false, Some(orientation)) else NoItem)
    else if readOk then Item(true, None)
    else NoItem
  }
}
