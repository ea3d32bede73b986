/** The Windows Imaging Component decoder's availability and its format list: the
  * built-in extensions followed by each registered codec's FileExtensions value,
  * lower-cased, stripped of dots and spaces and split at commas, with duplicates
  * removed. Loading ole32 and reading the registry are not part of this model: their
  * outcomes are parameters. */
module WicFormats {
  import opened Common

  /** The lazily built OLE32 singleton: whether the library loaded and which of its
    * four entry points resolved. */
  class Ole32 {
    var loaded: bool
    var coInitialize: bool
    var coUninitialize: bool
    var coCreateInstance: bool
    var iidFromString: bool

    /** The constructor resolves the entry points only once the library is loaded. */
    constructor (libraryLoads: bool, ci: bool, cu: bool, cc: bool, iid: bool)
      ensures loaded == libraryLoads
      ensures coInitialize == (libraryLoads && ci) && coUninitialize == (libraryLoads && cu)
      ensures coCreateInstance == (libraryLoads && cc) && iidFromString == (libraryLoads && iid)
    {
      loaded := libraryLoads;
      coInitialize, coUninitialize, coCreateInstance, iidFromString := false, false, false, false;
      if libraryLoads {
        coInitialize, coUninitialize, coCreateInstance, iidFromString := ci, cu, cc, iid;
      }
    }

    predicate IsValid()
      reads this
    {
      loaded && coInitialize && coUninitialize && coCreateInstance && iidFromString
    }
  }

  /** isAvailable: the singleton is handed out exactly when it is valid. */
  method IsAvailable(libraryLoads: bool, ci: bool, cu: bool, cc: bool, iid: bool) returns (available: bool)
    ensures available <==> libraryLoads && ci && cu && cc && iid
  {
    var ole32 := new Ole32(libraryLoads, ci, cu, cc, iid);
    available := ole32.IsValid();
  }

  const E_FAIL: int := 0x8000_4005

  /** The *_WRAP functions: the entry point's own result when ole32 is available,
    * E_FAIL otherwise. */
  function Wrap(available: bool, hr: int): (r: int)
    ensures !available ==> r == E_FAIL
    ensures available ==> r == hr
  {
    if available then hr else E_FAIL
  }

  /** The extensions WIC is known to handle, in the order listed. */
  const BUILTIN_FORMATS: seq<string> :=
    ["bmp", "dib", "dds", "dng", "gif", "wdp", "ico", "jpe", "jpeg", "jpg", "jxr",
     "wdp", "png", "tiff", "tif"]

  /** QString::remove(c): every occurrence of c dropped. */
  function Remove(s: string, c: char): (r: string)
    ensures c !in r
    ensures forall x :: x in r <==> x in s && x != c
  {
    if s == [] then [] else (if s[0] == c then [] else [s[0]]) + Remove(s[1..], c)
  }

  /** Every character other than c is kept as often as it occurs, so the length drops
    * by the number of c. */
  lemma {:induction false} RemoveCounts(s: string, c: char)
    ensures multiset(Remove(s, c)) == multiset(s)[c := 0]
    ensures |Remove(s, c)| == |s| - multiset(s)[c]
  {
    if s != [] {
      assert s == [s[0]] + s[1..];
      RemoveCounts(s[1..], c);
    }
  }

  /** Removing from a concatenation removes from each part in turn: the characters
    * that stay keep their order. */
  lemma {:induction false} RemoveAppend(a: string, b: string, c: char)
    ensures Remove(a + b, c) == Remove(a, c) + Remove(b, c)
  {
    if a == [] {
      assert a + b == b;
    } else {
      assert (a + b)[0] == a[0] && (a + b)[1..] == a[1..] + b;
      RemoveAppend(a[1..], b, c);
    }
  }

  /** QString::split(c) keeping empty parts: the pieces between the separators, one
    * more than there are separators. */
  function Split(s: string, c: char): (parts: seq<string>)
    ensures |parts| >= 1
    ensures forall k :: 0 <= k < |parts| ==> c !in parts[k]
    ensures forall k, x :: 0 <= k < |parts| && x in parts[k] ==> x in s
    decreases |s|
  {
    if c !in s then [s]
    else
      var i := IndexOf(s, c);
      assert forall x :: x in s[i + 1..] ==> x in s;
      [s[..i]] + Split(s[i + 1..], c)
  }

  /** The first position of c in s. */
  function IndexOf(s: string, c: char): (i: nat)
    requires c in s
    ensures i < |s| && s[i] == c && c !in s[..i]
  {
    if s[0] == c then 0 else 1 + IndexOf(s[1..], c)
  }

  /** Joining the pieces with c restores the text: split loses nothing. */
  lemma {:induction false} SplitJoin(s: string, c: char)
    ensures JoinWith(Split(s, c), c) == s
    decreases |s|
  {
    if c in s {
      var i := IndexOf(s, c);
      SplitJoin(s[i + 1..], c);
      assert s == s[..i] + [c] + s[i + 1..];
    }
  }

  /** Pieces joined with c between them. */
  function JoinWith(parts: seq<string>, c: char): string
    requires |parts| >= 1
  {
    if |parts| == 1 then parts[0] else parts[0] + [c] + JoinWith(parts[1..], c)
  }

  /** One registry FileExtensions value turned into extensions. */
  function Normalize(value: string): (exts: seq<string>)
    ensures |exts| >= 1
    ensures forall k :: 0 <= k < |exts| ==> '.' !in exts[k] && ' ' !in exts[k] && ',' !in exts[k]
    ensures forall k :: 0 <= k < |exts| ==> IsLower(exts[k])
    ensures JoinWith(exts, ',') == Remove(Remove(ToLower(value), '.'), ' ')
  {
    var lower := ToLower(value);
    ToLowerIsLower(value);
    RemoveKeepsLower(lower, '.');
    RemoveKeepsLower(Remove(lower, '.'), ' ');
    var stripped := Remove(Remove(lower, '.'), ' ');
    SplitJoin(stripped, ',');
    SplitKeepsLower(stripped, ',');
    Split(stripped, ',')
  }

  lemma RemoveKeepsLower(s: string, c: char)
    requires IsLower(s)
    ensures IsLower(Remove(s, c))
  {
    var r := Remove(s, c);
    forall k | 0 <= k < |r| ensures !('A' <= r[k] <= 'Z') {
      assert r[k] in s;
    }
  }

  lemma SplitKeepsLower(s: string, c: char)
    requires IsLower(s)
    ensures forall k :: 0 <= k < |Split(s, c)| ==> IsLower(Split(s, c)[k])
  {
    var parts := Split(s, c);
    forall k, m | 0 <= k < |parts| && 0 <= m < |parts[k]| ensures !('A' <= parts[k][m] <= 'Z') {
      assert parts[k][m] in parts[k];
      assert parts[k][m] in s;
    }
  }

  /** QStringList::removeDuplicates: each string kept at its first occurrence. */
  function Dedup(s: seq<string>): (r: seq<string>)
    ensures forall x :: x in r <==> x in s
    ensures |r| <= |s|
  {
    if s == [] then []
    else
      var prefix := Dedup(s[..|s| - 1]);
      var last := s[|s| - 1];
      assert s == s[..|s| - 1] + [last];
      if last in prefix then prefix else prefix + [last]
  }

  predicate NoDuplicates(s: seq<string>)
  {
    forall i, j :: 0 <= i < j < |s| ==> s[i] != s[j]
  }

  lemma {:induction false} DedupHasNoDuplicates(s: seq<string>)
    ensures NoDuplicates(Dedup(s))
  {
    if s != [] {
      DedupHasNoDuplicates(s[..|s| - 1]);
    }
  }

  /** Deduplicating a longer list keeps the shorter list's result in front: the
    * built-in extensions lead the final list. */
  lemma {:induction false} DedupKeepsPrefix(a: seq<string>, b: seq<string>)
    ensures |Dedup(a)| <= |Dedup(a + b)| && Dedup(a + b)[..|Dedup(a)|] == Dedup(a)
    decreases |b|
  {
    if b == [] {
      assert a + b == a;
    } else {
      var init := b[..|b| - 1];
      DedupKeepsPrefix(a, init);
      assert (a + b)[..|a + b| - 1] == a + init;
    }
  }

  /** A list without duplicates is left as it is. */
  lemma {:induction false} DedupOfDistinct(s: seq<string>)
    requires NoDuplicates(s)
    ensures Dedup(s) == s
  {
    if s != [] {
      var init := s[..|s| - 1];
      DedupOfDistinct(init);
      assert s[|s| - 1] !in init;
    }
  }

  /** The extensions of all codecs, in registry order. */
  function AllExtensions(values: seq<string>): seq<string>
  {
    if values == [] then [] else AllExtensions(values[..|values| - 1]) + Normalize(values[|values| - 1])
  }

  /** supportedFormats: empty when WIC is unavailable; otherwise the built-ins, then
    * each codec's extensions (`values`: the FileExtensions of the registered codecs,
    * "" where a codec has none), without duplicates. */
  method SupportedFormats(available: bool, values: seq<string>) returns (result: seq<string>)
    ensures !available ==> result == []
    ensures available ==> result == Dedup(BUILTIN_FORMATS + AllExtensions(values))
  {
    if !available {
      return [];
    }
    result := AppendExtensions(BUILTIN_FORMATS, values);
    result := Dedup(result);
  }

  /** The loop of supportedFormats: each codec's extensions appended in turn. */
  method AppendExtensions(start: seq<string>, values: seq<string>) returns (result: seq<string>)
    ensures result == start + AllExtensions(values)
  {
    result := start;
    for i := 0 to |values|
      invariant result == start + AllExtensions(values[..i])
    {
      var exts := Normalize(values[i]);
      AllExtensionsSnoc(values, i);
      AppendAssoc(start, AllExtensions(values[..i]), exts);
      result := result + exts;
    }
    assert values[..|values|] == values;
  }

  lemma AllExtensionsSnoc(values: seq<string>, i: nat)
    requires i < |values|
    ensures AllExtensions(values[..i + 1]) == AllExtensions(values[..i]) + Normalize(values[i])
  {
    assert values[..i + 1][..i] == values[..i];
  }

  lemma AppendAssoc(a: seq<string>, b: seq<string>, c: seq<string>)
    ensures (a + b) + c == a + (b + c)
  {
  }

  /** No entry of the list holds a dot, a space or a comma, and none is repeated. */
  lemma FormatsAreClean(values: seq<string>)
    ensures NoDuplicates(Dedup(BUILTIN_FORMATS + AllExtensions(values)))
    ensures forall f :: f in Dedup(BUILTIN_FORMATS + AllExtensions(values)) ==>
      '.' !in f && ' ' !in f && ',' !in f
  {
    DedupHasNoDuplicates(BUILTIN_FORMATS + AllExtensions(values));
    BuiltinsAreClean();
    forall f | f in AllExtensions(values) ensures '.' !in f && ' ' !in f && ',' !in f {
      ExtensionsAreClean(values, f);
    }
  }

  lemma BuiltinsAreClean()
    ensures forall f :: f in BUILTIN_FORMATS ==> '.' !in f && ' ' !in f && ',' !in f
  {
  }

  lemma {:induction false} ExtensionsAreClean(values: seq<string>, f: string)
    requires f in AllExtensions(values)
    ensures '.' !in f && ' ' !in f && ',' !in f
  {
    if values != [] {
      if f in AllExtensions(values[..|values| - 1]) {
        ExtensionsAreClean(values[..|values| - 1], f);
      }
    }
  }

  /** The list starts with the built-ins, the repeated "wdp" taken once. */
  lemma BuiltinsLead(values: seq<string>)
    ensures var r := Dedup(BUILTIN_FORMATS + AllExtensions(values));
      var b := Dedup(BUILTIN_FORMATS);
      |b| <= |r| && r[..|b|] == b
  {
    DedupKeepsPrefix(BUILTIN_FORMATS, AllExtensions(values));
  }
}
