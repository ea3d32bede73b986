/** The value-level rules of Exiv2's Exif/IPTC to XMP converter: the Flash bit field
  * and its five XMP parts, the textual encodings of ExifVersion and GPSVersionID,
  * the space-joined XMP arrays, the text taken from a language alternative, and the
  * in-place byte swap of UCS-2 strings. A metadatum is modelled by what the
  * converter asks of it: its text, its components as text and as integers, and
  * whether the last conversion succeeded. */
module ExifValues {
  import opened Common

  /** The XMP value types the converter distinguishes. */
  datatype TypeId = TextValue | ArrayValue | LangAltValue | OtherValue

  /** A metadatum's value: toString(), toString(i) for each component, toInt64(i),
    * value().ok(), and for a language alternative its x-default entry. */
  datatype Datum = Datum(typeId: TypeId, text: string, items: seq<string>,
                         numbers: seq<int>, ok: bool, langDefault: Option<string>)

  /** count(). */
  function Count(d: Datum): nat { |d.items| }

  /** toInt64(i); a component without a numeric reading gives 0. */
  function ToInt(d: Datum, i: nat): int
  {
    if i < |d.numbers| then d.numbers[i] else 0
  }

  const U32: int := 0x1_0000_0000

  /** toUint32(): the first component taken modulo 2^32. */
  function ToUint32(d: Datum): (v: int)
    ensures 0 <= v < U32
  {
    ToInt(d, 0) % U32
  }

  /** A datum written from a string, as `(*data)[key] = text` does; its numeric
    * reading is the text parsed as a decimal integer, when it is one. */
  function TextDatum(s: string): (d: Datum)
    ensures d.text == s && d.ok && Count(d) == 1
  {
    var n := ParseInt(s);
    Datum(TextValue, s, [s], if n.Some? then [n.value] else [], true, None)
  }

  /** A datum written from an unsigned integer: its decimal text, read back exactly. */
  function NumberDatum(n: nat): (d: Datum)
    ensures ToInt(d, 0) == n && Count(d) == 1 && d.ok
  {
    IntToStringParses(n);
    TextDatum(IntToString(n))
  }

  /** A datum written from a bool: the XMP text "True" or "False", read back as 1 or 0. */
  function BoolDatum(b: bool): (d: Datum)
    ensures ToInt(d, 0) == (if b then 1 else 0) && Count(d) == 1 && d.ok
  {
    var s := if b then "True" else "False";
    Datum(TextValue, s, [s], [if b then 1 else 0], true, None)
  }

  // ---- Flash ----------------------------------------------------------------

  /** The five parts cnvExifFlash writes for an Exif Flash value. */
  datatype FlashParts = FlashParts(fired: bool, ret: nat, mode: nat, flashFunction: bool, redEyeMode: bool)

  /** Fired is bit 0, Return bits 1-2, Mode bits 3-4, Function bit 5, RedEyeMode bit 6. */
  function ExifFlashParts(value: nat): (p: FlashParts)
    ensures p.ret < 4 && p.mode < 4
  {
    FlashParts(value % 2 == 1, (value / 2) % 4, (value / 8) % 4, (value / 32) % 2 == 1,
               (value / 64) % 2 == 1)
  }

  /** One part's contribution to cnvXmpFlash's value: its reading masked to `width`
    * bits and shifted to bit `shift`, or nothing when the part is missing, empty or
    * unreadable. The fields are disjoint, so the source's `|=` adds them. */
  function Contribution(part: Option<Datum>, mask: nat, shift: nat): (c: nat)
    requires mask == 1 || mask == 3
  {
    if part.Some? && Count(part.value) > 0 && part.value.ok then
      (ToUint32(part.value) % (mask + 1)) * Pow2(shift)
    else 0
  }

  /** The Flash value cnvXmpFlash rebuilds from the five parts (Fired is known to
    * be present); whatever the parts hold, it fits in the seven Flash bits. */
  function XmpFlashValue(fired: Datum, ret: Option<Datum>, mode: Option<Datum>,
                         flashFunction: Option<Datum>, red: Option<Datum>): (v: nat)
    ensures v < 128
  {
    Contribution(Some(fired), 1, 0) + Contribution(ret, 3, 1) + Contribution(mode, 3, 3) +
    Contribution(flashFunction, 1, 5) + Contribution(red, 1, 6)
  }

  lemma SmallPowers()
    ensures Pow2(0) == 1 && Pow2(1) == 2 && Pow2(3) == 8 && Pow2(5) == 32 && Pow2(6) == 64
  {
  }

  /** The parts of a value below 128 written as XMP and read back give the value:
    * bit 7 and above are the only ones lost. */
  lemma FlashRoundTrip(value: nat)
    requires value < 128
    ensures var p := ExifFlashParts(value);
      XmpFlashValue(BoolDatum(p.fired), Some(NumberDatum(p.ret)), Some(NumberDatum(p.mode)),
                    Some(BoolDatum(p.flashFunction)), Some(BoolDatum(p.redEyeMode))) == value
  {
    SmallPowers();
    var p := ExifFlashParts(value);
    BoolContribution(p.fired, 0);
    NumberContribution(p.ret, 1);
    NumberContribution(p.mode, 3);
    BoolContribution(p.flashFunction, 5);
    BoolContribution(p.redEyeMode, 6);
    FlashDigits(value);
  }

  lemma BoolContribution(b: bool, shift: nat)
    ensures Contribution(Some(BoolDatum(b)), 1, shift) == (if b then 1 else 0) * Pow2(shift)
  {
  }

  lemma NumberContribution(n: nat, shift: nat)
    requires n < 4
    ensures Contribution(Some(NumberDatum(n)), 3, shift) == n * Pow2(shift)
  {
  }

  lemma FlashDigits(v: nat)
    requires v < 128
    ensures v == v % 2 + (v / 2) % 4 * 2 + (v / 8) % 4 * 8 + (v / 32) % 2 * 32 + (v / 64) % 2 * 64
  {
    var a := v / 2;
    var b := a / 4;
    var c := b / 4;
    var d := c / 2;
    assert b == v / 8 && c == v / 32 && d == v / 64;
    assert d % 2 == d;
  }

  // ---- Versions ---------------------------------------------------------------

  /** static_cast<char> of a component: its low byte. */
  function ByteChar(n: int): (c: char)
    ensures c as int < 256
  {
    (n % 256) as char
  }

  /** static_cast<int> of a char (signed on the platforms Exiv2 targets). */
  function SignedValue(c: char): int
  {
    if c as int >= 128 then c as int - 256 else c as int
  }

  /** cnvExifVersion: one character per component. */
  function ExifVersionText(numbers: seq<int>): (s: string)
    ensures |s| == |numbers|
    ensures forall i :: 0 <= i < |numbers| && 0 <= numbers[i] < 256 ==> s[i] as int == numbers[i]
  {
    seq(|numbers|, i requires 0 <= i < |numbers| => ByteChar(numbers[i]))
  }

  /** cnvXmpVersion: the codes of the first four characters, separated by single
    * spaces; a text shorter than four characters (or unreadable) is not converted. */
  function XmpVersionText(s: string, ok: bool): (r: Option<string>)
    ensures r.None? <==> !ok || |s| < 4
  {
    if !ok || |s| < 4 then None
    else Some(Join(MapIntsToStrings([SignedValue(s[0]), SignedValue(s[1]), SignedValue(s[2]),
                                     SignedValue(s[3])]), " "))
  }

  /** ExifVersion to XMP and back turns the first four components, when they are
    * ASCII codes, into their decimal spellings joined by spaces. */
  lemma VersionRoundTrip(numbers: seq<int>)
    requires |numbers| >= 4 && forall i :: 0 <= i < |numbers| ==> 0 <= numbers[i] < 128
    ensures XmpVersionText(ExifVersionText(numbers), true) ==
      Some(Join(MapIntsToStrings(numbers[..4]), " "))
  {
    var s := ExifVersionText(numbers);
    assert forall i :: 0 <= i < 4 ==> SignedValue(s[i]) == numbers[i];
    assert [SignedValue(s[0]), SignedValue(s[1]), SignedValue(s[2]), SignedValue(s[3])] == numbers[..4];
  }

  /** cnvExifGPSVersion: the components joined by '.'. */
  function ExifGPSVersionText(numbers: seq<int>): (s: string)
    ensures s == "" <==> numbers == []
  {
    Join(MapIntsToStrings(numbers), ".")
  }

  /** std::replace(from, to) on a string. */
  function ReplaceChar(s: string, from: char, to: char): (r: string)
    ensures |r| == |s|
    ensures forall i :: 0 <= i < |s| ==> r[i] == (if s[i] == from then to else s[i])
  {
    seq(|s|, i requires 0 <= i < |s| => if s[i] == from then to else s[i])
  }

  /** cnvXmpGPSVersion: every '.' becomes a space. */
  function XmpGPSVersionText(s: string): (r: string)
    ensures '.' !in r
  {
    ReplaceChar(s, '.', ' ')
  }

  /** GPSVersionID to XMP and back gives the components separated by spaces, the
    * form the Exif value is read from. */
  lemma {:induction false} GPSVersionRoundTrip(numbers: seq<int>)
    ensures XmpGPSVersionText(ExifGPSVersionText(numbers)) == Join(MapIntsToStrings(numbers), " ")
    decreases |numbers|
  {
    if |numbers| >= 2 {
      var head := IntToString(numbers[0]);
      var rest := MapIntsToStrings(numbers[1..]);
      assert MapIntsToStrings(numbers) == [head] + rest;
      assert ([head] + rest)[1..] == rest;
      NoDotInInt(numbers[0]);
      GPSVersionRoundTrip(numbers[1..]);
      ReplaceAppend(head + ".", Join(rest, "."));
      ReplaceAppend(head, ".");
      ReplaceFixed(head);
    } else if |numbers| == 1 {
      NoDotInInt(numbers[0]);
      ReplaceFixed(IntToString(numbers[0]));
    }
  }

  lemma NoDotInInt(n: int)
    ensures '.' !in IntToString(n)
  {
    if n < 0 {
      NatToStringDigits(-n);
      assert IntToString(n) == "-" + NatToString(-n);
    } else {
      NatToStringDigits(n);
    }
  }

  lemma ReplaceAppend(a: string, b: string)
    ensures ReplaceChar(a + b, '.', ' ') == ReplaceChar(a, '.', ' ') + ReplaceChar(b, '.', ' ')
  {
  }

  lemma ReplaceFixed(a: string)
    requires '.' !in a
    ensures ReplaceChar(a, '.', ' ') == a
  {
  }

  /** cnvXmpArray: the components joined with single spaces, none trailing. */
  function XmpArrayText(items: seq<string>): (s: string)
    ensures |items| == 1 ==> s == items[0]
    ensures |items| >= 2 ==> s == items[0] + " " + XmpArrayText(items[1..])
  {
    Join(items, " ")
  }

  // ---- getTextValue -------------------------------------------------------------

  predicate HasLangPrefix(s: string)
  {
    |s| > 5 && s[..5] == "lang="
  }

  /** The text after a leading `lang=...` qualifier: what follows the first space,
    * or nothing when there is no space. */
  function StripLang(s: string): (r: string)
    ensures !HasLangPrefix(s) ==> r == s
    ensures HasLangPrefix(s) && ' ' !in s ==> r == ""
    ensures HasLangPrefix(s) && ' ' in s ==>
      (exists i :: 0 <= i < |s| && s[i] == ' ' && ' ' !in s[..i] && r == s[i + 1..])
  {
    if !HasLangPrefix(s) then s
    else if ' ' !in s then ""
    else var i := FirstSpace(s); s[i + 1..]
  }

  function FirstSpace(s: string): (i: nat)
    requires ' ' in s
    ensures i < |s| && s[i] == ' ' && ' ' !in s[..i]
  {
    if s[0] == ' ' then 0 else 1 + FirstSpace(s[1..])
  }

  /** getTextValue: the success flag and the text. A language alternative gives its
    * x-default entry; without one, its only entry with the qualifier removed, and
    * with several entries it fails. Any other value gives its text. */
  function GetTextValue(d: Datum): (r: (bool, string))
    ensures d.typeId != LangAltValue ==> r == (d.ok, d.text)
    ensures d.typeId == LangAltValue && d.langDefault.Some? ==> r == (true, d.langDefault.value)
    ensures d.typeId == LangAltValue && d.langDefault.None? && Count(d) != 1 ==> !r.0
    ensures d.typeId == LangAltValue && d.langDefault.None? && Count(d) == 1 ==>
      r == (true, StripLang(d.text))
  {
    if d.typeId == LangAltValue then
      if d.langDefault.Some? then (true, d.langDefault.value)
      else if Count(d) == 1 then (true, StripLang(d.text))
      else (false, "")
    else (d.ok, d.text)
  }

  // ---- swapBytes ------------------------------------------------------------------

  /** The string with the two bytes of every pair exchanged. */
  function SwapPairs(s: seq<char>): (r: seq<char>)
    requires |s| % 2 == 0
    ensures |r| == |s|
    ensures forall i :: 0 <= i < |s| / 2 ==> r[2 * i] == s[2 * i + 1] && r[2 * i + 1] == s[2 * i]
  {
    seq(|s|, k requires 0 <= k < |s| => if k % 2 == 0 then s[k + 1] else s[k - 1])
  }

  lemma PairOf(k: nat)
    ensures k == 2 * (k / 2) + k % 2 && (k % 2 == 0 || k % 2 == 1)
  {
  }

  /** Swapping twice restores the string. */
  lemma SwapTwice(s: seq<char>)
    requires |s| % 2 == 0
    ensures SwapPairs(SwapPairs(s)) == s
  {
    var r := SwapPairs(SwapPairs(s));
    forall k | 0 <= k < |s| ensures r[k] == s[k] {
      var i := k / 2;
      assert k == 2 * i || k == 2 * i + 1;
    }
  }

  /** swapBytes: an odd length is refused and the string left alone; otherwise each
    * pair of bytes is exchanged in place. */
  method SwapBytes(str: array<char>) returns (ok: bool)
    modifies str
    ensures ok <==> str.Length % 2 == 0
    ensures !ok ==> str[..] == old(str[..])
    ensures ok ==> str[..] == SwapPairs(old(str[..]))
  {
    if str.Length % 2 == 1 {
      return false;
    }
    ghost var original := str[..];
    var i := 0;
    while i < str.Length / 2
      invariant 0 <= i <= str.Length / 2
      invariant forall k :: 0 <= k < i ==> str[2 * k] == original[2 * k + 1] && str[2 * k + 1] == original[2 * k]
      invariant forall k :: 2 * i <= k < str.Length ==> str[k] == original[k]
    {
      var t := str[2 * i];
      str[2 * i] := str[2 * i + 1];
      str[2 * i + 1] := t;
      i := i + 1;
    }
    ghost var expected := SwapPairs(original);
    forall k | 0 <= k < str.Length ensures str[k] == expected[k] {
      var h := k / 2;
      PairOf(k);
      if k % 2 == 0 {
        assert k == 2 * h && h < i;
        assert str[2 * h] == original[2 * h + 1] && expected[2 * h] == original[2 * h + 1];
      } else {
        assert k == 2 * h + 1 && h < i;
        assert str[2 * h + 1] == original[2 * h] && expected[2 * h + 1] == original[2 * h];
      }
    }
    assert str[..] == expected;
    return true;
  }
}
