/** Exiv2's Converter: a table of conversion rules run in order between the Exif (or
  * IPTC) container and the XMP container, the policy deciding when a target that
  * already exists may be replaced, the converters for Flash, ExifVersion,
  * GPSVersionID, XMP arrays and plain values, and syncExifWithXmp's choice of
  * direction. The Exif and XMP containers are maps from key to value (a key is held
  * at most once); the IPTC container is a sequence, as IPTC repeats datasets.
  * Converters this model does not define (dates, GPS coordinates, comments, Exif
  * arrays, IPTC values, the digest) are parameters. */
module ExifConvert {
  import opened Common
  import opened ExifValues

  type Container = map<string, Datum>
  type IptcList = seq<(string, Datum)>

  /** Everything a conversion reads or writes. */
  datatype Store = Store(exif: Container, iptc: IptcList, xmp: Container,
                         erase: bool, overwrite: bool)

  /** prepareExifTarget / prepareXmpTarget: a missing target is fine; an existing one
    * blocks the conversion unless overwriting is allowed (or forced), and is then
    * removed. */
  function PrepareMap(m: Container, to: string, allowed: bool): (r: (bool, Container))
    ensures !r.0 <==> to in m && !allowed
    ensures !r.0 ==> r.1 == m
    ensures r.0 ==> to !in r.1
    ensures forall k :: k != to ==> (k in r.1 <==> k in m)
    ensures forall k :: k in r.1 ==> r.1[k] == m[k]
  {
    if to !in m then (true, m)
    else if !allowed then (false, m)
    else (true, m - {to})
  }

  /** The datasets of an IPTC list other than those with the given key, in order. */
  function RemoveKey(s: IptcList, key: string): (r: IptcList)
    ensures forall e :: e in r <==> e in s && e.0 != key
    ensures |r| <= |s|
  {
    if s == [] then []
    else (if s[0].0 == key then [] else [s[0]]) + RemoveKey(s[1..], key)
  }

  predicate HasKey(s: IptcList, key: string)
  {
    exists i :: 0 <= i < |s| && s[i].0 == key
  }

  /** findKey: the first dataset with the key. */
  function FindKey(s: IptcList, key: string): (i: nat)
    requires HasKey(s, key)
    ensures i < |s| && s[i].0 == key
  {
    if s[0].0 == key then 0
    else
      assert HasKey(s[1..], key) by {
        var j :| 0 <= j < |s| && s[j].0 == key;
        assert s[1..][j - 1] == s[j];
      }
      1 + FindKey(s[1..], key)
  }

  /** Erasing one dataset with the key does not change what is left once all are. */
  lemma EraseOne(s: IptcList, i: nat, key: string)
    requires i < |s| && s[i].0 == key
    ensures RemoveKey(s[..i] + s[i + 1..], key) == RemoveKey(s, key)
  {
    var a, b, x := s[..i], s[i + 1..], s[i];
    assert s == (a + [x]) + b;
    RemoveKeyAppend(a + [x], b, key);
    RemoveKeyAppend(a, [x], key);
    RemoveKeyAppend(a, b, key);
    assert RemoveKey([x], key) == [] by {
      assert [x][1..] == [];
    }
    calc {
      RemoveKey(s, key);
      RemoveKey(a + [x], key) + RemoveKey(b, key);
      (RemoveKey(a, key) + []) + RemoveKey(b, key);
      { assert RemoveKey(a, key) + [] == RemoveKey(a, key); }
      RemoveKey(a + b, key);
    }
  }

  lemma {:induction false} RemoveKeyAppend(a: IptcList, b: IptcList, key: string)
    ensures RemoveKey(a + b, key) == RemoveKey(a, key) + RemoveKey(b, key)
  {
    if a != [] {
      assert (a + b)[1..] == a[1..] + b;
      RemoveKeyAppend(a[1..], b, key);
    } else {
      assert a + b == b;
    }
  }

  /** prepareIptcTarget: like the others, but every dataset with the key goes. */
  function PrepareIptc(s: IptcList, to: string, allowed: bool): (r: (bool, IptcList))
    ensures !r.0 <==> HasKey(s, to) && !allowed
    ensures !r.0 ==> r.1 == s
    ensures r.0 ==> !HasKey(r.1, to)
    ensures r.0 ==> forall e :: e in r.1 <==> e in s && e.0 != to
  {
    if !HasKey(s, to) then
      RemoveAbsent(s, to);
      (true, s)
    else if !allowed then (false, s)
    else
      var r := RemoveKey(s, to);
      assert forall i :: 0 <= i < |r| ==> r[i] in r;
      (true, r)
  }

  lemma {:induction false} RemoveAbsent(s: IptcList, key: string)
    requires !HasKey(s, key)
    ensures RemoveKey(s, key) == s
  {
    if s != [] {
      assert !HasKey(s[1..], key) by {
        forall i | 0 <= i < |s[1..]| ensures s[1..][i].0 != key {
          assert s[1..][i] == s[i + 1];
        }
      }
      RemoveAbsent(s[1..], key);
    }
  }

  /** The converters of the rule table. */
  datatype Kind =
    | ExifValue | ExifComment | ExifArray | ExifDate | ExifVersion | ExifGPSVersion
    | ExifFlash | ExifGPSCoord | IptcValue
    | XmpValue | XmpComment | XmpArray | XmpDate | XmpVersion | XmpGPSVersion
    | XmpFlash | XmpGPSCoord | XmpValueToIptc
    | NoConversion

  /** Converters reading Exif and writing XMP. */
  predicate ToXmpSide(k: Kind)
  {
    k in {ExifValue, ExifVersion, ExifGPSVersion, ExifFlash}
  }

  /** Converters reading XMP and writing Exif. */
  predicate FromXmpSide(k: Kind)
  {
    k in {XmpValue, XmpArray, XmpVersion, XmpGPSVersion, XmpFlash}
  }

  /** What the untouched parts of a step are: the flags, the IPTC list and, unless
    * moving, the source container. */
  predicate SameFlags(s: Store, r: Store)
  {
    r.erase == s.erase && r.overwrite == s.overwrite
  }

  // ---- Exif to XMP ----------------------------------------------------------------

  /** Exif's components as cnvExifVersion and cnvExifGPSVersion read them. */
  function Numbers(d: Datum): (r: seq<int>)
    ensures |r| == Count(d)
  {
    seq(Count(d), i requires 0 <= i < Count(d) => ToInt(d, i))
  }

  /** The shape shared by the Exif-to-XMP converters: nothing happens without the
    * source or when the target may not be replaced; otherwise the target gets the
    * converted value and, when moving, the source goes. */
  function WriteXmp(s: Store, from: string, to: string, value: Datum): (r: Store)
    requires from in s.exif
    ensures SameFlags(s, r) && r.iptc == s.iptc
    ensures r.exif == (if s.erase && (to !in s.xmp || s.overwrite) then s.exif - {from} else s.exif)
  {
    var (ok, x) := PrepareMap(s.xmp, to, s.overwrite);
    if !ok then s
    else s.(xmp := x[to := value], exif := if s.erase then s.exif - {from} else s.exif)
  }

  /** cnvExifValue: the source's text, when it converts. */
  function ExifValueStep(s: Store, from: string, to: string): (r: Store)
    ensures SameFlags(s, r) && r.iptc == s.iptc
  {
    if from !in s.exif || !s.exif[from].ok then s
    else WriteXmp(s, from, to, TextDatum(s.exif[from].text))
  }

  /** cnvExifVersion: one character per component. */
  function ExifVersionStep(s: Store, from: string, to: string): (r: Store)
    ensures SameFlags(s, r) && r.iptc == s.iptc
  {
    if from !in s.exif then s
    else WriteXmp(s, from, to, TextDatum(ExifVersionText(Numbers(s.exif[from]))))
  }

  /** cnvExifGPSVersion: the components joined by dots. */
  function ExifGPSVersionStep(s: Store, from: string, to: string): (r: Store)
    ensures SameFlags(s, r) && r.iptc == s.iptc
  {
    if from !in s.exif then s
    else WriteXmp(s, from, to, TextDatum(ExifGPSVersionText(Numbers(s.exif[from]))))
  }

  const FLASH_KEY: string := "Xmp.exif.Flash"
  const FIRED: string := "/exif:Fired"
  const RETURN: string := "/exif:Return"
  const MODE: string := "/exif:Mode"
  const FUNCTION: string := "/exif:Function"
  const RED_EYE_MODE: string := "/exif:RedEyeMode"

  /** The five parts of a Flash value written under Xmp.exif.Flash. */
  function WriteFlashParts(x: Container, p: FlashParts): (r: Container)
    ensures forall k :: k in r <==> k in x || k in {FLASH_KEY + FIRED, FLASH_KEY + RETURN,
      FLASH_KEY + MODE, FLASH_KEY + FUNCTION, FLASH_KEY + RED_EYE_MODE}
  {
    x[FLASH_KEY + FIRED := BoolDatum(p.fired)]
     [FLASH_KEY + RETURN := NumberDatum(p.ret)]
     [FLASH_KEY + MODE := NumberDatum(p.mode)]
     [FLASH_KEY + FUNCTION := BoolDatum(p.flashFunction)]
     [FLASH_KEY + RED_EYE_MODE := BoolDatum(p.redEyeMode)]
  }

  /** cnvExifFlash: nothing for a missing or empty source or a blocked target; an
    * unreadable source leaves only the target removed; otherwise the five parts. */
  function ExifFlashStep(s: Store, from: string, to: string): (r: Store)
    ensures SameFlags(s, r) && r.iptc == s.iptc
    ensures from !in s.exif || Count(s.exif[from]) == 0 ==> r == s
  {
    if from !in s.exif || Count(s.exif[from]) == 0 then s
    else
      var (ok, x) := PrepareMap(s.xmp, to, s.overwrite);
      var d := s.exif[from];
      if !ok then s
      else if !d.ok then s.(xmp := x)
      else s.(xmp := WriteFlashParts(x, ExifFlashParts(ToUint32(d))),
              exif := if s.erase then s.exif - {from} else s.exif)
  }

  // ---- XMP to Exif ----------------------------------------------------------------

  /** cnvXmpValue: the text value of the source, when getTextValue succeeds; the
    * target is removed first either way. */
  function XmpValueStep(s: Store, from: string, to: string): (r: Store)
    ensures SameFlags(s, r) && r.iptc == s.iptc
  {
    if from !in s.xmp then s
    else
      var (ok, e) := PrepareMap(s.exif, to, s.overwrite);
      var (good, text) := GetTextValue(s.xmp[from]);
      if !ok then s
      else if !good then s.(exif := e)
      else s.(exif := e[to := TextDatum(text)], xmp := if s.erase then s.xmp - {from} else s.xmp)
  }

  /** cnvXmpArray: the target is prepared before the source is looked up; the
    * components joined by spaces, unless one of them does not convert. */
  function XmpArrayStep(s: Store, from: string, to: string): (r: Store)
    ensures SameFlags(s, r) && r.iptc == s.iptc
  {
    var (ok, e) := PrepareMap(s.exif, to, s.overwrite);
    if !ok then s
    else if from !in s.xmp then s.(exif := e)
    else
      var d := s.xmp[from];
      if Count(d) > 0 && !d.ok then s.(exif := e)
      else s.(exif := e[to := TextDatum(XmpArrayText(d.items))],
              xmp := if s.erase then s.xmp - {from} else s.xmp)
  }

  /** cnvXmpVersion: the codes of the first four characters. */
  function XmpVersionStep(s: Store, from: string, to: string): (r: Store)
    ensures SameFlags(s, r) && r.iptc == s.iptc
  {
    if from !in s.xmp then s
    else
      var (ok, e) := PrepareMap(s.exif, to, s.overwrite);
      var d := s.xmp[from];
      var text := XmpVersionText(d.text, d.ok);
      if !ok then s
      else if text.None? then s.(exif := e)
      else s.(exif := e[to := TextDatum(text.value)], xmp := if s.erase then s.xmp - {from} else s.xmp)
  }

  /** cnvXmpGPSVersion: the dots turned into spaces. */
  function XmpGPSVersionStep(s: Store, from: string, to: string): (r: Store)
    ensures SameFlags(s, r) && r.iptc == s.iptc
  {
    if from !in s.xmp then s
    else
      var (ok, e) := PrepareMap(s.exif, to, s.overwrite);
      var d := s.xmp[from];
      if !ok then s
      else if !d.ok then s.(exif := e)
      else s.(exif := e[to := TextDatum(XmpGPSVersionText(d.text))],
              xmp := if s.erase then s.xmp - {from} else s.xmp)
  }

  function Lookup(m: Container, k: string): Option<Datum>
  {
    if k in m then Some(m[k]) else None
  }

  /** cnvXmpFlash: needs the Fired part; rebuilds the value from whichever parts
    * convert. Moving removes only the RedEyeMode part. */
  function XmpFlashStep(s: Store, from: string, to: string): (r: Store)
    ensures SameFlags(s, r) && r.iptc == s.iptc
    ensures forall k :: k != from + RED_EYE_MODE ==> (k in r.xmp <==> k in s.xmp)
  {
    if from + FIRED !in s.xmp then s
    else
      var (ok, e) := PrepareMap(s.exif, to, s.overwrite);
      var value := XmpFlashValue(s.xmp[from + FIRED], Lookup(s.xmp, from + RETURN),
                                 Lookup(s.xmp, from + MODE), Lookup(s.xmp, from + FUNCTION),
                                 Lookup(s.xmp, from + RED_EYE_MODE));
      var red := from + RED_EYE_MODE;
      if !ok then s
      else s.(exif := e[to := NumberDatum(value)],
              xmp := if s.erase && red in s.xmp then s.xmp - {red} else s.xmp)
  }

  // ---- The rule table -------------------------------------------------------------

  datatype MetadataId = MdExif | MdIptc

  /** One rule: the two keys and the converter for each direction. */
  datatype Conversion = Conversion(metadataId: MetadataId, key1: string, key2: string,
                                   toXmp: Kind, fromXmp: Kind)

  /** A converter defined elsewhere, given as a function of its keys and the store. */
  type External = (Kind, string, string, Store) -> Store

  function Step(s: Store, k: Kind, from: string, to: string, other: External): Store
  {
    match k
    case ExifValue => ExifValueStep(s, from, to)
    case ExifVersion => ExifVersionStep(s, from, to)
    case ExifGPSVersion => ExifGPSVersionStep(s, from, to)
    case ExifFlash => ExifFlashStep(s, from, to)
    case XmpValue => XmpValueStep(s, from, to)
    case XmpArray => XmpArrayStep(s, from, to)
    case XmpVersion => XmpVersionStep(s, from, to)
    case XmpGPSVersion => XmpGPSVersionStep(s, from, to)
    case XmpFlash => XmpFlashStep(s, from, to)
    case NoConversion => s
    case _ => other(k, from, to, s)
  }

  /** A rule runs when its side's container is present in this converter. */
  predicate Selected(c: Conversion, hasExif: bool, hasIptc: bool)
  {
    (c.metadataId == MdExif && hasExif) || (c.metadataId == MdIptc && hasIptc)
  }

  /** One rule in the given direction. */
  function ApplyRule(s: Store, c: Conversion, toXmp: bool, hasExif: bool, hasIptc: bool,
                     other: External): (r: Store)
    ensures !Selected(c, hasExif, hasIptc) ==> r == s
  {
    if !Selected(c, hasExif, hasIptc) then s
    else if toXmp then Step(s, c.toXmp, c.key1, c.key2, other)
    else Step(s, c.fromXmp, c.key2, c.key1, other)
  }

  /** cnvToXmp / cnvFromXmp: the rules in table order. */
  function ApplyRules(s: Store, rules: seq<Conversion>, toXmp: bool, hasExif: bool,
                      hasIptc: bool, other: External): Store
  {
    if rules == [] then s
    else ApplyRule(ApplyRules(s, rules[..|rules| - 1], toXmp, hasExif, hasIptc, other),
                   rules[|rules| - 1], toXmp, hasExif, hasIptc, other)
  }

  /** Rules of the other side contribute nothing: an IPTC converter runs no Exif rule. */
  lemma {:induction false} UnselectedRulesSkipped(s: Store, rules: seq<Conversion>, toXmp: bool,
                                                  hasExif: bool, hasIptc: bool, other: External)
    requires forall i :: 0 <= i < |rules| ==> !Selected(rules[i], hasExif, hasIptc)
    ensures ApplyRules(s, rules, toXmp, hasExif, hasIptc, other) == s
  {
    if rules != [] {
      UnselectedRulesSkipped(s, rules[..|rules| - 1], toXmp, hasExif, hasIptc, other);
    }
  }

  /** Running the rules of a longer table continues from the shorter one's result. */
  lemma {:induction false} ApplyRulesAppend(s: Store, a: seq<Conversion>, b: seq<Conversion>,
                                            toXmp: bool, hasExif: bool, hasIptc: bool,
                                            other: External)
    ensures ApplyRules(s, a + b, toXmp, hasExif, hasIptc, other) ==
      ApplyRules(ApplyRules(s, a, toXmp, hasExif, hasIptc, other), b, toXmp, hasExif, hasIptc, other)
    decreases |b|
  {
    if b == [] {
      assert a + b == a;
    } else {
      assert (a + b)[..|a + b| - 1] == a + b[..|b| - 1];
      ApplyRulesAppend(s, a, b[..|b| - 1], toXmp, hasExif, hasIptc, other);
    }
  }

  // ---- Properties of the policy ---------------------------------------------------

  /** Copying never touches the source container: without erase, an Exif-to-XMP
    * step leaves Exif as it was and an XMP-to-Exif step leaves XMP as it was. */
  lemma CopyKeepsSource(s: Store, k: Kind, from: string, to: string, other: External)
    requires !s.erase
    ensures ToXmpSide(k) ==> Step(s, k, from, to, other).exif == s.exif
    ensures FromXmpSide(k) ==> Step(s, k, from, to, other).xmp == s.xmp
  {
  }

  /** Without overwrite, an existing target keeps its value: on the XMP side for the
    * Exif-to-XMP converters and on the Exif side for the XMP-to-Exif ones. */
  lemma NoOverwriteProtectsTarget(s: Store, k: Kind, from: string, to: string, other: External)
    requires !s.overwrite
    ensures ToXmpSide(k) && to in s.xmp ==> Step(s, k, from, to, other).xmp == s.xmp
    ensures FromXmpSide(k) && to in s.exif ==> Step(s, k, from, to, other).exif == s.exif
  {
  }

  /** The Flash value survives the trip to XMP and back: with the Exif source
    * converting to a value below 128, the Exif tag ends up with that value again,
    * whatever the erase and overwrite flags. */
  lemma FlashRoundTripStore(s: Store, from: string)
    requires from in s.exif && Count(s.exif[from]) > 0 && s.exif[from].ok
    requires ToUint32(s.exif[from]) < 128
    ensures var s1 := ExifFlashStep(s, from, FLASH_KEY);
      var s2 := XmpFlashStep(s1, FLASH_KEY, from);
      from in s2.exif && ToUint32(s2.exif[from]) == ToUint32(s.exif[from])
  {
    var v := ToUint32(s.exif[from]);
    var (ok, x) := PrepareMap(s.xmp, FLASH_KEY, s.overwrite);
    if ok {
      FlashPartsReadBack(x, v);
      NumberReadBack(v);
    } else {
      if FLASH_KEY + FIRED in s.xmp {
        assert from in s.exif && !s.overwrite;
      }
    }
  }

  /** The five parts written for a value below 128 rebuild that value. */
  lemma FlashPartsReadBack(x: Container, v: nat)
    requires v < 128
    ensures var m := WriteFlashParts(x, ExifFlashParts(v));
      FLASH_KEY + FIRED in m &&
      XmpFlashValue(m[FLASH_KEY + FIRED], Lookup(m, FLASH_KEY + RETURN), Lookup(m, FLASH_KEY + MODE),
                    Lookup(m, FLASH_KEY + FUNCTION), Lookup(m, FLASH_KEY + RED_EYE_MODE)) == v
  {
    var p := ExifFlashParts(v);
    var m := WriteFlashParts(x, p);
    FlashRoundTrip(v);
    FlashKeysDistinct();
    assert Lookup(m, FLASH_KEY + RETURN) == Some(NumberDatum(p.ret));
    assert Lookup(m, FLASH_KEY + MODE) == Some(NumberDatum(p.mode));
    assert Lookup(m, FLASH_KEY + FUNCTION) == Some(BoolDatum(p.flashFunction));
    assert Lookup(m, FLASH_KEY + RED_EYE_MODE) == Some(BoolDatum(p.redEyeMode));
    assert m[FLASH_KEY + FIRED] == BoolDatum(p.fired);
  }

  lemma FlashKeysDistinct()
    ensures |FLASH_KEY + FIRED| == 25 && |FLASH_KEY + RETURN| == 26 && |FLASH_KEY + MODE| == 24
    ensures |FLASH_KEY + FUNCTION| == 28 && |FLASH_KEY + RED_EYE_MODE| == 30
  {
  }

  lemma NumberReadBack(v: nat)
    requires v < 128
    ensures ToUint32(NumberDatum(v)) == v
  {
  }

  // ---- The converter object -------------------------------------------------------

  /** A Converter between one source container and XMP, with its two flags. */
  class Converter {
    const hasExif: bool
    const hasIptc: bool
    var exif: Container
    var iptc: IptcList
    var xmp: Container
    var erase: bool
    var overwrite: bool

    function State(): Store
      reads this
    {
      Store(exif, iptc, xmp, erase, overwrite)
    }

    /** The Exif/XMP converter: copying, overwriting allowed. */
    constructor ForExif(exifData: Container, xmpData: Container)
      ensures hasExif && !hasIptc
      ensures State() == Store(exifData, [], xmpData, false, true)
    {
      hasExif, hasIptc := true, false;
      exif, iptc, xmp := exifData, [], xmpData;
      erase, overwrite := false, true;
    }

    /** The IPTC/XMP converter. */
    constructor ForIptc(iptcData: IptcList, xmpData: Container)
      ensures !hasExif && hasIptc
      ensures State() == Store(map[], iptcData, xmpData, false, true)
    {
      hasExif, hasIptc := false, true;
      exif, iptc, xmp := map[], iptcData, xmpData;
      erase, overwrite := false, true;
    }

    method SetErase(b: bool)
      modifies this
      ensures State() == old(State()).(erase := b)
    {
      erase := b;
    }

    method SetOverwrite(b: bool)
      modifies this
      ensures State() == old(State()).(overwrite := b)
    {
      overwrite := b;
    }

    method PrepareExifTarget(to: string, force: bool) returns (ok: bool)
      modifies this
      ensures (ok, exif) == PrepareMap(old(exif), to, old(overwrite) || force)
      ensures State() == old(State()).(exif := exif)
    {
      if to !in exif {
        return true;
      }
      if !overwrite && !force {
        return false;
      }
      exif := exif - {to};
      return true;
    }

    method PrepareXmpTarget(to: string, force: bool) returns (ok: bool)
      modifies this
      ensures (ok, xmp) == PrepareMap(old(xmp), to, old(overwrite) || force)
      ensures State() == old(State()).(xmp := xmp)
    {
      if to !in xmp {
        return true;
      }
      if !overwrite && !force {
        return false;
      }
      xmp := xmp - {to};
      return true;
    }

    /** prepareIptcTarget: removes datasets with the key one at a time until none is left. */
    method PrepareIptcTarget(to: string, force: bool) returns (ok: bool)
      modifies this
      ensures (ok, iptc) == PrepareIptc(old(iptc), to, old(overwrite) || force)
      ensures State() == old(State()).(iptc := iptc)
    {
      if !HasKey(iptc, to) {
        RemoveAbsent(iptc, to);
        return true;
      }
      if !overwrite && !force {
        return false;
      }
      var list := iptc;
      ghost var target := RemoveKey(list, to);
      while HasKey(list, to)
        invariant RemoveKey(list, to) == target
        invariant State() == old(State())
        decreases |list|
      {
        var i := FindKey(list, to);
        EraseOne(list, i, to);
        list := list[..i] + list[i + 1..];
      }
      RemoveAbsent(list, to);
      iptc := list;
      return true;
    }

    method CnvExifValue(from: string, to: string)
      modifies this
      ensures State() == ExifValueStep(old(State()), from, to)
    {
      if from !in exif {
        return;
      }
      var d := exif[from];
      if !d.ok {
        return;
      }
      var ok := PrepareXmpTarget(to, false);
      if !ok {
        return;
      }
      xmp := xmp[to := TextDatum(d.text)];
      if erase {
        exif := exif - {from};
      }
    }

    method CnvExifVersion(from: string, to: string)
      modifies this
      ensures State() == ExifVersionStep(old(State()), from, to)
    {
      if from !in exif {
        return;
      }
      var ok := PrepareXmpTarget(to, false);
      if !ok {
        return;
      }
      var value := VersionChars(exif[from]);
      xmp := xmp[to := TextDatum(value)];
      if erase {
        exif := exif - {from};
      }
    }

    method CnvExifGPSVersion(from: string, to: string)
      modifies this
      ensures State() == ExifGPSVersionStep(old(State()), from, to)
    {
      if from !in exif {
        return;
      }
      var ok := PrepareXmpTarget(to, false);
      if !ok {
        return;
      }
      var value := DottedNumbers(exif[from]);
      xmp := xmp[to := TextDatum(value)];
      if erase {
        exif := exif - {from};
      }
    }

    method CnvExifFlash(from: string, to: string)
      modifies this
      ensures State() == ExifFlashStep(old(State()), from, to)
    {
      if from !in exif || Count(exif[from]) == 0 {
        return;
      }
      var ok := PrepareXmpTarget(to, false);
      if !ok {
        return;
      }
      var d := exif[from];
      var value := ToUint32(d);
      if !d.ok {
        return;
      }
      var p := ExifFlashParts(value);
      xmp := xmp[FLASH_KEY + FIRED := BoolDatum(p.fired)];
      xmp := xmp[FLASH_KEY + RETURN := NumberDatum(p.ret)];
      xmp := xmp[FLASH_KEY + MODE := NumberDatum(p.mode)];
      xmp := xmp[FLASH_KEY + FUNCTION := BoolDatum(p.flashFunction)];
      xmp := xmp[FLASH_KEY + RED_EYE_MODE := BoolDatum(p.redEyeMode)];
      if erase {
        exif := exif - {from};
      }
    }

    method CnvXmpValue(from: string, to: string)
      modifies this
      ensures State() == XmpValueStep(old(State()), from, to)
    {
      if from !in xmp {
        return;
      }
      var ok := PrepareExifTarget(to, false);
      if !ok {
        return;
      }
      var (good, value) := GetTextValue(xmp[from]);
      if !good {
        return;
      }
      exif := exif[to := TextDatum(value)];
      if erase {
        xmp := xmp - {from};
      }
    }

    method CnvXmpArray(from: string, to: string)
      modifies this
      ensures State() == XmpArrayStep(old(State()), from, to)
    {
      var ok := PrepareExifTarget(to, false);
      if !ok {
        return;
      }
      if from !in xmp {
        return;
      }
      var d := xmp[from];
      if Count(d) > 0 && !d.ok {
        return;
      }
      var joined := SpaceJoined(d.items);
      exif := exif[to := TextDatum(joined)];
      if erase {
        xmp := xmp - {from};
      }
    }

    method CnvXmpVersion(from: string, to: string)
      modifies this
      ensures State() == XmpVersionStep(old(State()), from, to)
    {
      if from !in xmp {
        return;
      }
      var ok := PrepareExifTarget(to, false);
      if !ok {
        return;
      }
      var d := xmp[from];
      if !d.ok || |d.text| < 4 {
        return;
      }
      var joined := Join(MapIntsToStrings([SignedValue(d.text[0]), SignedValue(d.text[1]),
                                          SignedValue(d.text[2]), SignedValue(d.text[3])]), " ");
      exif := exif[to := TextDatum(joined)];
      if erase {
        xmp := xmp - {from};
      }
    }

    method CnvXmpGPSVersion(from: string, to: string)
      modifies this
      ensures State() == XmpGPSVersionStep(old(State()), from, to)
    {
      if from !in xmp {
        return;
      }
      var ok := PrepareExifTarget(to, false);
      if !ok {
        return;
      }
      var d := xmp[from];
      if !d.ok {
        return;
      }
      var value := d.text;
      value := ReplaceDots(value);
      exif := exif[to := TextDatum(value)];
      if erase {
        xmp := xmp - {from};
      }
    }

    method CnvXmpFlash(from: string, to: string)
      modifies this
      ensures State() == XmpFlashStep(old(State()), from, to)
    {
      if from + FIRED !in xmp {
        return;
      }
      var ok := PrepareExifTarget(to, false);
      if !ok {
        return;
      }
      var red := from + RED_EYE_MODE;
      var value := FlashValueOf(xmp[from + FIRED], Lookup(xmp, from + RETURN), Lookup(xmp, from + MODE),
                                Lookup(xmp, from + FUNCTION), Lookup(xmp, red));
      if red in xmp && erase {
        xmp := xmp - {red};
      }
      exif := exif[to := NumberDatum(value)];
    }

    /** One converter of the table. */
    method Invoke(k: Kind, from: string, to: string, other: External)
      modifies this
      ensures State() == Step(old(State()), k, from, to, other)
    {
      match k {
        case ExifValue => CnvExifValue(from, to);
        case ExifVersion => CnvExifVersion(from, to);
        case ExifGPSVersion => CnvExifGPSVersion(from, to);
        case ExifFlash => CnvExifFlash(from, to);
        case XmpValue => CnvXmpValue(from, to);
        case XmpArray => CnvXmpArray(from, to);
        case XmpVersion => CnvXmpVersion(from, to);
        case XmpGPSVersion => CnvXmpGPSVersion(from, to);
        case XmpFlash => CnvXmpFlash(from, to);
        case NoConversion =>
        case _ =>
          var r := other(k, from, to, State());
          exif, iptc, xmp, erase, overwrite := r.exif, r.iptc, r.xmp, r.erase, r.overwrite;
      }
    }

    /** cnvToXmp (toXmp) and cnvFromXmp: each rule of this converter's side in table
      * order, with its keys swapped when converting from XMP. */
    method Convert(rules: seq<Conversion>, toXmp: bool, other: External)
      modifies this
      ensures State() == ApplyRules(old(State()), rules, toXmp, hasExif, hasIptc, other)
    {
      ghost var start := State();
      for i := 0 to |rules|
        invariant State() == ApplyRules(start, rules[..i], toXmp, hasExif, hasIptc, other)
      {
        var c := rules[i];
        assert rules[..i + 1][..i] == rules[..i];
        if (c.metadataId == MdExif && hasExif) || (c.metadataId == MdIptc && hasIptc) {
          if toXmp {
            Invoke(c.toXmp, c.key1, c.key2, other);
          } else {
            Invoke(c.fromXmp, c.key2, c.key1, other);
          }
        }
      }
      assert rules[..|rules|] == rules;
    }

    /** writeExifDigest: the two digests of the Exif data, as `digest` computes them. */
    method WriteExifDigest(digest: (Store, bool) -> string)
      modifies this
      ensures State() == WithDigests(old(State()), digest)
    {
      var tiff := digest(State(), true);
      var exifDigest := digest(State(), false);
      xmp := xmp[TIFF_DIGEST := TextDatum(tiff)][EXIF_DIGEST := TextDatum(exifDigest)];
    }

    /** syncExifWithXmp: from XMP when both digests are present and still match, to XMP
      * otherwise; overwriting only when both digests are present, never erasing. */
    method SyncExifWithXmp(rules: seq<Conversion>, other: External, digest: (Store, bool) -> string)
      modifies this
      ensures State() == SyncResult(old(State()), rules, hasExif, hasIptc, other, digest)
    {
      if TIFF_DIGEST in xmp && EXIF_DIGEST in xmp {
        if xmp[TIFF_DIGEST].text == digest(State(), true) &&
           xmp[EXIF_DIGEST].text == digest(State(), false) {
          SetOverwrite(true);
          SetErase(false);
          Convert(rules, false, other);
          WriteExifDigest(digest);
          return;
        }
        SetOverwrite(true);
        SetErase(false);
        Convert(rules, true, other);
        WriteExifDigest(digest);
        return;
      }
      SetOverwrite(false);
      SetErase(false);
      Convert(rules, true, other);
      WriteExifDigest(digest);
    }
  }

  /** cnvXmpFlash's accumulation: each part that converts adds its bits. */
  method FlashValueOf(fired: Datum, ret: Option<Datum>, mode: Option<Datum>,
                      flashFunction: Option<Datum>, red: Option<Datum>) returns (value: nat)
    ensures value == XmpFlashValue(fired, ret, mode, flashFunction, red)
  {
    value := Contribution(Some(fired), 1, 0);
    value := value + Contribution(ret, 3, 1);
    value := value + Contribution(mode, 3, 3);
    value := value + Contribution(flashFunction, 1, 5);
    value := value + Contribution(red, 1, 6);
  }

  /** cnvExifVersion's loop: one character per component. */
  method VersionChars(d: Datum) returns (value: string)
    ensures value == ExifVersionText(Numbers(d))
  {
    value := "";
    for i := 0 to Count(d)
      invariant value == ExifVersionText(Numbers(d)[..i])
    {
      value := value + [ByteChar(ToInt(d, i))];
    }
    assert Numbers(d)[..Count(d)] == Numbers(d);
  }

  /** cnvExifGPSVersion's loop: a dot before every component but the first. */
  method DottedNumbers(d: Datum) returns (value: string)
    ensures value == ExifGPSVersionText(Numbers(d))
  {
    value := "";
    var ns := Numbers(d);
    ghost var parts := MapIntsToStrings(ns);
    for i := 0 to |ns|
      invariant value == Join(parts[..i], ".")
    {
      if i > 0 {
        value := value + ".";
      }
      JoinStringsSnoc(parts, i, ".");
      value := value + IntToString(ns[i]);
    }
    assert parts[..|ns|] == parts;
  }

  /** cnvXmpArray's loop: a space after every component but the last. */
  method SpaceJoined(items: seq<string>) returns (joined: string)
    ensures joined == XmpArrayText(items)
  {
    joined := "";
    for i := 0 to |items|
      invariant joined == (if i == 0 then "" else Join(items[..i], " ") + (if i < |items| then " " else ""))
    {
      JoinStringsSnoc(items, i, " ");
      joined := joined + items[i];
      if i != |items| - 1 {
        joined := joined + " ";
      }
    }
    assert items[..|items|] == items;
  }

  /** std::replace(value.begin(), value.end(), '.', ' '). */
  method ReplaceDots(s: string) returns (value: string)
    ensures value == XmpGPSVersionText(s)
  {
    value := s;
    for i := 0 to |value|
      invariant |value| == |s|
      invariant forall k :: 0 <= k < i ==> value[k] == (if s[k] == '.' then ' ' else s[k])
      invariant forall k :: i <= k < |s| ==> value[k] == s[k]
    {
      if value[i] == '.' {
        value := value[i := ' '];
      }
    }
  }

  lemma {:induction false} JoinStringsSnoc(parts: seq<string>, i: nat, sep: string)
    requires i < |parts|
    ensures Join(parts[..i + 1], sep) == Join(parts[..i], sep) + (if i > 0 then sep else "") + parts[i]
  {
    assert parts[..i + 1] == parts[..i] + [parts[i]];
    JoinAppendOne(parts[..i], parts[i], sep);
  }

  lemma {:induction false} JoinAppendOne(p: seq<string>, x: string, sep: string)
    ensures Join(p + [x], sep) == Join(p, sep) + (if |p| > 0 then sep else "") + x
    decreases |p|
  {
    if |p| >= 2 {
      assert (p + [x])[1..] == p[1..] + [x];
      JoinAppendOne(p[1..], x, sep);
    } else if |p| == 1 {
      assert (p + [x])[1..] == [x];
    }
  }

  const TIFF_DIGEST: string := "Xmp.tiff.NativeDigest"
  const EXIF_DIGEST: string := "Xmp.exif.NativeDigest"

  function WithDigests(s: Store, digest: (Store, bool) -> string): (r: Store)
    ensures TIFF_DIGEST in r.xmp && EXIF_DIGEST in r.xmp
    ensures r.exif == s.exif && r.iptc == s.iptc && SameFlags(s, r)
  {
    s.(xmp := s.xmp[TIFF_DIGEST := TextDatum(digest(s, true))][EXIF_DIGEST := TextDatum(digest(s, false))])
  }

  /** Whether syncExifWithXmp takes Exif from XMP: both digests present and matching
    * the current Exif data. */
  predicate XmpIsCurrent(s: Store, digest: (Store, bool) -> string)
  {
    TIFF_DIGEST in s.xmp && EXIF_DIGEST in s.xmp &&
    s.xmp[TIFF_DIGEST].text == digest(s, true) && s.xmp[EXIF_DIGEST].text == digest(s, false)
  }

  /** The store syncExifWithXmp leaves. */
  function SyncResult(s: Store, rules: seq<Conversion>, hasExif: bool, hasIptc: bool,
                      other: External, digest: (Store, bool) -> string): (r: Store)
    ensures TIFF_DIGEST in r.xmp && EXIF_DIGEST in r.xmp
  {
    var both := TIFF_DIGEST in s.xmp && EXIF_DIGEST in s.xmp;
    var start := s.(overwrite := both, erase := false);
    WithDigests(ApplyRules(start, rules, !XmpIsCurrent(s, digest), hasExif, hasIptc, other), digest)
  }

  /** The converters a rule table names for the direction towards XMP: those reading
    * Exif or IPTC and writing XMP, or none. */
  predicate ToXmpColumn(k: Kind)
  {
    k in {ExifValue, ExifComment, ExifArray, ExifDate, ExifVersion, ExifGPSVersion,
          ExifFlash, ExifGPSCoord, IptcValue, NoConversion}
  }

  /** Every rule's converter towards XMP is in that column, as in each entry of
    * Exiv2's table. */
  predicate CopiesToXmp(rules: seq<Conversion>)
  {
    forall i :: 0 <= i < |rules| ==> ToXmpColumn(rules[i].toXmp)
  }

  /** The converters towards XMP that this model takes as a parameter (comments,
    * arrays, dates, GPS coordinates, IPTC values) only read Exif when not erasing,
    * and keep the flags. */
  ghost predicate ExternalsKeepExif(other: External)
  {
    forall k: Kind, from: string, to: string, s: Store ::
      k in {ExifComment, ExifArray, ExifDate, ExifGPSCoord, IptcValue} && !s.erase ==>
        other(k, from, to, s).exif == s.exif && SameFlags(s, other(k, from, to, s))
  }

  /** Running such rules towards XMP without erase leaves the Exif data and the flags
    * as they were. */
  lemma {:induction false} ToXmpKeepsExif(s: Store, rules: seq<Conversion>, hasExif: bool,
                                          hasIptc: bool, other: External)
    requires !s.erase && CopiesToXmp(rules) && ExternalsKeepExif(other)
    ensures var r := ApplyRules(s, rules, true, hasExif, hasIptc, other);
      r.exif == s.exif && SameFlags(s, r)
  {
    if rules != [] {
      var init := rules[..|rules| - 1];
      assert CopiesToXmp(init) by {
        forall i | 0 <= i < |init| ensures ToXmpColumn(init[i].toXmp) {
          assert init[i] == rules[i];
        }
      }
      ToXmpKeepsExif(s, init, hasExif, hasIptc, other);
      var mid := ApplyRules(s, init, true, hasExif, hasIptc, other);
      var c := rules[|rules| - 1];
      CopyKeepsSource(mid, c.toXmp, c.key1, c.key2, other);
    }
  }

  /** When XMP is stale or a digest is missing, syncing copies Exif into XMP: the Exif
    * data is untouched, nothing is erased, and existing XMP values are overwritten
    * only when both digests were present. */
  lemma SyncKeepsExifWhenStale(s: Store, rules: seq<Conversion>, hasExif: bool, hasIptc: bool,
                               other: External, digest: (Store, bool) -> string)
    requires CopiesToXmp(rules) && ExternalsKeepExif(other) && !XmpIsCurrent(s, digest)
    ensures var r := SyncResult(s, rules, hasExif, hasIptc, other, digest);
      r.exif == s.exif && !r.erase && (r.overwrite <==> TIFF_DIGEST in s.xmp && EXIF_DIGEST in s.xmp)
  {
    var both := TIFF_DIGEST in s.xmp && EXIF_DIGEST in s.xmp;
    ToXmpKeepsExif(s.(overwrite := both, erase := false), rules, hasExif, hasIptc, other);
  }
}
