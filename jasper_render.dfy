/** The JPEG-2000 decoder's rendering of a decoded JasPer image into 8-bit pixels:
  * the sample of each component that covers an output pixel (C division toward
  * zero on the component's grid), the reduction of a prec-bit sample to 8 bits, the
  * grey and RGB renderers and the fallback between them. JasPer itself is not part
  * of this model: a decoded image is a value holding what its accessors return. */
module JasPerRender {
  import opened Common
  import opened UnsignedBits

  /** One image component as jas_image_cmpt* report it; samples[y][x]. */
  datatype Component = Component(width: int, height: int, tlx: int, tly: int,
                                 hs: int, vs: int, prec: int, samples: seq<seq<int>>)
  {
    /** JasPer's guarantees: positive sampling steps, a precision the renderer's
      * left shift by 16 - prec accepts, and samples for every grid point. */
    predicate Valid()
    {
      hs >= 1 && vs >= 1 && 1 <= prec <= 16 && width >= 0 && height >= 0 &&
      |samples| == height && forall y :: 0 <= y < height ==> |samples[y]| == width
    }
  }

  /** A decoded image: its size, its components and what jas_image_getcmptbytype
    * answers for red, green and blue (negative: no such component). */
  datatype Image = Image(width: int, height: int, components: seq<Component>,
                         redIndex: int, greenIndex: int, blueIndex: int)
  {
    predicate Valid()
    {
      (forall k :: 0 <= k < |components| ==> components[k].Valid()) &&
      redIndex < |components| && greenIndex < |components| && blueIndex < |components|
    }
  }

  datatype Rgb = Rgb(r: int, g: int, b: int)

  /** C's integer division of a by a positive b, which truncates toward zero. */
  function TruncDiv(a: int, b: int): (q: int)
    requires b > 0
    ensures a >= 0 ==> 0 <= a - q * b < b
    ensures a < 0 ==> -b < a - q * b <= 0
  {
    if a >= 0 then a / b else -((-a) / b)
  }

  /** Offsets to the left of (or above) the component origin by less than one step
    * land on grid point 0, not on -1 as a floored division would give. */
  lemma TruncDivSmallNegative(a: int, b: int)
    requires b > 0 && -b < a < 0
    ensures TruncDiv(a, b) == 0
  {
    var q := TruncDiv(a, b);
    if q > 0 {
      MulLe(1, q, b);
    } else if q < 0 {
      MulLe(q, -1, b);
    }
  }

  /** std::min(std::max(v, 0), 65535). */
  function Clamp16(v: int): (c: int)
    ensures 0 <= c <= 65535
    ensures 0 <= v <= 65535 ==> c == v
    ensures v < 0 ==> c == 0
    ensures v > 65535 ==> c == 65535
  {
    if v < 0 then 0 else if v > 65535 then 65535 else v
  }

  /** The reduction as written: the sample shifted up to 16 bits, clamped, then
    * divided by 65535 / 255 = 257. */
  function ChannelValueAsWritten(s: int, prec: int): (v: int)
    requires 1 <= prec <= 16
    ensures 0 <= v <= 255
  {
    Clamp16(s * Pow2(16 - prec)) / 257
  }

  /** The reduction that keeps 8-bit samples unchanged: the clamped 16-bit value's
    * high byte. */
  function ChannelValue(s: int, prec: int): (v: int)
    requires 1 <= prec <= 16
    ensures 0 <= v <= 255
  {
    Clamp16(s * Pow2(16 - prec)) / 256
  }

  /** As written, every non-zero 8-bit sample comes out one lower: 255 (white)
    * becomes 254 and 1 becomes 0. */
  lemma AsWrittenDarkensEightBit(s: int)
    requires 1 <= s <= 255
    ensures ChannelValueAsWritten(s, 8) == s - 1
  {
    assert Pow2(8) == 256 by { SmallPowers(); }
    DivUnique(s * 256, 257, s - 1, 257 - s);
  }

  /** Pow2 of the small exponents the lemmas here need. */
  lemma SmallPowers()
    ensures Pow2(8) == 256 && Pow2(0) == 1
  {
  }

  /** The corrected reduction is the identity on 8-bit samples. */
  lemma EightBitUnchanged(s: int)
    requires 0 <= s <= 255
    ensures ChannelValue(s, 8) == s
  {
    SmallPowers();
    DivUnique(s * 256, 256, s, 0);
  }

  /** Negative samples are black, and for every precision of 8 bits or more the
    * largest sample is white. */
  lemma CorrectedEnds(s: int, prec: int)
    requires 1 <= prec <= 16
    ensures s < 0 ==> ChannelValue(s, prec) == 0
    ensures prec >= 8 && s == Pow2(prec) - 1 ==> ChannelValue(s, prec) == 255
  {
    if s < 0 {
      NegativeIsBlack(s, prec);
    }
    if prec >= 8 && s == Pow2(prec) - 1 {
      TopIsWhite(s, prec);
    }
  }

  lemma NegativeIsBlack(s: int, prec: int)
    requires 1 <= prec <= 16 && s < 0
    ensures ChannelValue(s, prec) == 0
  {
    MulLe(s, 0, Pow2(16 - prec));
  }

  lemma TopIsWhite(s: int, prec: int)
    requires 8 <= prec <= 16 && s == Pow2(prec) - 1
    ensures ChannelValue(s, prec) == 255
  {
    var p, step := Pow2(prec), Pow2(16 - prec);
    PrecisionSplit(prec);
    StepAtMostByte(prec);
    TopSample(s, p, step);
  }

  lemma PrecisionSplit(prec: nat)
    requires prec <= 16
    ensures Pow2(prec) * Pow2(16 - prec) == 65536
  {
    Pow2Add(prec, 16 - prec);
    Pow2Add(8, 8);
    SmallPowers();
  }

  lemma StepAtMostByte(prec: nat)
    requires 8 <= prec <= 16
    ensures 1 <= Pow2(16 - prec) <= 256
  {
    Pow2Monotone(16 - prec, 8);
    SmallPowers();
  }

  lemma TopSample(s: int, p: int, step: int)
    requires s == p - 1 && p * step == 65536 && 1 <= step <= 256
    ensures Clamp16(s * step) / 256 == 255
  {
    assert s * step == 65536 - step;
    DivUnique(65536 - step, 256, 255, 256 - step);
  }

  /** The corrected reduction never yields less than the one as written. */
  lemma CorrectedNotDarker(s: int, prec: int)
    requires 1 <= prec <= 16
    ensures ChannelValueAsWritten(s, prec) <= ChannelValue(s, prec)
    ensures ChannelValue(s, prec) <= ChannelValueAsWritten(s, prec) + 1
  {
    var c := Clamp16(s * Pow2(16 - prec));
    var q := c / 257;
    DivMod(c, 257);
    DivMod(c, 256);
    assert q * 256 <= c;
    DivMonotoneLower(c, q);
    assert c / 256 <= q + 1 by {
      assert c < 257 * (q + 1);
      assert 257 * (q + 1) <= 256 * (q + 2) by { assert q <= 255; }
      DivBelow(c, 256, q + 2);
    }
  }

  lemma DivMonotoneLower(c: int, q: int)
    requires 0 <= q && q * 256 <= c
    ensures q <= c / 256
  {
    DivMod(c, 256);
  }

  /** Which reduction to 8 bits the renderers apply: the program's division by 257, or
    * the corrected high byte. */
  datatype Reduction = AsWritten | Corrected

  function Reduce(s: int, prec: int, red: Reduction): int
    requires 1 <= prec <= 16
  {
    if red == AsWritten then ChannelValueAsWritten(s, prec) else ChannelValue(s, prec)
  }

  /** The 8-bit value a component gives output pixel (row i, column j): its sample at
    * grid point ((j - tlx) / hs, (i - tly) / vs) reduced by `red`, or 0 when that
    * point lies outside the component. */
  function ChannelAt(c: Component, i: int, j: int, red: Reduction): (v: int)
    requires c.Valid()
    ensures 0 <= v <= 255
  {
    var x := TruncDiv(j - c.tlx, c.hs);
    var y := TruncDiv(i - c.tly, c.vs);
    if 0 <= x < c.width && 0 <= y < c.height then Reduce(c.samples[y][x], c.prec, red)
    else 0
  }

  /** A pixel whose grid point lies outside the component is black in that channel;
    * one inside takes the reduced sample. */
  lemma ChannelAtCases(c: Component, i: int, j: int, red: Reduction)
    requires c.Valid()
    ensures var x := TruncDiv(j - c.tlx, c.hs);
      var y := TruncDiv(i - c.tly, c.vs);
      (x < 0 || x >= c.width || y < 0 || y >= c.height ==> ChannelAt(c, i, j, red) == 0) &&
      (0 <= x < c.width && 0 <= y < c.height ==>
         (red == AsWritten ==> ChannelAt(c, i, j, red) == ChannelValueAsWritten(c.samples[y][x], c.prec)) &&
         (red == Corrected ==> ChannelAt(c, i, j, red) == ChannelValue(c.samples[y][x], c.prec)))
  {
  }

  /** At every pixel the corrected reduction gives the program's value or one more. */
  lemma ChannelAtCorrection(c: Component, i: int, j: int)
    requires c.Valid()
    ensures ChannelAt(c, i, j, AsWritten) <= ChannelAt(c, i, j, Corrected) <= ChannelAt(c, i, j, AsWritten) + 1
  {
    var x := TruncDiv(j - c.tlx, c.hs);
    var y := TruncDiv(i - c.tly, c.vs);
    if 0 <= x < c.width && 0 <= y < c.height {
      CorrectedNotDarker(c.samples[y][x], c.prec);
    }
  }

  /** An image with no rows or no columns is a null QImage. */
  predicate Empty(img: Image) { img.width <= 0 || img.height <= 0 }

  /** The pixel the grey renderer writes at row i, column j. */
  function GrayPixel(img: Image, i: int, j: int, red: Reduction): (p: Rgb)
    requires img.Valid() && |img.components| > 0
    ensures p.r == p.g == p.b
  {
    var v := ChannelAt(img.components[0], i, j, red);
    Rgb(v, v, v)
  }

  /** The pixel the RGB renderer writes: channel k from the component of type k. */
  function RgbPixel(img: Image, i: int, j: int, red: Reduction): (p: Rgb)
    requires img.Valid() && img.redIndex >= 0 && img.greenIndex >= 0 && img.blueIndex >= 0
    ensures 0 <= p.r <= 255 && 0 <= p.g <= 255 && 0 <= p.b <= 255
    ensures img.redIndex == img.greenIndex == img.blueIndex ==> p.r == p.g == p.b
  {
    Rgb(ChannelAt(img.components[img.redIndex], i, j, red),
        ChannelAt(img.components[img.greenIndex], i, j, red),
        ChannelAt(img.components[img.blueIndex], i, j, red))
  }

  /** The grey and RGB pixels at flat index m of a row-major image. */
  function GrayAt(img: Image, m: int, red: Reduction): Rgb
    requires img.Valid() && |img.components| > 0 && img.width > 0
  {
    GrayPixel(img, m / img.width, m % img.width, red)
  }

  function RgbAt(img: Image, m: int, red: Reduction): Rgb
    requires img.Valid() && img.redIndex >= 0 && img.greenIndex >= 0 && img.blueIndex >= 0
    requires img.width > 0
  {
    RgbPixel(img, m / img.width, m % img.width, red)
  }

  lemma FlatIndex(i: nat, j: nat, w: nat)
    requires j < w
    ensures (i * w + j) / w == i && (i * w + j) % w == j
  {
    DivUnique(i * w + j, w, i, j);
  }

  lemma RowFits(i: nat, width: nat, height: nat)
    requires i < height
    ensures i * width + width <= width * height
  {
    MulLe(i + 1, height, width);
  }

  /** renderGrayImage: null when the image has no component, no pixels, or QImage
    * cannot allocate width * height pixels (`allocFails`, "Image is too large");
    * otherwise row after row, the pixel at flat index m is row m / width, column
    * m % width. */
  method RenderGray(img: Image, red: Reduction, allocFails: bool) returns (result: Option<array<Rgb>>)
    requires img.Valid()
    ensures result.None? <==> |img.components| == 0 || Empty(img) || allocFails
    ensures result.Some? ==>
      fresh(result.value) && result.value.Length == img.width * img.height &&
      forall m :: 0 <= m < result.value.Length ==>
        result.value[m] == GrayAt(img, m, red)
  {
    if |img.components| == 0 || Empty(img) || allocFails {
      return None;
    }
    var w, h := img.width, img.height;
    var a := new Rgb[w * h];
    var i := 0;
    while i < h
      invariant 0 <= i <= h
      invariant forall m :: 0 <= m < i * w ==> a[m] == GrayAt(img, m, red)
    {
      GrayRow(img, red, a, i);
      i := i + 1;
    }
    return Some(a);
  }

  /** One pass of renderGrayImage's inner loop: the scanline of row i. */
  method GrayRow(img: Image, red: Reduction, a: array<Rgb>, i: nat)
    requires img.Valid() && |img.components| > 0 && !Empty(img)
    requires a.Length == img.width * img.height && i < img.height
    requires forall m :: 0 <= m < i * img.width ==> a[m] == GrayAt(img, m, red)
    modifies a
    ensures forall m :: 0 <= m < (i + 1) * img.width ==> a[m] == GrayAt(img, m, red)
  {
    var w := img.width;
    RowFits(i, w, img.height);
    var j, k := 0, i * w;
    while j < w
      invariant 0 <= j <= w && k == i * w + j
      invariant forall m :: 0 <= m < k ==> a[m] == GrayAt(img, m, red)
    {
      var v := ChannelAt(img.components[0], i, j, red);
      FlatIndex(i, j, w);
      a[k] := Rgb(v, v, v);
      k, j := k + 1, j + 1;
    }
  }

  /** renderRgbImage: null when a red, green or blue component is missing, the image
    * has no pixels or QImage cannot allocate it (`allocFails`); otherwise the RGB
    * pixels row after row. */
  method RenderRgb(img: Image, red: Reduction, allocFails: bool) returns (result: Option<array<Rgb>>)
    requires img.Valid()
    ensures result.None? <==>
      img.redIndex < 0 || img.greenIndex < 0 || img.blueIndex < 0 || Empty(img) || allocFails
    ensures result.Some? ==>
      img.redIndex >= 0 && img.greenIndex >= 0 && img.blueIndex >= 0 &&
      fresh(result.value) && result.value.Length == img.width * img.height &&
      forall m :: 0 <= m < result.value.Length ==>
        result.value[m] == RgbAt(img, m, red)
  {
    var cmptlut := [img.redIndex, img.greenIndex, img.blueIndex];
    if cmptlut[0] < 0 || cmptlut[1] < 0 || cmptlut[2] < 0 || Empty(img) || allocFails {
      return None;
    }
    var w, h := img.width, img.height;
    var a := new Rgb[w * h];
    var i := 0;
    while i < h
      invariant 0 <= i <= h
      invariant forall m :: 0 <= m < i * w ==> a[m] == RgbAt(img, m, red)
    {
      RgbRow(img, red, cmptlut, a, i);
      i := i + 1;
    }
    return Some(a);
  }

  /** One pass of renderRgbImage's inner loop: the scanline of row i, each pixel's
    * three channels read through cmptlut. */
  method RgbRow(img: Image, red: Reduction, cmptlut: seq<int>, a: array<Rgb>, i: nat)
    requires img.Valid() && !Empty(img)
    requires img.redIndex >= 0 && img.greenIndex >= 0 && img.blueIndex >= 0
    requires cmptlut == [img.redIndex, img.greenIndex, img.blueIndex]
    requires a.Length == img.width * img.height && i < img.height
    requires forall m :: 0 <= m < i * img.width ==> a[m] == RgbAt(img, m, red)
    modifies a
    ensures forall m :: 0 <= m < (i + 1) * img.width ==> a[m] == RgbAt(img, m, red)
  {
    var w := img.width;
    RowFits(i, w, img.height);
    var j, k := 0, i * w;
    while j < w
      invariant 0 <= j <= w && k == i * w + j
      invariant forall m :: 0 <= m < k ==> a[m] == RgbAt(img, m, red)
    {
      var v := [0, 0, 0];
      for t := 0 to 3
        invariant |v| == 3
        invariant forall u :: 0 <= u < t ==> v[u] == ChannelAt(img.components[cmptlut[u]], i, j, red)
      {
        v := v[t := ChannelAt(img.components[cmptlut[t]], i, j, red)];
      }
      FlatIndex(i, j, w);
      a[k] := Rgb(v[0], v[1], v[2]);
      k, j := k + 1, j + 1;
    }
  }

  /** readJp2File after decoding (None: jas_image_decode failed): the RGB renderer
    * for a three-component image, and the grey renderer when that was not tried or
    * gave a null image. Both renderers allocate the same width * height image, so
    * `allocFails` stands for both allocations. */
  method RenderDecoded(decoded: Option<Image>, red: Reduction, allocFails: bool) returns (result: Option<array<Rgb>>)
    requires decoded.Some? ==> decoded.value.Valid()
    ensures decoded.None? ==> result.None?
    ensures decoded.Some? ==>
      var img := decoded.value;
      var useRgb := |img.components| == 3 && img.redIndex >= 0 && img.greenIndex >= 0 &&
                    img.blueIndex >= 0 && !Empty(img);
      (result.None? <==> |img.components| == 0 || Empty(img) || allocFails) &&
      (result.Some? ==>
        fresh(result.value) && result.value.Length == img.width * img.height &&
        forall m :: 0 <= m < result.value.Length ==>
          result.value[m] == (if useRgb then RgbAt(img, m, red) else GrayAt(img, m, red)))
  {
    if decoded.None? {
      return None;
    }
    var img := decoded.value;
    result := None;
    if |img.components| == 3 {
      result := RenderRgb(img, red, allocFails);
    }
    if result.None? {
      result := RenderGray(img, red, allocFails);
    }
  }

}
