/** The libwmf decoder's own logic: the error texts, the validity and scale
  * bounds fixed by the provider's constructor, the size of the rendered image and
  * the conversion of GD's pixels (7-bit inverted alpha in bits 24-30) into ARGB32.
  * libwmf itself is not part of this model: the results of its calls are
  * parameters. Scale factors are real numbers. */
module WmfPixels {

  /** wmf_error_t. */
  datatype WmfError =
    | ENone | EInsMem | EBadFile | EBadFormat | EEOF | EDeviceError | EGlitch | EAssert | EUserExit

  /** wmfErrorToString: the text of each code: every message is a sentence ending in
    * '.', and "No error." is the message of ENone alone. */
  function ErrorToString(e: WmfError): (s: string)
    ensures s == "No error." <==> e == ENone
  {
    match e
    case ENone => "No error."
    case EInsMem => "An attempt to allocate memory has failed."
    case EBadFile => "Attempt to open an unreadable file, or to read from an unopened file."
    case EBadFormat => "The metafile, if indeed it is a metafile, has been corrupted."
    case EEOF => "An unexpected end-of-file has been reached."
    case EDeviceError => "Device-layer error."
    case EGlitch => "Programmer's error. Sorry."
    case EAssert => "Internally forced error."
    case EUserExit => "The status function has returned non-zero; exit is premature."
  }

  const MAX_IMAGE_DIMENSION: real := 16384.0
  const MIN_IMAGE_DIMENSION: real := 1.0

  function MaxReal(a: real, b: real): real { if a < b then b else a }
  function MinReal(a: real, b: real): real { if b < a then b else a }

  /** What the constructor leaves behind. */
  datatype Provider = Provider(isValid: bool, width: nat, height: nat, minScale: real, maxScale: real)

  /** WmfPixmapProvider(filePath): `bufferValid` says whether the file could be mapped,
    * the four errors are what wmf_api_create, wmf_mem_open, wmf_scan and
    * wmf_display_size returned, and w, h the display size at 72 dpi. */
  function NewProvider(bufferValid: bool, createErr: WmfError, openErr: WmfError,
                       scanErr: WmfError, sizeErr: WmfError, w: nat, h: nat): (p: Provider)
    ensures p.isValid <==> bufferValid && createErr == ENone && openErr == ENone &&
                           scanErr == ENone && sizeErr == ENone && w != 0 && h != 0
    ensures !p.isValid ==> p.minScale == 1.0 && p.maxScale == 1.0
    ensures p.isValid ==> p.width == w && p.height == h
  {
    var failed := Provider(false, 0, 0, 1.0, 1.0);
    if !bufferValid || createErr != ENone || openErr != ENone || scanErr != ENone then failed
    else if sizeErr != ENone || w == 0 || h == 0 then failed.(width := w, height := h)
    else
      Provider(true, w, h,
        MaxReal(MIN_IMAGE_DIMENSION / w as real, MIN_IMAGE_DIMENSION / h as real),
        MinReal(MAX_IMAGE_DIMENSION / w as real, MAX_IMAGE_DIMENSION / h as real))
  }

  /** Any scale factor within the provider's bounds gives an image of at least 1 and
    * at most 16384 units on both sides. */
  lemma ScaleBounds(w0: nat, h0: nat, s: real)
    requires w0 > 0 && h0 > 0
    requires var p := NewProvider(true, ENone, ENone, ENone, ENone, w0, h0);
      p.minScale <= s <= p.maxScale
    ensures 1.0 <= w0 as real * s <= 16384.0
    ensures 1.0 <= h0 as real * s <= 16384.0
  {
    var w, h := w0 as real, h0 as real;
    ScaleFromBelow(w, s);
    ScaleFromBelow(h, s);
    ScaleFromAbove(w, s);
    ScaleFromAbove(h, s);
  }

  lemma ScaleFromBelow(w: real, s: real)
    requires w > 0.0 && s >= 1.0 / w
    ensures w * s >= 1.0
  {
    assert w * s >= w * (1.0 / w);
  }

  lemma ScaleFromAbove(w: real, s: real)
    requires w > 0.0 && s <= 16384.0 / w
    ensures w * s <= 16384.0
  {
    assert w * s <= w * (16384.0 / w);
  }

  /** std::ceil. */
  function Ceil(x: real): (n: int)
    ensures n as real >= x && (n - 1) as real < x
  {
    -((-x).Floor)
  }

  /** The size of the GD image that image(scaleFactor) asks libwmf for. */
  function ScaledSize(p: Provider, s: real): (int, int)
  {
    (Ceil(p.width as real * s), Ceil(p.height as real * s))
  }

  /** Within the scale bounds the image is 1 to 16384 pixels on each side. */
  lemma ScaledSizeBounds(w: nat, h: nat, s: real)
    requires w > 0 && h > 0
    requires var p := NewProvider(true, ENone, ENone, ENone, ENone, w, h);
      p.minScale <= s <= p.maxScale
    ensures var p := NewProvider(true, ENone, ENone, ENone, ENone, w, h);
      1 <= ScaledSize(p, s).0 <= 16384 && 1 <= ScaledSize(p, s).1 <= 16384
  {
    ScaleBounds(w, h, s);
  }

  /** qRgba(r, g, b, a). */
  function Rgba(r: bv32, g: bv32, b: bv32, a: bv32): bv32
    requires r < 256 && g < 256 && b < 256 && a < 256
  {
    (a << 24) | (r << 16) | (g << 8) | b
  }

  /** The loop body of image(): blue, green and red from the low three bytes, alpha from
    * the 7-bit GD alpha in bits 24-30, inverted and doubled. */
  function ToArgb(pixel: bv32): (argb: bv32)
    ensures argb & 0xff_ffff == pixel & 0xff_ffff
  {
    var b := pixel & 0xff;
    var g := (pixel >> 8) & 0xff;
    var r := (pixel >> 16) & 0xff;
    var a := ((pixel >> 23) & 0xfe) ^ 0xff;
    Rgba(r, g, b, a)
  }

  /** GD's alpha: 0 is opaque, 127 transparent. */
  function GdAlpha(pixel: bv32): int
  {
    ((pixel >> 24) & 0x7f) as int
  }

  /** The channels of the result: the low three bytes carried over in place and alpha
    * 255 - 2 * (GD alpha), which is odd, 255 for an opaque GD pixel and 1 for a
    * fully transparent one. */
  lemma ToArgbChannels(pixel: bv32)
    ensures ToArgb(pixel) & 0xff_ffff == pixel & 0xff_ffff
    ensures (ToArgb(pixel) >> 24) as int == 255 - 2 * GdAlpha(pixel)
    ensures (ToArgb(pixel) >> 24) as int % 2 == 1
    ensures GdAlpha(pixel) == 0 ==> ToArgb(pixel) >> 24 == 0xff
    ensures GdAlpha(pixel) == 127 ==> ToArgb(pixel) >> 24 == 1
  {
    var hi := (pixel >> 24) & 0x7f;
    var a := ((pixel >> 23) & 0xfe) ^ 0xff;
    assert (pixel >> 23) & 0xfe == hi << 1;
    assert a == 0xff - (hi << 1);
    assert (hi << 1) as int == 2 * hi as int;
    assert ToArgb(pixel) >> 24 == a;
  }

  /** image(): the GD pixels (ints, taken as their unsigned bit patterns), one per
    * output pixel, converted and stored row after row; the pixel in row i and
    * column j is at i * width + j on both sides. */
  method UnpackImage(gdPixels: seq<bv32>, width: nat, height: nat) returns (image: array<bv32>)
    requires |gdPixels| >= width * height
    ensures image.Length == width * height
    ensures forall k :: 0 <= k < width * height ==> image[k] == ToArgb(gdPixels[k])
  {
    image := new bv32[width * height];
    var k := 0;
    var i := 0;
    while i < height
      invariant 0 <= i <= height && k == i * width
      invariant forall m :: 0 <= m < k ==> image[m] == ToArgb(gdPixels[m])
    {
      RowFits(i, width, height);
      var j := 0;
      while j < width
        invariant 0 <= j <= width && k == i * width + j
        invariant forall m :: 0 <= m < k ==> image[m] == ToArgb(gdPixels[m])
      {
        image[k] := ToArgb(gdPixels[k]);
        k := k + 1;
        j := j + 1;
      }
      NextRow(i, width);
      i := i + 1;
    }
    assert k == width * height;
  }

  lemma RowFits(i: nat, width: nat, height: nat)
    requires i < height
    ensures i * width + width <= width * height
  {
    assert (i + 1) * width <= height * width;
  }

  lemma NextRow(i: nat, width: nat)
    ensures i * width + width == (i + 1) * width
  {
  }
}
