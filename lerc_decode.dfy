/** The LERC decoder plug-in around lerc_decode: the error texts, the sizes of the
  * value and mask buffers handed to the library, where each output pixel's channels
  * are read from for each band/dimension layout, the mask-to-alpha rule, and the
  * data-type dispatch. The LERC library is not part of this model: what
  * lerc_getBlobInfo and lerc_decode report and fill in are parameters, and so is
  * the conversion of a scaled sample to a byte. */
module LercDecode {
  import opened Common
  import opened UnsignedBits

  /** GetErrorStrng. */
  function ErrorString(code: int): (s: string)
    ensures 0 <= code <= 4 <==> s != "Unknown"
  {
    if code == 0 then "Ok"
    else if code == 1 then "Failed"
    else if code == 2 then "WrongParam"
    else if code == 3 then "BufferTooSmall"
    else if code == 4 then "NaN"
    else "Unknown"
  }

  /** The entries of the info array this decoder reads. */
  datatype BlobInfo = BlobInfo(dataType: nat, nDim: nat, nCols: nat, nRows: nat,
                               nBands: nat, nMasks: nat, zMin: real, zMax: real)

  /** Pixels of the output image. */
  function PixelCount(info: BlobInfo): nat
  {
    info.nCols * info.nRows
  }

  /** Entries of the value buffer: one per dimension, band and pixel. */
  function ValueBufferSize(info: BlobInfo): nat
  {
    info.nDim * info.nBands * PixelCount(info)
  }

  /** Bytes of the mask buffer: at least one mask of one byte per pixel. */
  function MaskBufferSize(info: BlobInfo): nat
  {
    (if info.nMasks < 1 then 1 else info.nMasks) * PixelCount(info)
  }

  /** The three branches of decodeLercBlob. */
  datatype Layout = Planar | Interleaved | GrayLayout

  function LayoutOf(info: BlobInfo): (l: Layout)
    ensures l == Planar <==> info.nBands == 3 && info.nDim == 1
    ensures l == Interleaved <==> info.nBands == 1 && info.nDim == 3
  {
    if info.nBands == 3 && info.nDim == 1 then Planar
    else if info.nBands == 1 && info.nDim == 3 then Interleaved
    else GrayLayout
  }

  /** Where channel k (0 red, 1 green, 2 blue) of pixel pos is read: band k of the
    * planar layout starts after k whole images, the interleaved layout keeps the three
    * values of a pixel together, and grey reads the first value of each pixel. */
  function ChannelIndex(info: BlobInfo, pos: nat, k: nat): nat
    requires k < 3
  {
    match LayoutOf(info)
    case Planar => pos + k * PixelCount(info)
    case Interleaved => pos * info.nDim + k
    case GrayLayout => pos * info.nDim
  }

  /** Every index read lies inside the value buffer once lerc_decode has accepted
    * at least one dimension and one band. */
  lemma ChannelIndexInBounds(info: BlobInfo, pos: nat, k: nat)
    requires k < 3 && pos < PixelCount(info)
    requires info.nDim >= 1 && info.nBands >= 1
    ensures ChannelIndex(info, pos, k) < ValueBufferSize(info)
  {
    var n := PixelCount(info);
    match LayoutOf(info)
    case Planar => PlanarInBounds(pos, k, n);
    case Interleaved => InterleavedInBounds(pos, k, n);
    case GrayLayout => GrayInBounds(pos, info.nDim, info.nBands, n);
  }

  lemma PlanarInBounds(pos: nat, k: nat, n: nat)
    requires pos < n && k < 3
    ensures pos + k * n < 1 * 3 * n
  {
    MulLe(k, 2, n);
  }

  lemma InterleavedInBounds(pos: nat, k: nat, n: nat)
    requires pos < n && k < 3
    ensures pos * 3 + k < 3 * 1 * n
  {
    MulLe(pos + 1, n, 3);
  }

  lemma GrayInBounds(pos: nat, d: nat, b: nat, n: nat)
    requires pos < n && d >= 1 && b >= 1
    ensures pos * d < d * b * n
  {
    MulLe(pos + 1, n, d);
    MulLe(1, b, d * n);
    MulAssoc(d, b, n);
  }

  /** The three values of pixel pos lie in three different bands in the planar layout
    * and in three consecutive entries in the interleaved one. */
  lemma ChannelIndexLayout(info: BlobInfo, pos: nat)
    ensures LayoutOf(info) == Planar ==>
      ChannelIndex(info, pos, 1) == ChannelIndex(info, pos, 0) + PixelCount(info) &&
      ChannelIndex(info, pos, 2) == ChannelIndex(info, pos, 1) + PixelCount(info)
    ensures LayoutOf(info) == Interleaved ==>
      ChannelIndex(info, pos, 0) == 3 * pos &&
      ChannelIndex(info, pos, 1) == 3 * pos + 1 && ChannelIndex(info, pos, 2) == 3 * pos + 2
    ensures LayoutOf(info) == GrayLayout ==>
      ChannelIndex(info, pos, 0) == ChannelIndex(info, pos, 1) == ChannelIndex(info, pos, 2)
  {
  }

  /** The alpha of pixel pos: 255 minus its mask byte when the branch uses the mask,
    * opaque otherwise. The RGB branches use it only for a single shared mask, the
    * grey branch for any non-zero mask count. */
  function Alpha(info: BlobInfo, mask: seq<int>, pos: nat): (a: int)
    requires pos < |mask| && forall p :: 0 <= p < |mask| ==> 0 <= mask[p] <= 255
    ensures 0 <= a <= 255
    ensures (if LayoutOf(info) == GrayLayout then info.nMasks != 0 else info.nMasks == 1)
      ==> a == 255 - mask[pos]
    ensures (if LayoutOf(info) == GrayLayout then info.nMasks == 0 else info.nMasks != 1)
      ==> a == 255
  {
    var useMask := if LayoutOf(info) == GrayLayout then info.nMasks != 0 else info.nMasks == 1;
    255 - (if useMask then mask[pos] else 0)
  }

  datatype Rgba = Rgba(r: int, g: int, b: int, a: int)

  /** The sample (z - zMin) / scale with scale = (zMax - zMin) / 255, which the source
    * then passes to its byte clamp; a zero range is taken as 0. */
  function Scaled(info: BlobInfo, z: real): (v: real)
    ensures info.zMax != info.zMin ==> (z == info.zMin ==> v == 0.0) && (z == info.zMax ==> v == 255.0)
  {
    var scale := (info.zMax - info.zMin) / 255.0;
    if scale == 0.0 then 0.0
    else
      assert info.zMax - info.zMin == scale * 255.0;
      (z - info.zMin) / scale
  }

  /** The pixel decodeLercBlob writes for pixel pos; `toByte` is the byte clamp. */
  function PixelAt(info: BlobInfo, zImg: seq<real>, mask: seq<int>, toByte: real -> int,
                   pos: nat): (p: Rgba)
    requires info.nDim >= 1 && info.nBands >= 1 && pos < PixelCount(info)
    requires |zImg| == ValueBufferSize(info) && |mask| == MaskBufferSize(info)
    requires forall q :: 0 <= q < |mask| ==> 0 <= mask[q] <= 255
    ensures LayoutOf(info) == GrayLayout ==> p.r == p.g == p.b
    ensures p.a == Alpha(info, mask, pos)
  {
    MaskFits(info, pos);
    ChannelIndexInBounds(info, pos, 0);
    ChannelIndexInBounds(info, pos, 1);
    ChannelIndexInBounds(info, pos, 2);
    Rgba(toByte(Scaled(info, zImg[ChannelIndex(info, pos, 0)])),
         toByte(Scaled(info, zImg[ChannelIndex(info, pos, 1)])),
         toByte(Scaled(info, zImg[ChannelIndex(info, pos, 2)])),
         Alpha(info, mask, pos))
  }

  lemma MaskFits(info: BlobInfo, pos: nat)
    requires pos < PixelCount(info)
    ensures pos < MaskBufferSize(info)
  {
    var m := if info.nMasks < 1 then 1 else info.nMasks;
    MulLe(1, m, PixelCount(info));
  }

  lemma RowFits(j: nat, width: nat, height: nat)
    requires j < height
    ensures j * width + width <= width * height
    ensures (j + 1) * width == j * width + width
  {
    MulLe(j + 1, height, width);
  }

  /** What decoding reports: lerc_decode's status and the buffers it filled. */
  datatype Decoded = Decoded(status: int, zImg: seq<real>, mask: seq<int>)

  predicate WellFormed(info: BlobInfo, d: Decoded)
  {
    d.status == 0 ==>
      info.nDim >= 1 && info.nBands >= 1 &&
      |d.zImg| == ValueBufferSize(info) && |d.mask| == MaskBufferSize(info) &&
      forall q :: 0 <= q < |d.mask| ==> 0 <= d.mask[q] <= 255
  }

  /** decodeLercBlob<T>: no image when QImage cannot be created (`imageFails`: zero or
    * too large a size) or lerc_decode fails; otherwise every pixel, row after row. */
  method DecodeLercBlob(info: BlobInfo, imageFails: bool, d: Decoded, toByte: real -> int)
    returns (result: Option<array<Rgba>>)
    requires WellFormed(info, d)
    requires info.nCols == 0 || info.nRows == 0 ==> imageFails
    ensures result.None? <==> imageFails || d.status != 0
    ensures result.Some? ==>
      fresh(result.value) && result.value.Length == PixelCount(info) &&
      forall pos :: 0 <= pos < result.value.Length ==>
        result.value[pos] == PixelAt(info, d.zImg, d.mask, toByte, pos)
  {
    if imageFails || d.status != 0 {
      return None;
    }
    var width, height := info.nCols, info.nRows;
    var a := new Rgba[width * height];
    var j, k := 0, 0;
    while j < height
      invariant 0 <= j <= height && k == j * width && k <= width * height
      invariant forall pos :: 0 <= pos < k ==> a[pos] == PixelAt(info, d.zImg, d.mask, toByte, pos)
    {
      RowFits(j, width, height);
      DecodeRow(info, d, toByte, a, j);
      j, k := j + 1, k + width;
    }
    assert height * width == width * height;
    return Some(a);
  }

  /** One scanline: pixel pos = j * width + i for each column i. */
  method DecodeRow(info: BlobInfo, d: Decoded, toByte: real -> int, a: array<Rgba>, j: nat)
    requires WellFormed(info, d) && d.status == 0
    requires a.Length == PixelCount(info) && j < info.nRows
    requires forall pos :: 0 <= pos < j * info.nCols ==> a[pos] == PixelAt(info, d.zImg, d.mask, toByte, pos)
    modifies a
    ensures forall pos :: 0 <= pos < (j + 1) * info.nCols ==> a[pos] == PixelAt(info, d.zImg, d.mask, toByte, pos)
  {
    var width := info.nCols;
    RowFits(j, width, info.nRows);
    var line := j * width;
    var i := 0;
    while i < width
      invariant 0 <= i <= width
      invariant forall pos :: 0 <= pos < line + i ==> a[pos] == PixelAt(info, d.zImg, d.mask, toByte, pos)
    {
      var pos := line + i;
      a[pos] := PixelAt(info, d.zImg, d.mask, toByte, pos);
      i := i + 1;
    }
  }

  /** readLercFile once the blob info is read: a failing lerc_getBlobInfo or a data
    * type outside the eight known ones gives no image; each known type decodes the
    * same way (values are modelled as reals whatever their C type). */
  method ReadLercFile(infoStatus: int, info: BlobInfo, imageFails: bool, d: Decoded,
                      toByte: real -> int) returns (result: Option<array<Rgba>>)
    requires WellFormed(info, d)
    requires info.nCols == 0 || info.nRows == 0 ==> imageFails
    ensures infoStatus != 0 || info.dataType > 7 ==> result.None?
    ensures infoStatus == 0 && info.dataType <= 7 ==>
      (result.None? <==> imageFails || d.status != 0)
    ensures result.Some? ==>
      fresh(result.value) && result.value.Length == PixelCount(info) &&
      forall pos :: 0 <= pos < result.value.Length ==>
        result.value[pos] == PixelAt(info, d.zImg, d.mask, toByte, pos)
  {
    if infoStatus != 0 {
      return None;
    }
    if info.dataType > 7 {
      return None;
    }
    result := DecodeLercBlob(info, imageFails, d, toByte);
  }
}
