/** The header accessors of the TGA reader: 16-bit little-endian fields at
  * fixed offsets of the 18-byte header, a validity flag that is the absence
  * of an error message, and a compression query that is fixed. */
module TgaHeader {

  newtype uint8 = x: int | 0 <= x < 256

  /** Byte offsets of the header fields. */
  const X_OFFSET: nat := 8
  const Y_OFFSET: nat := 10
  const WIDTH: nat := 12
  const HEIGHT: nat := 14
  const HEADER_SIZE: nat := 18

  datatype Compression = NoCompression | RleCompression

  /** What a reader holds once its constructor has run: the error message
    * (empty on success) and the raw header bytes. */
  datatype TgaFile = TgaFile(errorMessage: string, header: seq<uint8>)
  {
    ghost predicate Valid() { |header| == HEADER_SIZE }
  }

  /** The two bytes at `at`, least significant first, as an unsigned 16-bit value. */
  function LittleEndianInt(d: seq<uint8>, at: nat): (r: int)
    requires at + 2 <= |d|
    ensures 0 <= r < 65536
    ensures r % 256 == d[at] as int && r / 256 == d[at + 1] as int
  {
    d[at] as int + d[at + 1] as int * 256
  }

  /** The two bytes that store `v` in little-endian order. */
  function LittleEndianBytes(v: int): (b: seq<uint8>)
    requires 0 <= v < 65536
    ensures |b| == 2
  {
    [(v % 256) as uint8, (v / 256) as uint8]
  }

  lemma LittleEndianRoundTrip(v: int, d: seq<uint8>)
    requires 0 <= v < 65536
    requires |d| == 2
    ensures LittleEndianInt(LittleEndianBytes(v), 0) == v
    ensures LittleEndianBytes(LittleEndianInt(d, 0)) == d
  {
  }

  function IsValid(f: TgaFile): (b: bool)
    ensures b <==> f.errorMessage == []
  {
    |f.errorMessage| == 0
  }

  function XOffset(f: TgaFile): (r: int)
    requires f.Valid()
    ensures 0 <= r < 65536
    ensures r == f.header[8] as int + 256 * f.header[9] as int
  {
    LittleEndianInt(f.header, X_OFFSET)
  }

  function YOffset(f: TgaFile): (r: int)
    requires f.Valid()
    ensures 0 <= r < 65536
    ensures r == f.header[10] as int + 256 * f.header[11] as int
  {
    LittleEndianInt(f.header, Y_OFFSET)
  }

  function Width(f: TgaFile): (r: int)
    requires f.Valid()
    ensures 0 <= r < 65536
    ensures r == f.header[12] as int + 256 * f.header[13] as int
  {
    LittleEndianInt(f.header, WIDTH)
  }

  function Height(f: TgaFile): (r: int)
    requires f.Valid()
    ensures 0 <= r < 65536
    ensures r == f.header[14] as int + 256 * f.header[15] as int
  {
    LittleEndianInt(f.header, HEIGHT)
  }

  function Size(f: TgaFile): (wh: (int, int))
    requires f.Valid()
    ensures wh == (Width(f), Height(f))
    ensures 0 <= wh.0 < 65536 && 0 <= wh.1 < 65536
  {
    (Width(f), Height(f))
  }

  /** Only uncompressed files without a colour table are handled. */
  function CompressionOf(f: TgaFile): (c: Compression)
    ensures c == NoCompression
  {
    NoCompression
  }

  /** Stores `v` at a field offset, as a writer of the header would. */
  function SetField(h: seq<uint8>, at: nat, v: int): (r: seq<uint8>)
    requires at + 2 <= |h| && 0 <= v < 65536
    ensures |r| == |h|
  {
    h[..at] + LittleEndianBytes(v) + h[at + 2..]
  }

  /** The four fields occupy disjoint byte pairs inside the header: writing one
    * of them is read back exactly and leaves the other three unchanged. */
  lemma FieldsAreIndependent(f: TgaFile, v: int)
    requires f.Valid() && 0 <= v < 65536
    ensures var g := f.(header := SetField(f.header, WIDTH, v));
      g.Valid() && Width(g) == v && Height(g) == Height(f) &&
      XOffset(g) == XOffset(f) && YOffset(g) == YOffset(f)
    ensures var g := f.(header := SetField(f.header, HEIGHT, v));
      g.Valid() && Height(g) == v && Width(g) == Width(f) &&
      XOffset(g) == XOffset(f) && YOffset(g) == YOffset(f)
    ensures var g := f.(header := SetField(f.header, X_OFFSET, v));
      g.Valid() && XOffset(g) == v && YOffset(g) == YOffset(f) &&
      Width(g) == Width(f) && Height(g) == Height(f)
    ensures var g := f.(header := SetField(f.header, Y_OFFSET, v));
      g.Valid() && YOffset(g) == v && XOffset(g) == XOffset(f) &&
      Width(g) == Width(f) && Height(g) == Height(f)
  {
  }

  /** The size depends on header bytes 12 to 15 only. */
  lemma SizeDependsOnBytes12To15(f: TgaFile, g: TgaFile)
    requires f.Valid() && g.Valid()
    requires f.header[12..16] == g.header[12..16]
    ensures Size(f) == Size(g)
  {
    assert f.header[12] == f.header[12..16][0] && g.header[12] == g.header[12..16][0];
    assert f.header[13] == f.header[12..16][1] && g.header[13] == g.header[12..16][1];
    assert f.header[14] == f.header[12..16][2] && g.header[14] == g.header[12..16][2];
    assert f.header[15] == f.header[12..16][3] && g.header[15] == g.header[12..16][3];
  }
}
