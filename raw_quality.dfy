/** The documented meaning of the RAW image handler's quality setting:
  * -1 is the default, any other negative value is a bit field of decoding
  * flags, and 0..100 selects a row of a quality table. Only the mapping is
  * documented; there is no code behind it in the header. */
module RawQuality {

  /** The decoding flags, one field per letter of the documented bit layout. */
  datatype Settings = Settings(
    interpolation: bv4,   // I: 0 linear, 1 VNG, 2 PPG, 3 AHD, 4 DCB, 11 DHT, 12 AAHD
    colorSpace: bv4,      // C: 0 raw, 1 sRGB, 2 Adobe, 3 Wide, 4 ProPhoto, 5 XYZ, ...
    cameraWhite: bool,    // W
    autoWhite: bool,      // A
    sixteenBits: bool,    // B
    halfSize: bool,       // H
    dcbEnhance: bool,     // E
    noiseReduction: bv2,  // N: 0 off, 1 light, 2 full
    fourColors: bool,     // F
    noStretch: bool)      // S

  datatype Mode =
    | EmbeddedPreview(fallback: Settings)
    | Decode(settings: Settings)

  const LINEAR: bv4 := 0
  const AHD: bv4 := 3
  const DHT: bv4 := 11
  const SRGB: bv4 := 1
  const ADOBE: bv4 := 2
  const PROPHOTO: bv4 := 4

  function Bit(b: bool): bv32 { if b then 1 else 0 }

  /** The 32-bit pattern of a flag word: bits 0-3 and 21-30 reserved (zero), bit 31 set. */
  function EncodeBits(s: Settings): (u: bv32)
    ensures u & 0xF == 0
    ensures (u >> 21) & 0x3FF == 0
    ensures u >> 31 == 1
  {
    (1 as bv32 << 31)
    | ((s.interpolation as bv32) << 4)
    | ((s.colorSpace as bv32) << 8)
    | (Bit(s.cameraWhite) << 12)
    | (Bit(s.autoWhite) << 13)
    | (Bit(s.sixteenBits) << 14)
    | (Bit(s.halfSize) << 15)
    | (Bit(s.dcbEnhance) << 16)
    | ((s.noiseReduction as bv32) << 17)
    | (Bit(s.fourColors) << 19)
    | (Bit(s.noStretch) << 20)
  }

  /** Reads the fields of a flag word; the reserved bits are ignored. */
  function DecodeBits(u: bv32): (s: Settings)
    ensures EncodeBits(s) & 0x001F_FFF0 == u & 0x001F_FFF0
  {
    Settings(
      ((u >> 4) & 0xF) as bv4,
      ((u >> 8) & 0xF) as bv4,
      (u >> 12) & 1 == 1,
      (u >> 13) & 1 == 1,
      (u >> 14) & 1 == 1,
      (u >> 15) & 1 == 1,
      (u >> 16) & 1 == 1,
      ((u >> 17) & 3) as bv2,
      (u >> 19) & 1 == 1,
      (u >> 20) & 1 == 1)
  }

  /** The two's complement bit pattern of a 32-bit signed quality value. */
  function AsBits(q: int): bv32
    requires -0x8000_0000 <= q < 0x8000_0000
  {
    if q < 0 then (q + 0x1_0000_0000) as bv32 else q as bv32
  }

  /** The quality value that requests exactly these flags. */
  function Encode(s: Settings): (q: int)
    ensures -0x8000_0000 <= q < -1
  {
    var u := EncodeBits(s);
    EncodeLowBitClear(s);
    EvenPatternRange(u);
    u as int - 0x1_0000_0000
  }

  lemma EncodeLowBitClear(s: Settings)
    ensures EncodeBits(s) & 1 == 0
    ensures EncodeBits(s) & 0x8000_0000 != 0
  {
  }

  /** An even pattern with the sign bit set is the pattern of a negative value other than -1. */
  lemma EvenPatternRange(u: bv32)
    requires u & 1 == 0 && u & 0x8000_0000 != 0
    ensures 0x8000_0000 <= u as int < 0xFFFF_FFFF
    ensures ((u as int - 0x1_0000_0000) + 0x1_0000_0000) as bv32 == u
  {
    assert u != 0xFFFF_FFFF;
    assert u < 0xFFFF_FFFF;
    assert u >= 0x8000_0000;
    assert (u as int - 0x1_0000_0000) + 0x1_0000_0000 == u as int;
  }

  /** Reading the fields of a freshly built flag word gives the fields back. */
  lemma DecodeEncode(s: Settings)
    ensures DecodeBits(EncodeBits(s)) == s
  {
    DecodeEncodeWide(s);
    DecodeEncodeLow(s);
    DecodeEncodeHigh(s);
  }

  lemma DecodeEncodeWide(s: Settings)
    ensures ((EncodeBits(s) >> 4) & 0xF) as bv4 == s.interpolation
    ensures ((EncodeBits(s) >> 8) & 0xF) as bv4 == s.colorSpace
    ensures ((EncodeBits(s) >> 17) & 3) as bv2 == s.noiseReduction
  {
  }

  lemma DecodeEncodeLow(s: Settings)
    ensures ((EncodeBits(s) >> 12) & 1 == 1) == s.cameraWhite
    ensures ((EncodeBits(s) >> 13) & 1 == 1) == s.autoWhite
    ensures ((EncodeBits(s) >> 14) & 1 == 1) == s.sixteenBits
    ensures ((EncodeBits(s) >> 15) & 1 == 1) == s.halfSize
  {
  }

  lemma DecodeEncodeHigh(s: Settings)
    ensures ((EncodeBits(s) >> 16) & 1 == 1) == s.dcbEnhance
    ensures ((EncodeBits(s) >> 19) & 1 == 1) == s.fourColors
    ensures ((EncodeBits(s) >> 20) & 1 == 1) == s.noStretch
  {
  }

  const TableRow1 := Settings(LINEAR, SRGB, true, true, false, true, false, 0, false, false)

  /** The documented quality table, for quality >= 1; the fields the table does not
    * mention (E, N, F, S) are off. */
  function TableRow(q: int): (s: Settings)
    requires q >= 1
    ensures s.cameraWhite && s.autoWhite
  {
    var (i, c, b, h) :=
      if q < 10 then (LINEAR, SRGB, false, true)
      else if q < 20 then (LINEAR, SRGB, false, false)
      else if q < 30 then (AHD, SRGB, false, false)
      else if q < 40 then (AHD, SRGB, true, false)
      else if q < 50 then (AHD, ADOBE, true, false)
      else if q < 60 then (AHD, PROPHOTO, true, false)
      else if q < 70 then (DHT, SRGB, false, false)
      else if q < 80 then (DHT, SRGB, true, false)
      else if q < 90 then (DHT, ADOBE, true, false)
      else (DHT, PROPHOTO, true, false);
    Settings(i, c, true, true, b, h, false, 0, false, false)
  }

  const DEFAULT_QUALITY := 30

  /** What a 32-bit quality value asks for. */
  function Interpret(q: int): (m: Mode)
    requires -0x8000_0000 <= q < 0x8000_0000
    ensures q == 0 <==> m.EmbeddedPreview?
  {
    if q == -1 then Decode(TableRow(DEFAULT_QUALITY))
    else if q < 0 then Decode(DecodeBits(AsBits(q)))
    else if q == 0 then EmbeddedPreview(TableRow1)
    else Decode(TableRow(q))
  }

  /** Any flag word decodes back to the settings it was built from. */
  lemma EncodeRoundTrip(s: Settings)
    ensures -0x8000_0000 <= Encode(s) < -1
    ensures Interpret(Encode(s)) == Decode(s)
  {
    EncodePattern(s);
    DecodeEncode(s);
  }

  lemma EncodePattern(s: Settings)
    ensures AsBits(Encode(s)) == EncodeBits(s)
  {
    var u := EncodeBits(s);
    EncodeLowBitClear(s);
    EvenPatternRange(u);
  }

  /** Only bits 4-20 are read: the reserved bits and the sign bit do not influence the flags. */
  lemma ReservedBitsIgnored(u: bv32)
    ensures DecodeBits(u) == DecodeBits(u & 0x001F_FFF0)
  {
    assert u & 0x001F_FFF0 == (u & 0x001F_FFF0) & 0x001F_FFF0;
    FlagBitsAgree(u, u & 0x001F_FFF0);
  }

  lemma FlagBitsAgree(a: bv32, b: bv32)
    requires a & 0x001F_FFF0 == b & 0x001F_FFF0
    ensures DecodeBits(a) == DecodeBits(b)
  {
    FlagBitsAgreeWide(a, b);
    FlagBitsAgreeNarrow(a, b);
  }

  lemma FlagBitsAgreeWide(a: bv32, b: bv32)
    requires a & 0x001F_FFF0 == b & 0x001F_FFF0
    ensures (a >> 4) & 0xF == (b >> 4) & 0xF
    ensures (a >> 8) & 0xF == (b >> 8) & 0xF
    ensures (a >> 17) & 3 == (b >> 17) & 3
  {
  }

  lemma FlagBitsAgreeNarrow(a: bv32, b: bv32)
    requires a & 0x001F_FFF0 == b & 0x001F_FFF0
    ensures (a >> 12) & 1 == (b >> 12) & 1 && (a >> 13) & 1 == (b >> 13) & 1
    ensures (a >> 14) & 1 == (b >> 14) & 1 && (a >> 15) & 1 == (b >> 15) & 1
    ensures (a >> 16) & 1 == (b >> 16) & 1 && (a >> 19) & 1 == (b >> 19) & 1
    ensures (a >> 20) & 1 == (b >> 20) & 1
  {
  }

  /** -1 selects the table row marked as the default (30-39). */
  lemma DefaultIsRow30(q: int)
    requires 30 <= q < 40
    ensures Interpret(-1) == Interpret(q)
    ensures Interpret(-1).settings.interpolation == AHD
    ensures Interpret(-1).settings.sixteenBits && !Interpret(-1).settings.halfSize
  {
  }

  /** Quality 0 is the embedded preview whose fallback is the half-size row 1-9. */
  lemma PreviewFallsBackToHalfSize(q: int)
    requires 1 <= q < 10
    ensures Interpret(0) == EmbeddedPreview(Interpret(q).settings)
    ensures Interpret(q).settings.halfSize
    ensures Interpret(q + 10).settings == Interpret(q).settings.(halfSize := false)
  {
  }

  /** Rows 20-59 use AHD interpolation, rows from 60 on use DHT; only rows below 20 are linear. */
  lemma InterpolationByRange(q: int)
    requires 1 <= q < 0x8000_0000
    ensures Interpret(q).settings.interpolation ==
      (if q < 20 then LINEAR else if q < 60 then AHD else DHT)
  {
  }

  /** Colour space and bit depth within each AHD and DHT block follow the same pattern. */
  lemma DecadePattern(q: int)
    requires 20 <= q < 60
    ensures Interpret(q + 40).settings.colorSpace == Interpret(q).settings.colorSpace
    ensures Interpret(q + 40).settings.sixteenBits == Interpret(q).settings.sixteenBits
  {
  }

  datatype WhiteBalance = CameraWhiteBalance | AutoWhiteBalance | NoWhiteBalance

  /** W wins when the camera recorded a white balance; otherwise A applies. */
  function EffectiveWhiteBalance(s: Settings, cameraBalanceFound: bool): (w: WhiteBalance)
    ensures s.cameraWhite && s.autoWhite ==>
      w == (if cameraBalanceFound then CameraWhiteBalance else AutoWhiteBalance)
    ensures w == CameraWhiteBalance ==> s.cameraWhite && cameraBalanceFound
    ensures w == AutoWhiteBalance ==> s.autoWhite
  {
    if s.cameraWhite && cameraBalanceFound then CameraWhiteBalance
    else if s.autoWhite then AutoWhiteBalance
    else NoWhiteBalance
  }
}
