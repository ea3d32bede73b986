/** OpenEXR's zlib wrappers: the worst-case compressed size with saturation
  * at SIZE_MAX, the default compression level, and the mapping from zlib
  * status codes to OpenEXR results. size_t is 64 bits wide. zlib itself
  * (compressBound, compress2, uncompress2) is not part of this model: its
  * results are parameters. */
module ExrCompression {

  const SIZE_MAX: nat := 0xFFFF_FFFF_FFFF_FFFF
  const WORD: nat := 0x1_0000_0000_0000_0000

  /** zlib status codes, as zlib defines them. */
  const Z_OK: int := 0
  const Z_DATA_ERROR: int := -3

  const DEFAULT_ZLIB_COMPRESS_LEVEL: int := 4

  datatype ExrResult = Success | OutOfMemory | CorruptChunk

  function Max(a: nat, b: nat): nat { if a < b then b else a }

  /** exr_compress_max_buffer_size as written: `bound` is compressBound(n), and the
    * product n * 130 wraps modulo 2^64 before the overflow test `extra < n`. */
  function MaxBufferSizeAsWritten(n: nat, bound: nat): (r: nat)
    requires n <= SIZE_MAX && bound <= SIZE_MAX
    ensures r <= SIZE_MAX
  {
    if bound > SIZE_MAX - 9 then SIZE_MAX
    else
      var extra := (n * 130) % WORD;
      if extra < n then SIZE_MAX
      else
        var e := extra / 128;
        if e > SIZE_MAX - 100 then SIZE_MAX else Max(bound + 9, e)
  }

  /** The same computation with an overflow test that catches every wrap of n * 130. */
  function MaxBufferSize(n: nat, bound: nat): (r: nat)
    requires n <= SIZE_MAX && bound <= SIZE_MAX
    ensures r <= SIZE_MAX
    ensures bound > SIZE_MAX - 9 ==> r == SIZE_MAX
    ensures n * 130 > SIZE_MAX ==> r == SIZE_MAX
    ensures n * 130 / 128 > SIZE_MAX - 100 ==> r == SIZE_MAX
    ensures r == SIZE_MAX || (r == Max(bound + 9, n * 130 / 128) && r >= n)
  {
    if bound > SIZE_MAX - 9 then SIZE_MAX
    else if n > SIZE_MAX / 130 then SIZE_MAX
    else
      var e := n * 130 / 128;
      if e > SIZE_MAX - 100 then SIZE_MAX else Max(bound + 9, e)
  }

  /** Without a wrap of n * 130 the two definitions agree. */
  lemma AsWrittenAgreesWithoutWrap(n: nat, bound: nat)
    requires bound <= SIZE_MAX
    requires n * 130 <= SIZE_MAX
    ensures MaxBufferSizeAsWritten(n, bound) == MaxBufferSize(n, bound)
  {
    assert (n * 130) % WORD == n * 130;
  }

  /** Smallest input whose product with 130 wraps to a value that is still >= n. */
  const WRAP_WITNESS: nat := 0x01FC_07F0_1FC0_7F02

  /** For this input n * 130 exceeds SIZE_MAX, yet the as-written computation does not
    * saturate: whatever compressBound returns (short of its own saturation), the result
    * is the wrapped product / 128, or compressBound + 9, instead of SIZE_MAX. */
  lemma AsWrittenMissesWrap(bound: nat)
    requires bound < SIZE_MAX - 9
    ensures WRAP_WITNESS * 130 > SIZE_MAX
    ensures MaxBufferSizeAsWritten(WRAP_WITNESS, bound) < SIZE_MAX
    ensures MaxBufferSize(WRAP_WITNESS, bound) == SIZE_MAX
  {
    var extra := (WRAP_WITNESS * 130) % WORD;
    assert WRAP_WITNESS * 130 == WORD + 0x01FC_07F0_1FC0_7F04;
    assert extra == 0x01FC_07F0_1FC0_7F04;
  }

  /** The level handed to compress2: a negative request takes the library default,
    * and 4 when that is negative too. */
  function CompressLevel(level: int, libraryDefault: int): (r: int)
    ensures r >= 0
    ensures level >= 0 ==> r == level
    ensures level < 0 && libraryDefault >= 0 ==> r == libraryDefault
    ensures level < 0 && libraryDefault < 0 ==> r == DEFAULT_ZLIB_COMPRESS_LEVEL
  {
    if level >= 0 then level
    else if libraryDefault >= 0 then libraryDefault
    else DEFAULT_ZLIB_COMPRESS_LEVEL
  }

  /** A caller-supplied `size_t *actual_out`. */
  class SizeCell {
    var value: nat
    constructor (v: nat)
      ensures value == v
    {
      value := v;
    }
  }

  /** exr_compress_buffer after compress2 returned `status` and `outsz`. */
  method CompressOutcome(status: int, outsz: nat, actualOut: SizeCell?) returns (r: ExrResult)
    modifies actualOut
    ensures r == (if status == Z_OK then Success else OutOfMemory)
    ensures actualOut != null ==>
      actualOut.value == (if status == Z_OK then outsz else old(actualOut.value))
  {
    if status == Z_OK {
      if actualOut != null {
        actualOut.value := outsz;
      }
      return Success;
    }
    return OutOfMemory;
  }

  /** exr_uncompress_buffer after uncompress2 returned `status`, `outsz` and the
    * number of input bytes it consumed. */
  method UncompressOutcome(status: int, outsz: nat, inBytes: nat, consumed: nat, actualOut: SizeCell?)
    returns (r: ExrResult)
    modifies actualOut
    ensures r == Success <==> status == Z_OK && consumed == inBytes
    ensures r == CorruptChunk <==>
      (status == Z_OK && consumed != inBytes) || status == Z_DATA_ERROR
    ensures r == OutOfMemory <==> status != Z_OK && status != Z_DATA_ERROR
    ensures actualOut != null ==>
      actualOut.value == (if status == Z_OK then outsz else old(actualOut.value))
  {
    if status == Z_OK {
      if actualOut != null {
        actualOut.value := outsz;
      }
      if inBytes == consumed {
        return Success;
      }
    }
    if status == Z_OK || status == Z_DATA_ERROR {
      return CorruptChunk;
    }
    return OutOfMemory;
  }
}
