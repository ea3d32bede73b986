/** LERC's Huffman bit I/O: codes of 1 to 32 bits packed MSB-first into a
  * stream of 32-bit words, the table and tree lookups of the decoder, the tree
  * nodes and their conversion into a code table. A word of the stream is the
  * unsigned int that memcpy moves; pointers into the stream are word indices. */
module HuffmanBits {
  import opened Common
  import opened UnsignedBits

  /** The bits from bitPos on (counting from the most significant) are zero. */
  predicate TailClear(w: u32, bitPos: nat)
    requires bitPos < 32
  {
    bitPos == 0 || w % Pow2(32 - bitPos) == 0
  }

  /** The words after PushValue has stored `value` with `len` bits at (pos, bitPos). */
  function Push(words: seq<u32>, pos: nat, bitPos: nat, value: u32, len: nat): (r: seq<u32>)
    requires bitPos < 32 && 1 <= len <= 32
    requires pos < |words| && (bitPos + len > 32 ==> pos + 1 < |words|)
    ensures |r| == |words|
  {
    if 32 - bitPos >= len then
      var w := if bitPos == 0 then 0 else words[pos];
      words[pos := Or32(w, Shl(value, 32 - bitPos - len))]
    else
      var carry := bitPos + len - 32;
      words[pos := Or32(words[pos], Shr(value, carry))][pos + 1 := Shl(value, 32 - carry)]
  }

  /** The n-bit window, MSB first, that the decoder takes at bitPos of w0,
    * continued into w1 when it crosses the word boundary. */
  function Peek(w0: u32, w1: u32, bitPos: nat, n: nat): (r: u32)
    requires bitPos < 32 && 1 <= n <= 32
    ensures r < Pow2(n)
  {
    var hi := Shr(Shl(w0, bitPos), 32 - n);
    Pow2Word();
    DivPow2Bound(Shl(w0, bitPos), 32, 32 - n);
    if 32 - bitPos < n then
      var lo := Shr(w1, 64 - bitPos - n);
      DivPow2Bound(w1, 32, 64 - bitPos - n);
      Pow2Monotone(bitPos + n - 32, n);
      OrBound(hi, lo, n);
      Or32(hi, lo)
    else hi
  }

  /** The word after pos, or 0 past the end. */
  function Next(words: seq<u32>, pos: nat): u32
  {
    if pos + 1 < |words| then words[pos + 1] else 0
  }

  lemma ShlExact(x: u32, k: nat)
    requires k <= 32 && x * Pow2(k) < WORD
    ensures Shl(x, k) == x * Pow2(k)
  {
    DivUnique(x * Pow2(k), WORD, 0, x * Pow2(k));
  }

  /** Shifting left by k drops a multiple of 2^(32-k). */
  lemma ShlDropsMultiple(w: u32, y: nat, k: nat)
    requires k <= 32 && w % Pow2(32 - k) == 0 && w + y < WORD
    ensures Shl(w + y, k) == (y * Pow2(k)) % WORD
  {
    assert Pow2(32 - k) * Pow2(k) == WORD by {
      Pow2Add(32 - k, k);
      Pow2Word();
    }
    DropMultiple(w, y, Pow2(k), Pow2(32 - k));
  }

  lemma DropMultiple(w: nat, y: nat, p: nat, m: nat)
    requires p > 0 && m > 0 && m * p == WORD && w % m == 0
    ensures ((w + y) * p) % WORD == (y * p) % WORD
  {
    var q := w / m;
    DivMod(w, m);
    MulAssoc(q, m, p);
    MulDistrib(w, y, p);
    ModAddMultiple(q, y * p, WORD);
  }

  lemma MulDistrib(a: int, b: int, c: int)
    ensures (a + b) * c == a * c + b * c
  {
  }

  lemma ShrExact(x: nat, k: nat, j: nat)
    ensures (x * Pow2(j)) * Pow2(k) / Pow2(k) == x * Pow2(j)
  {
    MulDiv(x * Pow2(j), Pow2(k));
  }

  /** A code that fits its word is read back from bitPos. */
  lemma FitRead(w: u32, b: nat, v: u32, len: nat)
    requires b < 32 && 1 <= len <= 32 - b
    requires v < Pow2(len) && w % Pow2(32 - b) == 0
    ensures Shr(Shl(Or32(w, Shl(v, 32 - b - len)), b), 32 - len) == v
  {
    FitPlaced(w, b, v, len);
    FitShifted(w, b, v, len);
  }

  /** The code sits below bit 32 - b, next to the clear tail: or is addition. */
  lemma FitPlaced(w: u32, b: nat, v: u32, len: nat)
    requires b < 32 && 1 <= len <= 32 - b
    requires v < Pow2(len) && w % Pow2(32 - b) == 0
    ensures v * Pow2(32 - b - len) < Pow2(32 - b)
    ensures Or32(w, Shl(v, 32 - b - len)) == w + v * Pow2(32 - b - len)
  {
    var s := 32 - b - len;
    var y := v * Pow2(s);
    assert y < Pow2(32 - b) <= WORD by {
      Pow2Word();
      MulPow2Bound(v, len, s);
      Pow2Monotone(32 - b, 32);
    }
    ShlExact(v, s);
    OrDisjoint(w, y, 32 - b);
  }

  lemma FitShifted(w: u32, b: nat, v: u32, len: nat)
    requires b < 32 && 1 <= len <= 32 - b
    requires v < Pow2(len) && w % Pow2(32 - b) == 0
    requires w + v * Pow2(32 - b - len) < WORD
    ensures Shr(Shl(w + v * Pow2(32 - b - len), b), 32 - len) == v
  {
    var s := 32 - b - len;
    ShlDropsMultiple(w, v * Pow2(s), b);
    assert Pow2(s) * Pow2(b) == Pow2(32 - len) by {
      Pow2Add(s, b);
    }
    assert Pow2(len) * Pow2(32 - len) == WORD by {
      Pow2Add(len, 32 - len);
      Pow2Word();
    }
    ShiftBackDown(v, Pow2(s), Pow2(b), Pow2(32 - len), Pow2(len));
  }

  /** v placed q bits up and then shifted p further is v shifted m = q * p, which stays
    * inside the word and comes back down exactly. */
  lemma ShiftBackDown(v: nat, q: nat, p: nat, m: nat, bound: nat)
    requires q * p == m && m > 0 && v < bound && bound * m == WORD
    ensures ((v * q) * p) % WORD == v * m && (v * m) / m == v
  {
    MulAssoc(v, q, p);
    MulLe(v + 1, bound, m);
    DivUnique(v * m, WORD, 0, v * m);
    MulDiv(v, m);
  }

  /** A code split across two words is read back from bitPos. */
  lemma SplitRead(w: u32, b: nat, v: u32, len: nat)
    requires b < 32 && 32 - b < len <= 32
    requires v < Pow2(len) && w % Pow2(32 - b) == 0
    ensures var c := b + len - 32;
      Or32(Shr(Shl(Or32(w, Shr(v, c)), b), 32 - len), Shr(Shl(v, 32 - c), 64 - b - len)) == v
  {
    var c := b + len - 32;
    SplitFirstWord(w, b, v, len);
    SecondWord(v, c);
    Reassemble(v, c);
  }

  lemma SplitFirstWord(w: u32, b: nat, v: u32, len: nat)
    requires b < 32 && 32 - b < len <= 32
    requires v < Pow2(len) && w % Pow2(32 - b) == 0
    ensures var c := b + len - 32;
      Shr(Shl(Or32(w, Shr(v, c)), b), 32 - len) == (v / Pow2(c)) * Pow2(c)
  {
    var c := b + len - 32;
    var hiPart := Shr(v, c);
    assert hiPart < Pow2(32 - b) by {
      DivPow2Bound(v, len, c);
    }
    var sum := Or32(w, hiPart);
    assert sum == w + hiPart by {
      OrDisjoint(w, hiPart, 32 - b);
    }
    HighPartRead(w, b, c, len, hiPart);
  }

  lemma Reassemble(v: u32, c: nat)
    ensures Or((v / Pow2(c)) * Pow2(c), v % Pow2(c)) == v
  {
    MulDiv(v / Pow2(c), Pow2(c));
    OrDisjoint((v / Pow2(c)) * Pow2(c), v % Pow2(c), c);
    DivMod(v, Pow2(c));
  }

  /** The high part of a split code lands at bits [b, 32) of the first word. */
  lemma HighPartRead(w: u32, b: nat, c: nat, len: nat, hiPart: nat)
    requires b < 32 && c == b + len - 32 && 1 <= c && len <= 32
    requires w % Pow2(32 - b) == 0 && hiPart < Pow2(32 - b) && w + hiPart < WORD
    ensures Shr(Shl(w + hiPart, b), 32 - len) == hiPart * Pow2(c)
  {
    ShlHighPart(w, b, hiPart);
    SplitPower(hiPart, b, c, len);
    MulDiv(hiPart * Pow2(c), Pow2(32 - len));
  }

  /** Shifting the word up by b drops w and moves hiPart to the top. */
  lemma ShlHighPart(w: u32, b: nat, hiPart: nat)
    requires b < 32 && w % Pow2(32 - b) == 0 && hiPart < Pow2(32 - b) && w + hiPart < WORD
    ensures Shl(w + hiPart, b) == hiPart * Pow2(b)
  {
    ShlDropsMultiple(w, hiPart, b);
    MulPow2Bound(hiPart, 32 - b, b);
    assert (32 - b) + b == 32;
    Pow2Word();
    SmallMod(hiPart * Pow2(b), WORD);
  }

  lemma SplitPower(x: nat, b: nat, c: nat, len: nat)
    requires c == b + len - 32 && len <= 32
    ensures x * Pow2(b) == (x * Pow2(c)) * Pow2(32 - len)
  {
    assert c + (32 - len) == b;
    Pow2Add(c, 32 - len);
    MulAssoc(x, Pow2(c), Pow2(32 - len));
  }

  lemma SmallMod(y: int, m: int)
    requires 0 <= y < m
    ensures y % m == y
  {
  }

  /** The low part of a split code lands at the top of the second word. */
  lemma SecondWord(v: u32, c: nat)
    requires 1 <= c < 32
    ensures Shr(Shl(v, 32 - c), 32 - c) == v % Pow2(c)
  {
    Pow2Word();
    Pow2Add(c, 32 - c);
    LowPartShifted(v, Pow2(c), Pow2(32 - c));
    MulDiv(v % Pow2(c), Pow2(32 - c));
  }

  /** With p * m == 2^32, multiplying by m and wrapping keeps v % p, moved up. */
  lemma LowPartShifted(v: nat, p: nat, m: nat)
    requires p > 0 && m > 0 && p * m == WORD
    ensures (v * m) % WORD == (v % p) * m
  {
    var hiPart, loPart := v / p, v % p;
    DivMod(v, p);
    assert v * m == hiPart * WORD + loPart * m by {
      MulDistrib(hiPart * p, loPart, m);
      MulAssoc(hiPart, p, m);
    }
    ModAddMultiple(hiPart, loPart * m, WORD);
    assert loPart * m < WORD by {
      MulLe(loPart + 1, p, m);
    }
    DivUnique(loPart * m, WORD, 0, loPart * m);
  }

  /** Reading back `len` bits where PushValue wrote them yields the value, provided
    * the bits from bitPos on were still clear. */
  lemma PushRoundTrip(words: seq<u32>, pos: nat, bitPos: nat, value: u32, len: nat)
    requires bitPos < 32 && 1 <= len <= 32
    requires pos < |words| && (bitPos + len > 32 ==> pos + 1 < |words|)
    requires value < Pow2(len) && TailClear(words[pos], bitPos)
    ensures var r := Push(words, pos, bitPos, value, len);
      Peek(r[pos], Next(r, pos), bitPos, len) == value
  {
    if 32 - bitPos >= len {
      var w := if bitPos == 0 then 0 else words[pos];
      assert w % Pow2(32 - bitPos) == 0 by {
        if bitPos == 0 {
          assert w == 0;
        }
      }
      FitRead(w, bitPos, value, len);
    } else {
      SplitRead(words[pos], bitPos, value, len);
    }
  }

  /** The bits of the current word in front of bitPos survive the push. */
  lemma PushKeepsEarlierBits(words: seq<u32>, pos: nat, bitPos: nat, value: u32, len: nat)
    requires bitPos < 32 && 1 <= len <= 32
    requires pos < |words| && (bitPos + len > 32 ==> pos + 1 < |words|)
    requires value < Pow2(len) && bitPos > 0
    ensures Push(words, pos, bitPos, value, len)[pos] / Pow2(32 - bitPos) ==
      words[pos] / Pow2(32 - bitPos)
  {
    var w := words[pos];
    if 32 - bitPos >= len {
      var y := Shl(value, 32 - bitPos - len);
      assert y < Pow2(32 - bitPos) by {
        var s := 32 - bitPos - len;
        MulPow2Bound(value, len, s);
        assert value * Pow2(s) < Pow2(32 - bitPos) <= WORD by {
          Pow2Word();
          Pow2Monotone(32 - bitPos, 32);
        }
        ShlExact(value, s);
      }
      OrHigh(w, y, 32 - bitPos);
    } else {
      var c := bitPos + len - 32;
      var y := Shr(value, c);
      assert y < Pow2(32 - bitPos) by {
        DivPow2Bound(value, len, c);
      }
      OrHigh(w, y, 32 - bitPos);
    }
  }

  lemma SumOfMultiples(a: nat, b: nat, d: nat)
    requires d > 0 && a % d == 0 && b % d == 0
    ensures (a + b) % d == 0
  {
    DivMod(a, d);
    DivMod(b, d);
    assert a + b == (a / d + b / d) * d;
    MulDiv(a / d + b / d, d);
  }

  /** The cursor after a push and the word it points into are ready for the next push:
    * the bits from the new bitPos on are clear. */
  lemma PushLeavesTailClear(words: seq<u32>, pos: nat, bitPos: nat, value: u32, len: nat)
    requires bitPos < 32 && 1 <= len <= 32
    requires pos < |words| && (bitPos + len > 32 ==> pos + 1 < |words|)
    requires value < Pow2(len) && TailClear(words[pos], bitPos)
    ensures bitPos + len < 32 ==>
      TailClear(Push(words, pos, bitPos, value, len)[pos], bitPos + len)
    ensures bitPos + len > 32 ==>
      TailClear(Push(words, pos, bitPos, value, len)[pos + 1], bitPos + len - 32)
  {
    var r := Push(words, pos, bitPos, value, len);
    if bitPos + len < 32 {
      var w := if bitPos == 0 then 0 else words[pos];
      assert w % Pow2(32 - bitPos) == 0 by {
        if bitPos == 0 {
          assert w == 0;
        }
      }
      assert r[pos] == Or32(w, Shl(value, 32 - bitPos - len));
      FitTailClear(w, bitPos, value, len);
    } else if bitPos + len > 32 {
      var c := bitPos + len - 32;
      assert r[pos + 1] == Shl(value, 32 - c);
      SplitTailClear(value, c);
    }
  }

  lemma FitTailClear(w: u32, b: nat, v: u32, len: nat)
    requires b < 32 && 1 <= len < 32 - b
    requires v < Pow2(len) && w % Pow2(32 - b) == 0
    ensures Or32(w, Shl(v, 32 - b - len)) % Pow2(32 - b - len) == 0
  {
    var s := 32 - b - len;
    var y := v * Pow2(s);
    var sum := Or32(w, Shl(v, s));
    assert sum == w + y by {
      FitPlaced(w, b, v, len);
    }
    assert w % Pow2(s) == 0 by {
      MultipleOfSmallerPow2(w, s, 32 - b);
    }
    assert y % Pow2(s) == 0 by {
      MulDiv(v, Pow2(s));
    }
    SumOfMultiples(w, y, Pow2(s));
  }

  lemma SplitTailClear(v: u32, c: nat)
    requires 1 <= c < 32
    ensures Shl(v, 32 - c) % Pow2(32 - c) == 0
  {
    assert Shl(v, 32 - c) == (v % Pow2(c)) * Pow2(32 - c) by {
      Pow2Word();
      Pow2Add(c, 32 - c);
      LowPartShifted(v, Pow2(c), Pow2(32 - c));
    }
    MulDiv(v % Pow2(c), Pow2(32 - c));
  }

  /** PushValue: stores the `len` low bits of `value` at word pos, bit bitPos (counted
    * from the most significant end) of buf, and returns the advanced cursor. */
  method PushValue(buf: array?<u32>, pos: nat, bitPos: int, value: u32, len: int)
    returns (ok: bool, newPos: nat, newBitPos: int)
    requires buf != null && 0 <= bitPos < 32 && 1 <= len <= 32 ==>
      pos < buf.Length && (bitPos + len > 32 ==> pos + 1 < buf.Length)
    modifies buf
    ensures ok <==> buf != null && 0 <= bitPos < 32 && 1 <= len <= 32
    ensures !ok ==> newPos == pos && newBitPos == bitPos
    ensures !ok && buf != null ==> buf[..] == old(buf[..])
    ensures ok ==> buf[..] == Push(old(buf[..]), pos, bitPos, value, len)
    ensures ok ==> newBitPos == (bitPos + len) % 32
    ensures ok ==> newPos == pos + (if bitPos + len >= 32 then 1 else 0)
  {
    ok := buf != null && 0 <= bitPos < 32 && 1 <= len <= 32;
    newPos, newBitPos := pos, bitPos;
    if !ok {
      return;
    }
    if 32 - bitPos >= len {
      StoreWithin(buf, pos, bitPos, value, len);
      newBitPos := bitPos + len;
      if newBitPos == 32 {
        newPos, newBitPos := pos + 1, 0;
      }
      assert newBitPos == (bitPos + len) % 32;
    } else {
      StoreAcross(buf, pos, bitPos, value, len);
      newPos, newBitPos := pos + 1, bitPos + len - 32;
      assert newBitPos == (bitPos + len) % 32;
    }
  }

  /** The branch of PushValue where the code fits in word pos; a fresh word
    * (bitPos 0) is cleared first. */
  method StoreWithin(buf: array<u32>, pos: nat, bitPos: nat, value: u32, len: nat)
    requires bitPos < 32 && 1 <= len <= 32 && 32 - bitPos >= len && pos < buf.Length
    modifies buf
    ensures buf[..] == Push(old(buf[..]), pos, bitPos, value, len)
  {
    if bitPos == 0 {
      buf[pos] := 0;
    }
    var temp := buf[pos];
    temp := Or32(temp, Shl(value, 32 - bitPos - len));
    buf[pos] := temp;
  }

  /** The branch of PushValue where the code crosses into word pos + 1: the high bits
    * are or-ed into word pos and the low bits overwrite word pos + 1. */
  method StoreAcross(buf: array<u32>, pos: nat, bitPos: nat, value: u32, len: nat)
    requires bitPos < 32 && 1 <= len <= 32 && 32 - bitPos < len && pos + 1 < buf.Length
    modifies buf
    ensures buf[..] == Push(old(buf[..]), pos, bitPos, value, len)
  {
    var carry := bitPos + len - 32;
    var temp := buf[pos];
    temp := Or32(temp, Shr(value, carry));
    buf[pos] := temp;
    buf[pos + 1] := Shl(value, 32 - carry);
  }
}
