/** DecodeOneValue of LERC's Huffman codec: one symbol is read from a stream of
  * 32-bit words, first through the decode table indexed by the next numBitsLUT
  * bits, and when the table has no entry there, bit by bit through the tree. */
module HuffmanDecode {
  import opened Common
  import opened UnsignedBits
  import opened HuffmanBits
  import opened HuffmanTree

  /** Where the reader stands: the word, the bit within it (from the most significant
    * end) and the bytes left from that word on. */
  datatype Cursor = Cursor(pos: nat, bitPos: int, nBytes: nat)

  /** The caller's promise: the bytes it reports as remaining are in the stream. */
  predicate InBounds(words: seq<u32>, c: Cursor)
  {
    4 * c.pos + c.nBytes <= 4 * |words|
  }

  /** Bits consumed so far, counted from the start of the stream. */
  function Consumed(c: Cursor): int
  {
    32 * c.pos + c.bitPos
  }

  /** Moves the cursor k bits on, stepping to the next word when bit 32 is reached. */
  function Advance(c: Cursor, k: nat): (r: Cursor)
    requires 0 <= c.bitPos < 32 && k <= 32
    requires c.bitPos + k >= 32 ==> c.nBytes >= 4
    ensures 0 <= r.bitPos < 32
    ensures Consumed(r) == Consumed(c) + k
    ensures 4 * r.pos + r.nBytes == 4 * c.pos + c.nBytes
  {
    if c.bitPos + k >= 32 then Cursor(c.pos + 1, c.bitPos + k - 32, c.nBytes - 4)
    else c.(bitPos := c.bitPos + k)
  }

  /** The decoder's tables: entry i gives the code length (negative: no entry) and the
    * symbol for the numBitsLUT-bit window i; codes longer than the table are found in
    * the tree after skipping numBitsToSkip leading zero bits. */
  datatype Tables = Tables(decodeLUT: seq<(int, int)>, numBitsToSkip: nat, root: Option<Node>)

  /** What BuildTreeFromCodes establishes for a table of numBitsLUT bits. */
  predicate ValidTables(t: Tables, numBitsLUT: nat)
  {
    1 <= numBitsLUT <= 32 && |t.decodeLUT| == Pow2(numBitsLUT) &&
    t.numBitsToSkip < 32 &&
    forall i :: 0 <= i < |t.decodeLUT| ==> t.decodeLUT[i].0 <= 32
  }

  /** One bit of word w at bitPos: (w << bitPos) >> 31. */
  function Bit(w: u32, bitPos: nat): (b: nat)
    requires bitPos < 32
    ensures b < 2
  {
    Pow2Word();
    Peek(w, 0, bitPos, 1)
  }

  /** The result of a call: success, the cursor and the `value` out-parameter. */
  datatype Outcome = Outcome(ok: bool, cursor: Cursor, value: int)

  /** The loop that walks the tree from `node`, one bit per step, until a leaf with a
    * non-negative value is reached or the bytes run out. */
  function Walk(words: seq<u32>, node: Node, c: Cursor): (r: Outcome)
    requires 0 <= c.bitPos < 32 && InBounds(words, c)
    ensures 0 <= r.cursor.bitPos < 32 && InBounds(words, r.cursor)
    ensures Consumed(r.cursor) >= Consumed(c)
    ensures r.ok ==> r.value >= 0 && Consumed(r.cursor) > Consumed(c)
    ensures !r.ok ==> r.value == -1
    decreases node
  {
    if c.nBytes < 4 then Outcome(false, c, -1)
    else
      var bit := Bit(words[c.pos], c.bitPos);
      var c' := Advance(c, 1);
      match Child(node, bit)
      case None => Outcome(false, c', -1)
      case Some(child) =>
        if Value(child) >= 0 then Outcome(true, c', Value(child))
        else Walk(words, child, c')
  }

  /** DecodeOneValue(ppSrc, nBytesRemaining, bitPos, numBitsLUT, value); src None is a
    * null source pointer, `value` the out-parameter's value on entry. */
  function Decode(t: Tables, src: Option<seq<u32>>, c: Cursor, numBitsLUT: nat, value: int): (r: Outcome)
    requires ValidTables(t, numBitsLUT)
    requires src.Some? ==> InBounds(src.value, c)
    ensures r.ok ==> src.Some? && InBounds(src.value, r.cursor)
    ensures r.ok ==> 0 <= r.cursor.bitPos < 32 && Consumed(r.cursor) >= Consumed(c)
  {
    if src.None? || c.bitPos < 0 || c.bitPos >= 32 || c.nBytes < 4 then Outcome(false, c, value)
    else
      var words := src.value;
      var crosses := 32 - c.bitPos < numBitsLUT;
      if crosses && c.nBytes < 8 then Outcome(false, c, value)
      else
        var w1 := if crosses then words[c.pos + 1] else 0;
        var idx := Peek(words[c.pos], w1, c.bitPos, numBitsLUT);
        var entry := t.decodeLUT[idx];
        if entry.0 >= 0 then Outcome(true, Advance(c, entry.0), entry.1)
        else if t.root.None? then Outcome(false, c, value)
        else Walk(words, t.root.value, Advance(c, t.numBitsToSkip))
  }

  /** The member function, with its loop over the tree. */
  method DecodeOneValue(t: Tables, src: Option<seq<u32>>, c: Cursor, numBitsLUT: nat, value: int)
    returns (r: Outcome)
    requires ValidTables(t, numBitsLUT)
    requires src.Some? ==> InBounds(src.value, c)
    ensures r == Decode(t, src, c, numBitsLUT, value)
  {
    if src.None? || c.bitPos < 0 || c.bitPos >= 32 || c.nBytes < 4 {
      return Outcome(false, c, value);
    }
    var words := src.value;
    var w0, w1 := words[c.pos], 0;
    if 32 - c.bitPos < numBitsLUT {
      if c.nBytes < 8 {
        return Outcome(false, c, value);
      }
      w1 := words[c.pos + 1];
    }
    var valTmp := Peek(w0, w1, c.bitPos, numBitsLUT);
    var entry := t.decodeLUT[valTmp];
    if entry.0 >= 0 {
      return Outcome(true, Advance(c, entry.0), entry.1);
    }
    if t.root.None? {
      return Outcome(false, c, value);
    }
    var cur := Advance(c, t.numBitsToSkip);
    r := WalkTree(words, t.root.value, cur);
  }

  /** The loop of DecodeOneValue that descends from the root, one bit per step. */
  method WalkTree(words: seq<u32>, root: Node, c: Cursor) returns (r: Outcome)
    requires 0 <= c.bitPos < 32 && InBounds(words, c)
    ensures r == Walk(words, root, c)
  {
    var cur := c;
    var node := root;
    var v := -1;
    while v < 0 && cur.nBytes >= 4
      invariant 0 <= cur.bitPos < 32 && InBounds(words, cur)
      invariant v < 0 ==> v == -1 && Walk(words, node, cur) == Walk(words, root, c)
      invariant v >= 0 ==> Walk(words, root, c) == Outcome(true, cur, v)
      decreases node
    {
      var bit := Bit(words[cur.pos], cur.bitPos);
      cur := Advance(cur, 1);
      var next := Child(node, bit);
      if next.None? {
        return Outcome(false, cur, -1);
      }
      node := next.value;
      if Value(node) >= 0 {
        v := Value(node);
      }
    }
    return Outcome(v >= 0, cur, v);
  }

  /** A null source, a bit position outside [0, 32) or fewer than 4 bytes make the call
    * fail with nothing changed. */
  lemma DecodeRejects(t: Tables, src: Option<seq<u32>>, c: Cursor, numBitsLUT: nat, value: int)
    requires ValidTables(t, numBitsLUT)
    requires src.Some? ==> InBounds(src.value, c)
    ensures (src.None? || c.bitPos < 0 || c.bitPos >= 32 || c.nBytes < 4) ==>
      Decode(t, src, c, numBitsLUT, value) == Outcome(false, c, value)
    ensures src.Some? && 0 <= c.bitPos < 32 && 32 - c.bitPos < numBitsLUT && c.nBytes < 8 ==>
      Decode(t, src, c, numBitsLUT, value) == Outcome(false, c, value)
  {
  }

  /** On a table hit the symbol is the entry's, and exactly the entry's code length in
    * bits is consumed, crossing into the next word (4 bytes fewer) at bit 32. */
  lemma TableHit(t: Tables, words: seq<u32>, c: Cursor, numBitsLUT: nat, value: int)
    requires ValidTables(t, numBitsLUT) && InBounds(words, c)
    requires 0 <= c.bitPos < 32 && c.nBytes >= 4
    requires 32 - c.bitPos < numBitsLUT ==> c.nBytes >= 8
    ensures var w1 := if 32 - c.bitPos < numBitsLUT then words[c.pos + 1] else 0;
      var idx := Peek(words[c.pos], w1, c.bitPos, numBitsLUT);
      var r := Decode(t, Some(words), c, numBitsLUT, value);
      t.decodeLUT[idx].0 >= 0 ==>
        r.ok && r.value == t.decodeLUT[idx].1 &&
        Consumed(r.cursor) == Consumed(c) + t.decodeLUT[idx].0 &&
        r.cursor.nBytes == (if c.bitPos + t.decodeLUT[idx].0 >= 32 then c.nBytes - 4 else c.nBytes)
  {
  }

  /** The bits at c spell `path`: each is read where the walk reads it. */
  predicate Spells(words: seq<u32>, c: Cursor, path: seq<bool>)
    requires 0 <= c.bitPos < 32 && InBounds(words, c)
    decreases |path|
  {
    path == [] ||
    (c.nBytes >= 4 && (Bit(words[c.pos], c.bitPos) == 1) == path[0] &&
     Spells(words, Advance(c, 1), path[1..]))
  }

  /** No internal node on the way strays from value -1, and the leaf at the end has a
    * non-negative symbol: what ComputeCodes builds. */
  predicate InternalOnly(n: Node, path: seq<bool>)
    decreases |path|
  {
    path == [] ||
    (n.Internal? && InternalOnly(if path[0] then n.child1 else n.child0, path[1..]))
  }

  /** Walking the tree over bits that spell the path to a leaf yields that leaf's symbol,
    * with one bit consumed per edge. */
  lemma {:induction false} WalkFollowsPath(words: seq<u32>, node: Node, c: Cursor,
                                            path: seq<bool>, leaf: Node)
    requires 0 <= c.bitPos < 32 && InBounds(words, c)
    requires |path| >= 1 && Spells(words, c, path)
    requires Follow(node, path) == Some(leaf) && leaf.Leaf? && leaf.symbol >= 0
    requires InternalOnly(node, path[..|path| - 1])
    ensures var r := Walk(words, node, c);
      r.ok && r.value == leaf.symbol && Consumed(r.cursor) == Consumed(c) + |path|
    decreases |path|
  {
    var bit := Bit(words[c.pos], c.bitPos);
    var c' := Advance(c, 1);
    assert node.Internal?;
    var child := if path[0] then node.child1 else node.child0;
    assert Child(node, bit) == Some(child);
    if |path| == 1 {
      assert Follow(child, path[1..]) == Some(child);
    } else {
      var rest := path[1..];
      assert rest[..|rest| - 1] == path[..|path| - 1][1..];
      assert child.Internal?;
      WalkFollowsPath(words, child, c', rest, leaf);
    }
  }
}
