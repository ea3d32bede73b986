/** The Huffman tree of LERC's codec: leaves carry a symbol and minus its count,
  * internal nodes the (32-bit, wrapping) sum of their children's weights and the
  * value -1. TreeToLUT turns the tree into a code table, one entry
  * (code length, code bits) per symbol; FreeTree counts the nodes it releases. */
module HuffmanTree {
  import opened Common
  import opened UnsignedBits

  /** C's int: results outside [-2^31, 2^31) wrap around. */
  function WrapInt32(x: int): (r: int)
    ensures -0x8000_0000 <= r < 0x8000_0000
    ensures -0x8000_0000 <= x < 0x8000_0000 ==> r == x
    ensures (r - x) % 0x1_0000_0000 == 0
  {
    (x + 0x8000_0000) % 0x1_0000_0000 - 0x8000_0000
  }

  /** A node: a leaf has no children, an internal node has both. */
  datatype Node =
    | Leaf(weight: int, symbol: int)
    | Internal(weight: int, child0: Node, child1: Node)

  /** The node's `value` field: the symbol of a leaf, -1 for an internal node. */
  function Value(n: Node): (v: int)
    ensures n.Internal? ==> v == -1
    ensures n.Leaf? ==> v == n.symbol
  {
    match n
    case Leaf(_, s) => s
    case Internal(_, _, _) => -1
  }

  /** The child that bit `b` selects; a leaf's children are null. */
  function Child(n: Node, b: nat): (c: Option<Node>)
    ensures n.Leaf? <==> c.None?
    ensures c.Some? ==> c.value == (if b != 0 then n.child1 else n.child0)
  {
    match n
    case Leaf(_, _) => None
    case Internal(_, c0, c1) => Some(if b != 0 then c1 else c0)
  }

  /** Node(short val, int cnt): a leaf for symbol val. */
  function NewLeaf(val: int, cnt: int): (n: Node)
    ensures n.Leaf? && Value(n) == val
    ensures -0x7FFF_FFFF <= cnt < 0x8000_0000 ==> n.weight == -cnt
  {
    Leaf(WrapInt32(-cnt), val)
  }

  /** Node(Node* c0, Node* c1): an internal node above c0 and c1. */
  function NewInternal(c0: Node, c1: Node): (n: Node)
    ensures n.Internal? && Value(n) == -1 && n.child0 == c0 && n.child1 == c1
    ensures -0x8000_0000 <= c0.weight + c1.weight < 0x8000_0000 ==>
      n.weight == c0.weight + c1.weight
  {
    Internal(WrapInt32(c0.weight + c1.weight), c0, c1)
  }

  /** operator<: nodes are ordered by weight. */
  function Less(a: Node, b: Node): (r: bool)
    ensures r <==> a.weight < b.weight
  {
    a.weight < b.weight
  }

  /** Number of nodes. */
  function Size(n: Node): (r: nat)
    ensures r >= 1
  {
    match n
    case Leaf(_, _) => 1
    case Internal(_, c0, c1) => 1 + Size(c0) + Size(c1)
  }

  /** Number of internal nodes on the longest path from n down: 0 for a leaf. */
  function Height(n: Node): nat
  {
    match n
    case Leaf(_, _) => 0
    case Internal(_, c0, c1) =>
      1 + (if Height(c0) < Height(c1) then Height(c1) else Height(c0))
  }

  /** Number of leaves carrying symbol v. */
  function LeafCount(n: Node, v: int): nat
  {
    match n
    case Leaf(_, s) => if s == v then 1 else 0
    case Internal(_, c0, c1) => LeafCount(c0, v) + LeafCount(c1, v)
  }

  /** Every leaf's symbol is an index into a table of `size` entries. */
  predicate SymbolsBelow(n: Node, size: nat)
  {
    match n
    case Leaf(_, s) => 0 <= s < size
    case Internal(_, c0, c1) => SymbolsBelow(c0, size) && SymbolsBelow(c1, size)
  }

  /** The node reached from n along a path of bits, if any. */
  function Follow(n: Node, path: seq<bool>): Option<Node>
    decreases |path|
  {
    if path == [] then Some(n)
    else match n
      case Leaf(_, _) => None
      case Internal(_, c0, c1) => Follow(if path[0] then c1 else c0, path[1..])
  }

  /** (bits << 1) + b in 32-bit unsigned arithmetic. */
  function AppendBit(bits: u32, b: bool): (r: u32)
  {
    (2 * bits + (if b then 1 else 0)) % WORD
  }

  /** The code bits after appending a path to `bits`. */
  function Code(bits: u32, path: seq<bool>): u32
    decreases |path|
  {
    if path == [] then bits else Code(AppendBit(bits, path[0]), path[1..])
  }

  /** The binary number a path spells, most significant bit first. */
  function PathValue(path: seq<bool>): nat
    decreases |path|
  {
    if path == [] then 0
    else PathValue(path[..|path| - 1]) * 2 + (if path[|path| - 1] then 1 else 0)
  }

  type Entry = (int, u32)

  /** What TreeToLUT(numBits, bits, luTable) leaves in the table, and whether it
    * succeeded. A failure leaves the entries written before it in place. */
  function FillTable(n: Node, numBits: nat, bits: u32, lut: seq<Entry>): (r: (bool, seq<Entry>))
    requires numBits <= 32 && SymbolsBelow(n, |lut|)
    ensures |r.1| == |lut|
  {
    match n
    case Leaf(_, s) => (true, lut[s := (numBits, bits)])
    case Internal(_, c0, c1) =>
      if numBits == 32 then (false, lut)
      else
        var r0 := FillTable(c0, numBits + 1, AppendBit(bits, false), lut);
        if !r0.0 then (false, r0.1)
        else FillTable(c1, numBits + 1, AppendBit(bits, true), r0.1)
  }

  /** TreeToLUT, recursing through the tree and writing into the caller's table. */
  method TreeToLUT(n: Node, numBits: nat, bits: u32, luTable: array<Entry>) returns (ok: bool)
    requires numBits <= 32 && SymbolsBelow(n, luTable.Length)
    modifies luTable
    ensures (ok, luTable[..]) == FillTable(n, numBits, bits, old(luTable[..]))
    decreases n
  {
    match n
    case Leaf(_, s) =>
      luTable[s] := (numBits, bits);
      return true;
    case Internal(_, c0, c1) =>
      if numBits == 32 {
        return false;
      }
      ok := TreeToLUT(c0, numBits + 1, AppendBit(bits, false), luTable);
      if !ok {
        return false;
      }
      ok := TreeToLUT(c1, numBits + 1, AppendBit(bits, true), luTable);
  }

  /** The conversion succeeds exactly when no internal node sits at depth 32: the
    * deepest internal node is at depth numBits + Height(n) - 1. */
  lemma {:induction false} FillTableSucceeds(n: Node, numBits: nat, bits: u32, lut: seq<Entry>)
    requires numBits <= 32 && SymbolsBelow(n, |lut|)
    ensures FillTable(n, numBits, bits, lut).0 <==> numBits + Height(n) <= 32
    decreases n
  {
    match n
    case Leaf(_, _) =>
    case Internal(_, c0, c1) =>
      if numBits < 32 {
        var r0 := FillTable(c0, numBits + 1, AppendBit(bits, false), lut);
        FillTableSucceeds(c0, numBits + 1, AppendBit(bits, false), lut);
        FillTableSucceeds(c1, numBits + 1, AppendBit(bits, true), r0.1);
      }
  }

  /** Entries of symbols that are not in the tree are left alone. */
  lemma {:induction false} FillTableKeepsOthers(n: Node, numBits: nat, bits: u32, lut: seq<Entry>, i: int)
    requires numBits <= 32 && SymbolsBelow(n, |lut|)
    requires 0 <= i < |lut| && LeafCount(n, i) == 0
    ensures FillTable(n, numBits, bits, lut).1[i] == lut[i]
    decreases n
  {
    match n
    case Leaf(_, _) =>
    case Internal(_, c0, c1) =>
      if numBits < 32 {
        var r0 := FillTable(c0, numBits + 1, AppendBit(bits, false), lut);
        FillTableKeepsOthers(c0, numBits + 1, AppendBit(bits, false), lut, i);
        if r0.0 {
          FillTableKeepsOthers(c1, numBits + 1, AppendBit(bits, true), r0.1, i);
        }
      }
  }

  /** A successful conversion gives the leaf at `path` the code length numBits + |path|
    * and the code of its path (child0 = 0, child1 = 1), when its symbol is unique. */
  lemma {:induction false} FillTableLeafCode(n: Node, numBits: nat, bits: u32, lut: seq<Entry>,
                                              path: seq<bool>, leaf: Node)
    requires numBits <= 32 && SymbolsBelow(n, |lut|)
    requires FillTable(n, numBits, bits, lut).0
    requires Follow(n, path) == Some(leaf) && leaf.Leaf? && LeafCount(n, leaf.symbol) == 1
    ensures 0 <= leaf.symbol < |lut|
    ensures FillTable(n, numBits, bits, lut).1[leaf.symbol] == (numBits + |path|, Code(bits, path))
    decreases n
  {
    match n
    case Leaf(_, _) =>
      assert path == [];
    case Internal(_, c0, c1) =>
      assert path != [];
      var b0, b1 := AppendBit(bits, false), AppendBit(bits, true);
      var r0 := FillTable(c0, numBits + 1, b0, lut);
      var v := leaf.symbol;
      if path[0] {
        SymbolInRange(c1, path[1..], leaf, |lut|);
        FillTableLeafCode(c1, numBits + 1, b1, r0.1, path[1..], leaf);
      } else {
        SymbolInRange(c0, path[1..], leaf, |lut|);
        FillTableLeafCode(c0, numBits + 1, b0, lut, path[1..], leaf);
        FillTableKeepsOthers(c1, numBits + 1, b1, r0.1, v);
      }
  }

  lemma {:induction false} SymbolInRange(n: Node, path: seq<bool>, leaf: Node, size: nat)
    requires SymbolsBelow(n, size) && Follow(n, path) == Some(leaf) && leaf.Leaf?
    ensures 0 <= leaf.symbol < size && LeafCount(n, leaf.symbol) >= 1
    decreases |path|
  {
    if path != [] {
      match n
      case Leaf(_, _) =>
      case Internal(_, c0, c1) =>
        SymbolInRange(if path[0] then c1 else c0, path[1..], leaf, size);
    }
  }

  /** Under 32 bits the code is the starting bits followed by the path, in binary. */
  lemma {:induction false} CodeValue(bits: u32, numBits: nat, path: seq<bool>)
    requires numBits + |path| <= 32 && bits < Pow2(numBits)
    ensures Code(bits, path) == bits * Pow2(|path|) + PathValue(path)
    ensures Code(bits, path) < Pow2(numBits + |path|)
    decreases |path|
  {
    if path != [] {
      var rest := path[1..];
      var bit := if path[0] then 1 else 0;
      var b := AppendBit(bits, path[0]);
      AppendBitExact(bits, numBits, path[0]);
      CodeValue(b, numBits + 1, rest);
      var p := Pow2(|rest|);
      assert PathValue(path) == bit * p + PathValue(rest) by {
        assert path == [path[0]] + rest;
        PathValueCons(path[0], rest);
      }
      assert Pow2(|path|) == 2 * p;
      assert Code(bits, path) == Code(b, rest);
      assert numBits + 1 + |rest| == numBits + |path|;
      Regroup(Code(b, rest), b, bits, bit, p, PathValue(rest), Pow2(|path|), PathValue(path));
    }
  }

  /** Below bit 31 appending a bit does not wrap. */
  lemma AppendBitExact(bits: u32, numBits: nat, b: bool)
    requires numBits < 32 && bits < Pow2(numBits)
    ensures AppendBit(bits, b) == 2 * bits + (if b then 1 else 0)
    ensures AppendBit(bits, b) < Pow2(numBits + 1)
  {
    var x := 2 * bits + (if b then 1 else 0);
    assert x < Pow2(numBits + 1) <= WORD by {
      Pow2Monotone(numBits + 1, 32);
      Pow2Word();
    }
    DivUnique(x, WORD, 0, x);
  }

  lemma Regroup(c: int, b: int, bits: int, bit: int, p: int, v: int, p2: int, w: int)
    requires c == b * p + v && b == 2 * bits + bit && p2 == 2 * p && w == bit * p + v
    ensures c == bits * p2 + w
  {
  }

  /** Putting a bit in front of a path adds its weight 2^|rest|. */
  lemma {:induction false} PathValueCons(b: bool, rest: seq<bool>)
    ensures PathValue([b] + rest) == (if b then Pow2(|rest|) else 0) + PathValue(rest)
    decreases |rest|
  {
    var p := [b] + rest;
    if rest != [] {
      var init := rest[..|rest| - 1];
      assert p[..|p| - 1] == [b] + init;
      PathValueCons(b, init);
      assert Pow2(|rest|) == 2 * Pow2(|init|);
    }
  }

  /** FreeTree(n): n is decremented once per node released, root excluded. */
  function FreeTree(t: Node, n: int): (r: int)
    ensures r == n - (Size(t) - 1)
  {
    match t
    case Leaf(_, _) => n
    case Internal(_, c0, c1) =>
      var n0 := FreeTree(c0, n) - 1;
      FreeTree(c1, n0) - 1
  }

  /** GetIndexWrapAround(i, size): an index into a cyclic table of `size` entries
    * that may have run at most one lap past the end. */
  function GetIndexWrapAround(i: int, size: int): (r: int)
    ensures i < size ==> r == i
    ensures i >= size ==> r == i - size
    ensures 0 <= i < 2 * size ==> 0 <= r < size && r == i % size
  {
    i - (if i < size then 0 else size)
  }
}
