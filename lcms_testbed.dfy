/** The bookkeeping of the Little CMS test bed: the debugging memory plug-in
  * (live blocks, TotalMemory, MaxAllocated, SingleHit, owner checks), the fake
  * thread identifiers, the ramp tables used by the interpolation tests, the
  * 8-input averaging functions and the pass/fail counters of `Check`.
  * `Die` ends the process; the model records that as a terminal state. */
module LcmsTestbed {

  const UINT32: nat := 0x1_0000_0000

  newtype uint16 = x: int | 0 <= x < 0x1_0000

  /** The header the plug-in hides in front of every block, and the block's bytes. */
  datatype Block = Block(keepSize: nat, whoAllocated: int, dontCheck: nat, data: seq<int>)

  /** Sum of the sizes of the given blocks. */
  ghost function LiveTotal(m: map<int, Block>): nat
    decreases |m.Keys|
  {
    if m.Keys == {} then 0
    else
      NonEmptyHasKey(m.Keys);
      var k :| k in m.Keys;
      m[k].keepSize + LiveTotal(m - {k})
  }

  lemma NonEmptyHasKey(s: set<int>)
    requires s != {}
    ensures exists k :: k in s
  {
    if forall k :: k !in s {
      assert false;
    }
  }

  lemma {:induction false} LiveTotalRemove(m: map<int, Block>, x: int)
    requires x in m
    ensures LiveTotal(m) == m[x].keepSize + LiveTotal(m - {x})
    decreases |m.Keys|
  {
    var k :| k in m && LiveTotal(m) == m[k].keepSize + LiveTotal(m - {k});
    if k != x {
      LiveTotalRemove(m - {k}, x);
      LiveTotalRemove(m - {x}, k);
      assert m - {k} - {x} == m - {x} - {k};
    }
  }

  lemma LiveTotalAdd(m: map<int, Block>, x: int, b: Block)
    requires x !in m
    ensures LiveTotal(m[x := b]) == b.keepSize + LiveTotal(m)
  {
    LiveTotalRemove(m[x := b], x);
    assert m[x := b] - {x} == m;
  }

  lemma LiveTotalUpdate(m: map<int, Block>, x: int, b: Block)
    requires x in m && b.keepSize == m[x].keepSize
    ensures LiveTotal(m[x := b]) == LiveTotal(m)
  {
    LiveTotalRemove(m[x := b], x);
    LiveTotalRemove(m, x);
    assert m[x := b] - {x} == m - {x};
  }

  /** Every live block has a header no larger than SingleHit and a zero or one
    * "don't check" mark. */
  predicate BlocksOk(blocks: map<int, Block>, singleHit: nat)
  {
    forall p :: p in blocks ==>
      0 < blocks[p].keepSize <= singleHit &&
      |blocks[p].data| == blocks[p].keepSize &&
      blocks[p].dontCheck <= 1
  }

  lemma BlocksOkInsert(blocks: map<int, Block>, singleHit: nat, hit: nat, x: int, b: Block)
    requires BlocksOk(blocks, singleHit) && singleHit <= hit
    requires 0 < b.keepSize <= hit && |b.data| == b.keepSize && b.dontCheck <= 1
    ensures BlocksOk(blocks[x := b], hit)
  {
  }

  /** Reducing a sum modulo 2^32 before adding to it changes nothing. */
  lemma ModAdd(a: int, b: int)
    ensures (a % UINT32 + b) % UINT32 == (a + b) % UINT32
  {
  }

  lemma ModSub(a: int, b: int)
    ensures (a % UINT32 - b) % UINT32 == (a - b) % UINT32
  {
  }

  lemma BlocksOkRemove(blocks: map<int, Block>, singleHit: nat, x: int)
    requires BlocksOk(blocks, singleHit)
    ensures BlocksOk(blocks - {x}, singleHit)
  {
  }

  lemma BlocksOkUpdate(blocks: map<int, Block>, singleHit: nat, x: int, b: Block)
    requires BlocksOk(blocks, singleHit) && x in blocks
    requires b.keepSize == blocks[x].keepSize && |b.data| == b.keepSize && b.dontCheck <= 1
    ensures BlocksOk(blocks[x := b], singleHit)
  {
  }

  datatype AllocResult = Allocated(ptr: int) | AllocDied(reason: string)
  datatype FreeResult = Freed | FreeDied(reason: string)

  const ZERO_BYTES := "malloc requested with zero bytes"
  const CORRUPTED := "Memory may be corrupted"
  const NULL_FREE := "NULL free (which is a no-op in C, but may be an clue of something going wrong)"
  const OTHER_THREAD := "Trying to free memory allocated by a different thread"

  /** The debugging memory plug-in. Pointers are integers, 0 is NULL. */
  class DebugAllocator {
    var totalMemory: nat
    var maxAllocated: nat
    var singleHit: nat
    var blocks: map<int, Block>
    /** Set once `Die` has ended the process. */
    var exited: bool

    ghost predicate Valid()
      reads this
    {
      !exited ==>
        totalMemory == LiveTotal(blocks) % UINT32 &&
        maxAllocated < UINT32 && singleHit < UINT32 &&
        0 !in blocks && BlocksOk(blocks, singleHit)
    }

    constructor ()
      ensures Valid() && !exited
      ensures blocks == map[] && totalMemory == 0 && maxAllocated == 0 && singleHit == 0
    {
      totalMemory, maxAllocated, singleHit := 0, 0, 0;
      blocks := map[];
      exited := false;
    }

    /** DebugMalloc: `addr` is the address malloc hands out (0 when it fails) and
      * `garbage` the bytes that memory happens to hold. */
    method Malloc(context: int, size: nat, addr: int, garbage: seq<int>) returns (r: AllocResult)
      requires Valid() && !exited
      requires size < UINT32
      requires addr == 0 || addr !in blocks
      requires |garbage| == size
      modifies this
      ensures Valid()
      ensures size == 0 ==> r == AllocDied(ZERO_BYTES) && exited
      ensures size == 0 ==>
        totalMemory == old(totalMemory) && maxAllocated == old(maxAllocated) && singleHit == old(singleHit)
      ensures size > 0 ==>
        totalMemory == (old(totalMemory) + size) % UINT32 &&
        maxAllocated == (if totalMemory > old(maxAllocated) then totalMemory else old(maxAllocated)) &&
        maxAllocated >= totalMemory &&
        singleHit == (if size > old(singleHit) then size else old(singleHit))
      ensures size > 0 && addr == 0 ==> r == AllocDied(CORRUPTED) && exited
      ensures size > 0 && addr != 0 ==>
        r == Allocated(addr) && !exited &&
        blocks == old(blocks)[addr := Block(size, context, 0, garbage)]
    {
      if size == 0 {
        exited := true;
        return AllocDied(ZERO_BYTES);
      }
      totalMemory := (totalMemory + size) % UINT32;
      if totalMemory > maxAllocated {
        maxAllocated := totalMemory;
      }
      if size > singleHit {
        singleHit := size;
      }
      if addr == 0 {
        exited := true;
        return AllocDied(CORRUPTED);
      }
      var b := Block(size, context, 0, garbage);
      LiveTotalAdd(blocks, addr, b);
      ModAdd(LiveTotal(old(blocks)), size);
      BlocksOkInsert(blocks, old(singleHit), singleHit, addr, b);
      blocks := blocks[addr := b];
      return Allocated(addr);
    }

    /** DebugFree. The size is taken off TotalMemory before the owner check, so a
      * refused free still changes the total before the process ends. */
    method Free(context: int, ptr: int) returns (r: FreeResult)
      requires Valid() && !exited
      requires ptr == 0 || ptr in blocks
      modifies this
      ensures Valid()
      ensures maxAllocated == old(maxAllocated) && singleHit == old(singleHit)
      ensures ptr == 0 ==> r == FreeDied(NULL_FREE) && exited && totalMemory == old(totalMemory)
      ensures ptr != 0 ==>
        totalMemory == (old(totalMemory) - old(blocks)[ptr].keepSize) % UINT32
      ensures ptr != 0 ==>
        var b := old(blocks)[ptr];
        if b.whoAllocated != context && b.dontCheck == 0 then
          r == FreeDied(OTHER_THREAD) && exited && blocks == old(blocks)
        else
          r == Freed && !exited && blocks == old(blocks) - {ptr}
    {
      if ptr == 0 {
        exited := true;
        return FreeDied(NULL_FREE);
      }
      var b := blocks[ptr];
      LiveTotalRemove(blocks, ptr);
      ModSub(LiveTotal(blocks), b.keepSize);
      BlocksOkRemove(blocks, singleHit, ptr);
      totalMemory := (totalMemory - b.keepSize) % UINT32;
      if b.whoAllocated != context && b.dontCheck == 0 {
        exited := true;
        return FreeDied(OTHER_THREAD);
      }
      blocks := blocks - {ptr};
      return Freed;
    }

    /** DebugRealloc: a malloc, a copy of min(old size, new size) bytes, and a free. */
    method Realloc(context: int, ptr: int, newSize: nat, addr: int, garbage: seq<int>)
      returns (r: AllocResult)
      requires Valid() && !exited
      requires newSize < UINT32
      requires ptr == 0 || ptr in blocks
      requires addr == 0 || (addr !in blocks && addr != ptr)
      requires |garbage| == newSize
      modifies this
      ensures Valid()
      ensures ptr == 0 && newSize > 0 && addr != 0 ==>
        r == Allocated(addr) && blocks == old(blocks)[addr := Block(newSize, context, 0, garbage)]
      ensures ptr != 0 && r.Allocated? ==>
        var was := old(blocks)[ptr];
        var keep := if was.keepSize > newSize then newSize else was.keepSize;
        r == Allocated(addr) && !exited && ptr !in blocks && addr in blocks &&
        blocks[addr].keepSize == newSize && blocks[addr].whoAllocated == context &&
        blocks[addr].data[..keep] == was.data[..keep] &&
        blocks[addr].data[keep..] == garbage[keep..] &&
        blocks - {addr} == old(blocks) - {ptr}
      ensures r.AllocDied? <==> exited
      ensures newSize == 0 ==> r == AllocDied(ZERO_BYTES)
      ensures newSize > 0 && addr == 0 ==> r == AllocDied(CORRUPTED)
      ensures newSize == 0 ==>
        totalMemory == old(totalMemory) && maxAllocated == old(maxAllocated) && singleHit == old(singleHit)
      ensures newSize > 0 ==>
        var grown := (old(totalMemory) + newSize) % UINT32;
        maxAllocated == (if grown > old(maxAllocated) then grown else old(maxAllocated)) &&
        singleHit == (if newSize > old(singleHit) then newSize else old(singleHit))
      ensures ptr == 0 && newSize > 0 ==> totalMemory == (old(totalMemory) + newSize) % UINT32
      ensures ptr != 0 && newSize > 0 && addr != 0 ==>
        var was := old(blocks)[ptr];
        totalMemory == ((old(totalMemory) + newSize) % UINT32 - was.keepSize) % UINT32 &&
        (r.AllocDied? <==> was.whoAllocated != context && was.dontCheck == 0) &&
        (r.AllocDied? ==> r == AllocDied(OTHER_THREAD) && ptr in blocks && addr in blocks)
    {
      r := Malloc(context, newSize, addr, garbage);
      if ptr == 0 || r.AllocDied? {
        return;
      }
      var was := blocks[ptr];
      var keep := if was.keepSize > newSize then newSize else was.keepSize;
      var given := blocks[addr];
      var moved := was.data[..keep] + given.data[keep..];
      assert moved[..keep] == was.data[..keep] && moved[keep..] == garbage[keep..];
      LiveTotalUpdate(blocks, addr, given.(data := moved));
      BlocksOkUpdate(blocks, singleHit, addr, given.(data := moved));
      blocks := blocks[addr := given.(data := moved)];
      var f := Free(context, ptr);
      if f.FreeDied? {
        r := AllocDied(f.reason);
      }
    }

    /** DebugMemDontCheckThis: exempts a block from the owner check. */
    method DontCheckThis(ptr: int)
      requires Valid() && !exited && ptr in blocks
      modifies this
      ensures Valid() && !exited
      ensures blocks == old(blocks)[ptr := old(blocks)[ptr].(dontCheck := 1)]
      ensures totalMemory == old(totalMemory) && maxAllocated == old(maxAllocated)
      ensures singleHit == old(singleHit)
    {
      LiveTotalUpdate(blocks, ptr, blocks[ptr].(dontCheck := 1));
      blocks := blocks[ptr := blocks[ptr].(dontCheck := 1)];
    }
  }

  /** The fake thread descriptor: a static unsigned counter starting at 1. */
  class DbgThreadCounter {
    var n: nat
    ghost var calls: nat

    ghost predicate Valid()
      reads this
    {
      n == (calls + 1) % UINT32
    }

    constructor ()
      ensures Valid() && calls == 0
    {
      n := 1;
      calls := 0;
    }

    /** The k-th call (counting from 1) yields k mod 0xff0, while k fits 32 bits. */
    method Next() returns (id: nat)
      requires Valid()
      modifies this
      ensures Valid() && calls == old(calls) + 1
      ensures id == ((old(calls) + 1) % UINT32) % 0xff0
      ensures id < 0xff0
    {
      id := n % 0xff0;
      n := (n + 1) % UINT32;
      calls := calls + 1;
    }
  }

  /** The ramp value floor(65535 * i / (n - 1) + 0.5) in exact integer arithmetic. */
  function Ramp(i: nat, n: nat): (v: int)
    requires n >= 2
    ensures v >= 0
  {
    (2 * 65535 * i + (n - 1)) / (2 * (n - 1))
  }

  lemma RampEnds(n: nat)
    requires n >= 2
    ensures Ramp(0, n) == 0 && Ramp(n - 1, n) == 65535
  {
    var d := n - 1;
    assert 2 * 65535 * d + d == 65535 * (2 * d) + d;
    DivUnique(2 * 65535 * d + d, 2 * d, 65535, d);
    DivUnique(d, 2 * d, 0, d);
  }

  /** n == q * d + r with 0 <= r < d determines n / d. */
  lemma DivUnique(n: int, d: int, q: int, r: int)
    requires d > 0 && 0 <= r < d && n == q * d + r
    ensures n / d == q
  {
    var q0 := n / d;
    var r0 := n % d;
    assert n == q0 * d + r0 && 0 <= r0 < d;
    if q0 < q {
      MulLe(q0 + 1, q, d);
    } else if q0 > q {
      MulLe(q + 1, q0, d);
    }
  }

  lemma MulLe(a: int, b: int, c: int)
    requires a <= b && c >= 0
    ensures a * c <= b * c
  {
  }

  lemma RampMonotone(i: nat, j: nat, n: nat)
    requires n >= 2 && i <= j
    ensures Ramp(i, n) <= Ramp(j, n)
  {
    DivMonotone(2 * 65535 * i + (n - 1), 2 * 65535 * j + (n - 1), 2 * (n - 1));
  }

  lemma DivMonotone(a: int, b: int, d: int)
    requires a <= b && d > 0
    ensures a / d <= b / d
  {
    var qa, qb := a / d, b / d;
    assert qa * d <= a && b < qb * d + d;
    if qa > qb {
      MulLe(qb + 1, qa, d);
    }
  }

  lemma RampInRange(i: nat, n: nat)
    requires n >= 2 && i < n
    ensures 0 <= Ramp(i, n) <= 65535
  {
    RampMonotone(i, n - 1, n);
    RampEnds(n);
  }

  /** BuildTable over the first n entries of `tab`. */
  method BuildTable(n: nat, tab: array<uint16>, descending: bool)
    requires n >= 2 && n <= tab.Length
    modifies tab
    ensures forall k :: 0 <= k < n ==>
      tab[k] as int == (if descending then Ramp(n - 1 - k, n) else Ramp(k, n))
    ensures forall k :: n <= k < tab.Length ==> tab[k] == old(tab[k])
  {
    var i := 0;
    while i < n
      invariant 0 <= i <= n
      invariant forall k :: 0 <= k < i ==>
        tab[if descending then n - 1 - k else k] as int == Ramp(k, n)
      invariant forall k :: 0 <= k < n - i ==> descending ==> tab[k] == old(tab[k])
      invariant forall k :: i <= k < n ==> !descending ==> tab[k] == old(tab[k])
      invariant forall k :: n <= k < tab.Length ==> tab[k] == old(tab[k])
    {
      RampInRange(i, n);
      tab[if descending then n - i - 1 else i] := Ramp(i, n) as uint16;
      i := i + 1;
    }
    forall k | 0 <= k < n
      ensures tab[k] as int == (if descending then Ramp(n - 1 - k, n) else Ramp(k, n))
    {
      if descending {
        assert tab[n - 1 - (n - 1 - k)] as int == Ramp(n - 1 - k, n);
      }
    }
  }

  /** Two tables as BuildTable leaves them: the descending one is the ascending one
    * reversed, and it never increases. */
  lemma DescendingIsReverse(up: seq<uint16>, down: seq<uint16>, n: nat)
    requires n >= 2 && |up| == n && |down| == n
    requires forall k :: 0 <= k < n ==> up[k] as int == Ramp(k, n)
    requires forall k :: 0 <= k < n ==> down[k] as int == Ramp(n - 1 - k, n)
    ensures forall k :: 0 <= k < n ==> down[k] == up[n - 1 - k]
    ensures forall i, j :: 0 <= i <= j < n ==> down[j] <= down[i]
  {
    forall i, j | 0 <= i <= j < n
      ensures down[j] <= down[i]
    {
      RampMonotone(n - 1 - j, n - 1 - i, n);
    }
  }

  /** The cast to cmsUInt16Number. */
  function U16(x: int): (r: uint16)
    requires x >= 0
  {
    (x % 0x1_0000) as uint16
  }

  function Fn8D1(a1: uint16, a2: uint16, a3: uint16, a4: uint16, a5: uint16, a6: uint16,
                 a7: uint16, a8: uint16, m: nat): (r: uint16)
    requires 0 < m < UINT32
    ensures m == 8 && a1 == a2 == a3 == a4 == a5 == a6 == a7 == a8 ==> r == a1
  {
    var sum := a1 as int + a2 as int + a3 as int + a4 as int + a5 as int + a6 as int
               + a7 as int + a8 as int;
    ConstantMean(a1, sum, m);
    U16(sum / m)
  }

  /** m + 4 is computed in 32-bit unsigned arithmetic. */
  function Fn8D2(a1: uint16, a2: uint16, a3: uint16, a4: uint16, a5: uint16, a6: uint16,
                 a7: uint16, a8: uint16, m: nat): (r: uint16)
    requires m < UINT32 && (m + 4) % UINT32 != 0
    ensures m == 8 && a1 == a2 == a3 == a4 == a5 == a6 == a7 == a8 ==> r == a1
  {
    var d := (m + 4) % UINT32;
    var sum := a1 as int + 3 * a2 as int + 3 * a3 as int + a4 as int + a5 as int + a6 as int
               + a7 as int + a8 as int;
    assert m == 8 ==> d == 12;
    ConstantMean(a1, sum, d);
    U16(sum / d)
  }

  /** m + 5 is computed in 32-bit unsigned arithmetic. */
  function Fn8D3(a1: uint16, a2: uint16, a3: uint16, a4: uint16, a5: uint16, a6: uint16,
                 a7: uint16, a8: uint16, m: nat): (r: uint16)
    requires m < UINT32 && (m + 5) % UINT32 != 0
    ensures m == 8 && a1 == a2 == a3 == a4 == a5 == a6 == a7 == a8 ==> r == a1
  {
    var d := (m + 5) % UINT32;
    var sum := 3 * a1 as int + 2 * a2 as int + 3 * a3 as int + a4 as int + a5 as int + a6 as int
               + a7 as int + a8 as int;
    assert m == 8 ==> d == 13;
    ConstantMean(a1, sum, d);
    U16(sum / d)
  }

  /** A non-negative sum over a positive divisor has a non-negative quotient, and a sum
    * of d copies of x, divided by d and cast, is x. */
  lemma ConstantMean(x: uint16, sum: int, d: int)
    requires d > 0 && sum >= 0
    ensures sum / d >= 0
    ensures sum == d * (x as int) ==> U16(sum / d) == x
  {
    if sum == d * (x as int) {
      DivUnique(sum, d, x as int, 0);
    }
  }

  /** The inputs past the first m are zero, as when an m-dimensional test calls these. */
  predicate OnlyFirst(a: seq<uint16>, m: nat)
  {
    |a| == 8 && m <= 8 && forall k :: m <= k < 8 ==> a[k] == 0
  }

  /** Every used input lies in [lo, hi]. */
  predicate Within(a: seq<uint16>, m: nat, lo: int, hi: int)
    requires m <= |a|
  {
    forall k :: 0 <= k < m ==> lo <= a[k] as int <= hi
  }

  /** w[0] * a[0] + ... + w[k-1] * a[k-1]. */
  function WeightedSum(a: seq<uint16>, w: seq<nat>, k: nat): int
    requires k <= |a| && k <= |w|
  {
    if k == 0 then 0 else WeightedSum(a, w, k - 1) + w[k - 1] * a[k - 1] as int
  }

  /** w[0] + ... + w[k-1]. */
  function WeightOf(w: seq<nat>, k: nat): nat
    requires k <= |w|
  {
    if k == 0 then 0 else WeightOf(w, k - 1) + w[k - 1]
  }

  const PLAIN: seq<nat> := [1, 1, 1, 1, 1, 1, 1, 1]
  const WEIGHTS_D2: seq<nat> := [1, 3, 3, 1, 1, 1, 1, 1]
  const WEIGHTS_D3: seq<nat> := [3, 2, 3, 1, 1, 1, 1, 1]

  lemma {:induction false} WeightedSumBounds(a: seq<uint16>, w: seq<nat>, k: nat, lo: int, hi: int)
    requires k <= |a| && k <= |w| && Within(a, k, lo, hi)
    ensures lo * WeightOf(w, k) <= WeightedSum(a, w, k) <= hi * WeightOf(w, k)
  {
    if k > 0 {
      WeightedSumBounds(a, w, k - 1, lo, hi);
      MulBounds(w[k - 1], lo, a[k - 1] as int, hi);
      assert lo * WeightOf(w, k) == lo * WeightOf(w, k - 1) + lo * w[k - 1];
      assert hi * WeightOf(w, k) == hi * WeightOf(w, k - 1) + hi * w[k - 1];
    }
  }

  lemma MulBounds(w: nat, lo: int, x: int, hi: int)
    requires lo <= x <= hi
    ensures lo * w <= w * x <= hi * w
  {
  }

  /** Zero inputs past m add nothing. */
  lemma {:induction false} WeightedSumZeroTail(a: seq<uint16>, w: seq<nat>, m: nat, k: nat)
    requires OnlyFirst(a, m) && |w| == 8 && m <= k <= 8
    ensures WeightedSum(a, w, k) == WeightedSum(a, w, m)
    decreases k
  {
    if k > m {
      WeightedSumZeroTail(a, w, m, k - 1);
    }
  }

  lemma WeightedSumOfEight(a: seq<uint16>, w: seq<nat>)
    requires |a| == 8 && |w| == 8
    ensures WeightedSum(a, w, 8) ==
      w[0] * a[0] as int + w[1] * a[1] as int + w[2] * a[2] as int + w[3] * a[3] as int
      + w[4] * a[4] as int + w[5] * a[5] as int + w[6] * a[6] as int + w[7] * a[7] as int
  {
    assert WeightedSum(a, w, 1) == w[0] * a[0] as int;
    assert WeightedSum(a, w, 2) == WeightedSum(a, w, 1) + w[1] * a[1] as int;
    assert WeightedSum(a, w, 3) == WeightedSum(a, w, 2) + w[2] * a[2] as int;
    assert WeightedSum(a, w, 4) == WeightedSum(a, w, 3) + w[3] * a[3] as int;
    assert WeightedSum(a, w, 5) == WeightedSum(a, w, 4) + w[4] * a[4] as int;
    assert WeightedSum(a, w, 6) == WeightedSum(a, w, 5) + w[5] * a[5] as int;
    assert WeightedSum(a, w, 7) == WeightedSum(a, w, 6) + w[6] * a[6] as int;
    assert WeightedSum(a, w, 8) == WeightedSum(a, w, 7) + w[7] * a[7] as int;
  }

  /** The weights 1,3,3,1,... of Fn8D2 over the first m >= 3 inputs sum to m + 4, and
    * the weights 3,2,3,1,... of Fn8D3 to m + 5. */
  lemma {:induction false} WeightTotals(m: nat)
    requires 3 <= m <= 8
    ensures WeightOf(PLAIN, m) == m
    ensures WeightOf(WEIGHTS_D2, m) == m + 4
    ensures WeightOf(WEIGHTS_D3, m) == m + 5
  {
    if m > 3 {
      WeightTotals(m - 1);
      assert PLAIN[m - 1] == 1 && WEIGHTS_D2[m - 1] == 1 && WEIGHTS_D3[m - 1] == 1;
    } else {
      assert WeightOf(PLAIN, 3) == 3;
      assert WeightOf(WEIGHTS_D2, 3) == 7;
      assert WeightOf(WEIGHTS_D3, 3) == 8;
    }
  }

  lemma MeanBounds(s: int, d: nat, lo: int, hi: int)
    requires d > 0 && lo * d <= s <= hi * d
    ensures lo <= s / d <= hi
  {
    var q := s / d;
    assert q * d <= s < q * d + d;
    if q > hi {
      MulLe(hi + 1, q, d);
    }
    if q < lo {
      MulLe(q + 1, lo, d);
    }
  }

  /** The integer sum the averaging functions divide, bounded by the inputs' range. */
  lemma MeanOfUsed(a: seq<uint16>, w: seq<nat>, m: nat, lo: int, hi: int, d: nat)
    requires OnlyFirst(a, m) && |w| == 8 && Within(a, m, lo, hi)
    requires d == WeightOf(w, m) && d > 0
    ensures var s := WeightedSum(a, w, 8); lo <= s / d <= hi
  {
    WeightedSumZeroTail(a, w, m, 8);
    WeightedSumBounds(a, w, m, lo, hi);
    MeanBounds(WeightedSum(a, w, 8), d, lo, hi);
  }

  /** With m of 1..8 used inputs, Fn8D1 is their mean: between the least and the greatest. */
  lemma Fn8D1IsMean(a: seq<uint16>, m: nat, lo: int, hi: int)
    requires 1 <= m <= 8 && OnlyFirst(a, m) && Within(a, m, lo, hi) && hi <= 65535
    ensures lo <= Fn8D1(a[0], a[1], a[2], a[3], a[4], a[5], a[6], a[7], m) as int <= hi
  {
    PlainWeight(m);
    MeanOfUsed(a, PLAIN, m, lo, hi, m);
    Fn8D1Value(a, m);
    FitsSixteenBits(WeightedSum(a, PLAIN, 8) / m, hi);
  }

  lemma PlainWeight(m: nat)
    requires 1 <= m <= 8
    ensures WeightOf(PLAIN, m) == m
  {
    if m >= 3 {
      WeightTotals(m);
    } else {
      assert WeightOf(PLAIN, 1) == 1;
    }
  }

  lemma Fn8D1Value(a: seq<uint16>, m: nat)
    requires |a| == 8 && 1 <= m <= 8
    ensures WeightedSum(a, PLAIN, 8) >= 0
    ensures Fn8D1(a[0], a[1], a[2], a[3], a[4], a[5], a[6], a[7], m) ==
      U16(WeightedSum(a, PLAIN, 8) / m)
  {
    SumD1(a);
  }

  lemma SumD1(a: seq<uint16>)
    requires |a| == 8
    ensures WeightedSum(a, PLAIN, 8) == a[0] as int + a[1] as int + a[2] as int + a[3] as int
      + a[4] as int + a[5] as int + a[6] as int + a[7] as int
  {
    WeightedSumOfEight(a, PLAIN);
  }

  /** With m of 3..8 used inputs the weights 1,3,3,1,1,... add up to m + 4: a weighted mean. */
  lemma Fn8D2IsMean(a: seq<uint16>, m: nat, lo: int, hi: int)
    requires 3 <= m <= 8 && OnlyFirst(a, m) && Within(a, m, lo, hi) && hi <= 65535
    ensures lo <= Fn8D2(a[0], a[1], a[2], a[3], a[4], a[5], a[6], a[7], m) as int <= hi
  {
    WeightTotals(m);
    MeanOfUsed(a, WEIGHTS_D2, m, lo, hi, m + 4);
    Fn8D2Value(a, m);
    FitsSixteenBits(WeightedSum(a, WEIGHTS_D2, 8) / (m + 4), hi);
  }

  lemma Fn8D2Value(a: seq<uint16>, m: nat)
    requires |a| == 8 && m <= 8
    ensures WeightedSum(a, WEIGHTS_D2, 8) >= 0
    ensures Fn8D2(a[0], a[1], a[2], a[3], a[4], a[5], a[6], a[7], m) ==
      U16(WeightedSum(a, WEIGHTS_D2, 8) / (m + 4))
  {
    assert (m + 4) % UINT32 == m + 4;
    SumD2(a);
  }

  lemma SumD2(a: seq<uint16>)
    requires |a| == 8
    ensures WeightedSum(a, WEIGHTS_D2, 8) == a[0] as int + 3 * a[1] as int + 3 * a[2] as int + a[3] as int
      + a[4] as int + a[5] as int + a[6] as int + a[7] as int
  {
    WeightedSumOfEight(a, WEIGHTS_D2);
  }

  /** With m of 3..8 used inputs the weights 3,2,3,1,1,... add up to m + 5: a weighted mean. */
  lemma Fn8D3IsMean(a: seq<uint16>, m: nat, lo: int, hi: int)
    requires 3 <= m <= 8 && OnlyFirst(a, m) && Within(a, m, lo, hi) && hi <= 65535
    ensures lo <= Fn8D3(a[0], a[1], a[2], a[3], a[4], a[5], a[6], a[7], m) as int <= hi
  {
    WeightTotals(m);
    MeanOfUsed(a, WEIGHTS_D3, m, lo, hi, m + 5);
    Fn8D3Value(a, m);
    FitsSixteenBits(WeightedSum(a, WEIGHTS_D3, 8) / (m + 5), hi);
  }

  lemma Fn8D3Value(a: seq<uint16>, m: nat)
    requires |a| == 8 && m <= 8
    ensures WeightedSum(a, WEIGHTS_D3, 8) >= 0
    ensures Fn8D3(a[0], a[1], a[2], a[3], a[4], a[5], a[6], a[7], m) ==
      U16(WeightedSum(a, WEIGHTS_D3, 8) / (m + 5))
  {
    assert (m + 5) % UINT32 == m + 5;
    SumD3(a);
  }

  lemma SumD3(a: seq<uint16>)
    requires |a| == 8
    ensures WeightedSum(a, WEIGHTS_D3, 8) == 3 * a[0] as int + 2 * a[1] as int + 3 * a[2] as int + a[3] as int
      + a[4] as int + a[5] as int + a[6] as int + a[7] as int
  {
    WeightedSumOfEight(a, WEIGHTS_D3);
  }

  lemma FitsSixteenBits(q: int, hi: int)
    requires 0 <= q <= hi <= 65535
    ensures U16(q) as int == q
  {
  }

  /** IsGoodWordPrec: a 16-bit result is good iff it is within maxErr of the expected one. */
  function IsGoodWordPrec(expected: uint16, actual: uint16, maxErr: uint16): (ok: bool)
    ensures ok <==> -(maxErr as int) <= expected as int - actual as int <= maxErr as int
  {
    var d := expected as int - actual as int;
    !((if d < 0 then -d else d) > maxErr as int)
  }

  /** The pass/fail counters of the test driver. */
  class TestCounters {
    var totalTests: int
    var totalFail: int
    var trappedError: bool
    var simultaneousErrors: int

    constructor ()
      ensures totalTests == 0 && totalFail == 0
    {
      totalTests, totalFail := 0, 0;
      trappedError, simultaneousErrors := false, 0;
    }

    /** The error handler installed in the library: it marks the running test. */
    method ReportError()
      modifies this
      ensures trappedError && simultaneousErrors == old(simultaneousErrors) + 1
      ensures totalTests == old(totalTests) && totalFail == old(totalFail)
    {
      trappedError := true;
      simultaneousErrors := simultaneousErrors + 1;
    }

    /** Check around one test function: `fnResult` is what the function returned and
      * `trappedAtEnd` whether the error flag was set when it returned. */
    method Check(fnResult: int, trappedAtEnd: bool)
      modifies this
      ensures totalTests == old(totalTests) + 1
      ensures totalFail == old(totalFail) + (if fnResult != 0 && !trappedAtEnd then 0 else 1)
    {
      trappedError := false;
      simultaneousErrors := 0;
      totalTests := totalTests + 1;
      // the test function runs here; its effect on the flag is `trappedAtEnd`
      trappedError := trappedAtEnd;
      if !(fnResult != 0 && !trappedError) {
        totalFail := totalFail + 1;
      }
    }
  }
}
