/** C's unsigned 32-bit operators `<<`, `>>` and `|` over integers, with the
  * division facts their proofs rest on. A left shift drops the bits pushed past
  * bit 31; a right shift brings in zeros. */
module UnsignedBits {
  import opened Common

  const WORD: nat := 0x1_0000_0000

  type u32 = x: int | 0 <= x < 0x1_0000_0000

  lemma MulLe(a: int, b: int, c: int)
    requires a <= b && c >= 0
    ensures a * c <= b * c
  {
  }

  /** n == q * d + r with 0 <= r < d determines both n / d and n % d. */
  lemma DivUnique(n: int, d: int, q: int, r: int)
    requires d > 0 && 0 <= r < d && n == q * d + r
    ensures n / d == q && n % d == r
  {
    var q0 := n / d;
    var r0 := n % d;
    assert n == q0 * d + r0 && 0 <= r0 < d;
    if q0 < q {
      MulLe(q0 + 1, q, d);
    } else if q0 > q {
      MulLe(q + 1, q0, d);
    }
  }

  lemma ModAddMultiple(q: nat, x: nat, d: nat)
    requires d > 0
    ensures (q * d + x) % d == x % d
  {
    assert (q + x / d) * d + x % d == q * d + x;
    DivUnique(q * d + x, d, q + x / d, x % d);
  }

  lemma MulDiv(x: nat, d: nat)
    requires d > 0
    ensures (x * d) / d == x && (x * d) % d == 0
  {
    DivUnique(x * d, d, x, 0);
  }

  /** Dividing by a and then by b is dividing by a * b. */
  lemma DivDiv(x: nat, a: nat, b: nat)
    requires a > 0 && b > 0
    ensures x / a / b == x / (a * b)
  {
    var q := x / a / b;
    var r := (x / a) % b * a + x % a;
    assert x / a == q * b + (x / a) % b;
    assert x == (x / a) * a + x % a;
    assert x == q * (a * b) + r by {
      assert (q * b + (x / a) % b) * a == q * (a * b) + (x / a) % b * a;
    }
    assert r < a * b by {
      MulLe((x / a) % b, b - 1, a);
      assert (b - 1) * a == a * b - a;
    }
    DivUnique(x, a * b, q, r);
  }

  lemma Pow2Word()
    ensures Pow2(32) == WORD
  {
    assert Pow2(4) == 16;
    Pow2Add(4, 4);
    Pow2Add(8, 8);
    Pow2Add(16, 16);
  }

  /** x * 2^k for x below 2^i is below 2^(i+k). */
  lemma MulPow2Bound(x: nat, i: nat, k: nat)
    requires x < Pow2(i)
    ensures x * Pow2(k) < Pow2(i + k)
  {
    Pow2Add(i, k);
    MulLe(x + 1, Pow2(i), Pow2(k));
    assert (x + 1) * Pow2(k) == x * Pow2(k) + Pow2(k);
  }

  /** x / 2^k for x below 2^i (k <= i) is below 2^(i-k). */
  lemma DivPow2Bound(x: nat, i: nat, k: nat)
    requires k <= i && x < Pow2(i)
    ensures x / Pow2(k) < Pow2(i - k)
  {
    Pow2Add(i - k, k);
    DivBelow(x, Pow2(k), Pow2(i - k));
  }

  lemma DivBelow(x: nat, d: nat, e: nat)
    requires d > 0 && x < e * d
    ensures x / d < e
  {
    DivMod(x, d);
    if x / d >= e {
      MulLe(e, x / d, d);
    }
  }

  /** 2^k divides 2^j for k <= j, so a multiple of 2^j is a multiple of 2^k. */
  lemma MultipleOfSmallerPow2(x: nat, k: nat, j: nat)
    requires k <= j && x % Pow2(j) == 0
    ensures x % Pow2(k) == 0
  {
    Pow2Add(j - k, k);
    var p, m := Pow2(j - k), Pow2(k);
    var d := Pow2(j);
    assert d == p * m;
    var q := x / d;
    DivMod(x, d);
    MulAssoc(q, p, m);
    MulDiv(q * p, m);
  }

  function Shl(x: u32, k: nat): (r: u32)
    requires k <= 32
  {
    Pow2Word();
    (x * Pow2(k)) % WORD
  }

  function Shr(x: u32, k: nat): (r: u32)
    requires k <= 32
    ensures r <= x
  {
    DivAtMost(x, Pow2(k));
    x / Pow2(k)
  }

  lemma DivAtMost(x: nat, d: nat)
    requires d > 0
    ensures x / d <= x
  {
    var q := x / d;
    DivMod(x, d);
    MulLe(1, d, q);
    assert q <= q * d <= x;
  }

  /** Bitwise or of two naturals. */
  function Or(a: nat, b: nat): nat
    decreases a + b
  {
    if a == 0 then b
    else if b == 0 then a
    else 2 * Or(a / 2, b / 2) + (if a % 2 == 1 || b % 2 == 1 then 1 else 0)
  }

  lemma HalfOfMultiple(a: nat, m: nat)
    requires m > 0 && a % (2 * m) == 0
    ensures a % 2 == 0 && (a / 2) % m == 0
  {
    var q := a / (2 * m);
    assert a == (q * m) * 2;
    MulDiv(q * m, 2);
    MulDiv(q, m);
  }

  /** Or of two numbers whose bits do not overlap is their sum. */
  lemma {:induction false} OrDisjoint(a: nat, b: nat, k: nat)
    requires a % Pow2(k) == 0 && b < Pow2(k)
    ensures Or(a, b) == a + b
    decreases k
  {
    if k > 0 && a != 0 && b != 0 {
      HalfOfMultiple(a, Pow2(k - 1));
      assert b / 2 < Pow2(k - 1);
      OrDisjoint(a / 2, b / 2, k - 1);
    }
  }

  lemma {:induction false} OrBound(a: nat, b: nat, k: nat)
    requires a < Pow2(k) && b < Pow2(k)
    ensures Or(a, b) < Pow2(k)
    decreases k
  {
    if k > 0 && a != 0 && b != 0 {
      OrBound(a / 2, b / 2, k - 1);
    }
  }

  /** Or with a number below 2^k leaves the bits from k upward unchanged. */
  lemma {:induction false} OrHigh(a: nat, x: nat, k: nat)
    requires x < Pow2(k)
    ensures Or(a, x) / Pow2(k) == a / Pow2(k)
    decreases k
  {
    if a == 0 {
      DivUnique(x, Pow2(k), 0, x);
      DivUnique(0, Pow2(k), 0, 0);
    } else if x == 0 {
    } else {
      var p := Pow2(k - 1);
      assert Pow2(k) == 2 * p;
      HalfBound(x, p);
      OrHigh(a / 2, x / 2, k - 1);
      var bit := if a % 2 == 1 || x % 2 == 1 then 1 else 0;
      OrHighStep(Or(a / 2, x / 2), bit, a, p);
      assert Or(a, x) == 2 * Or(a / 2, x / 2) + bit;
    }
  }

  lemma HalfBound(x: nat, p: nat)
    requires x < 2 * p
    ensures x / 2 < p
  {
  }

  lemma DivMod(x: int, d: int)
    requires d > 0
    ensures x == (x / d) * d + x % d
  {
  }

  lemma MulAssoc(a: int, b: int, c: int)
    ensures a * (b * c) == (a * b) * c
  {
  }

  lemma OrHighStep(y: nat, bit: nat, a: nat, p: nat)
    requires bit < 2 && p > 0 && y / p == (a / 2) / p
    ensures (2 * y + bit) / (2 * p) == a / (2 * p)
  {
    DivDiv(2 * y + bit, 2, p);
    assert (2 * y + bit) / 2 == y;
    DivDiv(a, 2, p);
  }

  function Or32(a: u32, b: u32): (r: u32)
  {
    Pow2Word();
    OrBound(a, b, 32);
    Or(a, b)
  }
}
