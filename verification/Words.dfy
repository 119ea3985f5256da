/** Fixed-width words of the C sources, as subset types of nat, and powers of two. */
module Words {

  const U32: nat := 0x1_0000_0000

  type Byte = x: nat | x < 256
  type Word = x: nat | x < U32

  /** n as a 32-bit counter. */
  function Low32(n: nat): (w: nat)
    ensures w < U32
  {
    n % U32
  }

  /** Addition of UInt32 values. */
  function WrapAdd(a: nat, b: nat): nat {
    (a + b) % U32
  }

  /** Subtraction of UInt32 values. */
  function WrapSub(a: nat, b: nat): (r: nat)
    requires a < U32 && b < U32
    ensures r < U32
  {
    if a >= b then a - b else a + U32 - b
  }

  lemma WrapSubUndone(a: nat, b: nat)
    requires a < U32 && b < U32
    ensures WrapAdd(WrapSub(a, b), b) == a
  {
  }

  lemma WrapAddCounts(n: nat, k: nat)
    ensures WrapAdd(Low32(n), k) == Low32(n + k)
  {
  }

  function Pow2(n: nat): (p: nat)
    ensures p >= 1
  {
    if n == 0 then 1 else 2 * Pow2(n - 1)
  }

  lemma {:induction false} Pow2Adds(a: nat, b: nat)
    ensures Pow2(a + b) == Pow2(a) * Pow2(b)
  {
    if a == 0 {
    } else {
      Pow2Adds(a - 1, b);
      assert Pow2(a + b) == 2 * Pow2(a - 1 + b);
    }
  }

  lemma Pow2Grows(a: nat, b: nat)
    requires a <= b
    ensures Pow2(a) <= Pow2(b)
  {
    if a < b {
      Pow2Grows(a, b - 1);
    }
  }

  lemma Pow2Of32()
    ensures Pow2(32) == U32
  {
    assert Pow2(8) == 256;
    Pow2Adds(8, 8);
    Pow2Adds(16, 16);
  }

  lemma DivUnique(x: nat, m: nat, q: nat, r: nat)
    requires x == m * q + r && r < m
    ensures x / m == q && x % m == r
  {
    var q2 := x / m;
    assert x == m * q2 + x % m;
    if q2 < q {
      Distribute(m, q2 + 1, q);
    } else if q < q2 {
      Distribute(m, q + 1, q2);
    }
  }

  lemma Distribute(m: nat, a: nat, b: nat)
    requires a <= b
    ensures m * a <= m * b
    ensures a > 0 ==> m * a == m * (a - 1) + m
  {
  }

  lemma ModOfMultiple(m: nat, a: nat, r: nat)
    requires m > 0
    ensures (m * a + r) % m == r % m
  {
    var q := r / m;
    assert r == m * q + r % m;
    assert m * (a + q) == m * a + m * q;
    DivUnique(m * a + r, m, a + q, r % m);
  }

  /** A counter that wraps at 32 bits keeps its low bits. */
  lemma LowBitsSurviveWrap(n: nat, bits: nat)
    requires bits <= 32
    ensures Low32(n) % Pow2(bits) == n % Pow2(bits)
  {
    Pow2Of32();
    Pow2Adds(bits, 32 - bits);
    SplitMod(n, Pow2(bits), Pow2(32 - bits));
  }

  lemma SplitMod(n: nat, p: nat, k: nat)
    requires p > 0 && k > 0
    ensures n % (p * k) % p == n % p
  {
    var m := p * k;
    var q, r := n / m, n % m;
    assert n == m * q + r;
    assert m * q == p * (k * q);
    ModOfMultiple(p, k * q, r);
  }
}
