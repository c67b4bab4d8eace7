/** Powers of two: the scale in which code spaces, bit fields and ring sizes are measured. */
module Powers {
  /** The number of values of a 32-bit word. */
  const WORD: nat := 0x1_0000_0000

  function Pow2(n: nat): (p: nat)
    ensures p >= 1
  {
    if n == 0 then 1 else 2 * Pow2(n - 1)
  }

  /** `x >> k` */
  function Shr(x: nat, k: nat): nat {
    QuotientSign(x, Pow2(k)); x / Pow2(k)
  }

  /** The lowest `k` bits of `x`. */
  function Low(x: nat, k: nat): nat {
    x % Pow2(k)
  }

  lemma Pow2Unfold(n: nat)
    requires n > 0
    ensures Pow2(n) == 2 * Pow2(n - 1)
  {}

  lemma {:induction false} Pow2Add(a: nat, b: nat)
    ensures Pow2(a + b) == Pow2(a) * Pow2(b)
  {
    if a > 0 {
      Pow2Add(a - 1, b);
      assert Pow2(a + b) == 2 * Pow2(a - 1 + b);
    }
  }

  lemma {:induction false} Pow2Monotone(a: nat, b: nat)
    requires a <= b
    ensures Pow2(a) <= Pow2(b)
    ensures a < b ==> 2 * Pow2(a) <= Pow2(b)
    decreases b - a
  {
    if a < b {
      Pow2Monotone(a, b - 1);
    }
  }

  /** The powers the source spells as literals. */
  lemma Pow2Values()
    ensures Pow2(0) == 1 && Pow2(1) == 2 && Pow2(5) == 32 && Pow2(7) == 128 && Pow2(8) == 256 && Pow2(9) == 512 && Pow2(10) == 1024
    ensures Pow2(15) == 32768 && Pow2(16) == 65536 && Pow2(32) == WORD
  {
    assert Pow2(4) == 16;
    assert Pow2(8) == 256;
    Pow2Add(8, 7);
    Pow2Add(8, 8);
    Pow2Add(16, 16);
  }

  lemma Pow2Byte(n: nat)
    ensures Pow2(n + 8) == Pow2(n) * 256
  {
    Pow2Add(n, 8);
    Pow2Values();
  }

  // ---------- products, stated so that each proof mentions one at a time ----------

  lemma MulDistributes(a: int, b: int, d: int)
    ensures (a + b) * d == a * d + b * d
  {}

  lemma MulMonotone(a: int, b: int, d: int)
    requires a <= b && 0 <= d
    ensures a * d <= b * d
  {}

  lemma MulCancelLess(a: int, b: int, d: int)
    requires a * d < b * d && 0 < d
    ensures a < b
  {}

  lemma MulAssociates(a: int, b: int, c: int)
    ensures (a * b) * c == a * (b * c)
  {}

  lemma MulCancel(a: int, b: int, d: int)
    requires a * d == b * d && 0 < d
    ensures a == b
  {
    if a < b {
      MulMonotone(a + 1, b, d);
      MulDistributes(a, 1, d);
    } else if b < a {
      MulMonotone(b + 1, a, d);
      MulDistributes(b, 1, d);
    }
  }

  // ---------- quotients and remainders ----------

  lemma QuotientSign(x: nat, d: nat)
    requires d > 0
    ensures 0 <= x / d
  {}

  lemma DivMod(x: nat, d: nat)
    requires d > 0
    ensures x == x / d * d + x % d && x % d < d
  {}

  lemma DivModUnique(x: nat, q: nat, r: nat, d: nat)
    requires d > 0 && x == q * d + r && r < d
    ensures x / d == q && x % d == r
  {
    DivMod(x, d);
    if q < x / d {
      MulMonotone(q + 1, x / d, d);
      MulDistributes(q, 1, d);
    } else if x / d < q {
      MulMonotone(x / d + 1, q, d);
      MulDistributes(x / d, 1, d);
    }
  }

  lemma ModOfSum(a: nat, k: nat, d: nat)
    requires d > 0
    ensures (k * d + a) % d == a % d && (k * d + a) / d == k + a / d
  {
    DivMod(a, d);
    MulDistributes(k, a / d, d);
    DivModUnique(k * d + a, k + a / d, a % d, d);
  }

  lemma ModOfMultiple(a: nat, k: nat, e: nat, d: nat)
    requires d > 0
    ensures (k * (e * d) + a) % d == a % d
  {
    MulAssociates(k, e, d);
    ModOfSum(a, k * e, d);
  }

  lemma ModMod(x: nat, e: nat, d: nat)
    requires d > 0 && e > 0 && e * d > 0
    ensures x % (e * d) % d == x % d
  {
    DivMod(x, e * d);
    ModOfMultiple(x % (e * d), x / (e * d), e, d);
  }

  lemma LowLow(x: nat, a: nat, b: nat)
    requires b <= a
    ensures Low(Low(x, a), b) == Low(x, b)
  {
    Pow2Add(a - b, b);
    ModMod(x, Pow2(a - b), Pow2(b));
  }

  lemma DivideBelow(a: nat, b: nat, d: nat)
    requires d > 0 && b * d <= a
    ensures b <= a / d
  {
    DivMod(a, d);
    if a / d < b {
      MulMonotone(a / d + 1, b, d);
      MulDistributes(a / d, 1, d);
    }
  }

  lemma DivideAbove(a: nat, b: nat, d: nat)
    requires d > 0 && a < b * d
    ensures a / d < b
  {
    DivMod(a, d);
    if b <= a / d {
      MulMonotone(b, a / d, d);
    }
  }

  /** Halving before dividing by `p` is dividing by `2p`; so is taking the remainder. */
  lemma HalfFirst(c: nat, p: nat)
    requires p > 0
    ensures c / (2 * p) == c / 2 / p
    ensures c % (2 * p) / 2 == c / 2 % p && c % (2 * p) % 2 == c % 2
  {
    var q, r := c / 2 / p, c / 2 % p;
    DivMod(c / 2, p);
    MulAssociates(q, p, 2);
    DivModUnique(c, q, 2 * r + c % 2, 2 * p);
  }
}
