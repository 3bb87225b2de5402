/** The page rounding of the shared-memory example: (x + ~MASK) & MASK on a 64-bit size. */
module PageRounding {
  const WORD_BITS := 64
  const PAGE_BITS := 12
  const PAGE_SIZE := 4096
  const SIZE_RANGE := 0x1_0000_0000_0000_0000

  function Pow2(n: nat): (p: nat)
    ensures p > 0
  {
    if n == 0 then 1 else 2 * Pow2(n - 1)
  }

  /** The bitwise and of two words. */
  function And(a: nat, b: nat): nat
  {
    if a == 0 || b == 0 then 0 else 2 * And(a / 2, b / 2) + (a % 2) * (b % 2)
  }

  /** The complement of a word of 64 bits. */
  function Not(a: nat): nat
    requires a < SIZE_RANGE
  {
    SIZE_RANGE - 1 - a
  }

  /** The words below 2^n keep all their bits under n ones. */
  lemma {:induction false} AndOnes(a: nat, n: nat)
    requires a < Pow2(n)
    ensures And(a, Pow2(n) - 1) == a
  {
    if n == 0 || a == 0 {
    } else {
      AndOnes(a / 2, n - 1);
      assert (Pow2(n) - 1) / 2 == Pow2(n - 1) - 1;
    }
  }

  lemma AndEven(a: nat, m: nat)
    ensures And(a, 2 * m) == 2 * And(a / 2, m)
  {
    if a == 0 || m == 0 {
      assert And(a, 2 * m) == 0 == And(a / 2, m);
    } else {
      assert 2 * m / 2 == m && 2 * m % 2 == 0;
      assert And(a, 2 * m) == 2 * And(a / 2, m) + (a % 2) * 0;
    }
  }

  /** The k low bits set to 0. */
  function Clear(a: nat, k: nat): nat
  {
    if k == 0 then a else 2 * Clear(a / 2, k - 1)
  }

  /** Under n ones followed by k zeros, a word loses its k low bits. */
  lemma {:induction false} AndClears(a: nat, n: nat, k: nat)
    requires a < Pow2(n + k)
    ensures Pow2(k) <= Pow2(n + k) && And(a, Pow2(n + k) - Pow2(k)) == Clear(a, k)
  {
    if k == 0 {
      AndOnes(a, n);
    } else {
      AndClears(a / 2, n, k - 1);
      AndEven(a, Pow2(n + k - 1) - Pow2(k - 1));
    }
  }

  lemma {:induction false} ClearTakesTheRest(a: nat, k: nat)
    ensures Clear(a, k) <= a < Clear(a, k) + Pow2(k)
  {
    if k == 0 {
    } else {
      ClearTakesTheRest(a / 2, k - 1);
    }
  }

  lemma ClearFour(a: nat, k: nat) returns (b: nat)
    ensures Clear(a, k + 4) == 16 * Clear(b, k)
  {
    b := a / 2 / 2 / 2 / 2;
    assert Clear(a, k + 4) == 2 * Clear(a / 2, k + 3);
    assert Clear(a / 2, k + 3) == 2 * Clear(a / 2 / 2, k + 2);
    assert Clear(a / 2 / 2, k + 2) == 2 * Clear(a / 2 / 2 / 2, k + 1);
  }

  lemma RemainderIs(a: nat, q: nat)
    requires PAGE_SIZE * q <= a < PAGE_SIZE * q + PAGE_SIZE
    ensures PAGE_SIZE * q == a - a % PAGE_SIZE
  {
  }

  lemma ClearPage(a: nat)
    ensures Clear(a, PAGE_BITS) == a - a % PAGE_SIZE
  {
    Sizes();
    ClearTakesTheRest(a, PAGE_BITS);
    var b := ClearFour(a, 8);
    var c := ClearFour(b, 4);
    var q := ClearFour(c, 0);
    RemainderIs(a, q);
  }

  lemma NextByte(n: nat)
    ensures Pow2(n + 8) == 256 * Pow2(n)
  {
    assert Pow2(n + 1) == 2 * Pow2(n);
    assert Pow2(n + 2) == 2 * Pow2(n + 1);
    assert Pow2(n + 4) == 4 * Pow2(n + 2);
    assert Pow2(n + 6) == 4 * Pow2(n + 4);
    assert Pow2(n + 8) == 4 * Pow2(n + 6);
  }

  lemma Sizes()
    ensures Pow2(PAGE_BITS) == PAGE_SIZE && Pow2(WORD_BITS) == SIZE_RANGE
  {
    NextByte(4);
    NextByte(0);
    NextByte(8);
    NextByte(16);
    NextByte(24);
    NextByte(32);
    NextByte(40);
    NextByte(48);
    NextByte(56);
  }

  /** The macro on a 64-bit size: the addition wraps around, and the mask is the complement of PAGE_SIZE - 1. */
  function RoundUp(x: nat): nat
    requires x < SIZE_RANGE
  {
    And((x + (PAGE_SIZE - 1)) % SIZE_RANGE, Not(PAGE_SIZE - 1))
  }

  predicate Multiple(x: nat) { x % PAGE_SIZE == 0 }

  lemma LeastMultiple(x: nat, r: nat, m: nat)
    requires Multiple(r) && Multiple(m) && x <= m && r < x + PAGE_SIZE
    ensures r <= m
  {
    var i, j := r / PAGE_SIZE, m / PAGE_SIZE;
    assert r == i * PAGE_SIZE && m == j * PAGE_SIZE;
  }

  lemma RoundUpDropsRemainder(x: nat)
    requires x < SIZE_RANGE
    ensures var y := (x + (PAGE_SIZE - 1)) % SIZE_RANGE; RoundUp(x) == y - y % PAGE_SIZE
  {
    Sizes();
    var y := (x + (PAGE_SIZE - 1)) % SIZE_RANGE;
    AndClears(y, WORD_BITS - PAGE_BITS, PAGE_BITS);
    ClearPage(y);
  }

  /** The result is at least x exactly when the addition does not wrap around, and then it is
      the least multiple of the page size that is not below x. */
  lemma RoundUpIsLeastMultiple(x: nat)
    requires x < SIZE_RANGE
    ensures x <= RoundUp(x) <==> x + (PAGE_SIZE - 1) < SIZE_RANGE
    ensures Multiple(RoundUp(x)) && forall m: nat :: Multiple(m) && x <= m ==> RoundUp(x) <= m
  {
    RoundUpDropsRemainder(x);
    forall m: nat | Multiple(m) && x <= m ensures RoundUp(x) <= m {
      LeastMultiple(x, RoundUp(x), m);
    }
  }

  /** The segment asked for holds the int and the page of DATA_INFO, in two pages. */
  lemma DataInfoTakesTwoPages()
    ensures RoundUp(4 + PAGE_SIZE) == RoundUp(4100) == 2 * 4096
  {
    RoundUpDropsRemainder(4 + PAGE_SIZE);
  }

  /** The same on machine words of 64 bits: y & ~4095 is y - y % 4096. */
  lemma MaskDropsRemainder(y: bv64)
    ensures y & !4095 == y - y % 4096
  {
  }
}
