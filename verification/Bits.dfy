/** Bitwise operators on unsigned numbers, and when `+` may stand in for `|`, as
    kernel/arch/x86_64/include/mykonos/pageTables.h lets it. */
module Bits {
  function BitAnd(a: nat, b: nat): nat {
    if a == 0 || b == 0 then 0
    else 2 * BitAnd(a / 2, b / 2) + if a % 2 == 1 && b % 2 == 1 then 1 else 0
  }

  function BitOr(a: nat, b: nat): nat
    decreases a + b
  {
    if a == 0 && b == 0 then 0
    else 2 * BitOr(a / 2, b / 2) + if a % 2 == 1 || b % 2 == 1 then 1 else 0
  }

  /** Bit `k` of a number. */
  predicate Bit(a: nat, k: nat) {
    if k == 0 then a % 2 == 1 else Bit(a / 2, k - 1)
  }

  /** The operators work bit by bit. */
  lemma {:induction false} Bitwise(a: nat, b: nat, k: nat)
    ensures Bit(BitAnd(a, b), k) <==> Bit(a, k) && Bit(b, k)
    ensures Bit(BitOr(a, b), k) <==> Bit(a, k) || Bit(b, k)
    decreases k
  {
    hide BitAnd, BitOr;
    Halves(a, b);
    if k > 0 {
      Bitwise(a / 2, b / 2, k - 1);
    }
  }

  lemma Halves(a: nat, b: nat)
    ensures BitAnd(a, b) / 2 == BitAnd(a / 2, b / 2) && BitOr(a, b) / 2 == BitOr(a / 2, b / 2)
    ensures BitAnd(a, b) % 2 == 1 <==> a % 2 == 1 && b % 2 == 1
    ensures BitOr(a, b) % 2 == 1 <==> a % 2 == 1 || b % 2 == 1
  {}

  /** Adding counts every shared bit twice. */
  lemma {:induction false} SumSplits(a: nat, b: nat)
    ensures a + b == BitOr(a, b) + BitAnd(a, b)
    decreases a + b
  {
    if a + b != 0 {
      SumSplits(a / 2, b / 2);
    }
  }

  /** `+` is bitwise or exactly when no bit is shared. */
  lemma PlusIsOr(a: nat, b: nat)
    ensures a + b == BitOr(a, b) <==> BitAnd(a, b) == 0
  {
    SumSplits(a, b);
  }

  function Pow2(k: nat): nat {
    if k == 0 then 1 else 2 * Pow2(k - 1)
  }

  /** A mask of one bit tests that bit. */
  lemma {:induction false} TestBit(a: nat, k: nat)
    ensures Pow2(k) > 0
    ensures BitAnd(a, Pow2(k)) == a / Pow2(k) % 2 * Pow2(k)
    decreases k
  {
    if k == 0 {
      assert BitAnd(a / 2, 0) == 0;
    } else {
      TestBit(a / 2, k - 1);
      var p := Pow2(k - 1);
      DivDiv(a, p);
      if a != 0 {
        assert BitAnd(a, 2 * p) == 2 * BitAnd(a / 2, p);
        assert 2 * (a / 2 / p % 2 * p) == a / (2 * p) % 2 * (2 * p);
      }
    }
  }

  lemma DivDiv(a: nat, p: nat)
    requires p > 0
    ensures a / (2 * p) == a / 2 / p
  {
    var q := a / 2 / p;
    var r := a / 2 % p;
    assert a / 2 == q * p + r;
    assert a == q * (2 * p) + (2 * r + a % 2);
    assert 2 * r + a % 2 < 2 * p;
    Quotient(a, 2 * p, q, 2 * r + a % 2);
  }

  lemma SmallMultiple(x: int, d: int)
    requires -d < x * d < d
    ensures x == 0
  {}

  /** The quotient and remainder of a number given as a quotient and remainder. */
  lemma Quotient(a: nat, d: nat, q: nat, r: nat)
    requires d > 0 && a == q * d + r && r < d
    ensures a / d == q && a % d == r
  {
    var p := a / d;
    assert p * d + a % d == a;
    assert (p - q) * d == p * d - q * d;
    SmallMultiple(p - q, d);
  }

  /** Numbers below `Pow2(k)` and multiples of it share no bit. */
  lemma {:induction false} LowAndHigh(low: nat, m: nat, k: nat)
    requires low < Pow2(k)
    ensures BitAnd(low, m * Pow2(k)) == 0
    decreases k
  {
    if k > 0 && low > 0 {
      var p := Pow2(k - 1);
      assert m * Pow2(k) == 2 * (m * p);
      assert m * Pow2(k) / 2 == m * p && m * Pow2(k) % 2 == 0;
      LowAndHigh(low / 2, m, k - 1);
    }
  }
}
