/** Fixed-width unsigned arithmetic, as the program computes it. */
module Machine {
  const U64_MAX: nat := 0xFFFF_FFFF_FFFF_FFFF
  const U32_MAX: nat := 0xFFFF_FFFF

  type u64 = x: int | 0 <= x <= U64_MAX
  type u32 = x: int | 0 <= x <= U32_MAX

  /** The nearest representable value. */
  function Sat(x: nat): u64 {
    if x <= U64_MAX then x else U64_MAX
  }

  function SatAdd(a: u64, b: u64): u64 {
    Sat(a + b)
  }

  function SatMul(a: u64, b: u64): u64 {
    Product(a, b);
    Sat(a * b)
  }

  lemma Product(a: nat, b: nat)
    ensures a * b >= 0
  {
  }

  /** The quotient, rounded up. */
  function CeilDiv(a: nat, b: nat): (q: nat)
    requires b > 0
    ensures q * b >= a && (a > 0 ==> (q - 1) * b < a)
  {
    var q := a / b;
    if a % b == 0 then q else q + 1
  }

  function Pow2(n: nat): (r: nat)
    ensures r > 0
  {
    if n == 0 then 1 else 2 * Pow2(n - 1)
  }

  /** Bits needed to write `d`: the word size less its leading zeros. */
  function BitLength(d: nat): nat {
    if d == 0 then 0 else 1 + BitLength(d / 2)
  }

  lemma {:induction false} BitLengthBounds(d: nat)
    requires d > 0
    ensures BitLength(d) >= 1
    ensures Pow2(BitLength(d) - 1) <= d < Pow2(BitLength(d))
  {
    if d > 1 {
      BitLengthBounds(d / 2);
    }
  }

  lemma {:induction false} Pow2Monotone(m: nat, n: nat)
    requires m <= n
    ensures Pow2(m) <= Pow2(n)
    decreases n - m
  {
    if m < n {
      Pow2Monotone(m + 1, n);
    }
  }

  lemma {:induction false} BitLengthMonotone(a: nat, b: nat)
    requires a <= b
    ensures BitLength(a) <= BitLength(b)
  {
    if a > 0 {
      BitLengthMonotone(a / 2, b / 2);
    }
  }

  lemma {:induction false} Pow2Sum(m: nat, n: nat)
    ensures Pow2(m + n) == Pow2(m) * Pow2(n)
  {
    if m > 0 {
      Pow2Sum(m - 1, n);
      assert Pow2(m + n) == 2 * Pow2(m + n - 1);
    }
  }

  lemma WordLimits()
    ensures Pow2(62) == 0x4000_0000_0000_0000
    ensures Pow2(63) == 0x8000_0000_0000_0000
    ensures Pow2(64) == U64_MAX + 1
  {
    SmallPowers();
    Pow2Sum(16, 16);
    Pow2Sum(32, 32);
    Pow2Sum(62, 1);
    Pow2Sum(63, 1);
    hide Pow2;
  }

  lemma SmallPowers()
    ensures Pow2(1) == 2 && Pow2(16) == 0x1_0000
  {
    assert Pow2(1) == 2 * Pow2(0);
    Pow2Sum(1, 1);
    Pow2Sum(2, 2);
    Pow2Sum(4, 4);
    Pow2Sum(8, 8);
    hide Pow2;
  }
}
