// Binary numerals: the bits of an integer, in two's complement when it is negative.
module BinaryNumbers {

  /** k * 2^n. */
  function Shl(k: int, n: nat): int
    decreases n
  {
    if n == 0 then k else 2 * Shl(k, n - 1)
  }

  function Pow2(n: nat): (r: int)
    ensures r >= 1
  {
    if n == 0 then 1 else 2 * Pow2(n - 1)
  }

  function TestBit(v: int, k: nat): bool
    decreases k
  {
    if k == 0 then v % 2 == 1 else TestBit(v / 2, k - 1)
  }

  /** The number that the lowest `n` bits of `v` stand for. */
  function LowBits(v: int, n: nat): (r: int)
    ensures 0 <= r < Pow2(n)
    decreases n
  {
    if n == 0 then 0 else 2 * LowBits(v / 2, n - 1) + v % 2
  }

  function HighBits(v: int, n: nat): int
    decreases n
  {
    if n == 0 then v else HighBits(v / 2, n - 1)
  }

  lemma {:induction false} HighBitsBit(v: int, n: nat, k: nat)
    ensures TestBit(HighBits(v, n), k) == TestBit(v, k + n)
    decreases n
  {
    if n > 0 { HighBitsBit(v / 2, n - 1, k); }
  }

  lemma {:induction false} HighBitsNext(v: int, n: nat)
    ensures HighBits(v, n + 1) == HighBits(v, n) / 2
    decreases n
  {
    if n > 0 { HighBitsNext(v / 2, n - 1); }
  }

  lemma {:induction false} ShlIsTimes(k: int, n: nat)
    ensures Shl(k, n) == k * Pow2(n)
    decreases n
  {
    if n > 0 {
      ShlIsTimes(k, n - 1);
      assert 2 * (k * Pow2(n - 1)) == k * (2 * Pow2(n - 1));
    }
  }

  /** LowBits(v, n) is v modulo 2^n. */
  lemma {:induction false} LowBitsModulo(v: int, n: nat)
    ensures v == Shl(HighBits(v, n), n) + LowBits(v, n)
    decreases n
  {
    if n > 0 { LowBitsModulo(v / 2, n - 1); }
  }

  lemma HalvedSum(v: int, x: int)
    ensures (v + 2 * x) / 2 == v / 2 + x && (v + 2 * x) % 2 == v % 2
  {
  }

  /** Adding a multiple of 2^n leaves the low bits as they are. */
  lemma {:induction false} LowBitsShift(v: int, k: int, n: nat)
    ensures LowBits(v + Shl(k, n), n) == LowBits(v, n)
    decreases n
  {
    if n > 0 {
      HalvedSum(v, Shl(k, n - 1));
      LowBitsShift(v / 2, k, n - 1);
    }
  }

  lemma {:induction false} LowBitsSmall(v: int, n: nat)
    requires 0 <= v < Pow2(n)
    ensures LowBits(v, n) == v
    decreases n
  {
    if n > 0 { LowBitsSmall(v / 2, n - 1); }
  }

  lemma {:induction false} Pow2Order(m: nat, n: nat)
    requires m <= n
    ensures Pow2(m) <= Pow2(n)
    decreases n
  {
    if m < n { Pow2Order(m, n - 1); }
  }

  lemma {:induction false} ShlPow2(m: nat, n: nat)
    ensures Shl(Pow2(m), n) == Pow2(m + n) && Shl(-Pow2(m), n) == -Pow2(m + n)
    decreases n
  {
    if n > 0 { ShlPow2(m, n - 1); }
  }

  /** The top bit of an n-bit number says whether it is in the upper half. */
  lemma {:induction false} TopBit(v: int, n: nat)
    requires n >= 1 && 0 <= v < Pow2(n)
    ensures TestBit(v, n - 1) <==> v >= Pow2(n - 1)
    decreases n
  {
    if n > 1 { TopBit(v / 2, n - 1); }
  }

  /** Bits below n only depend on the value modulo 2^n. */
  lemma {:induction false} TestBitShift(v: int, c: int, k: nat, n: nat)
    requires k < n
    ensures TestBit(v + Shl(c, n), k) == TestBit(v, k)
    decreases n
  {
    HalvedSum(v, Shl(c, n - 1));
    if k > 0 { TestBitShift(v / 2, c, k - 1, n - 1); }
  }

  const TWO_63 := 0x8000_0000_0000_0000
  const TWO_64 := 0x1_0000_0000_0000_0000

  lemma Pow2Values()
    ensures Pow2(63) == TWO_63 && Pow2(64) == TWO_64
  {
    Pow2At16();
    hide Pow2;
    Pow2Adds16(16);
    Pow2Adds16(32);
    Pow2Adds16(48);
    Pow2Step(64);
  }

  lemma Pow2Step(n: nat)
    requires n > 0
    ensures Pow2(n) == 2 * Pow2(n - 1)
  {
  }

  lemma Pow2At16()
    ensures Pow2(16) == 0x1_0000
  {
    assert Pow2(4) == 0x10;
    assert Pow2(8) == 0x100;
    assert Pow2(12) == 0x1000;
  }

  lemma Pow2Adds16(n: nat)
    ensures Pow2(n + 16) == 0x1_0000 * Pow2(n)
  {
    hide Pow2;
    Pow2Adds4(n);
    Pow2Adds4(n + 4);
    Pow2Adds4(n + 8);
    Pow2Adds4(n + 12);
  }

  lemma Pow2Adds4(n: nat)
    ensures Pow2(n + 4) == 0x10 * Pow2(n)
  {
    Pow2Step(n + 1);
    Pow2Step(n + 2);
    Pow2Step(n + 3);
    Pow2Step(n + 4);
  }

  // ---------------------------------------------------------------- machine integers

  // A value within one wrap-around of its type, as uint64_t and as int64_t.
  function U64(v: int): int {
    if v < 0 then v + TWO_64 else if v >= TWO_64 then v - TWO_64 else v
  }

  function S64(v: int): int {
    if v >= TWO_63 then v - TWO_64 else if v < -TWO_63 then v + TWO_64 else v
  }

  predicate IsS64(v: int) { -TWO_63 <= v < TWO_63 }
  predicate IsU64(v: int) { 0 <= v < TWO_64 }

  /** A wrap-around of 64 bits changes no bit of a narrower field. */
  lemma WrapKeepsBits(v: int, n: nat)
    requires n <= 64
    ensures LowBits(U64(v), n) == LowBits(v, n) == LowBits(S64(v), n)
    ensures forall k: nat :: k < n ==> TestBit(U64(v), k) == TestBit(v, k)
  {
    hide Pow2, LowBits, Shl, TestBit;
    Pow2Values();
    ShlPow2(64 - n, n);
    LowBitsShift(v, Pow2(64 - n), n);
    LowBitsShift(v, -Pow2(64 - n), n);
    forall k: nat | k < n ensures TestBit(U64(v), k) == TestBit(v, k) {
      TestBitShift(v, Pow2(64 - n), k, n);
      TestBitShift(v, -Pow2(64 - n), k, n);
    }
  }
}
