// crc64.c: the bit-by-bit CRC64 on numbers of 64 bits, and its detection of bursts.
module Crc64 {
  import opened BinaryNumbers
  import opened CrcDivision

  const POLY := 0xad93d23594c935a9

  // Octets, as numbers.
  type Data = seq<int>

  predicate IsData(d: Data) {
    forall i :: 0 <= i < |d| ==> 0 <= d[i] < 256
  }

  // ---------------------------------------------------------------- numbers as lists of bits

  /** The lowest `n` bits, the most significant first. */
  function Msb(v: int, n: nat): (r: Poly)
    ensures |r| == n
  {
    seq(n, i requires 0 <= i < n => TestBit(v, n - 1 - i))
  }

  /** The lowest `n` bits, the least significant first. */
  function Lsb(v: int, n: nat): (r: Poly)
    ensures |r| == n
  {
    seq(n, i requires 0 <= i < n => TestBit(v, i))
  }

  /** Exclusive or of the lowest `n` bits. */
  function Xor(a: int, b: int, n: nat): (r: int)
    ensures 0 <= r < Pow2(n)
    decreases n
  {
    if n == 0 then 0 else 2 * Xor(a / 2, b / 2, n - 1) + if a % 2 != b % 2 then 1 else 0
  }

  lemma {:induction false} XorBit(a: int, b: int, n: nat, k: nat)
    requires k < n
    ensures TestBit(Xor(a, b, n), k) == (TestBit(a, k) != TestBit(b, k))
    decreases n
  {
    if k > 0 { XorBit(a / 2, b / 2, n - 1, k - 1); }
  }

  lemma XorMsb(a: int, b: int, n: nat)
    ensures Msb(Xor(a, b, n), n) == Plus(Msb(a, n), Msb(b, n))
  {
    forall i | 0 <= i < n ensures Msb(Xor(a, b, n), n)[i] == Plus(Msb(a, n), Msb(b, n))[i] {
      XorBit(a, b, n, n - 1 - i);
    }
  }

  lemma XorLsb(a: int, b: int, n: nat)
    ensures Lsb(Xor(a, b, n), n) == Plus(Lsb(a, n), Lsb(b, n))
  {
    forall i | 0 <= i < n ensures Lsb(Xor(a, b, n), n)[i] == Plus(Lsb(a, n), Lsb(b, n))[i] {
      XorBit(a, b, n, i);
    }
  }

  lemma {:induction false} SameBits(a: int, b: int, n: nat)
    requires 0 <= a < Pow2(n) && 0 <= b < Pow2(n)
    requires forall k: nat :: k < n ==> TestBit(a, k) == TestBit(b, k)
    ensures a == b
    decreases n
  {
    if n > 0 {
      assert TestBit(a, 0) == TestBit(b, 0);
      forall k: nat | k < n - 1 ensures TestBit(a / 2, k) == TestBit(b / 2, k) {
        assert TestBit(a, k + 1) == TestBit(b, k + 1);
      }
      SameBits(a / 2, b / 2, n - 1);
    }
  }

  lemma SameLsb(a: int, b: int, n: nat)
    requires 0 <= a < Pow2(n) && 0 <= b < Pow2(n) && Lsb(a, n) == Lsb(b, n)
    ensures a == b
  {
    forall k: nat | k < n ensures TestBit(a, k) == TestBit(b, k) {
      assert Lsb(a, n)[k] == Lsb(b, n)[k];
    }
    SameBits(a, b, n);
  }

  // ---------------------------------------------------------------- shifts of 64 bits

  // crc <<= 1
  function Doubled(v: int): int {
    if 2 * v >= TWO_64 then 2 * v - TWO_64 else 2 * v
  }

  lemma DoubledBit(v: int, k: nat)
    requires IsU64(v) && k < 64
    ensures IsU64(Doubled(v)) && (TestBit(Doubled(v), k) <==> k > 0 && TestBit(v, k - 1))
  {
    hide TestBit;
    TestBitOfDouble(v, k);
    WrapKeepsBits(2 * v, 64);
  }

  lemma TestBitOfDouble(v: int, k: nat)
    ensures TestBit(2 * v, k) <==> k > 0 && TestBit(v, k - 1)
  {
  }

  lemma DoubledMsb(v: int)
    requires IsU64(v)
    ensures Msb(Doubled(v), 64) == Msb(v, 64)[1..] + [false]
    ensures Msb(v, 64)[0] <==> v >= TWO_63
  {
    hide TestBit, Doubled;
    Pow2Values();
    TopBit(v, 64);
    forall i | 0 <= i < 64 ensures Msb(Doubled(v), 64)[i] == (Msb(v, 64)[1..] + [false])[i] {
      DoubledBit(v, 63 - i);
    }
  }

  // ---------------------------------------------------------------- crc_reflect

  /** The number with the 64 bits in the other order. */
  method CrcReflect(data: int) returns (ret: int)
    requires IsU64(data)
    ensures IsU64(ret) && Lsb(ret, 64) == Msb(data, 64)
  {
    hide TestBit, Lsb, Msb, HighBits, Pow2;
    Pow2Values();
    var d := data;
    ret := d % 2;
    ReflectBegins(data);
    var i := 1;
    while i < 64
      invariant 1 <= i <= 64 && d == HighBits(data, i - 1) && 0 <= ret < Pow2(i) && Mirrors(ret, data, i)
    {
      HighBitsNext(data, i - 1);
      d := d / 2;
      ReflectStep(ret, data, i);
      ret := 2 * ret + d % 2;
      i := i + 1;
    }
    ReflectEnds(data, ret);
  }

  /** The lowest `n` bits of `ret` are those of `data`, the other way round. */
  ghost predicate Mirrors(ret: int, data: int, n: nat) {
    forall k: nat :: k < n ==> TestBit(ret, k) == TestBit(data, n - 1 - k)
  }

  lemma ReflectBegins(data: int)
    ensures Pow2(1) == 2 && Mirrors(data % 2, data, 1) && HighBits(data, 0) == data
  {
    assert TestBit(data % 2, 0) == TestBit(data, 0);
  }

  lemma ReflectStep(ret: int, data: int, n: nat)
    requires Mirrors(ret, data, n) && 0 <= ret < Pow2(n)
    ensures Mirrors(2 * ret + HighBits(data, n) % 2, data, n + 1)
    ensures 0 <= 2 * ret + HighBits(data, n) % 2 < Pow2(n + 1)
  {
    hide HighBits;
    var b := HighBits(data, n) % 2;
    HighBitsBit(data, n, 0);
    assert TestBit(HighBits(data, n), 0) <==> b == 1;
    var next := 2 * ret + b;
    forall k: nat | k < n + 1 ensures TestBit(next, k) == TestBit(data, n + 1 - 1 - k) {
      if k > 0 {
        assert TestBit(next, k) == TestBit(ret, k - 1);
        assert TestBit(ret, k - 1) == TestBit(data, n - 1 - (k - 1));
      }
    }
  }

  lemma ReflectEnds(data: int, ret: int)
    requires Mirrors(ret, data, 64)
    ensures Lsb(ret, 64) == Msb(data, 64)
  {
    hide TestBit;
  }

  // ---------------------------------------------------------------- _crc64

  /** The bits of the message as they are fed in: of each octet the least significant first. */
  function MessageBits(d: Data): (r: Poly)
    ensures |r| == 8 * |d|
  {
    if d == [] then [] else MessageBits(d[..|d| - 1]) + Lsb(d[|d| - 1], 8)
  }

  function Divisor(): (r: Poly)
    ensures |r| == 64
  {
    Msb(POLY, 64)
  }

  /** The check value as a polynomial; the method returns it with its bits reflected. */
  function Checksum(crc0: int, d: Data): Poly {
    Remainder(Plus(MessageBits(d) + Zeros(64), Msb(crc0, 64)), Divisor())
  }

  lemma ChecksumIsRun(crc0: int, d: Data)
    ensures Checksum(crc0, d) == Run(Msb(crc0, 64), MessageBits(d), Divisor())
  {
    hide Run, Remainder, Msb, MessageBits;
    RegisterDivides(Msb(crc0, 64), MessageBits(d), Divisor());
  }

  // One round of the inner loop. `bit` is the input bit.
  function StepBit(crc: int, bit: bool): int {
    var c := Doubled(crc);
    if (crc >= TWO_63) != bit then Xor(c, POLY, 64) else c
  }

  lemma StepBitIsStep(crc: int, bit: bool)
    requires IsU64(crc)
    ensures IsU64(StepBit(crc, bit)) && Msb(StepBit(crc, bit), 64) == Step(Msb(crc, 64), bit, Divisor())
  {
    hide Msb, Xor, Pow2;
    Pow2Values();
    DoubledMsb(crc);
    DoubledBit(crc, 0);
    XorMsb(Doubled(crc), POLY, 64);
    PlusNothing(Msb(Doubled(crc), 64));
  }

  lemma PlusNothing(p: Poly)
    ensures Plus(p, Zeros(|p|)) == p
  {
  }

  method Crc64Bits(crc0: int, data: Data) returns (r: int)
    requires IsU64(crc0) && IsData(data)
    ensures IsU64(r) && Lsb(r, 64) == Checksum(crc0, data)
  {
    hide Msb, Lsb, Run, StepBit, MessageBits, TestBit, Checksum;
    var crc := crc0;
    var offset := 0;
    BeforeTheFirst(data);
    RunStep(Msb(crc, 64), [], Divisor());
    while offset < |data|
      invariant 0 <= offset <= |data| && IsU64(crc)
      invariant Msb(crc, 64) == Run(Msb(crc0, 64), MessageBits(data[..offset]), Divisor())
    {
      var c := data[offset];
      ghost var before := crc;
      var i := 0;
      RunStep(Msb(crc, 64), Lsb(c, 8)[..0], Divisor());
      while i < 8
        invariant 0 <= i <= 8 && IsU64(crc)
        invariant Msb(crc, 64) == Run(Msb(before, 64), Lsb(c, 8)[..i], Divisor())
      {
        // bit = crc & 0x8000000000000000; if (c & 1 << i) bit = !bit;
        StepBitIsStep(crc, TestBit(c, i));
        OneMoreBit(Msb(before, 64), c, i);
        crc := StepBit(crc, TestBit(c, i));
        i := i + 1;
      }
      assert Lsb(c, 8)[..8] == Lsb(c, 8);
      OneMoreOctet(data, offset);
      RunSplits(Msb(crc0, 64), MessageBits(data[..offset]), Lsb(c, 8), Divisor());
      offset := offset + 1;
    }
    assert data[..offset] == data;
    ChecksumIsRun(crc0, data);
    r := CrcReflect(crc);
  }

  lemma BeforeTheFirst(data: Data)
    ensures MessageBits(data[..0]) == []
  {
  }

  lemma OneMoreOctet(data: Data, n: nat)
    requires n < |data|
    ensures MessageBits(data[..n + 1]) == MessageBits(data[..n]) + Lsb(data[n], 8)
  {
    assert data[..n + 1][..n] == data[..n];
  }

  lemma OneMoreBit(reg: Poly, c: int, i: nat)
    requires |reg| == 64 && i < 8
    ensures Run(reg, Lsb(c, 8)[..i + 1], Divisor()) ==
            Step(Run(reg, Lsb(c, 8)[..i], Divisor()), TestBit(c, i), Divisor())
  {
    hide Run, Divisor, Step;
    assert Lsb(c, 8)[..i + 1] == Lsb(c, 8)[..i] + [TestBit(c, i)];
    RunSplits(reg, Lsb(c, 8)[..i], [TestBit(c, i)], Divisor());
    RunOne(Run(reg, Lsb(c, 8)[..i], Divisor()), TestBit(c, i), Divisor());
  }

  // ---------------------------------------------------------------- what it computes

  lemma {:induction false} BitsOfTwo(a: Data, b: Data)
    ensures MessageBits(a + b) == MessageBits(a) + MessageBits(b)
    decreases |b|
  {
    hide Lsb;
    if b == [] {
      assert a + b == a;
    } else {
      var c, x := b[..|b| - 1], b[|b| - 1];
      assert (a + b)[..|a + b| - 1] == a + c;
      BitsOfTwo(a, c);
    }
  }

  lemma {:induction false} MessageBitsDiffer(x: Data, y: Data)
    requires |x| == |y| && IsData(x) && IsData(y) && MessageBits(x) == MessageBits(y)
    ensures x == y
    decreases |x|
  {
    hide Lsb;
    if x != [] {
      var n := |x| - 1;
      var a, b := MessageBits(x[..n]), MessageBits(y[..n]);
      assert MessageBits(x)[..8 * n] == a && MessageBits(y)[..8 * n] == b;
      assert MessageBits(x)[8 * n..] == Lsb(x[n], 8) && MessageBits(y)[8 * n..] == Lsb(y[n], 8);
      MessageBitsDiffer(x[..n], y[..n]);
      OctetRange();
      SameLsb(x[n], y[n], 8);
      assert x == x[..n] + [x[n]] && y == y[..n] + [y[n]];
    }
  }

  lemma OctetRange()
    ensures Pow2(8) == 256
  {
    assert Pow2(4) == 16;
  }

  /** Messages that differ, and only inside eight consecutive octets, have different check values. */
  lemma EightBytesAreDetected(crc0: int, a: Data, x: Data, y: Data, c: Data)
    requires |x| == |y| <= 8 && IsData(x) && IsData(y)
    ensures Checksum(crc0, a + x + c) == Checksum(crc0, a + y + c) <==> x == y
  {
    hide Run, Remainder, MessageBits, Msb, Checksum, Divisor;
    if Checksum(crc0, a + x + c) == Checksum(crc0, a + y + c) {
      BitsOfTwo(a + x, c);
      BitsOfTwo(a, x);
      BitsOfTwo(a + y, c);
      BitsOfTwo(a, y);
      ChecksumIsRun(crc0, a + x + c);
      ChecksumIsRun(crc0, a + y + c);
      LastCoefficient();
      BurstsAreDetected(Msb(crc0, 64), MessageBits(a), MessageBits(x), MessageBits(y), MessageBits(c), Divisor());
      MessageBitsDiffer(x, y);
    }
  }

  lemma LastCoefficient()
    ensures Divisor()[63]
  {
    LastBit(POLY, 64);
    assert POLY % 2 == 1;
  }

  lemma LastBit(v: int, n: nat)
    requires n > 0
    ensures Msb(v, n)[n - 1] == (v % 2 == 1)
  {
    assert TestBit(v, 0) == (v % 2 == 1);
  }
}
