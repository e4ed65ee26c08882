// bitops.c: integers of any width at any bit offset, and their overflow policies.
module Bitfield {
  import opened BitMap
  import opened BinaryNumbers

  // ---------------------------------------------------------------- the field at an offset

  /** The bit of a string that is followed by zeroes without end. */
  predicate PaddedBit(s: Bytes, i: int) {
    0 <= i < 8 * |s| && BitAt(s, i)
  }

  /** The unsigned number in `bits` bits from `offset`. */
  function Field(s: Bytes, offset: int, bits: nat): (r: int)
    ensures 0 <= r < Pow2(bits)
    decreases bits
  {
    if bits == 0 then 0 else 2 * Field(s, offset, bits - 1) + Flag(PaddedBit(s, offset + bits - 1))
  }

  lemma ExampleBits(s: Bytes)
    requires s == [0x12, 0xF4]
    ensures !PaddedBit(s, 4) && !PaddedBit(s, 5) && PaddedBit(s, 6) && !PaddedBit(s, 7)
    ensures PaddedBit(s, 8) && PaddedBit(s, 9) && PaddedBit(s, 10) && PaddedBit(s, 11)
    ensures !PaddedBit(s, 12) && PaddedBit(s, 13) && !PaddedBit(s, 14) && !PaddedBit(s, 15)
    ensures !PaddedBit(s, 16) && !PaddedBit(s, 17)
  {
  }

  /** In the bytes 0x12 0xF4, the eight bits from bit 4 are 0x2F, and the four behind them 4; past the end there are
      zeroes. */
  lemma FieldExample(s: Bytes)
    requires s == [0x12, 0xF4]
    ensures Field(s, 4, 8) == 0x2F && Field(s, 12, 4) == 4 && Field(s, 15, 3) == 0
    ensures Value(s, 8, 4, true) == -1 && Value(s, 8, 4, false) == 15
  {
    ExampleBits(s);
    hide PaddedBit;
    assert Field(s, 4, 3) == 1 && Field(s, 4, 5) == 5 && Field(s, 4, 8) == 0x2F;
    assert Field(s, 8, 4) == 15 && Field(s, 12, 4) == 4 && Field(s, 15, 3) == 0;
    assert Pow2(3) == 8 && Pow2(4) == 16;
  }

  /** An n-bit number as a signed one, in two's complement. */
  function Signed(u: int, bits: nat): int
    requires bits >= 1
  {
    if u >= Pow2(bits - 1) then u - Pow2(bits) else u
  }

  function Value(s: Bytes, offset: int, bits: nat, sign: bool): int
    requires bits >= 1
  {
    if sign then Signed(Field(s, offset, bits), bits) else Field(s, offset, bits)
  }

  function Lo(bits: nat, sign: bool): int
    requires bits >= 1
  {
    if sign then -Pow2(bits - 1) else 0
  }

  function Hi(bits: nat, sign: bool): int
    requires bits >= 1
  {
    if sign then Pow2(bits - 1) - 1 else Pow2(bits) - 1
  }

  /** The value in range that is congruent to `v` modulo 2^bits. */
  function Wrapped(v: int, bits: nat, sign: bool): (r: int)
    requires bits >= 1
  {
    if sign then Signed(LowBits(v, bits), bits) else LowBits(v, bits)
  }

  lemma InRange(u: int, bits: nat)
    requires bits >= 1 && 0 <= u < Pow2(bits)
    ensures Lo(bits, true) <= Signed(u, bits) <= Hi(bits, true)
    ensures LowBits(Signed(u, bits), bits) == u
  {
    hide Pow2, LowBits, Shl;
    LowBitsSmall(u, bits);
    Pow2Step(bits);
    MinusPow2(u, bits);
  }

  lemma MinusPow2(u: int, bits: nat)
    ensures LowBits(u - Pow2(bits), bits) == LowBits(u, bits) == LowBits(u + Pow2(bits), bits)
  {
    hide LowBits, Shl;
    assert Pow2(0) == 1;
    ShlPow2(0, bits);
    LowBitsShift(u, -1, bits);
    LowBitsShift(u, 1, bits);
  }

  lemma WrappedInRange(v: int, bits: nat, sign: bool)
    requires bits >= 1
    ensures Lo(bits, sign) <= Wrapped(v, bits, sign) <= Hi(bits, sign)
    ensures LowBits(Wrapped(v, bits, sign), bits) == LowBits(v, bits)
    ensures Lo(bits, sign) <= v <= Hi(bits, sign) ==> Wrapped(v, bits, sign) == v
  {
    hide Pow2, LowBits;
    Pow2Step(bits);
    InRange(LowBits(v, bits), bits);
    LowBitsSmall(LowBits(v, bits), bits);
    if 0 <= v < Pow2(bits) { LowBitsSmall(v, bits); }
    if -Pow2(bits) <= v < 0 {
      MinusPow2(v, bits);
      LowBitsSmall(v + Pow2(bits), bits);
    }
  }

  /** A field is determined by its bits. */
  lemma {:induction false} FieldOfBits(s: Bytes, offset: int, bits: nat, v: int)
    requires forall i :: offset <= i < offset + bits ==> PaddedBit(s, i) == TestBit(v, offset + bits - 1 - i)
    ensures Field(s, offset, bits) == LowBits(v, bits)
    decreases bits
  {
    hide PaddedBit;
    if bits > 0 {
      FieldOfBits(s, offset, bits - 1, v / 2);
    }
  }

  lemma {:induction false} SameField(s: Bytes, offset: int, t: Bytes, offset2: int, bits: nat)
    requires forall i :: offset <= i < offset + bits ==> PaddedBit(s, i) == PaddedBit(t, offset2 + (i - offset))
    ensures Field(s, offset, bits) == Field(t, offset2, bits)
    decreases bits
  {
    hide PaddedBit;
    if bits > 0 {
      SameField(s, offset, t, offset2, bits - 1);
    }
  }

  // ---------------------------------------------------------------- set and get

  /** The byte with the bit at `j` replaced. */
  function WithBit(b: bv8, j: int, v: bool): bv8 {
    (b & !Mask(j)) | (if v then Mask(j) else 0)
  }

  lemma WithBitBits(b: bv8, j: int, v: bool, k: int)
    requires 0 <= j < 8 && 0 <= k < 8
    ensures BitOf(WithBit(b, j, v), k) == if k == j then v else BitOf(b, k)
  {
    hide Mask;
    MasksApart(j, k);
    SetOneBit(b, Mask(j), Mask(k), v);
  }

  lemma MasksApart(j: int, k: int)
    requires 0 <= j < 8 && 0 <= k < 8
    ensures Mask(j) != 0 && (j != k ==> Mask(j) & Mask(k) == 0)
  {
  }

  lemma SetOneBit(b: bv8, m: bv8, n: bv8, v: bool)
    requires m != 0 && (n == m || m & n == 0)
    ensures ((b & !m) | (if v then m else 0)) & n != 0 <==> if n == m then v else b & n != 0
  {
  }

  method SetUnsignedBitfield(p: array<bv8>, offset: int, bits: int, value: int)
    requires 0 <= offset && 0 <= bits && offset + bits <= 8 * p.Length
    modifies p
    ensures forall i :: 0 <= i < 8 * p.Length ==>
              BitAt(p[..], i) == if offset <= i < offset + bits
                                 then TestBit(value, offset + bits - 1 - i) else old(BitAt(p[..], i))
  {
    hide TestBit, BitOf, WithBit;
    var j := 0;
    while j < bits
      invariant 0 <= j <= bits
      invariant forall i :: 0 <= i < 8 * p.Length ==>
                  BitAt(p[..], i) == if offset <= i < offset + j
                                     then TestBit(value, offset + bits - 1 - i) else old(BitAt(p[..], i))
    {
      var bitval := TestBit(value, bits - 1 - j);
      SetBit(p, offset + j, bitval);
      j := j + 1;
    }
  }

  // byteval &= ~(1 << bit); byteval |= bitval << bit
  method SetBit(p: array<bv8>, at: int, bitval: bool)
    requires 0 <= at < 8 * p.Length
    modifies p
    ensures forall i :: 0 <= i < 8 * p.Length ==> BitAt(p[..], i) == if i == at then bitval else old(BitAt(p[..], i))
  {
    hide BitOf, WithBit;
    var byte, bit := at / 8, at % 8;
    ghost var before := p[byte];
    p[byte] := WithBit(p[byte], bit, bitval);
    forall i | 0 <= i < 8 * p.Length
      ensures BitAt(p[..], i) == if i == at then bitval else old(BitAt(p[..], i))
    {
      if i / 8 == byte { WithBitBits(before, bit, bitval, i % 8); }
    }
  }

  method GetUnsignedBitfield(p: Bytes, offset: int, bits: int) returns (value: int)
    requires 0 <= offset && 0 <= bits <= 64 && offset + bits <= 8 * |p|
    ensures value == Field(p, offset, bits)
  {
    hide BitOf;
    value := 0;
    var j := 0;
    while j < bits
      invariant 0 <= j <= bits && value == Field(p, offset, j)
    {
      var byteval := p[(offset + j) / 8];
      var bitval := BitOf(byteval, (offset + j) % 8);
      // value < 2^j, so nothing is shifted out of the 64 bits.
      value := 2 * value + if bitval then 1 else 0;
      j := j + 1;
    }
  }

  method GetSignedBitfield(p: Bytes, offset: int, bits: int) returns (value: int)
    requires 0 <= offset && 1 <= bits <= 64 && offset + bits <= 8 * |p|
    ensures value == Value(p, offset, bits, true)
  {
    hide Field;
    Pow2Values();
    var u := GetUnsignedBitfield(p, offset, bits);
    TopBit(u, bits);
    Pow2Step(bits);
    value := S64(u);
    if bits < 64 && TestBit(u, bits - 1) {
      Pow2Order(bits, 63);
      // value |= (uint64_t)-1 << bits, on a value below 2^bits
      value := value - Pow2(bits);
    }
    if bits < 64 { Pow2Order(bits, 63); }
  }

  /** Reading a field that was just written: the value modulo 2^bits; and every other bit is as it was. */
  lemma ReadAfterWrite(s: Bytes, t: Bytes, offset: int, bits: nat, v: int)
    requires |s| == |t| && 0 <= offset && 1 <= bits && offset + bits <= 8 * |t|
    requires forall i :: 0 <= i < 8 * |t| ==>
               BitAt(t, i) == if offset <= i < offset + bits then TestBit(v, offset + bits - 1 - i) else BitAt(s, i)
    ensures Value(t, offset, bits, false) == Wrapped(v, bits, false)
    ensures Value(t, offset, bits, true) == Wrapped(v, bits, true)
  {
    hide TestBit, LowBits, Field, BitAt;
    FieldOfBits(t, offset, bits, v);
  }
}
