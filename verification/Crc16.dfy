// crc16.c: the table-driven CRC16 is bit-by-bit division by x^16 + x^12 + x^5 + 1.
module Crc16 {
  import opened BitMap
  import opened CrcDivision

  // crc16tab, in rows of sixteen.
  function TableRow(high: bv8): (r: seq<bv16>)
    ensures |r| == 16
  {
    if high == 0 then
      [0x0000, 0x1021, 0x2042, 0x3063, 0x4084, 0x50a5, 0x60c6, 0x70e7,
       0x8108, 0x9129, 0xa14a, 0xb16b, 0xc18c, 0xd1ad, 0xe1ce, 0xf1ef]
    else if high == 1 then
      [0x1231, 0x0210, 0x3273, 0x2252, 0x52b5, 0x4294, 0x72f7, 0x62d6,
       0x9339, 0x8318, 0xb37b, 0xa35a, 0xd3bd, 0xc39c, 0xf3ff, 0xe3de]
    else if high == 2 then
      [0x2462, 0x3443, 0x0420, 0x1401, 0x64e6, 0x74c7, 0x44a4, 0x5485,
       0xa56a, 0xb54b, 0x8528, 0x9509, 0xe5ee, 0xf5cf, 0xc5ac, 0xd58d]
    else if high == 3 then
      [0x3653, 0x2672, 0x1611, 0x0630, 0x76d7, 0x66f6, 0x5695, 0x46b4,
       0xb75b, 0xa77a, 0x9719, 0x8738, 0xf7df, 0xe7fe, 0xd79d, 0xc7bc]
    else if high == 4 then
      [0x48c4, 0x58e5, 0x6886, 0x78a7, 0x0840, 0x1861, 0x2802, 0x3823,
       0xc9cc, 0xd9ed, 0xe98e, 0xf9af, 0x8948, 0x9969, 0xa90a, 0xb92b]
    else if high == 5 then
      [0x5af5, 0x4ad4, 0x7ab7, 0x6a96, 0x1a71, 0x0a50, 0x3a33, 0x2a12,
       0xdbfd, 0xcbdc, 0xfbbf, 0xeb9e, 0x9b79, 0x8b58, 0xbb3b, 0xab1a]
    else if high == 6 then
      [0x6ca6, 0x7c87, 0x4ce4, 0x5cc5, 0x2c22, 0x3c03, 0x0c60, 0x1c41,
       0xedae, 0xfd8f, 0xcdec, 0xddcd, 0xad2a, 0xbd0b, 0x8d68, 0x9d49]
    else if high == 7 then
      [0x7e97, 0x6eb6, 0x5ed5, 0x4ef4, 0x3e13, 0x2e32, 0x1e51, 0x0e70,
       0xff9f, 0xefbe, 0xdfdd, 0xcffc, 0xbf1b, 0xaf3a, 0x9f59, 0x8f78]
    else if high == 8 then
      [0x9188, 0x81a9, 0xb1ca, 0xa1eb, 0xd10c, 0xc12d, 0xf14e, 0xe16f,
       0x1080, 0x00a1, 0x30c2, 0x20e3, 0x5004, 0x4025, 0x7046, 0x6067]
    else if high == 9 then
      [0x83b9, 0x9398, 0xa3fb, 0xb3da, 0xc33d, 0xd31c, 0xe37f, 0xf35e,
       0x02b1, 0x1290, 0x22f3, 0x32d2, 0x4235, 0x5214, 0x6277, 0x7256]
    else if high == 10 then
      [0xb5ea, 0xa5cb, 0x95a8, 0x8589, 0xf56e, 0xe54f, 0xd52c, 0xc50d,
       0x34e2, 0x24c3, 0x14a0, 0x0481, 0x7466, 0x6447, 0x5424, 0x4405]
    else if high == 11 then
      [0xa7db, 0xb7fa, 0x8799, 0x97b8, 0xe75f, 0xf77e, 0xc71d, 0xd73c,
       0x26d3, 0x36f2, 0x0691, 0x16b0, 0x6657, 0x7676, 0x4615, 0x5634]
    else if high == 12 then
      [0xd94c, 0xc96d, 0xf90e, 0xe92f, 0x99c8, 0x89e9, 0xb98a, 0xa9ab,
       0x5844, 0x4865, 0x7806, 0x6827, 0x18c0, 0x08e1, 0x3882, 0x28a3]
    else if high == 13 then
      [0xcb7d, 0xdb5c, 0xeb3f, 0xfb1e, 0x8bf9, 0x9bd8, 0xabbb, 0xbb9a,
       0x4a75, 0x5a54, 0x6a37, 0x7a16, 0x0af1, 0x1ad0, 0x2ab3, 0x3a92]
    else if high == 14 then
      [0xfd2e, 0xed0f, 0xdd6c, 0xcd4d, 0xbdaa, 0xad8b, 0x9de8, 0x8dc9,
       0x7c26, 0x6c07, 0x5c64, 0x4c45, 0x3ca2, 0x2c83, 0x1ce0, 0x0cc1]
    else
      [0xef1f, 0xff3e, 0xcf5d, 0xdf7c, 0xaf9b, 0xbfba, 0x8fd9, 0x9ff8,
       0x6e17, 0x7e36, 0x4e55, 0x5e74, 0x2e93, 0x3eb2, 0x0ed1, 0x1ef0]
  }

  function Table(n: bv8): bv16 {
    TableRow(n >> 4)[Nibble(n & 15)]
  }

  // ---------------------------------------------------------------- one bit at a time

  /** One step of the register with input 0. */
  function Shift(x: bv16): bv16 {
    (x << 1) ^ (if x & 0x8000 != 0 then 0x1021 else 0)
  }

  function Shift8(x: bv16): bv16 {
    Shift(Shift(Shift(Shift(Shift(Shift(Shift(Shift(x))))))))
  }

  // Each entry is the register after eight steps from its index.
  lemma Row0(low: bv8)
    requires low <= 15
    ensures TableRow(0)[Nibble(low)] == Shift8(0x0000 ^ ((low as bv16) << 8))
  {
  }

  lemma Row1(low: bv8)
    requires low <= 15
    ensures TableRow(1)[Nibble(low)] == Shift8(0x1000 ^ ((low as bv16) << 8))
  {
  }

  lemma Row2(low: bv8)
    requires low <= 15
    ensures TableRow(2)[Nibble(low)] == Shift8(0x2000 ^ ((low as bv16) << 8))
  {
  }

  lemma Row3(low: bv8)
    requires low <= 15
    ensures TableRow(3)[Nibble(low)] == Shift8(0x3000 ^ ((low as bv16) << 8))
  {
  }

  lemma Row4(low: bv8)
    requires low <= 15
    ensures TableRow(4)[Nibble(low)] == Shift8(0x4000 ^ ((low as bv16) << 8))
  {
  }

  lemma Row5(low: bv8)
    requires low <= 15
    ensures TableRow(5)[Nibble(low)] == Shift8(0x5000 ^ ((low as bv16) << 8))
  {
  }

  lemma Row6(low: bv8)
    requires low <= 15
    ensures TableRow(6)[Nibble(low)] == Shift8(0x6000 ^ ((low as bv16) << 8))
  {
  }

  lemma Row7(low: bv8)
    requires low <= 15
    ensures TableRow(7)[Nibble(low)] == Shift8(0x7000 ^ ((low as bv16) << 8))
  {
  }

  lemma Row8(low: bv8)
    requires low <= 15
    ensures TableRow(8)[Nibble(low)] == Shift8(0x8000 ^ ((low as bv16) << 8))
  {
  }

  lemma Row9(low: bv8)
    requires low <= 15
    ensures TableRow(9)[Nibble(low)] == Shift8(0x9000 ^ ((low as bv16) << 8))
  {
  }

  lemma Row10(low: bv8)
    requires low <= 15
    ensures TableRow(10)[Nibble(low)] == Shift8(0xa000 ^ ((low as bv16) << 8))
  {
  }

  lemma Row11(low: bv8)
    requires low <= 15
    ensures TableRow(11)[Nibble(low)] == Shift8(0xb000 ^ ((low as bv16) << 8))
  {
  }

  lemma Row12(low: bv8)
    requires low <= 15
    ensures TableRow(12)[Nibble(low)] == Shift8(0xc000 ^ ((low as bv16) << 8))
  {
  }

  lemma Row13(low: bv8)
    requires low <= 15
    ensures TableRow(13)[Nibble(low)] == Shift8(0xd000 ^ ((low as bv16) << 8))
  {
  }

  lemma Row14(low: bv8)
    requires low <= 15
    ensures TableRow(14)[Nibble(low)] == Shift8(0xe000 ^ ((low as bv16) << 8))
  {
  }

  lemma Row15(low: bv8)
    requires low <= 15
    ensures TableRow(15)[Nibble(low)] == Shift8(0xf000 ^ ((low as bv16) << 8))
  {
  }


  lemma Rows(high: bv8, low: bv8)
    requires high <= 15 && low <= 15
    ensures TableRow(high)[Nibble(low)] == Shift8(((high as bv16) << 12) ^ ((low as bv16) << 8))
  {
    hide TableRow, Shift8;
    if high == 0 { Row0(low); }
    else if high == 1 { Row1(low); }
    else if high == 2 { Row2(low); }
    else if high == 3 { Row3(low); }
    else if high == 4 { Row4(low); }
    else if high == 5 { Row5(low); }
    else if high == 6 { Row6(low); }
    else if high == 7 { Row7(low); }
    else if high == 8 { Row8(low); }
    else if high == 9 { Row9(low); }
    else if high == 10 { Row10(low); }
    else if high == 11 { Row11(low); }
    else if high == 12 { Row12(low); }
    else if high == 13 { Row13(low); }
    else if high == 14 { Row14(low); }
    else { Row15(low); }
  }

  lemma IndexSplits(n: bv8)
    ensures n >> 4 <= 15 && n & 15 <= 15
    ensures (((n >> 4) as bv16) << 12) ^ (((n & 15) as bv16) << 8) == (n as bv16) << 8
  {
  }

  lemma TableIsRight(n: bv8)
    ensures Table(n) == Shift8((n as bv16) << 8)
  {
    hide TableRow, Shift8, Nibble;
    IndexSplits(n);
    Rows(n >> 4, n & 15);
  }

  // ---------------------------------------------------------------- as polynomials

  // The mask of the i-th bit from the left.
  function One(i: int): bv16 {
    if i == 0 then 0x8000 else if i == 1 then 0x4000 else if i == 2 then 0x2000 else if i == 3 then 0x1000
    else if i == 4 then 0x0800 else if i == 5 then 0x0400 else if i == 6 then 0x0200 else if i == 7 then
    0x0100 else if i == 8 then 0x0080 else if i == 9 then 0x0040 else if i == 10 then 0x0020 else if i == 11
    then 0x0010 else if i == 12 then 0x0008 else if i == 13 then 0x0004 else if i == 14 then 0x0002 else
    0x0001
  }

  predicate Bit(x: bv16, m: bv16) { x & m != 0 }
  predicate Bit8(b: bv8, m: bv8) { b & m != 0 }

  /** The coefficients of a register, from x^15 to 1. */
  function Bits(x: bv16): (r: Poly)
    ensures |r| == 16
  {
    seq(16, i => Bit(x, One(i)))
  }

  // x^12 + x^5 + 1; with x^16 the divisor of the CCITT checksum.
  function Divisor(): (r: Poly)
    ensures |r| == 16
  {
    Bits(0x1021)
  }

  /** The bits of a byte, the most significant first. */
  function ByteBits(b: bv8): (r: Poly)
    ensures |r| == 8
  {
    seq(8, j => Bit8(b, Mask(j)))
  }

  function MessageBits(m: Bytes): (r: Poly)
    ensures |r| == 8 * |m|
  {
    if m == [] then [] else MessageBits(m[..|m| - 1]) + ByteBits(m[|m| - 1])
  }

  // Exclusive or, bit by bit.
  lemma Xor0(x: bv16, y: bv16) ensures Bit(x ^ y, 0x8000) <==> Bit(x, 0x8000) != Bit(y, 0x8000) { }
  lemma Xor1(x: bv16, y: bv16) ensures Bit(x ^ y, 0x4000) <==> Bit(x, 0x4000) != Bit(y, 0x4000) { }
  lemma Xor2(x: bv16, y: bv16) ensures Bit(x ^ y, 0x2000) <==> Bit(x, 0x2000) != Bit(y, 0x2000) { }
  lemma Xor3(x: bv16, y: bv16) ensures Bit(x ^ y, 0x1000) <==> Bit(x, 0x1000) != Bit(y, 0x1000) { }
  lemma Xor4(x: bv16, y: bv16) ensures Bit(x ^ y, 0x0800) <==> Bit(x, 0x0800) != Bit(y, 0x0800) { }
  lemma Xor5(x: bv16, y: bv16) ensures Bit(x ^ y, 0x0400) <==> Bit(x, 0x0400) != Bit(y, 0x0400) { }
  lemma Xor6(x: bv16, y: bv16) ensures Bit(x ^ y, 0x0200) <==> Bit(x, 0x0200) != Bit(y, 0x0200) { }
  lemma Xor7(x: bv16, y: bv16) ensures Bit(x ^ y, 0x0100) <==> Bit(x, 0x0100) != Bit(y, 0x0100) { }
  lemma Xor8(x: bv16, y: bv16) ensures Bit(x ^ y, 0x0080) <==> Bit(x, 0x0080) != Bit(y, 0x0080) { }
  lemma Xor9(x: bv16, y: bv16) ensures Bit(x ^ y, 0x0040) <==> Bit(x, 0x0040) != Bit(y, 0x0040) { }
  lemma Xor10(x: bv16, y: bv16) ensures Bit(x ^ y, 0x0020) <==> Bit(x, 0x0020) != Bit(y, 0x0020) { }
  lemma Xor11(x: bv16, y: bv16) ensures Bit(x ^ y, 0x0010) <==> Bit(x, 0x0010) != Bit(y, 0x0010) { }
  lemma Xor12(x: bv16, y: bv16) ensures Bit(x ^ y, 0x0008) <==> Bit(x, 0x0008) != Bit(y, 0x0008) { }
  lemma Xor13(x: bv16, y: bv16) ensures Bit(x ^ y, 0x0004) <==> Bit(x, 0x0004) != Bit(y, 0x0004) { }
  lemma Xor14(x: bv16, y: bv16) ensures Bit(x ^ y, 0x0002) <==> Bit(x, 0x0002) != Bit(y, 0x0002) { }
  lemma Xor15(x: bv16, y: bv16) ensures Bit(x ^ y, 0x0001) <==> Bit(x, 0x0001) != Bit(y, 0x0001) { }
  lemma Xor8Bit0(x: bv8, y: bv8) ensures Bit8(x ^ y, 0x80) <==> Bit8(x, 0x80) != Bit8(y, 0x80) { }
  lemma Xor8Bit1(x: bv8, y: bv8) ensures Bit8(x ^ y, 0x40) <==> Bit8(x, 0x40) != Bit8(y, 0x40) { }
  lemma Xor8Bit2(x: bv8, y: bv8) ensures Bit8(x ^ y, 0x20) <==> Bit8(x, 0x20) != Bit8(y, 0x20) { }
  lemma Xor8Bit3(x: bv8, y: bv8) ensures Bit8(x ^ y, 0x10) <==> Bit8(x, 0x10) != Bit8(y, 0x10) { }
  lemma Xor8Bit4(x: bv8, y: bv8) ensures Bit8(x ^ y, 0x08) <==> Bit8(x, 0x08) != Bit8(y, 0x08) { }
  lemma Xor8Bit5(x: bv8, y: bv8) ensures Bit8(x ^ y, 0x04) <==> Bit8(x, 0x04) != Bit8(y, 0x04) { }
  lemma Xor8Bit6(x: bv8, y: bv8) ensures Bit8(x ^ y, 0x02) <==> Bit8(x, 0x02) != Bit8(y, 0x02) { }
  lemma Xor8Bit7(x: bv8, y: bv8) ensures Bit8(x ^ y, 0x01) <==> Bit8(x, 0x01) != Bit8(y, 0x01) { }

  lemma XorBit(x: bv16, y: bv16, i: int)
    requires 0 <= i < 16
    ensures Bit(x ^ y, One(i)) <==> Bit(x, One(i)) != Bit(y, One(i))
  {
    hide Bit;
    if i == 0 { Xor0(x, y); }
    else if i == 1 { Xor1(x, y); }
    else if i == 2 { Xor2(x, y); }
    else if i == 3 { Xor3(x, y); }
    else if i == 4 { Xor4(x, y); }
    else if i == 5 { Xor5(x, y); }
    else if i == 6 { Xor6(x, y); }
    else if i == 7 { Xor7(x, y); }
    else if i == 8 { Xor8(x, y); }
    else if i == 9 { Xor9(x, y); }
    else if i == 10 { Xor10(x, y); }
    else if i == 11 { Xor11(x, y); }
    else if i == 12 { Xor12(x, y); }
    else if i == 13 { Xor13(x, y); }
    else if i == 14 { Xor14(x, y); }
    else { Xor15(x, y); }
  }

  lemma XorBit8(x: bv8, y: bv8, i: int)
    requires 0 <= i < 8
    ensures Bit8(x ^ y, Mask(i)) <==> Bit8(x, Mask(i)) != Bit8(y, Mask(i))
  {
    hide Bit8;
    if i == 0 { Xor8Bit0(x, y); }
    else if i == 1 { Xor8Bit1(x, y); }
    else if i == 2 { Xor8Bit2(x, y); }
    else if i == 3 { Xor8Bit3(x, y); }
    else if i == 4 { Xor8Bit4(x, y); }
    else if i == 5 { Xor8Bit5(x, y); }
    else if i == 6 { Xor8Bit6(x, y); }
    else { Xor8Bit7(x, y); }
  }

  lemma XorBits(x: bv16, y: bv16)
    ensures Bits(x ^ y) == Plus(Bits(x), Bits(y))
  {
    hide Bit, One;
    forall i | 0 <= i < 16 ensures Bits(x ^ y)[i] == Plus(Bits(x), Bits(y))[i] {
      XorBit(x, y, i);
    }
  }

  lemma XorByteBits(x: bv8, y: bv8)
    ensures ByteBits(x ^ y) == Plus(ByteBits(x), ByteBits(y))
  {
    hide Bit8, Mask;
    forall i | 0 <= i < 8 ensures ByteBits(x ^ y)[i] == Plus(ByteBits(x), ByteBits(y))[i] {
      XorBit8(x, y, i);
    }
  }

  lemma UpBit(x: bv16, i: int)
    requires 0 <= i < 16
    ensures Bit(x << 1, One(i)) <==> i < 15 && Bit(x, One(i + 1))
  {
  }

  lemma Up8Bit(x: bv16, i: int)
    requires 0 <= i < 16
    ensures Bit(x << 8, One(i)) <==> i < 8 && Bit(x, One(i + 8))
  {
  }

  lemma TopBit(x: bv16)
    ensures x & 0x8000 != 0 <==> Bit(x, One(0))
  {
  }

  lemma HighBit(x: bv16, i: int)
    requires 0 <= i < 8
    ensures Bit8((x >> 8) as bv8, Mask(i)) <==> Bit(x, One(i))
  {
  }

  lemma WideBit(b: bv8, i: int)
    requires 0 <= i < 16
    ensures Bit((b as bv16) << 8, One(i)) <==> i < 8 && Bit8(b, Mask(i))
  {
  }

  lemma UpBits(x: bv16)
    ensures Bits(x << 1) == Bits(x)[1..] + [false] && (Bits(x)[0] <==> x & 0x8000 != 0)
  {
    hide Bit, One;
    TopBit(x);
    forall i | 0 <= i < 16 ensures Bits(x << 1)[i] == (Bits(x)[1..] + [false])[i] { UpBit(x, i); }
  }

  lemma Up8Bits(x: bv16)
    ensures Bits(x << 8) == Moved(Bits(x), 8)
  {
    hide Bit, One;
    forall i | 0 <= i < 16 ensures Bits(x << 8)[i] == Moved(Bits(x), 8)[i] { Up8Bit(x, i); }
  }

  lemma ZeroBits()
    ensures Bits(0) == Zeros(16)
  {
    hide One;
  }

  lemma HighByteBits(x: bv16, b: bv8)
    ensures ByteBits((x >> 8) as bv8) == Bits(x)[..8]
    ensures Bits((b as bv16) << 8) == ByteBits(b) + Zeros(8)
  {
    hide Bit, Bit8, One, Mask;
    forall i | 0 <= i < 8 ensures ByteBits((x >> 8) as bv8)[i] == Bits(x)[..8][i] { HighBit(x, i); }
    forall i | 0 <= i < 16 ensures Bits((b as bv16) << 8)[i] == (ByteBits(b) + Zeros(8))[i] { WideBit(b, i); }
  }

  lemma ShiftIsStep(x: bv16)
    ensures Bits(Shift(x)) == Step(Bits(x), false, Divisor())
  {
    hide Bits, Plus;
    XorBits(x << 1, if x & 0x8000 != 0 then 0x1021 else 0);
    UpBits(x);
    ZeroBits();
  }

  lemma Shift8IsRun(x: bv16)
    ensures Bits(Shift8(x)) == Run(Bits(x), Zeros(8), Divisor())
  {
    hide Shift, Step, Run, Bits;
    var x1 := Shift(x);
    var x2 := Shift(x1);
    var x3 := Shift(x2);
    var x4 := Shift(x3);
    var x5 := Shift(x4);
    var x6 := Shift(x5);
    var x7 := Shift(x6);
    ShiftOnce(x, 8);
    ShiftOnce(x1, 7);
    ShiftOnce(x2, 6);
    ShiftOnce(x3, 5);
    ShiftOnce(x4, 4);
    ShiftOnce(x5, 3);
    ShiftOnce(x6, 2);
    ShiftOnce(x7, 1);
    RunStep(Bits(Shift(x7)), Zeros(0), Divisor());
  }

  lemma ShiftOnce(x: bv16, n: nat)
    requires n > 0
    ensures Run(Bits(x), Zeros(n), Divisor()) == Run(Bits(Shift(x)), Zeros(n - 1), Divisor())
  {
    hide Shift, Step, Run, Bits;
    ShiftIsStep(x);
    RunStep(Bits(x), Zeros(n), Divisor());
    assert Zeros(n)[1..] == Zeros(n - 1);
  }

  // ---------------------------------------------------------------- a byte at a time

  // The index ((crc >> 8) ^ byte) & 0xFF.
  function Index(crc: bv16, byte: bv8): bv8 {
    ((crc >> 8) as bv8) ^ byte
  }

  // crc = (crc << 8) ^ crc16tab[...]
  function StepByte(crc: bv16, byte: bv8): bv16 {
    (crc << 8) ^ Table(Index(crc, byte))
  }

  /** The table lookup is eight steps of the register, with the bits of the byte as input. */
  lemma StepByteIsRun(crc: bv16, byte: bv8)
    ensures Bits(StepByte(crc, byte)) == Run(Bits(crc), ByteBits(byte), Divisor())
  {
    hide *;
    var n := Index(crc, byte);
    TableBits(n);
    StepByteBits(crc, byte);
    IndexBits(crc, byte);
    TopAndRest(Bits(crc), ByteBits(byte), Divisor());
  }

  lemma TableBits(n: bv8)
    ensures Bits(Table(n)) == Run(ByteBits(n) + Zeros(8), Zeros(8), Divisor())
  {
    hide Bits, ByteBits, Table, Shift8, Run, Zeros, Divisor;
    TableIsRight(n);
    Shift8IsRun((n as bv16) << 8);
    HighByteBits(0, n);
  }

  lemma IndexBits(crc: bv16, byte: bv8)
    ensures ByteBits(Index(crc, byte)) + Zeros(8) == Top(Bits(crc), ByteBits(byte))
  {
    hide Bits, ByteBits, Zeros, Plus;
    HighByteBits(crc, 0);
    XorByteBits((crc >> 8) as bv8, byte);
  }

  lemma StepByteBits(crc: bv16, byte: bv8)
    ensures Bits(StepByte(crc, byte)) == Plus(Moved(Bits(crc), 8), Bits(Table(Index(crc, byte))))
  {
    hide Bits, Table, Plus, Moved, Index;
    XorBits(crc << 8, Table(Index(crc, byte)));
    Up8Bits(crc);
  }

  method Crc16(buf: Bytes) returns (crc: bv16)
    ensures Bits(crc) == Remainder(MessageBits(buf) + Zeros(16), Divisor())
  {
    hide Bits, Run, StepByte, Remainder, MessageBits;
    crc := 0;
    var counter := 0;
    EmptyMessage(buf);
    while counter < |buf|
      invariant 0 <= counter <= |buf|
      invariant Bits(crc) == Run(Zeros(16), MessageBits(buf[..counter]), Divisor())
    {
      StepByteIsRun(crc, buf[counter]);
      OneMoreByte(buf, counter);
      RunSplits(Zeros(16), MessageBits(buf[..counter]), ByteBits(buf[counter]), Divisor());
      crc := StepByte(crc, buf[counter]);
      counter := counter + 1;
    }
    assert buf[..counter] == buf;
    RegisterDivides(Zeros(16), MessageBits(buf), Divisor());
    assert Plus(MessageBits(buf) + Zeros(16), Zeros(16)) == MessageBits(buf) + Zeros(16);
  }

  lemma EmptyMessage(buf: Bytes)
    ensures Bits(0) == Run(Zeros(16), MessageBits(buf[..0]), Divisor())
  {
    hide Bits;
    ZeroBits();
  }

  lemma OneMoreByte(buf: Bytes, n: nat)
    requires n < |buf|
    ensures MessageBits(buf[..n + 1]) == MessageBits(buf[..n]) + ByteBits(buf[n])
  {
    assert buf[..n + 1][..n] == buf[..n];
  }

  /** The checksum of a message, as a polynomial. */
  function Checksum(m: Bytes): Poly {
    Remainder(MessageBits(m) + Zeros(16), Divisor())
  }

  lemma {:induction false} BitsOfTwo(a: Bytes, b: Bytes)
    ensures MessageBits(a + b) == MessageBits(a) + MessageBits(b)
    decreases |b|
  {
    if b == [] {
      assert a + b == a;
    } else {
      var c, x := b[..|b| - 1], b[|b| - 1];
      assert (a + b)[..|a + b| - 1] == a + c;
      BitsOfTwo(a, c);
    }
  }

  lemma {:induction false} MessageBitsDiffer(x: Bytes, y: Bytes)
    requires |x| == |y| && MessageBits(x) == MessageBits(y)
    ensures x == y
    decreases |x|
  {
    hide ByteBits;
    if x != [] {
      var n := |x| - 1;
      var a, b := MessageBits(x[..n]), MessageBits(y[..n]);
      assert MessageBits(x)[..8 * n] == a && MessageBits(y)[..8 * n] == b;
      assert MessageBits(x)[8 * n..] == ByteBits(x[n]) && MessageBits(y)[8 * n..] == ByteBits(y[n]);
      MessageBitsDiffer(x[..n], y[..n]);
      SameBitsSameByte(x[n], y[n]);
      assert x == x[..n] + [x[n]] && y == y[..n] + [y[n]];
    }
  }

  lemma SameBitsSameByte(b: bv8, c: bv8)
    requires ByteBits(b) == ByteBits(c)
    ensures b == c
  {
    forall j | 0 <= j < 8 ensures BitOf(b, j) == BitOf(c, j) {
      assert ByteBits(b)[j] == ByteBits(c)[j];
    }
    BitsMakeByte(b, c);
  }

  lemma BitsMakeByte(b: bv8, c: bv8)
    requires forall j :: 0 <= j < 8 ==> BitOf(b, j) == BitOf(c, j)
    ensures b == c
  {
    assert BitOf(b, 0) == BitOf(c, 0) && BitOf(b, 1) == BitOf(c, 1) && BitOf(b, 2) == BitOf(c, 2)
           && BitOf(b, 3) == BitOf(c, 3);
    assert BitOf(b, 4) == BitOf(c, 4) && BitOf(b, 5) == BitOf(c, 5) && BitOf(b, 6) == BitOf(c, 6)
           && BitOf(b, 7) == BitOf(c, 7);
  }

  /** Messages that differ, and only inside two consecutive bytes, have different checksums. */
  lemma TwoBytesAreDetected(a: Bytes, x: Bytes, y: Bytes, c: Bytes)
    requires |x| == |y| <= 2
    ensures Checksum(a + x + c) == Checksum(a + y + c) <==> x == y
  {
    hide Run, Remainder, MessageBits;
    var z := Zeros(16);
    if Checksum(a + x + c) == Checksum(a + y + c) {
      BitsOfTwo(a + x, c);
      BitsOfTwo(a, x);
      BitsOfTwo(a + y, c);
      BitsOfTwo(a, y);
      ChecksumIsRun(a + x + c);
      ChecksumIsRun(a + y + c);
      LastCoefficient();
      BurstsAreDetected(z, MessageBits(a), MessageBits(x), MessageBits(y), MessageBits(c), Divisor());
      MessageBitsDiffer(x, y);
    }
  }

  lemma ChecksumIsRun(m: Bytes)
    ensures Checksum(m) == Run(Zeros(16), MessageBits(m), Divisor())
  {
    hide Run, Remainder;
    RegisterDivides(Zeros(16), MessageBits(m), Divisor());
    assert Plus(MessageBits(m) + Zeros(16), Zeros(16)) == MessageBits(m) + Zeros(16);
  }

  lemma LastCoefficient()
    ensures Divisor()[15]
  {
  }
}
