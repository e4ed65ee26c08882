// The check values that crc16.c and crc64.c state for the text "123456789", from the divisors alone.
module CrcCheck {
  import opened BinaryNumbers
  import opened CrcDivision
  import Crc16
  import Crc64

  // ---------------------------------------------------------------- 16 bits

  const TEXT16: seq<bv8> := [0x31, 0x32, 0x33, 0x34, 0x35, 0x36, 0x37, 0x38, 0x39]

  lemma NextByte(m: seq<bv8>, n: nat, before: bv16, after: bv16)
    requires n < |m| && Crc16.Bits(before) == Run(Zeros(16), Crc16.MessageBits(m[..n]), Crc16.Divisor())
    requires Crc16.StepByte(before, m[n]) == after
    ensures Crc16.Bits(after) == Run(Zeros(16), Crc16.MessageBits(m[..n + 1]), Crc16.Divisor())
  {
    hide Run, Crc16.Bits, Crc16.StepByte, Crc16.MessageBits, Crc16.Divisor;
    Crc16.StepByteIsRun(before, m[n]);
    Crc16.OneMoreByte(m, n);
    RunSplits(Zeros(16), Crc16.MessageBits(m[..n]), Crc16.ByteBits(m[n]), Crc16.Divisor());
  }

  lemma Registers16()
    ensures Crc16.StepByte(0x0000, 0x31) == 0x2672
    ensures Crc16.StepByte(0x2672, 0x32) == 0x20b5
    ensures Crc16.StepByte(0x20b5, 0x33) == 0x9752
    ensures Crc16.StepByte(0x9752, 0x34) == 0xd789
    ensures Crc16.StepByte(0xd789, 0x35) == 0x546c
  {
  }

  lemma MoreRegisters16()
    ensures Crc16.StepByte(0x546c, 0x36) == 0x20e4
    ensures Crc16.StepByte(0x20e4, 0x37) == 0x86d6
    ensures Crc16.StepByte(0x86d6, 0x38) == 0x9015
    ensures Crc16.StepByte(0x9015, 0x39) == 0x31c3
  {
  }

  /** The text has the remainder 0x31C3. */
  lemma CheckValue16()
    ensures Crc16.Checksum(TEXT16) == Crc16.Bits(0x31C3)
  {
    hide Run, Crc16.Bits, Crc16.StepByte, Crc16.MessageBits, Crc16.Divisor, Crc16.Checksum;
    Crc16.EmptyMessage(TEXT16);
    Registers16();
    MoreRegisters16();
    NextByte(TEXT16, 0, 0x0000, 0x2672);
    NextByte(TEXT16, 1, 0x2672, 0x20b5);
    NextByte(TEXT16, 2, 0x20b5, 0x9752);
    NextByte(TEXT16, 3, 0x9752, 0xd789);
    NextByte(TEXT16, 4, 0xd789, 0x546c);
    NextByte(TEXT16, 5, 0x546c, 0x20e4);
    NextByte(TEXT16, 6, 0x20e4, 0x86d6);
    NextByte(TEXT16, 7, 0x86d6, 0x9015);
    NextByte(TEXT16, 8, 0x9015, 0x31c3);
    assert TEXT16[..9] == TEXT16;
    Crc16.ChecksumIsRun(TEXT16);
  }

  // ---------------------------------------------------------------- 64 bits, as a machine word

  const TEXT64: Crc64.Data := [0x31, 0x32, 0x33, 0x34, 0x35, 0x36, 0x37, 0x38, 0x39]
  const WORD: bv64 := 0xad93d23594c935a9

  predicate TopBit(c: bv64) { c & 0x8000000000000000 != 0 }
  function Up(c: bv64): bv64 { c << 1 }
  function Up4(c: bv64): bv64 { c << 4 }
  function Up8(c: bv64): bv64 { c << 8 }
  function Xor(a: bv64, b: bv64): bv64 { a ^ b }

  lemma FourUps(c: bv64)
    ensures Up(Up(Up(Up(c)))) == Up4(c)
  {
  }

  lemma EightUps(c: bv64)
    ensures Up4(Up4(c)) == Up8(c)
  {
  }

  lemma AllUps(c: bv64)
    ensures Up8(Up8(Up8(Up8(Up8(Up8(Up8(Up8(c)))))))) == 0
  {
  }

  lemma XorTop(a: bv64, b: bv64)
    ensures TopBit(Xor(a, b)) <==> TopBit(a) != TopBit(b)
  {
  }

  lemma XorUp(a: bv64, b: bv64)
    ensures Up(Xor(a, b)) == Xor(Up(a), Up(b))
  {
  }

  /** The highest `n` bits. */
  function HighBits64(c: bv64, n: nat): (r: Poly)
    ensures |r| == n
    decreases n
  {
    if n == 0 then [] else [TopBit(c)] + HighBits64(Up(c), n - 1)
  }

  function Bits(c: bv64): (r: Poly)
    ensures |r| == 64
  {
    HighBits64(c, 64)
  }

  function Shifted(c: bv64, n: nat): bv64
    decreases n
  {
    if n == 0 then c else Shifted(Up(c), n - 1)
  }

  lemma ShiftedOnce(c: bv64, n: nat)
    ensures Shifted(c, n + 1) == Shifted(Up(c), n)
  {
  }

  lemma ShiftedFour(c: bv64, n: nat)
    ensures Shifted(c, n + 4) == Shifted(Up4(c), n)
  {
    hide Shifted, Up, Up4;
    FourUps(c);
    ShiftedOnce(c, n + 3);
    ShiftedOnce(Up(c), n + 2);
    ShiftedOnce(Up(Up(c)), n + 1);
    ShiftedOnce(Up(Up(Up(c))), n);
  }

  lemma ShiftedEight(c: bv64, n: nat)
    ensures Shifted(c, n + 8) == Shifted(Up8(c), n)
  {
    hide Shifted, Up, Up4, Up8;
    EightUps(c);
    ShiftedFour(c, n + 4);
    ShiftedFour(Up4(c), n);
  }

  lemma ShiftedFarther(c: bv64, n: nat)
    ensures Shifted(c, n + 32) == Shifted(Up8(Up8(Up8(Up8(c)))), n)
  {
    hide Shifted, Up8;
    ShiftedEight(c, n + 24);
    ShiftedEight(Up8(c), n + 16);
    ShiftedEight(Up8(Up8(c)), n + 8);
    ShiftedEight(Up8(Up8(Up8(c))), n);
  }

  lemma NothingLeft(c: bv64)
    ensures Shifted(c, 64) == 0
  {
    assert Shifted(0, 0) == 0;
    hide Shifted, Up8;
    AllUps(c);
    ShiftedFarther(c, 32);
    ShiftedFarther(Up8(Up8(Up8(Up8(c)))), 0);
  }

  lemma {:induction false} OneBitLower(c: bv64, n: nat)
    ensures HighBits64(c, n + 1) == HighBits64(c, n) + [TopBit(Shifted(c, n))]
    decreases n
  {
    hide TopBit, Up;
    if n > 0 { OneBitLower(Up(c), n - 1); }
  }

  lemma NoTopBit()
    ensures !TopBit(0)
  {
  }

  lemma HighBitsOnce(c: bv64, n: nat)
    ensures HighBits64(c, n + 1) == [TopBit(c)] + HighBits64(Up(c), n)
  {
    hide TopBit, Up;
  }

  lemma UpBits(c: bv64)
    ensures Bits(Up(c)) == Bits(c)[1..] + [false] && (Bits(c)[0] <==> TopBit(c))
  {
    hide Shifted, TopBit, Up, HighBits64;
    OneBitLower(c, 64);
    NothingLeft(c);
    NoTopBit();
    HighBitsOnce(c, 63);
    HighBitsOnce(c, 64);
    assert (Bits(c) + [false])[1..] == Bits(c)[1..] + [false];
  }

  lemma {:induction false} XorHighBits(a: bv64, b: bv64, n: nat)
    ensures HighBits64(Xor(a, b), n) == Plus(HighBits64(a, n), HighBits64(b, n))
    decreases n
  {
    hide TopBit, Up, Xor;
    if n > 0 {
      XorTop(a, b);
      XorUp(a, b);
      XorHighBits(Up(a), Up(b), n - 1);
    }
  }

  function StepWord(c: bv64, bit: bool): bv64 {
    if TopBit(c) != bit then Xor(Up(c), WORD) else Up(c)
  }

  lemma XorBits(a: bv64, b: bv64)
    ensures Bits(Xor(a, b)) == Plus(Bits(a), Bits(b))
  {
    hide HighBits64, Xor;
    XorHighBits(a, b, 64);
  }

  lemma StepWordIsStep(c: bv64, bit: bool)
    ensures Bits(StepWord(c, bit)) == Step(Bits(c), bit, Bits(WORD))
  {
    hide TopBit, Up, Xor, Bits, WORD;
    UpBits(c);
    XorBits(Up(c), WORD);
    Crc64.PlusNothing(Bits(Up(c)));
    assert Step(Bits(c), bit, Bits(WORD)) == Plus(Bits(Up(c)), Times(TopBit(c) != bit, Bits(WORD)));
  }

  // ---------------------------------------------------------------- words and numbers

  /** `acc` with the highest `n` bits of the word behind it. */
  function Number(c: bv64, n: nat, acc: int): int
    decreases n
  {
    if n == 0 then acc else Number(Up(c), n - 1, 2 * acc + One(TopBit(c)))
  }

  /** The highest `n` bits of the word, the highest as the least significant. */
  function Mirrored(c: bv64, n: nat): int
    decreases n
  {
    if n == 0 then 0 else 2 * Mirrored(Up(c), n - 1) + One(TopBit(c))
  }

  function One(b: bool): int { if b then 1 else 0 }

  lemma NumberOnce(c: bv64, n: nat, acc: int)
    ensures Number(c, n + 1, acc) == Number(Up(c), n, 2 * acc + One(TopBit(c)))
  {
    hide Up, TopBit;
  }

  lemma MirroredOnce(c: bv64, n: nat)
    ensures Mirrored(c, n + 1) == 2 * Mirrored(Up(c), n) + One(TopBit(c))
  {
    hide Up, TopBit;
  }

  lemma NumberEnds(c: bv64, acc: int)
    ensures Number(c, 0, acc) == acc
  {
  }

  lemma MirroredEnds(c: bv64)
    ensures Mirrored(c, 0) == 0
  {
  }

  lemma BitBehind(v: int, b: bool, k: nat)
    ensures TestBit(2 * v + One(b), k) == if k == 0 then b else TestBit(v, k - 1)
  {
  }

  lemma {:induction false} NumberBit(c: bv64, n: nat, acc: int, k: nat)
    ensures TestBit(Number(c, n, acc), k) == if k < n then HighBits64(c, n)[n - 1 - k] else TestBit(acc, k - n)
    decreases n
  {
    if n == 0 {
      hide TestBit;
    } else {
      hide TopBit, Up, Number, HighBits64, TestBit, One;
      NumberOnce(c, n - 1, acc);
      HighBitsOnce(c, n - 1);
      NumberBit(Up(c), n - 1, 2 * acc + One(TopBit(c)), k);
      if k >= n - 1 { BitBehind(acc, TopBit(c), k - (n - 1)); }
    }
  }

  lemma {:induction false} MirroredBit(c: bv64, n: nat, k: nat)
    requires k < n
    ensures TestBit(Mirrored(c, n), k) == HighBits64(c, n)[k]
    decreases n
  {
    hide TopBit, Up, Mirrored, HighBits64, TestBit, One;
    MirroredOnce(c, n - 1);
    HighBitsOnce(c, n - 1);
    BitBehind(Mirrored(Up(c), n - 1), TopBit(c), k);
    if k > 0 { MirroredBit(Up(c), n - 1, k - 1); }
  }

  /** The highest four bits, as a digit and as one mirrored. */
  function High4(c: bv64): int {
    8 * One(TopBit(c)) + 4 * One(c & 0x4000000000000000 != 0) + 2 * One(c & 0x2000000000000000 != 0)
    + One(c & 0x1000000000000000 != 0)
  }

  function Low4(c: bv64): int {
    One(TopBit(c)) + 2 * One(c & 0x4000000000000000 != 0) + 4 * One(c & 0x2000000000000000 != 0)
    + 8 * One(c & 0x1000000000000000 != 0)
  }

  lemma FourBits(c: bv64)
    ensures TopBit(Up(c)) <==> c & 0x4000000000000000 != 0
    ensures TopBit(Up(Up(c))) <==> c & 0x2000000000000000 != 0
    ensures TopBit(Up(Up(Up(c)))) <==> c & 0x1000000000000000 != 0
  {
  }

  lemma FourDigits(c: bv64)
    ensures High4(c) == 8 * One(TopBit(c)) + 4 * One(TopBit(Up(c))) + 2 * One(TopBit(Up(Up(c))))
                        + One(TopBit(Up(Up(Up(c)))))
    ensures Low4(c) == One(TopBit(c)) + 2 * One(TopBit(Up(c))) + 4 * One(TopBit(Up(Up(c))))
                       + 8 * One(TopBit(Up(Up(Up(c)))))
  {
    hide Up, TopBit;
    FourBits(c);
  }

  lemma Digit(c: bv64, n: nat, acc: int)
    ensures Number(c, n + 4, acc) == Number(Up4(c), n, 16 * acc + High4(c))
  {
    hide Number, Up, Up4, TopBit, High4;
    FourUps(c);
    FourDigits(c);
    var a := 2 * acc + One(TopBit(c));
    var b := 2 * a + One(TopBit(Up(c)));
    var d := 2 * b + One(TopBit(Up(Up(c))));
    NumberOnce(c, n + 3, acc);
    NumberOnce(Up(c), n + 2, a);
    NumberOnce(Up(Up(c)), n + 1, b);
    NumberOnce(Up(Up(Up(c))), n, d);
  }

  lemma MirroredDigit(c: bv64, n: nat)
    ensures Mirrored(c, n + 4) == 16 * Mirrored(Up4(c), n) + Low4(c)
  {
    hide Mirrored, Up, Up4, TopBit, Low4;
    FourUps(c);
    FourDigits(c);
    MirroredOnce(c, n + 3);
    MirroredOnce(Up(c), n + 2);
    MirroredOnce(Up(Up(c)), n + 1);
    MirroredOnce(Up(Up(Up(c))), n);
  }

  lemma DigitIs(c: bv64, n: nat, acc: int, rest: bv64, digit: int)
    requires Up4(c) == rest && High4(c) == digit
    ensures Number(c, n + 4, acc) == Number(rest, n, 16 * acc + digit)
  {
    hide Number, High4, Up4;
    Digit(c, n, acc);
  }

  lemma MirroredDigitIs(c: bv64, n: nat, rest: bv64, digit: int, tail: int)
    requires Up4(c) == rest && Low4(c) == digit && Mirrored(rest, n) == tail
    ensures Mirrored(c, n + 4) == 16 * tail + digit
  {
    hide Mirrored, Low4, Up4;
    MirroredDigit(c, n);
  }

  lemma WordDigits1()
    ensures Up4(0xad93d23594c935a9) == 0xd93d23594c935a90 && High4(0xad93d23594c935a9) == 10
    ensures Up4(0xd93d23594c935a90) == 0x93d23594c935a900 && High4(0xd93d23594c935a90) == 13
    ensures Up4(0x93d23594c935a900) == 0x3d23594c935a9000 && High4(0x93d23594c935a900) == 9
    ensures Up4(0x3d23594c935a9000) == 0xd23594c935a90000 && High4(0x3d23594c935a9000) == 3
  {
  }

  lemma WordDigits2()
    ensures Up4(0xd23594c935a90000) == 0x23594c935a900000 && High4(0xd23594c935a90000) == 13
    ensures Up4(0x23594c935a900000) == 0x3594c935a9000000 && High4(0x23594c935a900000) == 2
    ensures Up4(0x3594c935a9000000) == 0x594c935a90000000 && High4(0x3594c935a9000000) == 3
    ensures Up4(0x594c935a90000000) == 0x94c935a900000000 && High4(0x594c935a90000000) == 5
  {
  }

  lemma WordDigits3()
    ensures Up4(0x94c935a900000000) == 0x4c935a9000000000 && High4(0x94c935a900000000) == 9
    ensures Up4(0x4c935a9000000000) == 0xc935a90000000000 && High4(0x4c935a9000000000) == 4
    ensures Up4(0xc935a90000000000) == 0x935a900000000000 && High4(0xc935a90000000000) == 12
    ensures Up4(0x935a900000000000) == 0x35a9000000000000 && High4(0x935a900000000000) == 9
  {
  }

  lemma WordDigits4()
    ensures Up4(0x35a9000000000000) == 0x5a90000000000000 && High4(0x35a9000000000000) == 3
    ensures Up4(0x5a90000000000000) == 0xa900000000000000 && High4(0x5a90000000000000) == 5
    ensures Up4(0xa900000000000000) == 0x9000000000000000 && High4(0xa900000000000000) == 10
    ensures Up4(0x9000000000000000) == 0x0000000000000000 && High4(0x9000000000000000) == 9
  {
  }

  lemma WordNumber()
    ensures Number(0xad93d23594c935a9, 64, 0) == 0xad93d23594c935a9
  {
    hide Number, Up4, High4, TopBit, Up, One;
    NumberEnds(0, 0xad93d23594c935a9);
    WordDigits1();
    WordDigits2();
    WordDigits3();
    WordDigits4();
    DigitIs(0xad93d23594c935a9, 60, 0x0, 0xd93d23594c935a90, 10);
    DigitIs(0xd93d23594c935a90, 56, 0xa, 0x93d23594c935a900, 13);
    DigitIs(0x93d23594c935a900, 52, 0xad, 0x3d23594c935a9000, 9);
    DigitIs(0x3d23594c935a9000, 48, 0xad9, 0xd23594c935a90000, 3);
    DigitIs(0xd23594c935a90000, 44, 0xad93, 0x23594c935a900000, 13);
    DigitIs(0x23594c935a900000, 40, 0xad93d, 0x3594c935a9000000, 2);
    DigitIs(0x3594c935a9000000, 36, 0xad93d2, 0x594c935a90000000, 3);
    DigitIs(0x594c935a90000000, 32, 0xad93d23, 0x94c935a900000000, 5);
    DigitIs(0x94c935a900000000, 28, 0xad93d235, 0x4c935a9000000000, 9);
    DigitIs(0x4c935a9000000000, 24, 0xad93d2359, 0xc935a90000000000, 4);
    DigitIs(0xc935a90000000000, 20, 0xad93d23594, 0x935a900000000000, 12);
    DigitIs(0x935a900000000000, 16, 0xad93d23594c, 0x35a9000000000000, 9);
    DigitIs(0x35a9000000000000, 12, 0xad93d23594c9, 0x5a90000000000000, 3);
    DigitIs(0x5a90000000000000, 8, 0xad93d23594c93, 0xa900000000000000, 5);
    DigitIs(0xa900000000000000, 4, 0xad93d23594c935, 0x9000000000000000, 10);
    DigitIs(0x9000000000000000, 0, 0xad93d23594c935a, 0x0000000000000000, 9);
  }

  lemma ZeroNumber(n: nat)
    ensures Number(0, n, 0) == 0
    decreases n
  {
  }

  lemma DivisorIsWord()
    ensures Crc64.Divisor() == Bits(WORD)
  {
    WordNumber();
    hide Number, TestBit, HighBits64;
    forall i | 0 <= i < 64 ensures Crc64.Divisor()[i] == Bits(WORD)[i] {
      NumberBit(WORD, 64, 0, 63 - i);
    }
  }

  // ---------------------------------------------------------------- the text

  function FourSteps(c: bv64, bits: Poly): bv64
    requires |bits| >= 4
  {
    StepWord(StepWord(StepWord(StepWord(c, bits[0]), bits[1]), bits[2]), bits[3])
  }

  lemma FourStepsRun(c: bv64, bits: Poly)
    requires |bits| >= 4
    ensures Run(Bits(c), bits, Bits(WORD)) == Run(Bits(FourSteps(c, bits)), bits[4..], Bits(WORD))
  {
    hide StepWord, Bits, Run, WORD, Step;
    TwoSteps(c, bits);
    TwoSteps(StepWord(StepWord(c, bits[0]), bits[1]), bits[2..]);
    assert bits[2..][2..] == bits[4..];
  }

  lemma TwoSteps(c: bv64, bits: Poly)
    requires |bits| >= 2
    ensures Run(Bits(c), bits, Bits(WORD))
            == Run(Bits(StepWord(StepWord(c, bits[0]), bits[1])), bits[2..], Bits(WORD))
  {
    hide StepWord, Bits, Run, WORD, Step;
    RunStep(Bits(c), bits, Bits(WORD));
    StepWordIsStep(c, bits[0]);
    RunStep(Bits(StepWord(c, bits[0])), bits[1..], Bits(WORD));
    StepWordIsStep(StepWord(c, bits[0]), bits[1]);
    assert bits[1..][1..] == bits[2..];
  }

  lemma NextOctet(d: Crc64.Data, n: nat, before: bv64, middle: bv64, after: bv64, low: Poly, high: Poly)
    requires n < |d| && Bits(before) == Run(Bits(0), Crc64.MessageBits(d[..n]), Bits(WORD))
    requires Crc64.Lsb(d[n], 8) == low + high && |low| == |high| == 4
    requires FourSteps(before, low) == middle && FourSteps(middle, high) == after
    ensures Bits(after) == Run(Bits(0), Crc64.MessageBits(d[..n + 1]), Bits(WORD))
  {
    hide Run, Bits, FourSteps, Crc64.MessageBits, Crc64.Lsb, WORD;
    assert FourSteps(before, low + high) == middle by { FourStepsOf(before, low, high); }
    FourStepsRun(before, low + high);
    assert (low + high)[4..] == high;
    FourStepsRun(middle, high);
    RunStep(Bits(after), [], Bits(WORD));
    assert high[4..] == [];
    Crc64.OneMoreOctet(d, n);
    RunSplits(Bits(0), Crc64.MessageBits(d[..n]), Crc64.Lsb(d[n], 8), Bits(WORD));
  }

  lemma FourStepsOf(c: bv64, low: Poly, high: Poly)
    requires |low| == 4
    ensures FourSteps(c, low + high) == FourSteps(c, low)
  {
    hide StepWord;
  }

  lemma Register1()
    ensures FourSteps(0x0000000000000000, [true, false, false, false]) == 0x81f67d11dcff10be
    ensures FourSteps(0x81f67d11dcff10be, [true, true, false, false]) == 0x5f9cef95218e83bf
  {
  }

  lemma Register2()
    ensures FourSteps(0x5f9cef95218e83bf, [false, true, false, false]) == 0x545d2b678c210e59
    ensures FourSteps(0x545d2b678c210e59, [true, true, false, false]) == 0x69b7195c8a26c087
  {
  }

  lemma Register3()
    ensures FourSteps(0x69b7195c8a26c087, [true, true, false, false]) == 0xec339e87c3c84635
    ensures FourSteps(0xec339e87c3c84635, [true, true, false, false]) == 0x358d9e2281df3dab
  {
  }

  lemma Register4()
    ensures FourSteps(0x358d9e2281df3dab, [false, false, true, false]) == 0xf54a301d893aef19
    ensures FourSteps(0xf54a301d893aef19, [true, true, false, false]) == 0x0f84a5b3ba3c9ac2
  {
  }

  lemma Register5()
    ensures FourSteps(0x0f84a5b3ba3c9ac2, [true, false, true, false]) == 0x8f085074c26de265
    ensures FourSteps(0x8f085074c26de265, [true, true, false, false]) == 0xb07e39c4c8a1ae0f
  {
  }

  lemma Register6()
    ensures FourSteps(0xb07e39c4c8a1ae0f, [false, true, true, false]) == 0x6b7d0de02c534db8
    ensures FourSteps(0x6b7d0de02c534db8, [true, true, false, false]) == 0xc092d54da49095c5
  {
  }

  lemma Register7()
    ensures FourSteps(0xc092d54da49095c5, [true, true, true, false]) == 0xff992284f45202ab
    ensures FourSteps(0xff992284f45202ab, [true, true, false, false]) == 0xa2b58c246cb241e2
  {
  }

  lemma Register8()
    ensures FourSteps(0xa2b58c246cb241e2, [false, false, false, true]) == 0xf1891b3c3e4965cc
    ensures FourSteps(0xf1891b3c3e4965cc, [true, true, false, false]) == 0x43b617a8cd043792
  {
  }

  lemma Register9()
    ensures FourSteps(0x43b617a8cd043792, [true, false, false, true]) == 0x57ffeb20760ad468
    ensures FourSteps(0x57ffeb20760ad468, [true, true, false, false]) == 0x539b1d23289b6397
  {
  }

  lemma LsbIs(v: int)
    ensures Crc64.Lsb(v, 8)
            == [TestBit(v, 0), TestBit(v, 1), TestBit(v, 2), TestBit(v, 3)]
               + [TestBit(v, 4), TestBit(v, 5), TestBit(v, 6), TestBit(v, 7)]
  {
    hide TestBit;
  }

  lemma TextBits()
    ensures Crc64.Lsb(0x31, 8) == [true, false, false, false] + [true, true, false, false]
    ensures Crc64.Lsb(0x32, 8) == [false, true, false, false] + [true, true, false, false]
    ensures Crc64.Lsb(0x33, 8) == [true, true, false, false] + [true, true, false, false]
    ensures Crc64.Lsb(0x34, 8) == [false, false, true, false] + [true, true, false, false]
    ensures Crc64.Lsb(0x35, 8) == [true, false, true, false] + [true, true, false, false]
    ensures Crc64.Lsb(0x36, 8) == [false, true, true, false] + [true, true, false, false]
    ensures Crc64.Lsb(0x37, 8) == [true, true, true, false] + [true, true, false, false]
    ensures Crc64.Lsb(0x38, 8) == [false, false, false, true] + [true, true, false, false]
    ensures Crc64.Lsb(0x39, 8) == [true, false, false, true] + [true, true, false, false]
  {
    LsbIs(0x31);
    LsbIs(0x32);
    LsbIs(0x33);
    LsbIs(0x34);
    LsbIs(0x35);
    LsbIs(0x36);
    LsbIs(0x37);
    LsbIs(0x38);
    LsbIs(0x39);
    hide Crc64.Lsb;
  }

  lemma TextRegister()
    ensures Bits(0x539b1d23289b6397) == Run(Bits(0), Crc64.MessageBits(TEXT64), Bits(WORD))
  {
    hide Run, Bits, FourSteps, Crc64.Lsb, Crc64.MessageBits, WORD;
    Crc64.BeforeTheFirst(TEXT64);
    RunStep(Bits(0), [], Bits(WORD));
    TextBits();
    Register1();
    NextOctet(TEXT64, 0, 0x0000000000000000, 0x81f67d11dcff10be, 0x5f9cef95218e83bf, [true, false, false, false],
              [true, true, false, false]);
    Register2();
    NextOctet(TEXT64, 1, 0x5f9cef95218e83bf, 0x545d2b678c210e59, 0x69b7195c8a26c087, [false, true, false, false],
              [true, true, false, false]);
    Register3();
    NextOctet(TEXT64, 2, 0x69b7195c8a26c087, 0xec339e87c3c84635, 0x358d9e2281df3dab, [true, true, false, false],
              [true, true, false, false]);
    Register4();
    NextOctet(TEXT64, 3, 0x358d9e2281df3dab, 0xf54a301d893aef19, 0x0f84a5b3ba3c9ac2, [false, false, true, false],
              [true, true, false, false]);
    Register5();
    NextOctet(TEXT64, 4, 0x0f84a5b3ba3c9ac2, 0x8f085074c26de265, 0xb07e39c4c8a1ae0f, [true, false, true, false],
              [true, true, false, false]);
    Register6();
    NextOctet(TEXT64, 5, 0xb07e39c4c8a1ae0f, 0x6b7d0de02c534db8, 0xc092d54da49095c5, [false, true, true, false],
              [true, true, false, false]);
    Register7();
    NextOctet(TEXT64, 6, 0xc092d54da49095c5, 0xff992284f45202ab, 0xa2b58c246cb241e2, [true, true, true, false],
              [true, true, false, false]);
    Register8();
    NextOctet(TEXT64, 7, 0xa2b58c246cb241e2, 0xf1891b3c3e4965cc, 0x43b617a8cd043792, [false, false, false, true],
              [true, true, false, false]);
    Register9();
    NextOctet(TEXT64, 8, 0x43b617a8cd043792, 0x57ffeb20760ad468, 0x539b1d23289b6397, [true, false, false, true],
              [true, true, false, false]);
    assert TEXT64[..9] == TEXT64;
  }

  lemma MirrorOf(c: bv64)
    ensures Crc64.Lsb(Mirrored(c, 64), 64) == Bits(c)
  {
    hide TestBit, HighBits64, Mirrored;
    forall k | 0 <= k < 64 ensures TestBit(Mirrored(c, 64), k) == HighBits64(c, 64)[k] {
      MirroredBit(c, 64, k);
    }
  }

  lemma ZeroIsNoBit()
    ensures Crc64.Msb(0, 64) == Bits(0)
  {
    ZeroNumber(64);
    hide Number, TestBit, HighBits64;
    forall i | 0 <= i < 64 ensures Crc64.Msb(0, 64)[i] == Bits(0)[i] {
      NumberBit(0, 64, 0, 63 - i);
    }
  }

  lemma RegisterDigits1()
    ensures Up4(0x539b1d23289b6397) == 0x39b1d23289b63970 && Low4(0x539b1d23289b6397) == 10
    ensures Up4(0x39b1d23289b63970) == 0x9b1d23289b639700 && Low4(0x39b1d23289b63970) == 12
    ensures Up4(0x9b1d23289b639700) == 0xb1d23289b6397000 && Low4(0x9b1d23289b639700) == 9
    ensures Up4(0xb1d23289b6397000) == 0x1d23289b63970000 && Low4(0xb1d23289b6397000) == 13
  {
  }

  lemma RegisterDigits2()
    ensures Up4(0x1d23289b63970000) == 0xd23289b639700000 && Low4(0x1d23289b63970000) == 8
    ensures Up4(0xd23289b639700000) == 0x23289b6397000000 && Low4(0xd23289b639700000) == 11
    ensures Up4(0x23289b6397000000) == 0x3289b63970000000 && Low4(0x23289b6397000000) == 4
    ensures Up4(0x3289b63970000000) == 0x289b639700000000 && Low4(0x3289b63970000000) == 12
  {
  }

  lemma RegisterDigits3()
    ensures Up4(0x289b639700000000) == 0x89b6397000000000 && Low4(0x289b639700000000) == 4
    ensures Up4(0x89b6397000000000) == 0x9b63970000000000 && Low4(0x89b6397000000000) == 1
    ensures Up4(0x9b63970000000000) == 0xb639700000000000 && Low4(0x9b63970000000000) == 9
    ensures Up4(0xb639700000000000) == 0x6397000000000000 && Low4(0xb639700000000000) == 13
  {
  }

  lemma RegisterDigits4()
    ensures Up4(0x6397000000000000) == 0x3970000000000000 && Low4(0x6397000000000000) == 6
    ensures Up4(0x3970000000000000) == 0x9700000000000000 && Low4(0x3970000000000000) == 12
    ensures Up4(0x9700000000000000) == 0x7000000000000000 && Low4(0x9700000000000000) == 9
    ensures Up4(0x7000000000000000) == 0x0000000000000000 && Low4(0x7000000000000000) == 14
  {
  }

  lemma RegisterMirrored()
    ensures Mirrored(0x539b1d23289b6397, 64) == 0xe9c6d914c4b8d9ca
  {
    hide Mirrored, Up4, Low4, TopBit, Up, One;
    MirroredEnds(0);
    RegisterDigits1();
    RegisterDigits2();
    RegisterDigits3();
    RegisterDigits4();
    MirroredDigitIs(0x7000000000000000, 0, 0x0000000000000000, 14, 0x0);
    MirroredDigitIs(0x9700000000000000, 4, 0x7000000000000000, 9, 0xe);
    MirroredDigitIs(0x3970000000000000, 8, 0x9700000000000000, 12, 0xe9);
    MirroredDigitIs(0x6397000000000000, 12, 0x3970000000000000, 6, 0xe9c);
    MirroredDigitIs(0xb639700000000000, 16, 0x6397000000000000, 13, 0xe9c6);
    MirroredDigitIs(0x9b63970000000000, 20, 0xb639700000000000, 9, 0xe9c6d);
    MirroredDigitIs(0x89b6397000000000, 24, 0x9b63970000000000, 1, 0xe9c6d9);
    MirroredDigitIs(0x289b639700000000, 28, 0x89b6397000000000, 4, 0xe9c6d91);
    MirroredDigitIs(0x3289b63970000000, 32, 0x289b639700000000, 12, 0xe9c6d914);
    MirroredDigitIs(0x23289b6397000000, 36, 0x3289b63970000000, 4, 0xe9c6d914c);
    MirroredDigitIs(0xd23289b639700000, 40, 0x23289b6397000000, 11, 0xe9c6d914c4);
    MirroredDigitIs(0x1d23289b63970000, 44, 0xd23289b639700000, 8, 0xe9c6d914c4b);
    MirroredDigitIs(0xb1d23289b6397000, 48, 0x1d23289b63970000, 13, 0xe9c6d914c4b8);
    MirroredDigitIs(0x9b1d23289b639700, 52, 0xb1d23289b6397000, 9, 0xe9c6d914c4b8d);
    MirroredDigitIs(0x39b1d23289b63970, 56, 0x9b1d23289b639700, 12, 0xe9c6d914c4b8d9);
    MirroredDigitIs(0x539b1d23289b6397, 60, 0x39b1d23289b63970, 10, 0xe9c6d914c4b8d9c);
  }

  /** The number of 64 bits whose bits are the checksum of the text from an empty register is 0xe9c6d914c4b8d9ca. */
  lemma CheckValue64(r: int)
    requires IsU64(r)
    ensures Crc64.Lsb(r, 64) == Crc64.Checksum(0, TEXT64) <==> r == 0xe9c6d914c4b8d9ca
  {
    RegisterMirrored();
    MirrorOf(0x539b1d23289b6397);
    hide Mirrored, Run, Bits, Crc64.MessageBits, WORD, Crc64.Lsb, Crc64.Msb, Crc64.Checksum, TEXT64;
    TextRegister();
    ZeroIsNoBit();
    DivisorIsWord();
    Crc64.ChecksumIsRun(0, TEXT64);
    Pow2Values();
    if Crc64.Lsb(r, 64) == Crc64.Checksum(0, TEXT64) {
      Crc64.SameLsb(r, 0xe9c6d914c4b8d9ca, 64);
    }
  }
}
