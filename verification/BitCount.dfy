// bitops.c: redisPopcount, the number of set bits of a buffer.
module BitCount {
  import opened BitMap

  // ---------------------------------------------------------------- what is counted

  function Ones(b: bv8): (r: int)
    ensures 0 <= r <= 8
  {
    Flag(b & 1 != 0) + Flag(b & 2 != 0) + Flag(b & 4 != 0) + Flag(b & 8 != 0) +
    Flag(b & 16 != 0) + Flag(b & 32 != 0) + Flag(b & 64 != 0) + Flag(b & 128 != 0)
  }

  function Count(s: Bytes): (r: int)
    ensures 0 <= r <= 8 * |s|
  {
    if s == [] then 0 else Ones(s[0]) + Count(s[1..])
  }

  // ---------------------------------------------------------------- the table

  // bitsinbyte, in rows of sixteen.
  function TableRow(high: int): (r: seq<int>)
    ensures |r| == 16
  {
    if high == 0 then [0, 1, 1, 2, 1, 2, 2, 3, 1, 2, 2, 3, 2, 3, 3, 4]
    else if high == 1 || high == 2 || high == 4 || high == 8 then [1, 2, 2, 3, 2, 3, 3, 4, 2, 3, 3, 4, 3, 4, 4, 5]
    else if high == 7 || high == 11 || high == 13 || high == 14 then [3, 4, 4, 5, 4, 5, 5, 6, 4, 5, 5, 6, 5, 6, 6, 7]
    else if high == 15 then [4, 5, 5, 6, 5, 6, 6, 7, 5, 6, 6, 7, 6, 7, 7, 8]
    else [2, 3, 3, 4, 3, 4, 4, 5, 3, 4, 4, 5, 4, 5, 5, 6]
  }

  function BitsInByte(b: bv8): int {
    TableRow(Nibble(b >> 4))[Nibble(b & 15)]
  }

  lemma TableIsRight(b: bv8)
    ensures BitsInByte(b) == Ones(b)
  {
    hide TableRow, Nibble, NibbleBits, Ones, RowOnes;
    NibbleOnes(b);
    FirstRow(b & 15);
    RowOnesAre(b >> 4);
    OtherRows(Nibble(b >> 4), Nibble(b & 15));
  }

  function NibbleBits(b: bv8): int {
    Flag(b & 1 != 0) + Flag(b & 2 != 0) + Flag(b & 4 != 0) + Flag(b & 8 != 0)
  }

  lemma NibbleOnes(b: bv8)
    ensures Ones(b) == NibbleBits(b >> 4) + NibbleBits(b & 15) && b >> 4 <= 15 && b & 15 <= 15
  {
  }

  lemma FirstRow(low: bv8)
    requires low <= 15
    ensures TableRow(0)[Nibble(low)] == NibbleBits(low)
  {
  }

  function RowOnes(high: int): int {
    if high == 0 then 0
    else if high == 1 || high == 2 || high == 4 || high == 8 then 1
    else if high == 7 || high == 11 || high == 13 || high == 14 then 3
    else if high == 15 then 4
    else 2
  }

  lemma RowOnesAre(high: bv8)
    requires high <= 15
    ensures RowOnes(Nibble(high)) == NibbleBits(high)
  {
  }

  /** A row is the first row, plus the ones of the high half. */
  lemma OtherRows(high: int, n: int)
    requires 0 <= n < 16
    ensures TableRow(high)[n] == TableRow(0)[n] + RowOnes(high)
  {
  }

  // ---------------------------------------------------------------- four bytes at a time

  function Sum8(b: bv8): bv8 {
    (b & 1) + ((b >> 1) & 1) + ((b >> 2) & 1) + ((b >> 3) & 1) + ((b >> 4) & 1) + ((b >> 5) & 1) + ((b >> 6) & 1) +
      ((b >> 7) & 1)
  }

  // The steps of the loop on one word.
  function Pairs(x: bv32): bv32 { x - ((x >> 1) & 0x55555555) }
  function Fours(x: bv32): bv32 { (x & 0x33333333) + ((x >> 2) & 0x33333333) }
  function Eights(x: bv32): bv32 { (x + (x >> 4)) & 0x0F0F0F0F }
  function Fold(x: bv32): bv32 { Eights(Fours(Pairs(x))) }

  // The same steps on one byte.
  function Pairs8(x: bv8): bv8 { x - ((x >> 1) & 0x55) }
  function Fours8(x: bv8): bv8 { (x & 0x33) + ((x >> 2) & 0x33) }
  function Eights8(x: bv8): bv8 { (x + (x >> 4)) & 0x0F }

  function Word(b0: bv8, b1: bv8, b2: bv8, b3: bv8): bv32 {
    (b0 as bv32) | ((b1 as bv32) << 8) | ((b2 as bv32) << 16) | ((b3 as bv32) << 24)
  }

  // Each pair of bits v becomes v - (v >> 1), which needs no borrow from the next pair.
  function PairBits(x: bv32): bv32 { (((x >> 1) & x & 0x55555555) << 1) | (((x >> 1) ^ x) & 0x55555555) }
  function PairBits8(x: bv8): bv8 { (((x >> 1) & x & 0x55) << 1) | (((x >> 1) ^ x) & 0x55) }

  lemma PairsBorrowNothing(x: bv32, y: bv8)
    ensures Pairs(x) == PairBits(x) && Pairs8(y) == PairBits8(y)
  {
  }

  lemma PairBitsByByte(b0: bv8, b1: bv8, b2: bv8, b3: bv8)
    ensures PairBits(Word(b0, b1, b2, b3)) == Word(PairBits8(b0), PairBits8(b1), PairBits8(b2), PairBits8(b3))
  {
  }

  lemma PairsByByte(b0: bv8, b1: bv8, b2: bv8, b3: bv8)
    ensures Pairs(Word(b0, b1, b2, b3)) == Word(Pairs8(b0), Pairs8(b1), Pairs8(b2), Pairs8(b3))
  {
    hide Word, Pairs, Pairs8, PairBits, PairBits8;
    PairsBorrowNothing(Word(b0, b1, b2, b3), b0);
    PairsBorrowNothing(Word(b0, b1, b2, b3), b1);
    PairsBorrowNothing(Word(b0, b1, b2, b3), b2);
    PairsBorrowNothing(Word(b0, b1, b2, b3), b3);
    PairBitsByByte(b0, b1, b2, b3);
  }

  lemma FoursByByte(b0: bv8, b1: bv8, b2: bv8, b3: bv8)
    ensures Fours(Word(b0, b1, b2, b3)) == Word(Fours8(b0), Fours8(b1), Fours8(b2), Fours8(b3))
  {
  }

  predicate Small(b: bv8) { b <= 0x44 && b & 0xF <= 4 }

  lemma EightsByByte(b0: bv8, b1: bv8, b2: bv8, b3: bv8)
    requires Small(b0) && Small(b1) && Small(b2) && Small(b3)
    ensures Eights(Word(b0, b1, b2, b3)) == Word(Eights8(b0), Eights8(b1), Eights8(b2), Eights8(b3))
  {
  }

  lemma ByteFolds(b: bv8)
    ensures Small(Fours8(Pairs8(b))) && Eights8(Fours8(Pairs8(b))) == Sum8(b)
  {
  }

  /** Folding a word leaves in each byte the number of ones of that byte. */
  lemma FoldByByte(b0: bv8, b1: bv8, b2: bv8, b3: bv8)
    ensures Fold(Word(b0, b1, b2, b3)) == Word(Sum8(b0), Sum8(b1), Sum8(b2), Sum8(b3))
  {
    hide Word, Pairs, Fours, Eights, Pairs8, Fours8, Eights8, Sum8, Small;
    ByteFolds(b0);
    ByteFolds(b1);
    ByteFolds(b2);
    ByteFolds(b3);
    PairsByByte(b0, b1, b2, b3);
    FoursByByte(Pairs8(b0), Pairs8(b1), Pairs8(b2), Pairs8(b3));
    EightsByByte(Fours8(Pairs8(b0)), Fours8(Pairs8(b1)), Fours8(Pairs8(b2)), Fours8(Pairs8(b3)));
  }

  // ---------------------------------------------------------------- words as numbers

  /** The value of a word, byte by byte. */
  function WordValue(x: bv32): int {
    ((x & 0xFF) as bv8) as int + 0x100 * (((x >> 8) & 0xFF) as bv8) as int +
    0x1_0000 * (((x >> 16) & 0xFF) as bv8) as int + 0x100_0000 * (((x >> 24) & 0xFF) as bv8) as int
  }

  function FourBytes(a0: int, a1: int, a2: int, a3: int): int {
    a0 + 0x100 * a1 + 0x1_0000 * a2 + 0x100_0000 * a3
  }

  lemma BytesOfWord(b0: bv8, b1: bv8, b2: bv8, b3: bv8)
    ensures (Word(b0, b1, b2, b3) & 0xFF) as bv8 == b0
    ensures ((Word(b0, b1, b2, b3) >> 8) & 0xFF) as bv8 == b1
    ensures ((Word(b0, b1, b2, b3) >> 16) & 0xFF) as bv8 == b2
    ensures ((Word(b0, b1, b2, b3) >> 24) & 0xFF) as bv8 == b3
  {
  }

  lemma Sum8IsOnes(b: bv8)
    ensures Sum8(b) as int == Ones(b)
  {
  }

  /** A folded word, as a number: the ones of its bytes, one byte each. */
  lemma FoldCounts(b0: bv8, b1: bv8, b2: bv8, b3: bv8)
    ensures WordValue(Fold(Word(b0, b1, b2, b3))) == FourBytes(Ones(b0), Ones(b1), Ones(b2), Ones(b3))
  {
    hide Word, Fold, Sum8, Ones;
    FoldByByte(b0, b1, b2, b3);
    BytesOfWord(Sum8(b0), Sum8(b1), Sum8(b2), Sum8(b3));
    Sum8IsOnes(b0);
    Sum8IsOnes(b1);
    Sum8IsOnes(b2);
    Sum8IsOnes(b3);
  }

  // (sum * 0x01010101) >> 24 on 32 bits.
  function TopOfProduct(sum: int): int {
    sum * 0x0101_0101 % 0x1_0000_0000 / 0x100_0000
  }

  lemma Euclid(n: int, q: int, r: int, d: int)
    requires n == d * q + r && 0 <= r < d
    ensures n / d == q && n % d == r
  {
    var e := n / d - q;
    assert d * e == r - n % d by { assert d * (n / d) + n % d == n; assert d * e == d * (n / d) - d * q; }
    Bigger(d, e);
  }

  lemma Bigger(d: int, e: int)
    requires d > 0
    ensures e >= 1 ==> d * e >= d
    ensures e <= -1 ==> d * e <= -d
  {
  }

  /** The 32-bit product: its top byte is the sum of the four bytes, as long as that is at most 224. */
  lemma ProductAdds(a0: int, a1: int, a2: int, a3: int)
    requires 0 <= a0 <= 56 && 0 <= a1 <= 56 && 0 <= a2 <= 56 && 0 <= a3 <= 56
    ensures TopOfProduct(FourBytes(a0, a1, a2, a3)) == a0 + a1 + a2 + a3 <= 224
  {
    var low := a0 * 0x1_0101 + a1 * 0x1_0100 + a2 * 0x1_0000;
    var sum := a0 + a1 + a2 + a3;
    Euclid(FourBytes(a0, a1, a2, a3) * 0x0101_0101, a1 + a2 * 0x101 + a3 * 0x1_0101, low + 0x100_0000 * sum,
           0x1_0000_0000);
    Euclid(low + 0x100_0000 * sum, sum, low, 0x100_0000);
  }

  // ---------------------------------------------------------------- the loops

  function WordAt(p: Bytes, i: int): bv32
    requires 0 <= i && i + 4 <= |p|
  {
    Word(p[i], p[i + 1], p[i + 2], p[i + 3])
  }

  lemma CountOne(p: Bytes, i: int)
    requires 0 <= i < |p|
    ensures Count(p[i..]) == Ones(p[i]) + Count(p[i + 1..])
  {
    assert p[i..][1..] == p[i + 1..];
  }

  lemma CountFour(p: Bytes, i: int)
    requires 0 <= i && i + 4 <= |p|
    ensures Count(p[i..]) == Ones(p[i]) + Ones(p[i + 1]) + Ones(p[i + 2]) + Ones(p[i + 3]) + Count(p[i + 4..])
  {
    hide Count, Ones;
    CountOne(p, i);
    CountOne(p, i + 1);
    CountOne(p, i + 2);
    CountOne(p, i + 3);
  }

  function ValueAt(p: Bytes, i: int): int
    requires 0 <= i && i + 4 <= |p|
  {
    WordValue(Fold(WordAt(p, i)))
  }

  lemma ValueCounts(p: Bytes, i: int)
    requires 0 <= i && i + 4 <= |p|
    ensures ValueAt(p, i) == FourBytes(Ones(p[i]), Ones(p[i + 1]), Ones(p[i + 2]), Ones(p[i + 3]))
  {
    FoldCounts(p[i], p[i + 1], p[i + 2], p[i + 3]);
  }

  /** Seven words at a time. */
  method CountSevenWords(p: Bytes, i: int) returns (bits: int)
    requires 0 <= i && i + 28 <= |p|
    ensures Count(p[i..]) == bits + Count(p[i + 28..])
  {
    hide Count, Ones, ValueAt, TopOfProduct, Lane, Values, FourBytes;
    var aux1, aux2, aux3, aux4, aux5, aux6, aux7 :=
      ValueAt(p, i), ValueAt(p, i + 4), ValueAt(p, i + 8), ValueAt(p, i + 12), ValueAt(p, i + 16),
      ValueAt(p, i + 20), ValueAt(p, i + 24);
    bits := TopOfProduct(aux1 + aux2 + aux3 + aux4 + aux5 + aux6 + aux7);
    SevenValues(p, i);
    ValuesAreLanes(p, i, 7);
    ProductAdds(Lane(p, i, 0, 7), Lane(p, i, 1, 7), Lane(p, i, 2, 7), Lane(p, i, 3, 7));
    CountWords(p, i, 7);
  }

  function Values(p: Bytes, i: int, n: nat): int
    requires 0 <= i && i + 4 * n <= |p|
  {
    if n == 0 then 0 else Values(p, i, n - 1) + ValueAt(p, i + 4 * (n - 1))
  }

  /** What `n` words have in byte `k`. */
  function Lane(p: Bytes, i: int, k: int, n: nat): (r: int)
    requires 0 <= i && i + 4 * n <= |p| && 0 <= k < 4
    ensures 0 <= r <= 8 * n
  {
    if n == 0 then 0 else Lane(p, i, k, n - 1) + Ones(p[i + 4 * (n - 1) + k])
  }

  lemma LanesStep(p: Bytes, i: int, n: nat)
    requires 0 <= i && i + 4 * n <= |p|
    ensures forall k :: 0 <= k < 4 ==>
              Lane(p, i, k, n) == if n == 0 then 0 else Lane(p, i, k, n - 1) + Ones(p[i + 4 * (n - 1) + k])
  {
  }

  lemma SevenValues(p: Bytes, i: int)
    requires 0 <= i && i + 28 <= |p|
    ensures ValueAt(p, i) + ValueAt(p, i + 4) + ValueAt(p, i + 8) + ValueAt(p, i + 12) + ValueAt(p, i + 16) +
            ValueAt(p, i + 20) + ValueAt(p, i + 24)
         == Values(p, i, 7)
  {
    hide ValueAt;
    assert Values(p, i, 1) == ValueAt(p, i);
    assert Values(p, i, 2) == Values(p, i, 1) + ValueAt(p, i + 4);
    assert Values(p, i, 3) == Values(p, i, 2) + ValueAt(p, i + 8);
    assert Values(p, i, 4) == Values(p, i, 3) + ValueAt(p, i + 12);
    assert Values(p, i, 5) == Values(p, i, 4) + ValueAt(p, i + 16);
    assert Values(p, i, 6) == Values(p, i, 5) + ValueAt(p, i + 20);
  }

  lemma {:induction false} ValuesAreLanes(p: Bytes, i: int, n: nat)
    requires 0 <= i && i + 4 * n <= |p|
    ensures Values(p, i, n) == FourBytes(Lane(p, i, 0, n), Lane(p, i, 1, n), Lane(p, i, 2, n), Lane(p, i, 3, n))
  {
    hide ValueAt, Ones, Lane;
    LanesStep(p, i, n);
    if n > 0 {
      ValuesAreLanes(p, i, n - 1);
      ValueCounts(p, i + 4 * (n - 1));
    }
  }

  lemma {:induction false} CountWords(p: Bytes, i: int, n: nat)
    requires 0 <= i && i + 4 * n <= |p|
    ensures Count(p[i..]) ==
            Lane(p, i, 0, n) + Lane(p, i, 1, n) + Lane(p, i, 2, n) + Lane(p, i, 3, n) + Count(p[i + 4 * n..])
  {
    hide Count, Ones, Lane;
    LanesStep(p, i, n);
    if n > 0 {
      CountWords(p, i, n - 1);
      CountFour(p, i + 4 * (n - 1));
    }
  }

  /** redisPopcount of the buffer `p` that begins at address `start`. */
  method RedisPopcount(p: Bytes, start: int) returns (bits: int)
    ensures bits == Count(p)
  {
    hide Count, Ones, BitsInByte;
    bits := 0;
    var i := 0;
    assert p[0..] == p;
    while (start + i) % 4 != 0 && i < |p|
      invariant 0 <= i <= |p| && bits + Count(p[i..]) == Count(p)
      decreases |p| - i
    {
      TableIsRight(p[i]);
      CountOne(p, i);
      bits := bits + BitsInByte(p[i]);
      i := i + 1;
    }
    while |p| - i >= 28
      invariant 0 <= i <= |p| && bits + Count(p[i..]) == Count(p)
    {
      var b := CountSevenWords(p, i);
      bits := bits + b;
      i := i + 28;
    }
    while i < |p|
      invariant 0 <= i <= |p| && bits + Count(p[i..]) == Count(p)
    {
      TableIsRight(p[i]);
      CountOne(p, i);
      bits := bits + BitsInByte(p[i]);
      i := i + 1;
    }
    CountNil(p[i..]);
  }

  lemma CountNil(p: Bytes)
    requires p == []
    ensures Count(p) == 0
  {
  }
}
