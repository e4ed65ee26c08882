// bitops.c: redisBitpos, the position of the first bit that is set, or clear.
module BitPos {
  import opened BitMap

  // ---------------------------------------------------------------- the last word

  /** A byte's mask at byte `k` of a big-endian word. */
  function Place(m: bv8, k: int): bv64 {
    if k == 0 then (m as bv64) << 56
    else if k == 1 then (m as bv64) << 48
    else if k == 2 then (m as bv64) << 40
    else if k == 3 then (m as bv64) << 32
    else if k == 4 then (m as bv64) << 24
    else if k == 5 then (m as bv64) << 16
    else if k == 6 then (m as bv64) << 8
    else m as bv64
  }

  function BigEndian(w: Eight): bv64 {
    ((w.b0 as bv64) << 56) | ((w.b1 as bv64) << 48) | ((w.b2 as bv64) << 40) | ((w.b3 as bv64) << 32) |
    ((w.b4 as bv64) << 24) | ((w.b5 as bv64) << 16) | ((w.b6 as bv64) << 8) | (w.b7 as bv64)
  }

  function Shift(one: bv64): bv64 { one >> 1 }

  /** The only bit of the mask `one` after `n` shifts from the most significant bit. */
  function OneAt(n: nat): bv64 {
    if n == 0 then 0x8000_0000_0000_0000 else Shift(OneAt(n - 1))
  }

  lemma PlaceShifts(j: int, k: int)
    requires 0 <= k < 8
    ensures 1 <= j < 8 ==> Shift(Place(Mask(j - 1), k)) == Place(Mask(j), k)
    ensures k > 0 ==> Shift(Place(Mask(7), k - 1)) == Place(Mask(0), k)
    ensures Place(Mask(0), 0) == 0x8000_0000_0000_0000 && Shift(Place(Mask(7), 7)) == 0
    ensures Place(Mask(j), k) != 0
  {
  }

  lemma {:induction false} OneAtPlace(k: int, j: int)
    requires 0 <= k < 8 && 0 <= j < 8
    ensures OneAt(8 * k + j) == Place(Mask(j), k) != 0
    decreases 8 * k + j
  {
    hide Place, Mask, Shift;
    PlaceShifts(j, k);
    if j > 0 {
      OneAtPlace(k, j - 1);
    } else if k > 0 {
      OneAtPlace(k - 1, 7);
    }
  }

  lemma OneAtIs(n: nat)
    requires n < 64
    ensures OneAt(n) == Place(Mask(n % 8), n / 8) && OneAt(n) != 0
  {
    hide Place, Mask, OneAt;
    OneAtPlace(n / 8, n % 8);
  }

  function And(x: bv64, y: bv64): bv64 { x & y }
  function And8(x: bv8, y: bv8): bv8 { x & y }

  // A mask at one byte looks at that byte only.
  lemma Masked0(m: bv8, w: Eight) ensures And(Place(m, 0), BigEndian(w)) == Place(And8(w.b0, m), 0) { }
  lemma Masked1(m: bv8, w: Eight) ensures And(Place(m, 1), BigEndian(w)) == Place(And8(w.b1, m), 1) { }
  lemma Masked2(m: bv8, w: Eight) ensures And(Place(m, 2), BigEndian(w)) == Place(And8(w.b2, m), 2) { }
  lemma Masked3(m: bv8, w: Eight) ensures And(Place(m, 3), BigEndian(w)) == Place(And8(w.b3, m), 3) { }
  lemma Masked4(m: bv8, w: Eight) ensures And(Place(m, 4), BigEndian(w)) == Place(And8(w.b4, m), 4) { }
  lemma Masked5(m: bv8, w: Eight) ensures And(Place(m, 5), BigEndian(w)) == Place(And8(w.b5, m), 5) { }
  lemma Masked6(m: bv8, w: Eight) ensures And(Place(m, 6), BigEndian(w)) == Place(And8(w.b6, m), 6) { }
  lemma Masked7(m: bv8, w: Eight) ensures And(Place(m, 7), BigEndian(w)) == Place(And8(w.b7, m), 7) { }

  lemma Masked(m: bv8, k: int, w: Eight)
    requires 0 <= k < 8
    ensures And(Place(m, k), BigEndian(w)) == Place(And8(Byte(w, k), m), k)
  {
    hide And, And8, Place, BigEndian;
    if k == 0 { Masked0(m, w); }
    else if k == 1 { Masked1(m, w); }
    else if k == 2 { Masked2(m, w); }
    else if k == 3 { Masked3(m, w); }
    else if k == 4 { Masked4(m, w); }
    else if k == 5 { Masked5(m, w); }
    else if k == 6 { Masked6(m, w); }
    else { Masked7(m, w); }
  }

  lemma PlaceZero(m: bv8, k: int)
    requires 0 <= k < 8
    ensures Place(m, k) == 0 <==> m == 0
  {
  }

  // word <<= 8; word |= byte
  function ShiftIn(word: bv64, b: bv8): bv64 { (word << 8) | (b as bv64) }

  function Loaded(bs: Bytes): bv64 {
    if bs == [] then 0 else ShiftIn(Loaded(bs[..|bs| - 1]), bs[|bs| - 1])
  }

  function Two(x: bv64, a: bv8, b: bv8): bv64 { (x << 16) | ((a as bv64) << 8) | (b as bv64) }

  function Four(x: bv64, a: bv8, b: bv8, c: bv8, d: bv8): bv64 {
    (x << 32) | ((a as bv64) << 24) | ((b as bv64) << 16) | ((c as bv64) << 8) | (d as bv64)
  }

  lemma TwoShiftIns(x: bv64, a: bv8, b: bv8)
    ensures ShiftIn(ShiftIn(x, a), b) == Two(x, a, b)
  {
  }

  lemma FourShiftIns(x: bv64, a: bv8, b: bv8, c: bv8, d: bv8)
    ensures Two(Two(x, a, b), c, d) == Four(x, a, b, c, d)
  {
  }

  lemma FourAndFour(b0: bv8, b1: bv8, b2: bv8, b3: bv8, b4: bv8, b5: bv8, b6: bv8, b7: bv8)
    ensures Four(Four(0, b0, b1, b2, b3), b4, b5, b6, b7) == BigEndian(Eight(b0, b1, b2, b3, b4, b5, b6, b7))
  {
  }

  lemma EightShiftIns(w: Eight)
    ensures var top := ShiftIn(ShiftIn(ShiftIn(ShiftIn(0, w.b0), w.b1), w.b2), w.b3);
            ShiftIn(ShiftIn(ShiftIn(ShiftIn(top, w.b4), w.b5), w.b6), w.b7) == BigEndian(w)
  {
    hide ShiftIn, Two, Four, BigEndian;
    TwoShiftIns(0, w.b0, w.b1);
    TwoShiftIns(Two(0, w.b0, w.b1), w.b2, w.b3);
    FourShiftIns(0, w.b0, w.b1, w.b2, w.b3);
    var x := Four(0, w.b0, w.b1, w.b2, w.b3);
    TwoShiftIns(x, w.b4, w.b5);
    TwoShiftIns(Two(x, w.b4, w.b5), w.b6, w.b7);
    FourShiftIns(x, w.b4, w.b5, w.b6, w.b7);
    FourAndFour(w.b0, w.b1, w.b2, w.b3, w.b4, w.b5, w.b6, w.b7);
  }

  lemma LoadedOne(bs: Bytes, n: int)
    requires 0 <= n < |bs|
    ensures Loaded(bs[..n + 1]) == ShiftIn(Loaded(bs[..n]), bs[n])
  {
    assert bs[..n + 1][..n] == bs[..n];
  }

  function EightOf(bs: Bytes): Eight
    requires |bs| == 8
  {
    Eight(bs[0], bs[1], bs[2], bs[3], bs[4], bs[5], bs[6], bs[7])
  }

  lemma LoadedIsBigEndian(bs: Bytes)
    requires |bs| == 8
    ensures Loaded(bs) == BigEndian(EightOf(bs))
  {
    hide ShiftIn, BigEndian;
    assert bs[..8] == bs && Loaded(bs[..0]) == 0;
    LoadedOne(bs, 0);
    LoadedOne(bs, 1);
    LoadedOne(bs, 2);
    LoadedOne(bs, 3);
    LoadedOne(bs, 4);
    LoadedOne(bs, 5);
    LoadedOne(bs, 6);
    LoadedOne(bs, 7);
    EightShiftIns(EightOf(bs));
  }

  /** The mask at its `n`-th place selects the `n`-th bit of the eight bytes. */
  lemma MaskSelects(bs: Bytes, n: nat)
    requires |bs| == 8 && n < 64
    ensures And(OneAt(n), Loaded(bs)) != 0 <==> BitAt(bs, n)
    ensures OneAt(n) != 0
  {
    hide And, And8, Place, Mask, BigEndian, OneAt, Loaded;
    OneAtIs(n);
    LoadedIsBigEndian(bs);
    var m, k := Mask(n % 8), n / 8;
    Masked(m, k, EightOf(bs));
    PlaceZero(And8(bs[k], m), k);
    BitOfIs(bs[k], n % 8);
    assert Byte(EightOf(bs), k) == bs[k];
  }

  lemma BitOfIs(b: bv8, j: int)
    ensures BitOf(b, j) <==> And8(b, Mask(j)) != 0
  {
  }

  // ---------------------------------------------------------------- skipping whole words

  predicate AllBytes(w: Eight, v: bv8) {
    w == Eight(v, v, v, v, v, v, v, v)
  }

  lemma LongSkips(w: Eight)
    ensures Long(w) == 0 <==> AllBytes(w, 0)
    ensures Long(w) == 0xFFFF_FFFF_FFFF_FFFF <==> AllBytes(w, 0xFF)
  {
  }

  // ---------------------------------------------------------------- redisBitpos

  /** No bit before position `n` is the one looked for. */
  ghost predicate NoneBefore(s: Bytes, n: int, bit: bool)
    requires 0 <= n <= 8 * |s|
  {
    forall i :: 0 <= i < n ==> BitAt(s, i) != bit
  }

  lemma SkippedByte(s: Bytes, i: int, bit: bool)
    requires 0 <= i < |s| && s[i] == (if bit then 0 else 0xFF) && NoneBefore(s, 8 * i, bit)
    ensures NoneBefore(s, 8 * i + 8, bit)
  {
    hide BitOf;
    AllZeroBits(s[i]);
    AllOneBits(s[i]);
    forall j | 0 <= j < 8 * i + 8 ensures BitAt(s, j) != bit {
      if j >= 8 * i { assert j / 8 == i && j % 8 == j - 8 * i; }
    }
  }

  lemma SkippedWord(s: Bytes, i: int, bit: bool)
    requires 0 <= i && i + 8 <= |s| && NoneBefore(s, 8 * i, bit)
    requires AllBytes(WordAt(s, i), if bit then 0 else 0xFF)
    ensures NoneBefore(s, 8 * (i + 8), bit)
  {
    hide NoneBefore;
    SkippedByte(s, i, bit);
    SkippedByte(s, i + 1, bit);
    SkippedByte(s, i + 2, bit);
    SkippedByte(s, i + 3, bit);
    SkippedByte(s, i + 4, bit);
    SkippedByte(s, i + 5, bit);
    SkippedByte(s, i + 6, bit);
    SkippedByte(s, i + 7, bit);
  }

  /** The next eight bytes, padded with zeroes. */
  function NextEight(s: Bytes, i: int): (r: Bytes)
    requires 0 <= i <= |s|
    ensures |r| == 8 && forall k :: 0 <= k < 8 ==> r[k] == if i + k < |s| then s[i + k] else 0
  {
    seq(8, k requires 0 <= k => if i + k < |s| then s[i + k] else 0)
  }

  lemma NextBits(s: Bytes, i: int, n: int)
    requires 0 <= i <= |s| && 0 <= n < 64
    ensures BitAt(NextEight(s, i), n) <==> 8 * i + n < 8 * |s| && BitAt(s, 8 * i + n)
  {
    var k := n / 8;
    assert (8 * i + n) / 8 == i + k && (8 * i + n) % 8 == n % 8;
    hide Mask;
    assert i + k >= |s| ==> !BitOf(0, n % 8) by { NoBitsInZero(n % 8); }
  }

  lemma NoBitsInZero(j: int)
    ensures !BitOf(0, j)
  {
  }

  /** A word with no bit set is zero. */
  lemma ZeroWord(bs: Bytes)
    requires |bs| == 8
    ensures Loaded(bs) == 0 <==> forall n :: 0 <= n < 64 ==> !BitAt(bs, n)
    ensures Loaded(bs) == 0 <==> forall k :: 0 <= k < 8 ==> bs[k] == 0
  {
    hide Loaded, BigEndian, BitOf;
    LoadedIsBigEndian(bs);
    ZeroBigEndian(EightOf(bs));
    if forall k :: 0 <= k < 8 ==> bs[k] == 0 {
      assert bs[0] == 0 && bs[1] == 0 && bs[2] == 0 && bs[3] == 0 && bs[4] == 0 && bs[5] == 0 && bs[6] == 0
             && bs[7] == 0;
    }
    forall n | 0 <= n < 64 && Loaded(bs) == 0 ensures !BitAt(bs, n) {
      NoBitsInZero(n % 8);
    }
    if forall n :: 0 <= n < 64 ==> !BitAt(bs, n) {
      forall k | 0 <= k < 8 ensures bs[k] == 0 {
        AllZeroBits(bs[k]);
        forall j | 0 <= j < 8 ensures !BitOf(bs[k], j) {
          assert !BitAt(bs, 8 * k + j);
        }
      }
    }
  }

  lemma ZeroBigEndian(w: Eight)
    ensures BigEndian(w) == 0 <==> AllBytes(w, 0)
  {
  }

  /** The position of the first bit equal to `bit`; none: -1 for a set bit, for a clear bit the end of the string. */
  method RedisBitpos(s: Bytes, start: int, bit: bool) returns (pos: int)
    ensures pos == -1 || 0 <= pos <= 8 * |s|
    ensures pos == -1 ==> bit && NoneBefore(s, 8 * |s|, bit)
    ensures pos >= 0 ==> NoneBefore(s, pos, bit)
    ensures 0 <= pos < 8 * |s| ==> BitAt(s, pos) == bit
    ensures pos == 8 * |s| ==> !bit
  {
    hide NoneBefore, BitAt, Loaded, And, OneAt, Shift, Long, AllBytes;
    pos := 0;
    var i, found := 0, false;
    NoneYet(s, bit);
    while (start + i) % 8 != 0 && i < |s| && !found
      invariant 0 <= i <= |s| && pos == 8 * i && NoneBefore(s, 8 * i, bit)
      invariant found ==> i < |s| && s[i] != if bit then 0 else 0xFF
      decreases |s| - i, !found
    {
      if s[i] != if bit then 0 else 0xFF {
        found := true;
      } else {
        SkippedByte(s, i, bit);
        i := i + 1;
        pos := pos + 8;
      }
    }
    if !found {
      while |s| - i >= 8 && !found
        invariant 0 <= i <= |s| && pos == 8 * i && NoneBefore(s, 8 * i, bit)
        invariant found ==> |s| - i >= 8 && !AllBytes(WordAt(s, i), if bit then 0 else 0xFF)
        decreases |s| - i, !found
      {
        LongSkips(WordAt(s, i));
        if Long(WordAt(s, i)) != if bit then 0 else 0xFFFF_FFFF_FFFF_FFFF {
          found := true;
        } else {
          SkippedWord(s, i, bit);
          i := i + 8;
          pos := pos + 64;
        }
      }
    }
    assert Differs(s, i, bit) by { StopsBecause(s, i, bit, found); }
    pos := ScanLastWord(s, i, bit);
  }

  lemma NoneYet(s: Bytes, bit: bool)
    ensures NoneBefore(s, 0, bit)
  {
  }

  /** Either a bit is found in the next eight bytes, or they are the last. */
  ghost predicate Differs(s: Bytes, i: int, bit: bool)
    requires 0 <= i <= |s|
  {
    i + 8 > |s| || exists n :: 0 <= n < 64 && BitAt(NextEight(s, i), n) == bit
  }

  lemma SomeByteDiffers(s: Bytes, i: int, v: bv8)
    requires 0 <= i && i + 8 <= |s| && !AllBytes(WordAt(s, i), v)
    ensures exists k :: 0 <= k < 8 && NextEight(s, i)[k] != v
  {
    var bs := NextEight(s, i);
    assert WordAt(s, i) == Eight(bs[0], bs[1], bs[2], bs[3], bs[4], bs[5], bs[6], bs[7]);
  }

  lemma StopsBecause(s: Bytes, i: int, bit: bool, found: bool)
    requires 0 <= i <= |s|
    requires found ==> i < |s| &&
                       (s[i] != (if bit then 0 else 0xFF) ||
                        (i + 8 <= |s| && !AllBytes(WordAt(s, i), if bit then 0 else 0xFF)))
    requires !found ==> i + 8 > |s|
    ensures Differs(s, i, bit)
  {
    hide BitOf;
    var bs := NextEight(s, i);
    if i + 8 <= |s| {
      SomeByteDiffers(s, i, if bit then 0 else 0xFF);
      var k :| 0 <= k < 8 && bs[k] != if bit then 0 else 0xFF;
      AllZeroBits(bs[k]);
      AllOneBits(bs[k]);
      var j :| 0 <= j < 8 && BitOf(bs[k], j) == bit;
      assert (8 * k + j) / 8 == k && (8 * k + j) % 8 == j;
      assert BitAt(bs, 8 * k + j) == bit;
    }
  }

  lemma LoadedNothing(bs: Bytes)
    ensures Loaded(bs[..0]) == 0
  {
  }

  lemma MaskBegins()
    ensures OneAt(0) == 0x8000_0000_0000_0000
  {
  }

  lemma MaskMoves(n: nat)
    ensures OneAt(n + 1) == Shift(OneAt(n))
  {
    hide Shift;
  }

  lemma MaskEnds()
    ensures OneAt(64) == 0
  {
    hide OneAt, Place, Shift, Mask;
    OneAtIs(63);
    MaskMoves(63);
    PlaceShifts(0, 0);
  }

  /** Eight bytes without a set bit that reach the end of the string: no bit is set up to the end. */
  lemma NoMore(s: Bytes, i: int)
    requires 0 <= i <= |s| && NoneBefore(s, 8 * i, true) && Differs(s, i, true)
    requires forall n :: 0 <= n < 64 ==> !BitAt(NextEight(s, i), n)
    ensures NoneBefore(s, 8 * |s|, true)
  {
    hide BitAt;
    forall q | 0 <= q < 8 * |s| ensures !BitAt(s, q) {
      if q >= 8 * i { NextBits(s, i, q - 8 * i); }
    }
  }

  lemma FoundAt(s: Bytes, i: int, n: int, bit: bool)
    requires 0 <= i <= |s| && NoneBefore(s, 8 * i, bit) && 0 <= n < 64
    requires forall m :: 0 <= m < n ==> BitAt(NextEight(s, i), m) != bit
    requires BitAt(NextEight(s, i), n) == bit
    ensures 8 * i + n <= 8 * |s| && NoneBefore(s, 8 * i + n, bit)
    ensures 8 * i + n < 8 * |s| ==> BitAt(s, 8 * i + n) == bit
    ensures 8 * i + n == 8 * |s| ==> !bit
  {
    hide BitAt;
    NextBits(s, i, n);
    if 8 * i + n > 8 * |s| { NextBits(s, i, 8 * |s| - 8 * i); }
    forall q | 0 <= q < 8 * i + n ensures BitAt(s, q) != bit {
      if q >= 8 * i { NextBits(s, i, q - 8 * i); }
    }
  }

  lemma NotAllMissed(s: Bytes, i: int, bit: bool)
    requires 0 <= i <= |s| && Differs(s, i, bit)
    requires bit ==> exists n :: 0 <= n < 64 && BitAt(NextEight(s, i), n)
    ensures exists n :: 0 <= n < 64 && BitAt(NextEight(s, i), n) == bit
  {
    hide BitAt;
    if !bit && i + 8 > |s| {
      NextBits(s, i, 8 * (|s| - i));
      assert BitAt(NextEight(s, i), 8 * (|s| - i)) == bit;
    }
  }

  /** The end of redisBitpos: up to eight bytes are loaded and scanned. Its panic cannot be reached. */
  method ScanLastWord(s: Bytes, i: int, bit: bool) returns (pos: int)
    requires 0 <= i <= |s| && NoneBefore(s, 8 * i, bit) && Differs(s, i, bit)
    ensures pos == -1 || 0 <= pos <= 8 * |s|
    ensures pos == -1 ==> bit && NoneBefore(s, 8 * |s|, bit)
    ensures pos >= 0 ==> NoneBefore(s, pos, bit)
    ensures 0 <= pos < 8 * |s| ==> BitAt(s, pos) == bit
    ensures pos == 8 * |s| ==> !bit
  {
    hide BitOf, Loaded, And, OneAt, Shift, BitAt;
    ghost var bs := NextEight(s, i);
    var word: bv64 := 0;
    var j, c := 0, i;
    LoadedNothing(bs);
    while j < 8
      invariant 0 <= j <= 8 && c == (if i + j < |s| then i + j else |s|) && word == Loaded(bs[..j])
    {
      LoadedOne(bs, j);
      if c < |s| {
        word := ShiftIn(word, s[c]);
        c := c + 1;
      } else {
        word := ShiftIn(word, 0);
      }
      j := j + 1;
    }
    assert bs[..8] == bs;
    ZeroWord(bs);
    if bit && word == 0 {
      NoMore(s, i);
      return -1;
    }
    pos := 8 * i;
    var one: bv64 := 0x8000_0000_0000_0000;
    ghost var n := 0;
    MaskBegins();
    while one != 0
      invariant 0 <= n <= 64 && pos == 8 * i + n && one == OneAt(n)
      invariant forall m :: 0 <= m < n ==> BitAt(bs, m) != bit
      decreases 64 - n
    {
      MaskEnds();
      MaskSelects(bs, n);
      if (And(one, word) != 0) == bit {
        FoundAt(s, i, n, bit);
        return;
      }
      one := Shift(one);
      MaskMoves(n);
      n := n + 1;
      pos := pos + 1;
    }
    if n < 64 { MaskSelects(bs, n); }
    NotAllMissed(s, i, bit);
    // serverPanic
    assert false;
  }
}
