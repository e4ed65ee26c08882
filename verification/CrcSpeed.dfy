// crcspeed.c and crc64.c: the CRC64 that works on eight octets at a time computes the same as the bit-by-bit one.
module CrcSpeed {
  import opened BinaryNumbers
  import opened CrcDivision
  import opened Crc64

  // ---------------------------------------------------------------- octets of a word

  /** Eight octets in memory as a word, the least significant first. */
  function Word(d: Data): int {
    if d == [] then 0 else d[0] + 256 * Word(d[1..])
  }

  // (v >> 8 * k) & 0xff
  function Octet(v: int, k: nat): (r: int)
    ensures 0 <= r < 256
  {
    HighBits(v, 8 * k) % 256
  }

  lemma LowOctetBit(v: int, j: nat)
    requires j < 8
    ensures TestBit(v % 256, j) == TestBit(v, j)
  {
    ShlIsTimes(v / 256, 8);
    OctetRange();
    assert v == v % 256 + Shl(v / 256, 8);
    TestBitShift(v % 256, v / 256, j, 8);
  }

  lemma OctetBits(v: int, k: nat)
    requires k < 8
    ensures Lsb(Octet(v, k), 8) == Lsb(v, 64)[8 * k..8 * k + 8]
  {
    hide TestBit, HighBits;
    forall j | 0 <= j < 8 ensures TestBit(Octet(v, k), j) == TestBit(v, 8 * k + j) {
      LowOctetBit(HighBits(v, 8 * k), j);
      HighBitsBit(v, 8 * k, j);
    }
  }

  lemma ShiftedBits(v: int)
    requires IsU64(v)
    ensures Lsb(HighBits(v, 8), 64) == Moved(Lsb(v, 64), 8)
  {
    hide TestBit, HighBits;
    forall i | 0 <= i < 64 ensures TestBit(HighBits(v, 8), i) == Moved(Lsb(v, 64), 8)[i] {
      HighBitsBit(v, 8, i);
      if i + 8 >= 64 { NoBitsAbove(v, i + 8); }
    }
  }

  lemma NoBitsAbove(v: int, k: nat)
    requires IsU64(v) && k >= 64
    ensures !TestBit(v, k)
  {
    Pow2Values();
    NoBitsAt(v, 64, k);
  }

  lemma {:induction false} NoBitsAt(v: int, n: nat, k: nat)
    requires 0 <= v < Pow2(n) && k >= n
    ensures !TestBit(v, k)
    decreases k
  {
    if k > 0 {
      if n > 0 { NoBitsAt(v / 2, n - 1, k - 1); } else { NoBitsAt(0, 0, k - 1); }
    }
  }

  lemma {:induction false} WordBits(d: Data)
    requires IsData(d)
    ensures Lsb(Word(d), 8 * |d|) == MessageBits(d)
  {
    hide TestBit, MessageBits;
    if d == [] {
      BeforeTheFirst(d);
      assert d[..0] == d;
    } else {
      var rest := d[1..];
      WordBits(rest);
      assert d == [d[0]] + rest;
      BitsOfTwo([d[0]], rest);
      OneOctet(d[0]);
      forall i | 0 <= i < 8 * |d| ensures TestBit(Word(d), i) == MessageBits(d)[i] {
        WordBit(d[0], Word(rest), i);
        if i >= 8 { assert Lsb(Word(rest), 8 * |rest|)[i - 8] == MessageBits(rest)[i - 8]; }
      }
    }
  }

  lemma OneOctet(c: int)
    ensures MessageBits([c]) == Lsb(c, 8)
  {
    hide Lsb;
    assert [c][..0] == [];
    assert MessageBits([]) == [];
  }

  lemma WordBit(low: int, high: int, i: nat)
    requires 0 <= low < 256
    ensures TestBit(low + 256 * high, i) == if i < 8 then TestBit(low, i) else TestBit(high, i - 8)
  {
    hide TestBit, Shl;
    OctetRange();
    ShlIsTimes(high, 8);
    if i < 8 {
      TestBitShift(low, high, i, 8);
    } else {
      HighPart(low, high);
      HighBitsBit(low + 256 * high, 8, i - 8);
    }
  }

  lemma HighPart(low: int, high: int)
    requires 0 <= low < 256
    ensures HighBits(low + 256 * high, 8) == high
  {
    LowBitsModulo(low + 256 * high, 8);
    ShlIsTimes(high, 8);
    ShlIsTimes(HighBits(low + 256 * high, 8), 8);
    OctetRange();
  }

  // ---------------------------------------------------------------- the tables

  /** What the register holds `n` steps after the octet came in at its top. */
  function After(m: Poly, n: nat): (r: Poly)
    requires |m| == 8
    ensures |r| == 64
  {
    Run(m + Zeros(56), Zeros(n), Divisor())
  }

  ghost predicate EntryOk(v: int, k: nat, n: int) {
    IsU64(v) && Lsb(v, 64) == After(Lsb(n, 8), 8 * (k + 1))
  }

  ghost predicate TableOk(table: array2<int>)
    reads table
  {
    table.Length0 == 8 && table.Length1 == 256 &&
    forall k, n :: 0 <= k < 8 && 0 <= n < 256 ==> EntryOk(table[k, n], k, n)
  }

  // table[0][(crc ^ octet) & 0xff] ^ (crc >> 8), given the table entry
  function Stepped(entry: int, crc: int): int {
    Xor(entry, HighBits(crc, 8), 64)
  }

  /** One table step is eight steps of the register. */
  lemma SteppedIsRun(entry: int, crc: int, c: int)
    requires IsU64(crc) && EntryOk(entry, 0, Octet(Xor(crc, c, 64), 0))
    ensures IsU64(Stepped(entry, crc)) && Lsb(Stepped(entry, crc), 64) == Run(Lsb(crc, 64), Lsb(c, 8), Divisor())
  {
    hide Lsb, Run, Xor, HighBits, Octet, Top, Moved, Plus, Zeros, Divisor;
    Pow2Values();
    XorLsb(entry, HighBits(crc, 8), 64);
    ShiftedBits(crc);
    IndexBits(crc, c);
    TopAndRest(Lsb(crc, 64), Lsb(c, 8), Divisor());
    PlusCommutes(Lsb(entry, 64), Moved(Lsb(crc, 64), 8));
  }

  lemma IndexBits(crc: int, c: int)
    ensures Lsb(Octet(Xor(crc, c, 64), 0), 8) + Zeros(56) == Top(Lsb(crc, 64), Lsb(c, 8))
  {
    hide TestBit, Xor;
    var v := Xor(crc, c, 64);
    OctetBits(v, 0);
    forall i | 0 <= i < 8 ensures Lsb(Octet(v, 0), 8)[i] == Plus(Lsb(crc, 64)[..8], Lsb(c, 8))[i] {
      XorBit(crc, c, 64, i);
      assert Lsb(v, 64)[0..8][i] == TestBit(v, i);
    }
  }

  /** A table for one octet from the table for the octet behind it. */
  lemma NestedEntry(entry: int, crc: int, k: nat, n: int)
    requires EntryOk(crc, k, n) && EntryOk(entry, 0, Octet(crc, 0))
    ensures EntryOk(Stepped(entry, crc), k + 1, n)
  {
    hide Lsb, Run, Xor, HighBits, Octet, Zeros, Divisor, Stepped;
    XorZero(crc);
    SteppedIsRun(entry, crc, 0);
    ZeroOctet();
    RunSplits(Lsb(n, 8) + Zeros(56), Zeros(8 * (k + 1)), Zeros(8), Divisor());
    ZerosAdd(8 * (k + 1), 8);
  }

  lemma ZerosAdd(m: nat, n: nat)
    ensures Zeros(m) + Zeros(n) == Zeros(m + n)
  {
  }

  lemma ZeroOctet()
    ensures Lsb(0, 8) == Zeros(8)
  {
    hide TestBit;
    forall i: nat | i < 8 ensures !TestBit(0, i) { ZeroBit(i); }
  }

  lemma {:induction false} ZeroBit(k: nat)
    ensures !TestBit(0, k)
  {
    if k > 0 { ZeroBit(k - 1); }
  }

  lemma XorZero(v: int)
    requires IsU64(v)
    ensures Xor(v, 0, 64) == v
  {
    hide Xor, TestBit;
    Pow2Values();
    forall k: nat | k < 64 ensures TestBit(Xor(v, 0, 64), k) == TestBit(v, k) {
      XorBit(v, 0, 64, k);
      ZeroBit(k);
    }
    SameBits(Xor(v, 0, 64), v, 64);
  }

  lemma FirstEntry(v: int, n: int)
    requires IsU64(v) && Lsb(v, 64) == Checksum(0, [n])
    ensures EntryOk(v, 0, n)
  {
    hide Lsb, Msb, Run, Checksum, Divisor, MessageBits;
    ChecksumIsRun(0, [n]);
    OneOctet(n);
    ZeroRegister();
    InputOrRegister(Zeros(64), Lsb(n, 8), Divisor());
    NothingPlus(Lsb(n, 8));
  }

  lemma ZeroRegister()
    ensures Msb(0, 64) == Zeros(64) && Lsb(0, 64) == Zeros(64)
  {
    hide TestBit;
    forall i: nat | i < 64 ensures !TestBit(0, i) { ZeroBit(i); }
  }

  lemma NothingPlus(m: Poly)
    requires |m| == 8
    ensures Plus(Zeros(64), m) == m + Zeros(56)
  {
  }

  method Crcspeed64LittleInit(table: array2<int>)
    requires table.Length0 == 8 && table.Length1 == 256
    modifies table
    ensures TableOk(table)
  {
    hide Lsb, Checksum, After, Xor, HighBits, Octet, Stepped, EntryOk;
    var n := 0;
    while n < 256
      invariant 0 <= n <= 256
      invariant forall m :: 0 <= m < n ==> EntryOk(table[0, m], 0, m)
    {
      var v := Crc64Bits(0, [n]);
      FirstEntry(v, n);
      table[0, n] := v;
      n := n + 1;
    }
    n := 0;
    while n < 256
      invariant 0 <= n <= 256
      invariant forall m :: 0 <= m < 256 ==> EntryOk(table[0, m], 0, m)
      invariant forall k, m :: 0 <= k < 8 && 0 <= m < n ==> EntryOk(table[k, m], k, m)
    {
      var crc := table[0, n];
      var k := 1;
      while k < 8
        invariant 1 <= k <= 8 && EntryOk(crc, k - 1, n)
        invariant forall m :: 0 <= m < 256 ==> EntryOk(table[0, m], 0, m)
        invariant forall j, m :: 0 <= j < 8 && 0 <= m < n ==> EntryOk(table[j, m], j, m)
        invariant forall j :: 0 <= j < k ==> EntryOk(table[j, n], j, n)
      {
        NestedEntry(table[0, Octet(crc, 0)], crc, k - 1, n);
        crc := Stepped(table[0, Octet(crc, 0)], crc);
        table[k, n] := crc;
        k := k + 1;
      }
      n := n + 1;
    }
  }

  // ---------------------------------------------------------------- eight octets at once

  /** The part of the register from octet `k` on, after 64 steps. */
  function Tail(reg: Poly, k: nat): (r: Poly)
    requires |reg| == 64 && k <= 8
    ensures |r| == 64
  {
    Run(Rest(reg, 8 * k), Zeros(64), Divisor())
  }

  /** An octet further back in the register comes to its top 8 steps later. */
  lemma TailSplits(reg: Poly, k: nat)
    requires |reg| == 64 && k < 8
    ensures Tail(reg, k) == Plus(After(reg[8 * k..8 * k + 8], 8 * (8 - k)), Tail(reg, k + 1))
  {
    hide Run, Divisor, Plus, Zeros;
    var m := reg[8 * k..8 * k + 8];
    var part := Zeros(8 * k) + m + Zeros(56 - 8 * k);
    PartAndRest(reg, k);
    RunIsLinear(part, Rest(reg, 8 * k + 8), 64, Divisor());
    RunSplits(part, Zeros(8 * k), Zeros(64 - 8 * k), Divisor());
    ZerosAdd(8 * k, 64 - 8 * k);
    PartMoves(m, k);
  }

  lemma PartAndRest(reg: Poly, k: nat)
    requires |reg| == 64 && k < 8
    ensures Rest(reg, 8 * k) ==
            Plus(Zeros(8 * k) + reg[8 * k..8 * k + 8] + Zeros(56 - 8 * k), Rest(reg, 8 * k + 8))
  {
  }

  lemma PartMoves(m: Poly, k: nat)
    requires |m| == 8 && k < 8
    ensures Run(Zeros(8 * k) + m + Zeros(56 - 8 * k), Zeros(8 * k), Divisor()) == m + Zeros(56)
  {
    hide Run, Divisor;
    var part := Zeros(8 * k) + m + Zeros(56 - 8 * k);
    RunShifts(part, 8 * k, Divisor());
    assert part[8 * k..] + Zeros(8 * k) == m + Zeros(56);
  }

  /** With the tables of the first `k` octets added up, the others are still to come. */
  ghost predicate Gathered(acc: int, crc: int, k: nat)
    requires k <= 8
  {
    IsU64(acc) && Plus(Lsb(acc, 64), Tail(Lsb(crc, 64), k)) == Tail(Lsb(crc, 64), 0)
  }

  lemma GatherNext(acc: int, crc: int, k: nat, entry: int)
    requires k < 8 && Gathered(acc, crc, k) && EntryOk(entry, 7 - k, Octet(crc, k))
    ensures Gathered(Xor(acc, entry, 64), crc, k + 1)
  {
    hide Lsb, Tail, After, Xor, Octet, Plus;
    Pow2Values();
    TailSplits(Lsb(crc, 64), k);
    OctetBits(crc, k);
    XorLsb(acc, entry, 64);
    PlusAssociates(Lsb(acc, 64), Lsb(entry, 64), Tail(Lsb(crc, 64), k + 1));
  }

  lemma PlusAssociates(a: Poly, b: Poly, c: Poly)
    requires |a| == |b| == |c|
    ensures Plus(a, Plus(b, c)) == Plus(Plus(a, b), c)
  {
  }

  method SliceBy8(table: array2<int>, crc: int) returns (r: int)
    requires TableOk(table) && IsU64(crc)
    ensures IsU64(r) && Lsb(r, 64) == Run(Lsb(crc, 64), Zeros(64), Divisor())
  {
    hide Lsb, Tail, After, Xor, Octet, Plus, Run, Gathered, EntryOk;
    GatherNothing(crc);
    GatherNext(0, crc, 0, table[7, Octet(crc, 0)]);
    XorZero2(table[7, Octet(crc, 0)], 7, Octet(crc, 0));
    r := table[7, Octet(crc, 0)];
    GatherNext(r, crc, 1, table[6, Octet(crc, 1)]);
    r := Xor(r, table[6, Octet(crc, 1)], 64);
    GatherNext(r, crc, 2, table[5, Octet(crc, 2)]);
    r := Xor(r, table[5, Octet(crc, 2)], 64);
    GatherNext(r, crc, 3, table[4, Octet(crc, 3)]);
    r := Xor(r, table[4, Octet(crc, 3)], 64);
    GatherNext(r, crc, 4, table[3, Octet(crc, 4)]);
    r := Xor(r, table[3, Octet(crc, 4)], 64);
    GatherNext(r, crc, 5, table[2, Octet(crc, 5)]);
    r := Xor(r, table[2, Octet(crc, 5)], 64);
    GatherNext(r, crc, 6, table[1, Octet(crc, 6)]);
    r := Xor(r, table[1, Octet(crc, 6)], 64);
    GatherNext(r, crc, 7, table[0, Octet(crc, 7)]);
    r := Xor(r, table[0, Octet(crc, 7)], 64);
    GatherAll(r, crc);
  }

  lemma GatherNothing(crc: int)
    ensures Gathered(0, crc, 0)
  {
    hide Lsb, Run, Tail;
    ZeroRegister();
    var t := Tail(Lsb(crc, 64), 0);
    assert Plus(Zeros(64), t) == t;
  }

  lemma XorZero2(v: int, k: nat, n: int)
    requires EntryOk(v, k, n)
    ensures Xor(0, v, 64) == v
  {
    hide Xor, TestBit, Lsb, After;
    Pow2Values();
    forall j: nat | j < 64 ensures TestBit(Xor(0, v, 64), j) == TestBit(v, j) {
      XorBit(0, v, 64, j);
      ZeroBit(j);
    }
    SameBits(Xor(0, v, 64), v, 64);
  }

  lemma GatherAll(acc: int, crc: int)
    requires Gathered(acc, crc, 8)
    ensures IsU64(acc) && Lsb(acc, 64) == Run(Lsb(crc, 64), Zeros(64), Divisor())
  {
    hide Lsb, Run, Divisor, Plus;
    var reg := Lsb(crc, 64);
    NoRest(reg);
    RunShifts(Zeros(64), 64, Divisor());
    PlusNothing(Lsb(acc, 64));
  }

  lemma NoRest(reg: Poly)
    requires |reg| == 64
    ensures Rest(reg, 64) == Zeros(64) && Rest(reg, 0) == reg && Zeros(64)[64..] + Zeros(64) == Zeros(64)
    ensures forall i :: 0 <= i < 64 ==> !Zeros(64)[i]
  {
  }

  /** Eight octets are added to the whole register, and 64 steps are taken at once. */
  lemma WordIsRun(crc: int, d: Data, r: int)
    requires IsU64(crc) && IsData(d) && |d| == 8
    requires Lsb(r, 64) == Run(Lsb(Xor(crc, Word(d), 64), 64), Zeros(64), Divisor())
    ensures Lsb(r, 64) == Run(Lsb(crc, 64), MessageBits(d), Divisor())
  {
    hide Lsb, Run, Divisor, Plus, Xor, Word, MessageBits;
    XorLsb(crc, Word(d), 64);
    WordBits(d);
    InputOrRegister(Lsb(crc, 64), MessageBits(d), Divisor());
  }

  /** crc64, for the buffer `d` that begins at address `start`. */
  method Crcspeed64Little(table: array2<int>, crc0: int, d: Data, start: int) returns (crc: int)
    requires TableOk(table) && IsU64(crc0) && IsData(d)
    ensures IsU64(crc) && Lsb(crc, 64) == Run(Lsb(crc0, 64), MessageBits(d), Divisor())
  {
    hide Lsb, Run, Divisor, Plus, Xor, Word, MessageBits, Octet, Stepped, After, EntryOk;
    crc := crc0;
    var next := 0;
    Nothing(crc0, d);
    while next < |d| && (start + next) % 8 != 0
      invariant 0 <= next <= |d| && IsU64(crc)
      invariant Lsb(crc, 64) == Run(Lsb(crc0, 64), MessageBits(d[..next]), Divisor())
      decreases |d| - next
    {
      crc := OneStep(table, crc0, crc, d, next);
      next := next + 1;
    }
    while |d| - next >= 8
      invariant 0 <= next <= |d| && IsU64(crc)
      invariant Lsb(crc, 64) == Run(Lsb(crc0, 64), MessageBits(d[..next]), Divisor())
    {
      ghost var before := crc;
      crc := Xor(crc, Word(d[next..next + 8]), 64);
      Pow2Values();
      crc := SliceBy8(table, crc);
      WordIsRun(before, d[next..next + 8], crc);
      MoreOctets(crc0, d, next, next + 8);
      next := next + 8;
    }
    while next < |d|
      invariant 0 <= next <= |d| && IsU64(crc)
      invariant Lsb(crc, 64) == Run(Lsb(crc0, 64), MessageBits(d[..next]), Divisor())
    {
      crc := OneStep(table, crc0, crc, d, next);
      next := next + 1;
    }
    assert d[..next] == d;
  }

  lemma Nothing(crc0: int, d: Data)
    ensures Lsb(crc0, 64) == Run(Lsb(crc0, 64), MessageBits(d[..0]), Divisor())
  {
    hide Lsb, Divisor;
    BeforeTheFirst(d);
  }

  lemma MoreOctets(crc0: int, d: Data, i: nat, j: nat)
    requires i <= j <= |d|
    ensures Run(Lsb(crc0, 64), MessageBits(d[..j]), Divisor()) ==
            Run(Run(Lsb(crc0, 64), MessageBits(d[..i]), Divisor()), MessageBits(d[i..j]), Divisor())
  {
    hide Lsb, Divisor, Run, MessageBits;
    assert d[..j] == d[..i] + d[i..j];
    BitsOfTwo(d[..i], d[i..j]);
    RunSplits(Lsb(crc0, 64), MessageBits(d[..i]), MessageBits(d[i..j]), Divisor());
  }

  method OneStep(table: array2<int>, ghost crc0: int, crc: int, d: Data, next: int) returns (r: int)
    requires TableOk(table) && IsU64(crc) && IsData(d) && 0 <= next < |d|
    requires Lsb(crc, 64) == Run(Lsb(crc0, 64), MessageBits(d[..next]), Divisor())
    ensures IsU64(r) && Lsb(r, 64) == Run(Lsb(crc0, 64), MessageBits(d[..next + 1]), Divisor())
  {
    hide Lsb, Run, Divisor, Xor, MessageBits, Octet, Stepped, After, EntryOk;
    var index := Octet(Xor(crc, d[next], 64), 0);
    r := Stepped(table[0, index], crc);
    SteppedIsRun(table[0, index], crc, d[next]);
    MoreOctets(crc0, d, next, next + 1);
    assert d[next..next + 1] == [d[next]];
    OneOctet(d[next]);
  }

  /** From an empty register both functions return the same number. */
  lemma SameAsBitByBit(d: Data, fast: int, slow: int)
    requires IsData(d) && IsU64(fast) && IsU64(slow)
    requires Lsb(fast, 64) == Run(Lsb(0, 64), MessageBits(d), Divisor())
    requires Lsb(slow, 64) == Checksum(0, d)
    ensures fast == slow
  {
    hide Lsb, Msb, Run, Divisor, Checksum, MessageBits;
    Pow2Values();
    ChecksumIsRun(0, d);
    ZeroRegister();
    SameLsb(fast, slow, 64);
  }

  /** The check value of a message can be computed piece by piece. */
  lemma PieceByPiece(d: Data, e: Data, first: int, second: int, whole: int)
    requires IsU64(second) && IsU64(whole)
    requires Lsb(first, 64) == Run(Lsb(0, 64), MessageBits(d), Divisor())
    requires Lsb(second, 64) == Run(Lsb(first, 64), MessageBits(e), Divisor())
    requires Lsb(whole, 64) == Run(Lsb(0, 64), MessageBits(d + e), Divisor())
    ensures second == whole
  {
    hide Lsb, Run, Divisor, MessageBits;
    Pow2Values();
    BitsOfTwo(d, e);
    RunSplits(Lsb(0, 64), MessageBits(d), MessageBits(e), Divisor());
    SameLsb(second, whole, 64);
  }
}
