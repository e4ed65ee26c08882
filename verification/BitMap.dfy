// The bits of a string: bit 0 is the most significant bit of the first byte.
module BitMap {

  type Bytes = seq<bv8>

  function Flag(b: bool): (r: int) { if b then 1 else 0 }

  /** Half a byte, as an index. */
  function Nibble(b: bv8): (r: int)
    requires b <= 15
    ensures 0 <= r <= 15
  {
    Flag(b & 1 != 0) + 2 * Flag(b & 2 != 0) + 4 * Flag(b & 4 != 0) + 8 * Flag(b & 8 != 0)
  }

  /** The bit with index `j`, from the left, of a byte. */
  function Mask(j: int): bv8 {
    if j == 0 then 0x80
    else if j == 1 then 0x40
    else if j == 2 then 0x20
    else if j == 3 then 0x10
    else if j == 4 then 0x08
    else if j == 5 then 0x04
    else if j == 6 then 0x02
    else 0x01
  }

  predicate BitOf(b: bv8, j: int) {
    b & Mask(j) != 0
  }

  predicate BitAt(s: Bytes, i: int)
    requires 0 <= i < 8 * |s|
  {
    BitOf(s[i / 8], i % 8)
  }

  lemma AllZeroBits(b: bv8)
    ensures b == 0 <==> forall j :: 0 <= j < 8 ==> !BitOf(b, j)
  {
    if forall j :: 0 <= j < 8 ==> !BitOf(b, j) {
      assert !BitOf(b, 0) && !BitOf(b, 1) && !BitOf(b, 2) && !BitOf(b, 3);
      assert !BitOf(b, 4) && !BitOf(b, 5) && !BitOf(b, 6) && !BitOf(b, 7);
    }
  }

  lemma AllOneBits(b: bv8)
    ensures b == 0xFF <==> forall j :: 0 <= j < 8 ==> BitOf(b, j)
  {
    if forall j :: 0 <= j < 8 ==> BitOf(b, j) {
      assert BitOf(b, 0) && BitOf(b, 1) && BitOf(b, 2) && BitOf(b, 3);
      assert BitOf(b, 4) && BitOf(b, 5) && BitOf(b, 6) && BitOf(b, 7);
    }
  }

  // ---------------------------------------------------------------- eight bytes as a machine word

  datatype Eight = Eight(b0: bv8, b1: bv8, b2: bv8, b3: bv8, b4: bv8, b5: bv8, b6: bv8, b7: bv8)

  function Byte(w: Eight, k: int): bv8 {
    if k == 0 then w.b0 else if k == 1 then w.b1 else if k == 2 then w.b2 else if k == 3 then w.b3
    else if k == 4 then w.b4 else if k == 5 then w.b5 else if k == 6 then w.b6 else w.b7
  }

  /** An unsigned long in memory, least significant byte first. */
  function Long(w: Eight): bv64 {
    (w.b0 as bv64) | ((w.b1 as bv64) << 8) | ((w.b2 as bv64) << 16) | ((w.b3 as bv64) << 24) |
    ((w.b4 as bv64) << 32) | ((w.b5 as bv64) << 40) | ((w.b6 as bv64) << 48) | ((w.b7 as bv64) << 56)
  }

  function Split(x: bv64): Eight {
    Eight((x & 0xFF) as bv8, ((x >> 8) & 0xFF) as bv8, ((x >> 16) & 0xFF) as bv8, ((x >> 24) & 0xFF) as bv8,
          ((x >> 32) & 0xFF) as bv8, ((x >> 40) & 0xFF) as bv8, ((x >> 48) & 0xFF) as bv8, ((x >> 56) & 0xFF) as bv8)
  }

  lemma SplitLong(w: Eight)
    ensures Split(Long(w)) == w
  {
  }

  function WordAt(s: Bytes, i: int): Eight
    requires 0 <= i && i + 8 <= |s|
  {
    Eight(s[i], s[i + 1], s[i + 2], s[i + 3], s[i + 4], s[i + 5], s[i + 6], s[i + 7])
  }

  lemma ByteOfWordAt(s: Bytes, i: int, k: int)
    requires 0 <= i && i + 8 <= |s| && 0 <= k < 8
    ensures Byte(WordAt(s, i), k) == s[i + k]
  {
  }
}
