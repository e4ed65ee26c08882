// bitops.c: bitopCommand, a word-at-a-time fast path followed by a byte-at-a-time tail.
module BitOp {
  import opened BitMap

  datatype Op = And | Or | Xor | Not

  // What a source key holds.
  datatype Src = Missing | Str(bytes: Bytes) | OtherType

  datatype Reply = Stored(bytes: Bytes) | Deleted | WrongType | NotTakesOneKey

  // ---------------------------------------------------------------- what is computed


  function And8(x: bv8, y: bv8): bv8 { x & y }
  function Or8(x: bv8, y: bv8): bv8 { x | y }
  function Xor8(x: bv8, y: bv8): bv8 { x ^ y }
  function Not8(x: bv8): bv8 { !x }

  function Apply(op: Op, x: bv8, y: bv8): bv8 {
    match op
    case And => And8(x, y)
    case Or => Or8(x, y)
    case Xor => Xor8(x, y)
    case Not => Not8(x)
  }

  function BytesOf(s: Src): Bytes {
    if s.Str? then s.bytes else []
  }

  /** A string, padded with zeroes. */
  function Padded(s: Bytes, j: int): bv8 {
    if 0 <= j < |s| then s[j] else 0
  }

  function First(op: Op, b: bv8): bv8 {
    if op.Not? then Apply(Not, b, 0) else b
  }

  /** The operation over the first `n` sources, at byte `j`. */
  function Combined(op: Op, src: seq<Bytes>, j: int, n: int): bv8
    requires 1 <= n <= |src|
    decreases n
  {
    if n == 1 then First(op, Padded(src[0], j)) else Apply(op, Combined(op, src, j, n - 1), Padded(src[n - 1], j))
  }

  function Longest(src: seq<Bytes>): (r: int)
    ensures r >= 0 && forall i :: 0 <= i < |src| ==> |src[i]| <= r
    ensures r > 0 ==> exists i :: 0 <= i < |src| && |src[i]| == r
  {
    if src == [] then 0
    else
      var m, l := Longest(src[..|src| - 1]), |src[|src| - 1]|;
      if l > m then l else m
  }

  function Strings(src: seq<Src>): (r: seq<Bytes>)
    ensures |r| == |src| && forall i :: 0 <= i < |src| ==> r[i] == BytesOf(src[i])
  {
    seq(|src|, i requires 0 <= i < |src| => BytesOf(src[i]))
  }

  /** Once AND is all zeroes, or OR all ones, the other sources change nothing. */
  lemma {:induction false} Absorbed(op: Op, src: seq<Bytes>, j: int, m: int, n: int)
    requires 1 <= m <= n <= |src|
    requires (op.And? && Combined(op, src, j, m) == 0) || (op.Or? && Combined(op, src, j, m) == 0xFF)
    ensures Combined(op, src, j, n) == Combined(op, src, j, m)
    decreases n
  {
    hide Combined, Apply;
    if n > m {
      Absorbed(op, src, j, m, n - 1);
      AbsorbedByte(Padded(src[n - 1], j));
      CombinedStep(op, src, j, n);
    }
  }

  lemma AbsorbedByte(y: bv8)
    ensures Apply(And, 0, y) == 0 && Apply(Or, 0xFF, y) == 0xFF
  {
  }

  lemma CombinedStep(op: Op, src: seq<Bytes>, j: int, n: int)
    requires 1 <= n <= |src|
    ensures n > 1 ==> Combined(op, src, j, n) == Apply(op, Combined(op, src, j, n - 1), Padded(src[n - 1], j))
    ensures n == 1 ==> Combined(op, src, j, n) == First(op, Padded(src[0], j))
  {
  }

  lemma BitOfAnd(x: bv8, y: bv8, b: int)
    ensures BitOf(And8(x, y), b) <==> BitOf(x, b) && BitOf(y, b)
  {
  }

  lemma BitOfOr(x: bv8, y: bv8, b: int)
    ensures BitOf(Or8(x, y), b) <==> BitOf(x, b) || BitOf(y, b)
  {
  }

  lemma BitOfXor(x: bv8, y: bv8, b: int)
    ensures BitOf(Xor8(x, y), b) <==> BitOf(x, b) != BitOf(y, b)
  {
    hide Mask;
    OneBit(b);
    XorOneBit(x, y, Mask(b));
  }

  lemma OneBit(b: int)
    ensures Mask(b) & (Mask(b) - 1) == 0 && Mask(b) != 0
  {
  }

  lemma XorOneBit(x: bv8, y: bv8, m: bv8)
    requires m & (m - 1) == 0
    ensures Xor8(x, y) & m != 0 <==> (x & m != 0) != (y & m != 0)
  {
  }

  lemma BitOfNot(x: bv8, b: int)
    ensures BitOf(Not8(x), b) <==> !BitOf(x, b)
  {
  }

  lemma BitOfApply(op: Op, x: bv8, y: bv8, b: int)
    ensures BitOf(Apply(op, x, y), b) <==>
            match op
            case And => BitOf(x, b) && BitOf(y, b)
            case Or => BitOf(x, b) || BitOf(y, b)
            case Xor => BitOf(x, b) != BitOf(y, b)
            case Not => !BitOf(x, b)
  {
    hide BitOf, And8, Or8, Xor8, Not8;
    match op
    case And => BitOfAnd(x, y, b);
    case Or => BitOfOr(x, y, b);
    case Xor => BitOfXor(x, y, b);
    case Not => BitOfNot(x, b);
  }

  /** How many of the first `n` sources have the bit. */
  function Having(src: seq<Bytes>, j: int, b: int, n: int): int
    requires 0 <= n <= |src|
    decreases n
  {
    if n == 0 then 0 else Having(src, j, b, n - 1) + if BitOf(Padded(src[n - 1], j), b) then 1 else 0
  }

  /** Bit by bit: all the sources, some source, an odd number of sources, not the source. */
  lemma {:induction false} CombinedBits(op: Op, src: seq<Bytes>, j: int, b: int, n: int)
    requires 1 <= n <= |src| && (op.Not? ==> n == 1)
    ensures 0 <= Having(src, j, b, n) <= n
    ensures BitOf(Combined(op, src, j, n), b) <==>
            match op
            case And => Having(src, j, b, n) == n
            case Or => Having(src, j, b, n) > 0
            case Xor => Having(src, j, b, n) % 2 == 1
            case Not => Having(src, j, b, n) == 0
    decreases n
  {
    hide BitOf, Apply, Padded, Combined;
    CombinedStep(op, src, j, n);
    if n == 1 {
      assert Having(src, j, b, 0) == 0;
      if op.Not? { BitOfApply(Not, Padded(src[0], j), 0, b); }
    } else {
      CombinedBits(op, src, j, b, n - 1);
      BitOfApply(op, Combined(op, src, j, n - 1), Padded(src[n - 1], j), b);
    }
  }

  // ---------------------------------------------------------------- words

  function And64(x: bv64, y: bv64): bv64 { x & y }
  function Or64(x: bv64, y: bv64): bv64 { x | y }
  function Xor64(x: bv64, y: bv64): bv64 { x ^ y }
  function Not64(x: bv64): bv64 { !x }

  function ApplyWord(op: Op, x: bv64, y: bv64): bv64 {
    match op
    case And => And64(x, y)
    case Or => Or64(x, y)
    case Xor => Xor64(x, y)
    case Not => Not64(x)
  }

  function Each(op: Op, a: Eight, b: Eight): Eight {
    Eight(Apply(op, a.b0, b.b0), Apply(op, a.b1, b.b1), Apply(op, a.b2, b.b2), Apply(op, a.b3, b.b3),
          Apply(op, a.b4, b.b4), Apply(op, a.b5, b.b5), Apply(op, a.b6, b.b6), Apply(op, a.b7, b.b7))
  }

  lemma AndWord(a: Eight, b: Eight)
    ensures And64(Long(a), Long(b)) ==
            Long(Eight(And8(a.b0, b.b0), And8(a.b1, b.b1), And8(a.b2, b.b2), And8(a.b3, b.b3),
                       And8(a.b4, b.b4), And8(a.b5, b.b5), And8(a.b6, b.b6), And8(a.b7, b.b7)))
  {
  }

  lemma OrWord(a: Eight, b: Eight)
    ensures Or64(Long(a), Long(b)) ==
            Long(Eight(Or8(a.b0, b.b0), Or8(a.b1, b.b1), Or8(a.b2, b.b2), Or8(a.b3, b.b3),
                       Or8(a.b4, b.b4), Or8(a.b5, b.b5), Or8(a.b6, b.b6), Or8(a.b7, b.b7)))
  {
  }

  lemma XorWord(a: Eight, b: Eight)
    ensures Xor64(Long(a), Long(b)) ==
            Long(Eight(Xor8(a.b0, b.b0), Xor8(a.b1, b.b1), Xor8(a.b2, b.b2), Xor8(a.b3, b.b3),
                       Xor8(a.b4, b.b4), Xor8(a.b5, b.b5), Xor8(a.b6, b.b6), Xor8(a.b7, b.b7)))
  {
  }

  lemma NotWord(a: Eight)
    ensures Not64(Long(a)) ==
            Long(Eight(Not8(a.b0), Not8(a.b1), Not8(a.b2), Not8(a.b3),
                       Not8(a.b4), Not8(a.b5), Not8(a.b6), Not8(a.b7)))
  {
  }

  /** A bitwise operation on words is the operation on each of their bytes. */
  lemma EachByte(op: Op, a: Eight, b: Eight)
    ensures ApplyWord(op, Long(a), Long(b)) == Long(Each(op, a, b))
  {
    hide Long, And64, Or64, Xor64, Not64, And8, Or8, Xor8, Not8;
    match op
    case And => AndWord(a, b);
    case Or => OrWord(a, b);
    case Xor => XorWord(a, b);
    case Not => NotWord(a);
  }

  // lres[..] op= lp[i][..], for the word at byte `at`.
  method ApplyAt(op: Op, res: array<bv8>, s: Bytes, at: int)
    requires 0 <= at && at + 8 <= |s| && at + 8 <= res.Length
    modifies res
    ensures forall x :: 0 <= x < res.Length ==>
              res[x] == if at <= x < at + 8 then Apply(op, old(res[x]), s[x]) else old(res[x])
  {
    hide Apply, ApplyWord, Long, Split, Each, Byte, WordAt;
    ghost var before := res[..];
    var a, b := WordAt(res[..], at), WordAt(s, at);
    EachByte(op, a, b);
    SplitLong(Each(op, a, b));
    StoreWord(res, at, ApplyWord(op, Long(a), Long(b)));
    forall k | 0 <= k < 8 ensures Byte(a, k) == before[at + k] && Byte(b, k) == s[at + k] {
      ByteOfWordAt(before, at, k);
      ByteOfWordAt(s, at, k);
    }
    forall k | 0 <= k < 8 ensures Byte(Each(op, a, b), k) == Apply(op, Byte(a, k), Byte(b, k)) {
      EachAt(op, a, b, k);
    }
    forall x | at <= x < at + 8 ensures res[x] == Apply(op, before[x], s[x]) {
      assert before[at + (x - at)] == before[x];
    }
  }

  method StoreWord(res: array<bv8>, at: int, w: bv64)
    requires 0 <= at && at + 8 <= res.Length
    modifies res
    ensures forall x :: 0 <= x < res.Length ==>
            res[x] == if at <= x < at + 8 then Byte(Split(w), x - at) else old(res[x])
  {
    hide Split;
    var k, bytes := 0, Split(w);
    while k < 8
      invariant 0 <= k <= 8
      invariant forall x :: 0 <= x < res.Length ==>
                res[x] == if at <= x < at + k then Byte(bytes, x - at) else old(res[x])
    {
      res[at + k] := Byte(bytes, k);
      k := k + 1;
    }
  }

  lemma EachAt(op: Op, a: Eight, b: Eight, k: int)
    ensures Byte(Each(op, a, b), k) == Apply(op, Byte(a, k), Byte(b, k))
  {
    hide Apply;
  }

  // ---------------------------------------------------------------- the fast path

  /** Blocks of four words, as long as every source has one. */
  method FastPath(op: Op, src: seq<Bytes>, res: array<bv8>, minlen: int) returns (j: int)
    requires 1 <= |src| <= 16 && (op.Not? ==> |src| == 1) && 0 <= minlen <= res.Length
    requires forall i :: 0 <= i < |src| ==> |src[i]| >= minlen
    modifies res
    ensures 0 <= j <= minlen
    ensures forall x :: 0 <= x < j ==> res[x] == Combined(op, src, x, |src|)
  {
    hide Apply, Combined;
    var c := 0;
    while c < minlen
      invariant 0 <= c <= minlen
      invariant forall x :: 0 <= x < c ==> res[x] == src[0][x]
    {
      res[c] := src[0][c];
      c := c + 1;
    }
    j := 0;
    var left := minlen;
    while left >= 32
      invariant 0 <= left && 0 <= j && j + left == minlen
      invariant forall x :: 0 <= x < j ==> res[x] == Combined(op, src, x, |src|)
      invariant forall x :: j <= x < minlen ==> res[x] == src[0][x]
    {
      Block(op, src, res, j);
      j := j + 32;
      left := left - 32;
    }
  }

  method Block(op: Op, src: seq<Bytes>, res: array<bv8>, j: int)
    requires 1 <= |src| && (op.Not? ==> |src| == 1) && 0 <= j && j + 32 <= res.Length
    requires forall i :: 0 <= i < |src| ==> j + 32 <= |src[i]|
    requires forall x :: j <= x < j + 32 ==> res[x] == src[0][x]
    modifies res
    ensures forall x :: 0 <= x < res.Length ==>
              res[x] == if j <= x < j + 32 then Combined(op, src, x, |src|) else old(res[x])
  {
    hide Apply, Combined;
    FirstSource(op, src, j);
    if op.Not? {
      ApplyFour(op, res, src[0], j);
    } else {
      var i := 1;
      while i < |src|
        invariant 1 <= i <= |src|
        invariant forall x :: 0 <= x < res.Length ==>
                    res[x] == if j <= x < j + 32 then Combined(op, src, x, i) else old(res[x])
      {
        ApplyFour(op, res, src[i], j);
        NextSource(op, src, j, i + 1);
        i := i + 1;
      }
    }
  }

  method ApplyFour(op: Op, res: array<bv8>, s: Bytes, j: int)
    requires 0 <= j && j + 32 <= |s| && j + 32 <= res.Length
    modifies res
    ensures forall x :: 0 <= x < res.Length ==>
              res[x] == if j <= x < j + 32 then Apply(op, old(res[x]), s[x]) else old(res[x])
  {
    hide Apply;
    ApplyAt(op, res, s, j);
    ApplyAt(op, res, s, j + 8);
    ApplyAt(op, res, s, j + 16);
    ApplyAt(op, res, s, j + 24);
  }

  lemma FirstSource(op: Op, src: seq<Bytes>, j: int)
    requires 1 <= |src| && 0 <= j && j + 32 <= |src[0]|
    ensures forall x :: j <= x < j + 32 ==>
              Combined(op, src, x, 1) == if op.Not? then Apply(op, src[0][x], src[0][x]) else src[0][x]
  {
  }

  lemma NextSource(op: Op, src: seq<Bytes>, j: int, n: int)
    requires 2 <= n <= |src| && 0 <= j && j + 32 <= |src[n - 1]|
    ensures forall x :: j <= x < j + 32 ==>
            Combined(op, src, x, n) == Apply(op, Combined(op, src, x, n - 1), src[n - 1][x])
  {
    hide Apply;
  }

  // ---------------------------------------------------------------- the command

  /** The bytewise operation over all sources, padded with zeroes to the longest; a missing key is an empty string. */
  method BitopCommand(op: Op, keys: seq<Src>) returns (reply: Reply)
    requires |keys| >= 1
    ensures reply == NotTakesOneKey <==> op.Not? && |keys| != 1
    ensures reply == WrongType <==> !(op.Not? && |keys| != 1) && exists i :: 0 <= i < |keys| && keys[i].OtherType?
    ensures reply == Deleted ==> Longest(Strings(keys)) == 0
    ensures reply.Stored? ==> |reply.bytes| == Longest(Strings(keys)) > 0
    ensures reply.Stored? ==> forall x :: 0 <= x < |reply.bytes| ==>
            reply.bytes[x] == Combined(op, Strings(keys), x, |keys|)
  {
    hide Combined, Longest;
    if op.Not? && |keys| != 1 {
      return NotTakesOneKey;
    }
    var ok, src, maxlen, minlen := ReadSources(keys);
    if !ok {
      return WrongType;
    }
    assert src == Strings(keys);
    if maxlen == 0 {
      return Deleted;
    }
    var res := new bv8[maxlen];
    Compute(op, src, minlen, res);
    return Stored(res[..]);
  }

  method ReadSources(keys: seq<Src>) returns (ok: bool, src: seq<Bytes>, maxlen: int, minlen: int)
    ensures ok <==> forall i :: 0 <= i < |keys| ==> !keys[i].OtherType?
    ensures ok ==> |src| == |keys| && forall i :: 0 <= i < |keys| ==> src[i] == BytesOf(keys[i])
    ensures ok ==> 0 <= minlen <= maxlen == Longest(src) && forall i :: 0 <= i < |src| ==> minlen <= |src[i]|
  {
    hide Longest;
    src, maxlen, minlen := [], 0, 0;
    var j := 0;
    LongestNil();
    while j < |keys|
      invariant 0 <= j <= |keys| && |src| == j
      invariant forall i :: 0 <= i < j ==> src[i] == BytesOf(keys[i]) && !keys[i].OtherType?
      invariant 0 <= minlen <= maxlen == Longest(src) && forall i :: 0 <= i < j ==> minlen <= |src[i]|
    {
      LongestNext(src, BytesOf(keys[j]));
      match keys[j] {
        case Missing =>
          src := src + [[]];
          minlen := 0;
        case OtherType =>
          return false, src, maxlen, minlen;
        case Str(bytes) =>
          src := src + [bytes];
          if |bytes| > maxlen { maxlen := |bytes|; }
          if j == 0 || |bytes| < minlen { minlen := |bytes|; }
      }
      j := j + 1;
    }
    ok := true;
  }

  method Compute(op: Op, src: seq<Bytes>, minlen: int, res: array<bv8>)
    requires |src| >= 1 && (op.Not? ==> |src| == 1)
    requires 0 <= minlen <= res.Length && forall i :: 0 <= i < |src| ==> minlen <= |src[i]|
    modifies res
    ensures forall x :: 0 <= x < res.Length ==> res[x] == Combined(op, src, x, |src|)
  {
    hide Combined;
    var j := 0;
    if minlen >= 32 && |src| <= 16 {
      j := FastPath(op, src, res, minlen);
    }
    while j < res.Length
      invariant 0 <= j <= res.Length
      invariant forall x :: 0 <= x < j ==> res[x] == Combined(op, src, x, |src|)
    {
      res[j] := ByteAt(op, src, j);
      j := j + 1;
    }
  }

  // One byte of the tail; the rest of the sources is skipped when they cannot change it.
  method ByteAt(op: Op, src: seq<Bytes>, j: int) returns (output: bv8)
    requires 1 <= |src| && 0 <= j && (op.Not? ==> |src| == 1)
    ensures output == Combined(op, src, j, |src|)
  {
    hide Combined, Apply;
    output := if |src[0]| <= j then 0 else src[0][j];
    if op.Not? { output := Apply(Not, output, 0); }
    CombinedStep(op, src, j, 1);
    var i := 1;
    while i < |src|
      invariant 1 <= i <= |src| && output == Combined(op, src, j, i)
    {
      var byte := if |src[i]| <= j then 0 else src[i][j];
      output := Apply(op, output, byte);
      CombinedStep(op, src, j, i + 1);
      if (op.And? && output == 0) || (op.Or? && output == 0xFF) {
        Absorbed(op, src, j, i + 1, |src|);
        return;
      }
      i := i + 1;
    }
  }

  lemma LongestNil()
    ensures Longest([]) == 0
  {
  }

  lemma LongestNext(src: seq<Bytes>, b: Bytes)
    ensures Longest(src + [b]) == if |b| > Longest(src) then |b| else Longest(src)
  {
    assert (src + [b])[..|src|] == src;
  }
}
