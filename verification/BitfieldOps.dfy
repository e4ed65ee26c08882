// bitops.c: the overflow checks, and the operations of BITFIELD one after another.
module BitfieldOps {
  import opened BitMap
  import opened BinaryNumbers
  import opened Bitfield

  datatype Policy = Wrap | Sat | Fail
  datatype Option<+T> = None | Some(value: T)

  // ---------------------------------------------------------------- the overflow checks

  // The return value, and *limit when it is set.
  datatype Check = Check(code: int, limit: Option<int>)

  function CheckUnsignedBitfieldOverflow(value: int, incr: int, bits: nat, ow: Policy): Check
    requires 1 <= bits <= 63
  {
    var max := Pow2(bits) - 1;
    var maxincr := S64(max - value);
    var minincr := S64(-value);
    // handle_wrap
    var wrapped := Check(1, Some(LowBits(U64(value + incr), bits)));
    if value > max || (incr > 0 && incr > maxincr) then
      match ow
      case Wrap => wrapped
      case Sat => Check(1, Some(max))
      case Fail => Check(1, None)
    else if incr < 0 && incr < minincr then
      match ow
      case Wrap => wrapped
      case Sat => Check(-1, Some(0))
      case Fail => Check(-1, None)
    else Check(0, None)
  }

  function CheckSignedBitfieldOverflow(value: int, incr: int, bits: nat, ow: Policy): Check
    requires 1 <= bits <= 64
  {
    var max := Pow2(bits - 1) - 1;
    var min := -max - 1;
    var maxincr := S64(max - value);
    var minincr := S64(min - value);
    // handle_wrap: the sum modulo 2^64, its sign bit propagated or its higher bits cleared.
    var c := U64(value + incr);
    var low := LowBits(c, bits);
    var wrapped := Check(1, Some(if bits < 64 then if TestBit(c, bits - 1) then low - Pow2(bits) else low else S64(c)));
    if value > max || (bits != 64 && incr > maxincr) || (value >= 0 && incr > 0 && incr > maxincr) then
      match ow
      case Wrap => wrapped
      case Sat => Check(1, Some(max))
      case Fail => Check(1, None)
    else if value < min || (bits != 64 && incr < minincr) || (value < 0 && incr < 0 && incr < minincr) then
      match ow
      case Wrap => wrapped
      case Sat => Check(-1, Some(min))
      case Fail => Check(-1, None)
    else Check(0, None)
  }

  predicate Fits(v: int, bits: nat, sign: bool)
    requires bits >= 1
  {
    Lo(bits, sign) <= v <= Hi(bits, sign)
  }

  function Clamped(v: int, bits: nat, sign: bool): int
    requires bits >= 1
  {
    if v > Hi(bits, sign) then Hi(bits, sign) else if v < Lo(bits, sign) then Lo(bits, sign) else v
  }

  /** What the check of value + incr should report. Its sign tells overflow from underflow, except that a wrapped value
      is always reported as 1. */
  ghost predicate Reports(r: Check, sum: int, bits: nat, sign: bool, ow: Policy)
    requires bits >= 1
  {
    && (r.code == 0 <==> Fits(sum, bits, sign))
    && (r.code != 0 ==>
          match ow
          case Wrap => r == Check(1, Some(Wrapped(sum, bits, sign)))
          case Sat => r == Check(if sum > Hi(bits, sign) then 1 else -1, Some(Clamped(sum, bits, sign)))
          case Fail => r == Check(if sum > Hi(bits, sign) then 1 else -1, None))
  }

  /** INCRBY: `value` is in the field. SET: `value` is any uint64_t and incr is 0. */
  lemma UnsignedCheckReports(value: int, incr: int, bits: nat, ow: Policy)
    requires 1 <= bits <= 63 && IsU64(value) && IsS64(incr)
    requires incr == 0 || Fits(value, bits, false)
    ensures Reports(CheckUnsignedBitfieldOverflow(value, incr, bits, ow), value + incr, bits, false, ow)
  {
    hide Pow2, LowBits, TestBit;
    Pow2Values();
    Pow2Order(bits, 63);
    WrapKeepsBits(value + incr, bits);
  }

  /** The one case in which the signed check is wrong: a SET so far below the range that max - value does not fit in 64
      bits is taken for an overflow. */
  predicate TakenForOverflow(value: int, bits: nat)
    requires 1 <= bits <= 64
  {
    value < Hi(bits, true) - (TWO_63 - 1)
  }

  lemma SignedCheckReports(value: int, incr: int, bits: nat, ow: Policy)
    requires 1 <= bits <= 64 && IsS64(value) && IsS64(incr)
    requires incr == 0 || Fits(value, bits, true)
    ensures ow == Wrap || !TakenForOverflow(value, bits) || bits == 64 ==>
              Reports(CheckSignedBitfieldOverflow(value, incr, bits, ow), value + incr, bits, true, ow)
    ensures ow != Wrap && TakenForOverflow(value, bits) && bits < 64 ==>
              CheckSignedBitfieldOverflow(value, incr, bits, ow) ==
              Check(1, if ow == Sat then Some(Hi(bits, true)) else None) && value + incr < Lo(bits, true)
  {
    hide Pow2, LowBits, TestBit;
    Pow2Values();
    Pow2Order(bits - 1, 63);
    SignedWrap(value + incr, bits);
    if bits < 64 {
      Pow2Order(bits, 63);
      Pow2Step(bits);
    }
  }

  lemma SignedWrap(sum: int, bits: nat)
    requires 1 <= bits <= 64 && -TWO_64 <= sum < TWO_64
    ensures var c := U64(sum); var low := LowBits(c, bits);
            (if bits < 64 then if TestBit(c, bits - 1) then low - Pow2(bits) else low else S64(c)) ==
              Wrapped(sum, bits, true)
  {
    hide Pow2, LowBits, TestBit;
    var c := U64(sum);
    Pow2Values();
    WrapKeepsBits(sum, bits);
    LowBitsModulo(c, bits);
    TopBit(LowBits(c, bits), bits);
    TestBitShift(LowBits(c, bits), HighBits(c, bits), bits - 1, bits);
    Pow2Step(bits);
    if bits == 64 { LowBitsSmall(c, 64); }
  }

  // ---------------------------------------------------------------- BITFIELD

  datatype Opcode = Get | Set | IncrBy
  datatype FieldOp = FieldOp(opcode: Opcode, sign: bool, offset: int, bits: int, ow: Policy, i64: int)

  // What the parser lets through.
  predicate WellFormed(op: FieldOp) {
    op.offset >= 0 && 1 <= op.bits <= (if op.sign then 64 else 63) && IsS64(op.i64)
  }

  /** SET under SAT stores the maximum instead of the minimum for a negative value in an unsigned field, and for a value
      too far below a signed one. */
  predicate SatMisses(op: FieldOp)
    requires WellFormed(op)
  {
    op.opcode.Set? && op.ow.Sat? && if op.sign then op.bits < 64 && TakenForOverflow(op.i64, op.bits) else op.i64 < 0
  }

  /** The number the operation asks for, before the overflow policy. */
  function Asked(op: FieldOp, old_: int): int {
    if op.opcode.IncrBy? then old_ + op.i64 else op.i64
  }

  /** What SET or INCRBY stores in a field that holds `old_`, if anything. */
  function Outcome(op: FieldOp, old_: int): Option<int>
    requires WellFormed(op)
  {
    var v := Asked(op, old_);
    if Fits(v, op.bits, op.sign) then Some(v)
    else
      match op.ow
      case Wrap => Some(Wrapped(v, op.bits, op.sign))
      case Sat => Some(if SatMisses(op) then Hi(op.bits, op.sign) else Clamped(v, op.bits, op.sign))
      case Fail => None
  }

  /** SAT clamps if and only if it is not one of those cases. */
  lemma SatClamps(op: FieldOp, old_: int)
    requires WellFormed(op) && !op.opcode.Get? && op.ow.Sat?
    ensures Outcome(op, old_) == Some(Clamped(Asked(op, old_), op.bits, op.sign)) <==> !SatMisses(op)
  {
    Pow2Order(op.bits - 1, 63);
    Pow2Values();
    Pow2Step(op.bits);
    if op.bits < 64 { Pow2Order(op.bits, 63); }
  }

  /** BITFIELD k OVERFLOW SAT SET i8 0 -9223372036854775808 SET u8 0 -1 stores 127 and then 255. */
  lemma SatStoresTheMaximum(old_: int)
    ensures Outcome(FieldOp(Set, true, 0, 8, Sat, -0x8000_0000_0000_0000), old_) == Some(127)
    ensures Outcome(FieldOp(Set, false, 0, 8, Sat, -1), old_) == Some(255)
  {
    assert Pow2(4) == 16 && Pow2(7) == 128 && Pow2(8) == 256;
  }

  lemma SameLowBits(a: int, b: int, n: nat)
    requires LowBits(a, n) == LowBits(b, n)
    ensures exists k :: a == b + Shl(k, n)
  {
    hide Pow2, LowBits;
    LowBitsModulo(a, n);
    LowBitsModulo(b, n);
    var h, l := HighBits(a, n), HighBits(b, n);
    ShlIsTimes(h, n);
    ShlIsTimes(l, n);
    ShlIsTimes(h - l, n);
    assert (h - l) * Pow2(n) == h * Pow2(n) - l * Pow2(n);
    assert a == b + Shl(h - l, n);
  }

  /** Spelled out: what fits is stored; otherwise FAIL stores nothing, WRAP the number that differs by a multiple of
      2^bits, and SAT the nearer bound, but for a SET that asks for less than the minimum: it stores the maximum if the
      field is unsigned or if the number is below the maximum by more than INT64_MAX. */
  lemma OutcomeIs(op: FieldOp, old_: int, lo: int, hi: int, v: int)
    requires WellFormed(op) && !op.opcode.Get?
    requires lo == (if op.sign then -Pow2(op.bits - 1) else 0)
    requires hi == if op.sign then Pow2(op.bits - 1) - 1 else Pow2(op.bits) - 1
    requires v == if op.opcode.IncrBy? then old_ + op.i64 else op.i64
    ensures lo <= v <= hi ==> Outcome(op, old_) == Some(v)
    ensures !(lo <= v <= hi) && op.ow.Fail? ==> Outcome(op, old_) == None
    ensures !(lo <= v <= hi) && op.ow.Wrap? ==>
              && Outcome(op, old_).Some? && lo <= Outcome(op, old_).value <= hi
              && exists k :: Outcome(op, old_).value == v + Shl(k, op.bits)
    ensures v > hi && op.ow.Sat? ==> Outcome(op, old_) == Some(hi)
    ensures v < lo && op.ow.Sat? ==>
              Outcome(op, old_) ==
                Some(if op.opcode.Set? && (!op.sign || (op.bits < 64 && hi - v > 0x7fff_ffff_ffff_ffff))
                                        then hi else lo)
  {
    Pow2Values();
    hide Pow2, LowBits, TestBit;
    WrappedInRange(v, op.bits, op.sign);
    Pow2Step(op.bits);
    SameLowBits(Wrapped(v, op.bits, op.sign), v, op.bits);
  }

  lemma OutcomeInRange(op: FieldOp, old_: int)
    requires WellFormed(op)
    ensures Outcome(op, old_).Some? ==> Fits(Outcome(op, old_).value, op.bits, op.sign)
  {
    WrappedInRange(Asked(op, old_), op.bits, op.sign);
    Pow2Step(op.bits);
  }

  function FieldValue(s: Bytes, op: FieldOp): int
    requires WellFormed(op)
  {
    Value(s, op.offset, op.bits, op.sign)
  }

  /** One operation on a string that reaches to its last bit. */
  ghost predicate Step(s: Bytes, t: Bytes, op: FieldOp, reply: Option<int>)
    requires WellFormed(op)
  {
    var old_ := FieldValue(s, op);
    && |t| == |s|
    && (op.opcode.Get? ==> t == s && reply == Some(old_))
    && (!op.opcode.Get? ==>
          var o := Outcome(op, old_);
          && (o.None? ==> t == s && reply == None)
          && (o.Some? ==> FieldValue(t, op) == o.value && reply == Some(if op.opcode.Set? then old_ else o.value))
          && forall i :: 0 <= i < 8 * |s| && !(op.offset <= i < op.offset + op.bits) ==> BitAt(t, i) == BitAt(s, i))
  }

  // The code path of a signed and of an unsigned SET or INCRBY: what is stored, if anything.
  method Compute(op: FieldOp, oldval: int) returns (newval: Option<int>)
    requires WellFormed(op) && !op.opcode.Get? && Fits(oldval, op.bits, op.sign)
    ensures newval == Outcome(op, oldval)
  {
    hide Pow2, LowBits, TestBit, CheckSignedBitfieldOverflow, CheckUnsignedBitfieldOverflow;
    Pow2Values();
    Pow2Order(op.bits - 1, 63);
    Pow2Step(op.bits);
    if op.bits < 64 { Pow2Order(op.bits, 63); }
    var value, check: Check;
    if op.sign {
      if op.opcode.IncrBy? {
        value := S64(oldval + op.i64);
        check := CheckSignedBitfieldOverflow(oldval, op.i64, op.bits, op.ow);
        SignedCheckReports(oldval, op.i64, op.bits, op.ow);
      } else {
        value := op.i64;
        check := CheckSignedBitfieldOverflow(value, 0, op.bits, op.ow);
        SignedCheckReports(value, 0, op.bits, op.ow);
      }
    } else {
      if op.opcode.IncrBy? {
        value := U64(oldval + op.i64);
        check := CheckUnsignedBitfieldOverflow(oldval, op.i64, op.bits, op.ow);
        UnsignedCheckReports(oldval, op.i64, op.bits, op.ow);
      } else {
        value := U64(op.i64);
        check := CheckUnsignedBitfieldOverflow(value, 0, op.bits, op.ow);
        UnsignedCheckReports(value, 0, op.bits, op.ow);
        WrapKeepsBits(op.i64, op.bits);
      }
    }
    newval := if check.code != 0 then check.limit else Some(value);
  }

  method Write(p: array<bv8>, op: FieldOp) returns (reply: Option<int>)
    requires WellFormed(op) && !op.opcode.Get? && op.offset + op.bits <= 8 * p.Length
    modifies p
    ensures Step(old(p[..]), p[..], op, reply)
    ensures Replied(old(p[..]), p[..], op, reply)
  {
    hide Pow2, LowBits, TestBit, Outcome, BitAt, Fits, Value;
    ghost var s := p[..];
    var oldval: int;
    if op.sign {
      oldval := GetSignedBitfield(p[..], op.offset, op.bits);
    } else {
      oldval := GetUnsignedBitfield(p[..], op.offset, op.bits);
    }
    ValueIs(s, op);
    var newval := Compute(op, oldval);
    if newval.None? {
      return None;
    }
    reply := Some(if op.opcode.Set? then oldval else newval.value);
    // setSignedBitfield casts to uint64_t
    var uv := U64(newval.value);
    SetUnsignedBitfield(p, op.offset, op.bits, uv);
    OutcomeInRange(op, oldval);
    ReadAfterWrite(s, p[..], op.offset, op.bits, uv);
    CastKeepsField(newval.value, op.bits, op.sign);
    ValueIs(p[..], op);
  }

  lemma ValueIs(s: Bytes, op: FieldOp)
    requires WellFormed(op)
    ensures FieldValue(s, op) ==
            if op.sign then Value(s, op.offset, op.bits, true) else Value(s, op.offset, op.bits, false)
    ensures Value(s, op.offset, op.bits, false) == Field(s, op.offset, op.bits)
    ensures Fits(FieldValue(s, op), op.bits, op.sign)
  {
    InRange(Field(s, op.offset, op.bits), op.bits);
  }

  lemma CastKeepsField(v: int, bits: nat, sign: bool)
    requires 1 <= bits <= 64 && Fits(v, bits, sign)
    ensures Wrapped(U64(v), bits, sign) == v
  {
    hide Pow2, LowBits, TestBit;
    WrapKeepsBits(v, bits);
    WrappedInRange(v, bits, sign);
  }

  // GET: nine bytes are copied to a zeroed buffer, so a field may cross the end of the string.
  method Read(s: Bytes, op: FieldOp) returns (val: int)
    requires WellFormed(op)
    ensures val == FieldValue(s, op)
  {
    hide Field, Pow2, BitAt;
    var buf := new bv8[9](_ => 0);
    var byte := op.offset / 8;
    var i := 0;
    while i < 9 && i + byte < |s|
      invariant 0 <= i <= 9 && (i == 0 || i + byte <= |s|)
      invariant forall k :: 0 <= k < 9 ==> buf[k] == if k < i then s[k + byte] else 0
      decreases 9 - i
    {
      buf[i] := s[i + byte];
      i := i + 1;
    }
    BufferBits(s, buf[..], byte, op.offset, op.bits);
    SameField(s, op.offset, buf[..], op.offset - byte * 8, op.bits);
    if op.sign {
      val := GetSignedBitfield(buf[..], op.offset - byte * 8, op.bits);
    } else {
      val := GetUnsignedBitfield(buf[..], op.offset - byte * 8, op.bits);
    }
  }

  lemma BufferBits(s: Bytes, buf: Bytes, byte: int, offset: int, bits: int)
    requires offset >= 0 && byte == offset / 8 && 1 <= bits <= 64 && |buf| == 9
    requires forall k :: 0 <= k < 9 ==> buf[k] == if k + byte < |s| then s[k + byte] else 0
    ensures forall i :: offset <= i < offset + bits ==>
            PaddedBit(s, i) == PaddedBit(buf, offset - byte * 8 + (i - offset))
  {
    hide BitOf;
    forall i | offset <= i < offset + bits
      ensures PaddedBit(s, i) == PaddedBit(buf, offset - byte * 8 + (i - offset))
    {
      var j := i - byte * 8;
      assert j / 8 + byte == i / 8 && j % 8 == i % 8;
      ZeroByteBits(i % 8);
    }
  }

  lemma ZeroByteBits(j: int)
    ensures !BitOf(0, j)
  {
  }

  // sdsgrowzero
  function Grown(s: Bytes, len: int): (r: Bytes)
    ensures |r| == if len > |s| then len else |s|
    ensures forall i :: PaddedBit(r, i) == PaddedBit(s, i)
  {
    if len > |s| then
      var r := s + seq(len - |s|, _ => 0 as bv8);
      GrownBits(s, r);
      r
    else s
  }

  lemma GrownBits(s: Bytes, r: Bytes)
    requires |s| <= |r| && (forall k :: 0 <= k < |s| ==> r[k] == s[k]) && forall k :: |s| <= k < |r| ==> r[k] == 0
    ensures forall i :: PaddedBit(r, i) == PaddedBit(s, i)
  {
    hide BitOf;
    forall i ensures PaddedBit(r, i) == PaddedBit(s, i) { ZeroByteBits(i % 8); }
  }

  function HighestWrite(ops: seq<FieldOp>): (r: int)
    ensures r >= 0 && forall j :: 0 <= j < |ops| && !ops[j].opcode.Get? ==> ops[j].offset + ops[j].bits - 1 <= r
  {
    if ops == [] then 0
    else
      var r, op := HighestWrite(ops[..|ops| - 1]), ops[|ops| - 1];
      if !op.opcode.Get? && r < op.offset + op.bits - 1 then op.offset + op.bits - 1 else r
  }

  /** It is the last bit of one of the writes, or 0. */
  lemma {:induction false} HighestIsWritten(ops: seq<FieldOp>)
    ensures HighestWrite(ops) == 0
            || exists j :: 0 <= j < |ops| && !ops[j].opcode.Get? && HighestWrite(ops) == ops[j].offset + ops[j].bits - 1
    decreases |ops|
  {
    if ops != [] {
      var before := ops[..|ops| - 1];
      HighestIsWritten(before);
      if HighestWrite(ops) == HighestWrite(before) != 0 {
        var j :| 0 <= j < |before| && !before[j].opcode.Get?
                 && HighestWrite(before) == before[j].offset + before[j].bits - 1;
        assert ops[j] == before[j];
      }
    }
  }

  predicate ReadOnly(ops: seq<FieldOp>) {
    forall j :: 0 <= j < |ops| ==> ops[j].opcode.Get?
  }

  /** The operations took effect one after the other: `states` are the strings before, between and after them. */
  ghost predicate Ran(ops: seq<FieldOp>, states: seq<Bytes>, replies: seq<Option<int>>) {
    && |replies| <= |ops| && |states| == |replies| + 1
    && forall j :: 0 <= j < |replies| ==> WellFormed(ops[j]) && Step(states[j], states[j + 1], ops[j], replies[j])
  }

  /** GET and SET are answered with what the field held, INCRBY with what it holds then. */
  ghost predicate Replied(s: Bytes, t: Bytes, op: FieldOp, reply: Option<int>)
    requires op.bits >= 1
  {
    && (op.opcode.Get? ==> reply.Some? && t == s)
    && (reply.Some? ==> reply.value == Value(if op.opcode.IncrBy? then t else s, op.offset, op.bits, op.sign))
  }

  lemma StepReplies(s: Bytes, t: Bytes, op: FieldOp, reply: Option<int>)
    requires WellFormed(op) && Step(s, t, op, reply)
    ensures Replied(s, t, op, reply)
  {
    hide Outcome, BitAt;
  }

  lemma RepliesAre(ops: seq<FieldOp>, states: seq<Bytes>, replies: seq<Option<int>>)
    requires Ran(ops, states, replies) && |replies| == |ops| && forall j :: 0 <= j < |ops| ==> WellFormed(ops[j])
    ensures forall j :: 0 <= j < |ops| ==> Replied(states[j], states[j + 1], ops[j], replies[j])
  {
    hide Step, Replied;
    forall j | 0 <= j < |ops| ensures Replied(states[j], states[j + 1], ops[j], replies[j]) {
      StepReplies(states[j], states[j + 1], ops[j], replies[j]);
    }
  }

  lemma RanOneMore(ops: seq<FieldOp>, states: seq<Bytes>, replies: seq<Option<int>>, s: Bytes, reply: Option<int>)
    requires Ran(ops, states, replies) && |replies| < |ops| && WellFormed(ops[|replies|])
    requires Step(states[|replies|], s, ops[|replies|], reply)
    ensures Ran(ops, states + [s], replies + [reply])
  {
    hide Step, WellFormed;
  }

  /** All operations, in order, on the string grown to the last bit written; a missing key is an empty string. */
  method BitfieldGeneric(s: Bytes, ops: seq<FieldOp>)
    returns (replies: seq<Option<int>>, out: Bytes, ghost states: seq<Bytes>)
    requires forall j :: 0 <= j < |ops| ==> WellFormed(ops[j])
    ensures Ran(ops, states, replies) && |replies| == |ops|
    ensures (forall j :: 0 <= j < |ops| ==> ops[j].opcode.Get?) ==> states[0] == s
    ensures !(forall j :: 0 <= j < |ops| ==> ops[j].opcode.Get?) ==> states[0] == Grown(s, HighestWrite(ops) / 8 + 1)
    ensures out == states[|ops|]
    ensures forall j :: 0 <= j < |ops| ==> Replied(states[j], states[j + 1], ops[j], replies[j])
  {
    hide Step, WellFormed, Ran, Grown, HighestWrite, PaddedBit, Replied;
    out := if ReadOnly(ops) then s else Grown(s, HighestWrite(ops) / 8 + 1);
    var p := new bv8[|out|](i requires 0 <= i < |out| => out[i]);
    assert p[..] == out;
    replies, states := [], [out];
    NoneRan(ops, out);
    var j := 0;
    while j < |ops|
      invariant 0 <= j <= |ops| && |replies| == j && |states| == j + 1
      invariant p[..] == states[j]
      invariant states[0] == out
      invariant Ran(ops, states, replies)
    {
      var reply: Option<int>;
      if !ops[j].opcode.Get? {
        reply := Write(p, ops[j]);
      } else {
        var val := Read(p[..], ops[j]);
        reply := Some(val);
        GetStep(p[..], ops[j], val);
      }
      RanOneMore(ops, states, replies, p[..], reply);
      replies := replies + [reply];
      states := states + [p[..]];
      j := j + 1;
    }
    out := p[..];
    RepliesAre(ops, states, replies);
  }

  lemma NoneRan(ops: seq<FieldOp>, s: Bytes)
    ensures Ran(ops, [s], [])
  {
  }

  lemma GetStep(s: Bytes, op: FieldOp, val: int)
    requires WellFormed(op) && op.opcode.Get? && val == FieldValue(s, op)
    ensures Step(s, s, op, Some(val))
  {
  }
}
