// Bytes, and the decimal notation that Redis prints and reads back.
module Bytes {

  // A byte is a char; arbitrary binary data is a string of them.
  type Byte = char
  type ByteString = string

  datatype Option<+T> = None | Some(value: T)

  const CR: Byte := '\r'
  const LF: Byte := '\n'
  const CRLF: ByteString := "\r\n"
  const STAR: Byte := '*'
  const DOLLAR: Byte := '$'

  function Min(a: nat, b: nat): nat { if a < b then a else b }

  /** `ll2string` on a non-negative number. */
  function Dec(n: nat): (s: ByteString)
    ensures |s| >= 1
  {
    if n < 10 then [Digit(n)] else Dec(n / 10) + [Digit(n % 10)]
  }

  function Digit(d: nat): (c: Byte)
    requires d < 10
    ensures IsDigit(c) && Value(c) == d
  {
    '0' + d as char
  }

  function Value(c: Byte): nat
    requires IsDigit(c)
  {
    (c - '0') as nat
  }

  predicate IsDigit(b: Byte) {
    '0' <= b <= '9'
  }

  predicate IsSpace(b: Byte) {
    b == ' ' || '\t' <= b <= '\r'
  }

  /** The number spelled by the digits at the front of `s`, after `acc`. */
  function Digits(s: ByteString, acc: nat): nat
    decreases |s|
  {
    if s == [] || !IsDigit(s[0]) then acc else Digits(s[1..], 10 * acc + Value(s[0]))
  }

  function SkipSpaces(s: ByteString): ByteString {
    if s != [] && IsSpace(s[0]) then SkipSpaces(s[1..]) else s
  }

  const LONG_MAX: int := 0x7fff_ffff_ffff_ffff
  const LONG_MIN: int := -0x8000_0000_0000_0000

  function Clamp(v: int): int {
    if v > LONG_MAX then LONG_MAX else if v < LONG_MIN then LONG_MIN else v
  }

  /** `strtol(s, NULL, 10)`: leading white space, a sign, digits; saturating. */
  function StrToL(s: ByteString): (v: int)
    ensures LONG_MIN <= v <= LONG_MAX
  {
    var t := SkipSpaces(s);
    if t != [] && t[0] == '-' then Clamp(0 - Digits(t[1..], 0))
    else if t != [] && t[0] == '+' then Clamp(Digits(t[1..], 0))
    else Clamp(Digits(t, 0))
  }

  /** `atoi`: the low 32 bits of `strtol`, as a signed int. */
  function AtoI(s: ByteString): int {
    var v := StrToL(s);
    if -0x8000_0000 <= v <= 0x7fff_ffff then v
    else (v + 0x8000_0000) % 0x1_0000_0000 - 0x8000_0000
  }

  // ---- decimal round trip

  lemma {:induction false} DigitsAppend(s: ByteString, d: Byte, tail: ByteString, acc: nat)
    requires forall i :: 0 <= i < |s| ==> IsDigit(s[i])
    requires IsDigit(d) && (tail == [] || !IsDigit(tail[0]))
    ensures Digits(s + [d] + tail, acc) == 10 * Digits(s + tail, acc) + Value(d)
    decreases |s|
  {
    if s == [] {
      assert s + [d] + tail == [d] + tail;
      assert ([d] + tail)[1..] == tail;
      assert s + tail == tail;
    } else {
      assert (s + [d] + tail)[1..] == s[1..] + [d] + tail;
      assert (s + tail)[1..] == s[1..] + tail;
      DigitsAppend(s[1..], d, tail, 10 * acc + Value(s[0]));
    }
  }

  lemma {:induction false} DecDigits(n: nat)
    ensures forall i :: 0 <= i < |Dec(n)| ==> IsDigit(Dec(n)[i])
  {
    if n >= 10 { DecDigits(n / 10); }
  }

  lemma {:induction false} DigitsOfDec(n: nat, tail: ByteString)
    requires tail == [] || !IsDigit(tail[0])
    ensures Digits(Dec(n) + tail, 0) == n
  {
    if n < 10 {
      assert (Dec(n) + tail)[1..] == tail;
    } else {
      DecDigits(n / 10);
      DigitsAppend(Dec(n / 10), Digit(n % 10), tail, 0);
      DigitsOfDec(n / 10, tail);
    }
  }

  /** `strtol` reads back what `ll2string` printed, whatever non-digit follows. */
  lemma StrToLOfDec(n: nat, tail: ByteString)
    requires n <= LONG_MAX
    requires tail == [] || !IsDigit(tail[0])
    ensures StrToL(Dec(n) + tail) == n
  {
    DigitsOfDec(n, tail);
    DecDigits(n);
    assert (Dec(n) + tail)[0] == Dec(n)[0] && IsDigit(Dec(n)[0]);
  }

  lemma {:induction false} BlanksAreSkipped(blanks: ByteString, s: ByteString)
    requires forall i :: 0 <= i < |blanks| ==> blanks[i] == ' ' || '\t' <= blanks[i] <= '\r'
    requires s != [] && s[0] > ' '
    ensures SkipSpaces(blanks + s) == s
    decreases |blanks|
  {
    if blanks == [] {
      assert blanks + s == s;
    } else {
      assert (blanks + s)[1..] == blanks[1..] + s;
      BlanksAreSkipped(blanks[1..], s);
    }
  }

  /** `strtol` on blanks, a sign or none, digits and then something else: the number, or the limit it lies beyond. */
  lemma StrToLReads(blanks: ByteString, sign: ByteString, n: nat, tail: ByteString)
    requires forall i :: 0 <= i < |blanks| ==> blanks[i] == ' ' || '\t' <= blanks[i] <= '\r'
    requires sign == "" || sign == "+" || sign == "-"
    requires tail == [] || !('0' <= tail[0] <= '9')
    ensures var v := if sign == "-" then 0 - n else n;
            StrToL(blanks + (sign + (Dec(n) + tail))) ==
            if v > 0x7fff_ffff_ffff_ffff then 0x7fff_ffff_ffff_ffff
            else if v < -0x8000_0000_0000_0000 then -0x8000_0000_0000_0000 else v
  {
    hide Dec, Digits, SkipSpaces;
    var t := sign + (Dec(n) + tail);
    DecDigits(n);
    DigitsOfDec(n, tail);
    assert IsDigit(Dec(n)[0]) && (Dec(n) + tail)[0] == Dec(n)[0];
    if sign == "" { assert t == Dec(n) + tail; } else { assert t[1..] == Dec(n) + tail && t[0] == sign[0]; }
    BlanksAreSkipped(blanks, t);
  }

  /** `atoi` keeps the low 32 bits of that, as a signed number. */
  lemma AtoIKeepsLowBits(s: ByteString)
    ensures -0x8000_0000 <= AtoI(s) <= 0x7fff_ffff && (AtoI(s) - StrToL(s)) % 0x1_0000_0000 == 0
  {
    hide StrToL;
  }

  lemma StrToLOfNothing()
    ensures StrToL([]) == 0
  {
  }

  /** A non-empty prefix of a positive number's digits spells a positive number, no larger. */
  lemma {:induction false} DecPrefix(n: nat, j: nat) returns (m: nat)
    requires n >= 1 && 1 <= j <= |Dec(n)|
    ensures 1 <= m <= n && Dec(n)[..j] == Dec(m)
  {
    if j == |Dec(n)| {
      m := n;
      assert Dec(n)[..j] == Dec(n);
    } else {
      m := DecPrefix(n / 10, j);
      assert Dec(n)[..j] == Dec(n / 10)[..j];
    }
  }

  /** A number below 10^d has at most d digits. */
  lemma {:induction false} DecLength(n: nat, d: nat)
    requires d >= 1 && n < Pow10(d)
    ensures |Dec(n)| <= d
  {
    if n >= 10 { DecLength(n / 10, d - 1); }
  }

  function Pow10(d: nat): nat {
    if d == 0 then 1 else 10 * Pow10(d - 1)
  }

  lemma LongHas19Digits(n: nat)
    requires n <= LONG_MAX
    ensures |Dec(n)| <= 19
  {
    assert Pow10(19) == 10_000_000_000_000_000_000 by {
      assert Pow10(5) == 100_000;
      assert Pow10(10) == 10_000_000_000;
      assert Pow10(15) == 1_000_000_000_000_000;
    }
    DecLength(n, 19);
  }
}
