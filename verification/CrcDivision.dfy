// Cyclic redundancy checks as division of polynomials over GF(2), and by a shift register.
module CrcDivision {

  // Coefficients, of the highest power first.
  type Poly = seq<bool>

  function Zeros(n: nat): (r: Poly)
    ensures |r| == n
  {
    seq(n, _ => false)
  }

  /** `a` with `b` added to its first coefficients. */
  function Plus(a: Poly, b: Poly): (r: Poly)
    requires |b| <= |a|
    ensures |r| == |a|
  {
    seq(|a|, i requires 0 <= i < |a| => if i < |b| then a[i] != b[i] else a[i])
  }

  function Times(bit: bool, p: Poly): (r: Poly)
    ensures |r| == |p|
  {
    if bit then p else Zeros(|p|)
  }

  // ---------------------------------------------------------------- long division

  /** The remainder of `d` by x^w + p, where w = |p|: the leading coefficient goes, with a multiple of the divisor. */
  function Remainder(d: Poly, p: Poly): (r: Poly)
    requires |p| <= |d|
    ensures |r| == |p|
    decreases |d|
  {
    if |d| == |p| then d else Remainder(Plus(d[1..], Times(d[0], p)), p)
  }

  function Quotient(d: Poly, p: Poly): (q: Poly)
    requires |p| <= |d|
    ensures |q| == |d| - |p|
    decreases |d|
  {
    if |d| == |p| then [] else [d[0]] + Quotient(Plus(d[1..], Times(d[0], p)), p)
  }

  /** q * (x^w + p), with w + |q| coefficients. */
  function Product(q: Poly, p: Poly): (r: Poly)
    ensures |r| == |q| + |p|
  {
    if q == [] then Zeros(|p|)
    else Plus([false] + Product(q[1..], p), [q[0]] + Times(q[0], p))
  }

  /** One step of the division. */
  function Reduced(d: Poly, p: Poly): (e: Poly)
    requires |p| < |d|
    ensures |e| == |d| - 1
  {
    Plus(d[1..], Times(d[0], p))
  }

  lemma DivisionStep(d: Poly, p: Poly)
    requires |p| < |d|
    ensures Remainder(d, p) == Remainder(Reduced(d, p), p)
    ensures Quotient(d, p) == [d[0]] + Quotient(Reduced(d, p), p)
  {
    hide Plus;
  }

  lemma ProductStep(bit: bool, q: Poly, p: Poly)
    ensures Product([bit] + q, p) == Plus([false] + Product(q, p), [bit] + Times(bit, p))
  {
    hide Plus;
    assert ([bit] + q)[1..] == q;
  }

  /** Long division divides: d = q * (x^w + p) + remainder. */
  lemma {:induction false} DivisionIsRight(d: Poly, p: Poly)
    requires |p| <= |d|
    ensures d == Plus(Product(Quotient(d, p), p), Zeros(|d| - |p|) + Remainder(d, p))
    decreases |d|
  {
    hide Remainder, Quotient, Product;
    if |d| > |p| {
      DivisionStep(d, p);
      var e := Reduced(d, p);
      DivisionIsRight(e, p);
      var q, r := Quotient(e, p), Remainder(e, p);
      ProductStep(d[0], q, p);
      PutBack(d, p, Product(q, p), r);
    } else {
      DivisionEnds(d, p);
    }
  }

  lemma DivisionEnds(d: Poly, p: Poly)
    requires |p| == |d|
    ensures d == Plus(Product(Quotient(d, p), p), Zeros(0) + Remainder(d, p))
  {
  }

  lemma PutBack(d: Poly, p: Poly, product: Poly, r: Poly)
    requires |p| < |d| && |product| == |d| - 1 && |r| == |p|
    requires Reduced(d, p) == Plus(product, Zeros(|d| - 1 - |p|) + r)
    ensures d == Plus(Plus([false] + product, [d[0]] + Times(d[0], p)), Zeros(|d| - |p|) + r)
  {
    var e := Reduced(d, p);
    forall i | 0 < i < |d|
      ensures d[i] == Plus(Plus([false] + product, [d[0]] + Times(d[0], p)), Zeros(|d| - |p|) + r)[i]
    {
      assert e[i - 1] == Plus(product, Zeros(|d| - 1 - |p|) + r)[i - 1];
      assert (Zeros(|d| - |p|) + r)[i] == (Zeros(|d| - 1 - |p|) + r)[i - 1];
      assert i <= |p| ==> ([d[0]] + Times(d[0], p))[i] == Times(d[0], p)[i - 1];
    }
  }

  // ---------------------------------------------------------------- the shift register

  /** One step: the bit that is shifted out, plus the input bit, is fed back through `p`. */
  function Step(reg: Poly, bit: bool, p: Poly): (r: Poly)
    requires |reg| == |p| > 0
    ensures |r| == |p|
  {
    Plus(reg[1..] + [false], Times(reg[0] != bit, p))
  }

  function Run(reg: Poly, m: Poly, p: Poly): (r: Poly)
    requires |reg| == |p| > 0
    ensures |r| == |p|
    decreases |m|
  {
    if m == [] then reg else Run(Step(reg, m[0], p), m[1..], p)
  }

  lemma RunStep(reg: Poly, m: Poly, p: Poly)
    requires |reg| == |p| > 0
    ensures Run(reg, m, p) == if m == [] then reg else Run(Step(reg, m[0], p), m[1..], p)
  {
    hide Step;
  }

  /** The register computes the remainder of the message times x^w; what it holds counts as added to the message. */
  lemma {:induction false} RegisterDivides(reg: Poly, m: Poly, p: Poly)
    requires |reg| == |p| > 0
    ensures Run(reg, m, p) == Remainder(Plus(m + Zeros(|p|), reg), p)
    decreases |m|
  {
    hide Run, Remainder, Quotient, Step, Reduced;
    RunStep(reg, m, p);
    var d := Plus(m + Zeros(|p|), reg);
    if m == [] {
      assert d == reg;
      RemainderOfShort(d, p);
    } else {
      RegisterDivides(Step(reg, m[0], p), m[1..], p);
      DivisionStep(d, p);
      SameReduction(reg, m, p);
    }
  }

  lemma RemainderOfShort(d: Poly, p: Poly)
    requires |d| == |p|
    ensures Remainder(d, p) == d
  {
  }

  lemma SameReduction(reg: Poly, m: Poly, p: Poly)
    requires |reg| == |p| > 0 && m != []
    ensures Reduced(Plus(m + Zeros(|p|), reg), p) == Plus(m[1..] + Zeros(|p|), Step(reg, m[0], p))
  {
    var d := Plus(m + Zeros(|p|), reg);
    assert d[0] == (reg[0] != m[0]);
    var next := Step(reg, m[0], p);
    forall i | 0 <= i < |d| - 1 ensures Reduced(d, p)[i] == Plus(m[1..] + Zeros(|p|), next)[i] {
      assert d[1..][i] == d[i + 1];
      assert (m[1..] + Zeros(|p|))[i] == (m + Zeros(|p|))[i + 1];
    }
  }

  /** A short input may as well be added to the register beforehand. */
  lemma InputOrRegister(reg: Poly, m: Poly, p: Poly)
    requires |reg| == |p| > 0 && |m| <= |p|
    ensures Run(reg, m, p) == Run(Plus(reg, m), Zeros(|m|), p)
  {
    hide Run, Remainder;
    RegisterDivides(reg, m, p);
    RegisterDivides(Plus(reg, m), Zeros(|m|), p);
    assert Plus(m + Zeros(|p|), reg) == Plus(Zeros(|m|) + Zeros(|p|), Plus(reg, m));
  }

  lemma StepIsLinear(a: Poly, b: Poly, p: Poly)
    requires |a| == |b| == |p| > 0
    ensures Step(Plus(a, b), false, p) == Plus(Step(a, false, p), Step(b, false, p))
  {
    forall i | 0 <= i < |p| ensures Step(Plus(a, b), false, p)[i] == Plus(Step(a, false, p), Step(b, false, p))[i] {
    }
  }

  lemma {:induction false} RunIsLinear(a: Poly, b: Poly, n: nat, p: Poly)
    requires |a| == |b| == |p| > 0
    ensures Run(Plus(a, b), Zeros(n), p) == Plus(Run(a, Zeros(n), p), Run(b, Zeros(n), p))
    decreases n
  {
    hide Run, Step;
    RunStep(Plus(a, b), Zeros(n), p);
    RunStep(a, Zeros(n), p);
    RunStep(b, Zeros(n), p);
    if n > 0 {
      assert Zeros(n)[1..] == Zeros(n - 1);
      StepIsLinear(a, b, p);
      RunIsLinear(Step(a, false, p), Step(b, false, p), n - 1, p);
    }
  }

  /** While zeroes are shifted out, nothing is fed back. */
  lemma {:induction false} RunShifts(reg: Poly, n: nat, p: Poly)
    requires |reg| == |p| > 0 && n <= |p| && forall i :: 0 <= i < n ==> !reg[i]
    ensures Run(reg, Zeros(n), p) == reg[n..] + Zeros(n)
    decreases n
  {
    hide Run, Step;
    RunStep(reg, Zeros(n), p);
    if n > 0 {
      assert Zeros(n)[1..] == Zeros(n - 1);
      var next := Step(reg, false, p);
      NothingFedBack(reg, p);
      RunShifts(next, n - 1, p);
      assert next[n - 1..] + Zeros(n - 1) == reg[n..] + Zeros(n);
    }
  }

  lemma NothingFedBack(reg: Poly, p: Poly)
    requires |reg| == |p| > 0 && !reg[0]
    ensures Step(reg, false, p) == reg[1..] + [false]
  {
  }

  lemma RunSeparately(reg: Poly, m: Poly, p: Poly, high: Poly, low: Poly)
    requires |reg| == |p| == |high| == |low| > 0 && |m| <= |p| && Plus(reg, m) == Plus(high, low)
    ensures Run(reg, m, p) == Plus(Run(low, Zeros(|m|), p), Run(high, Zeros(|m|), p))
  {
    hide Run, Plus, Zeros;
    InputOrRegister(reg, m, p);
    RunIsLinear(high, low, |m|, p);
    PlusCommutes(Run(high, Zeros(|m|), p), Run(low, Zeros(|m|), p));
  }

  // The top of the register with an input added, the rest of the register, and where that is afterwards.
  function Top(reg: Poly, m: Poly): (r: Poly)
    requires |m| <= |reg|
    ensures |r| == |reg|
  {
    Plus(reg[..|m|], m) + Zeros(|reg| - |m|)
  }

  function Rest(reg: Poly, k: nat): (r: Poly)
    requires k <= |reg|
    ensures |r| == |reg|
  {
    Zeros(k) + reg[k..]
  }

  function Moved(reg: Poly, k: nat): (r: Poly)
    requires k <= |reg|
    ensures |r| == |reg|
  {
    reg[k..] + Zeros(k)
  }

  /** The input is added to the top of the register; the rest of it only moves up. */
  lemma TopAndRest(reg: Poly, m: Poly, p: Poly)
    requires |reg| == |p| > 0 && |m| <= |p|
    ensures Run(reg, m, p) == Plus(Moved(reg, |m|), Run(Top(reg, m), Zeros(|m|), p))
  {
    hide Run, Plus, Zeros, Top, Rest, Moved;
    HalvesAdd(reg, m);
    RestMoves(reg, |m|, p);
    RunSeparately(reg, m, p, Top(reg, m), Rest(reg, |m|));
  }

  lemma RestMoves(reg: Poly, k: nat, p: Poly)
    requires |reg| == |p| > 0 && k <= |p|
    ensures Run(Rest(reg, k), Zeros(k), p) == Moved(reg, k)
  {
    hide Run;
    RunShifts(Rest(reg, k), k, p);
    assert Rest(reg, k)[k..] == reg[k..];
  }

  lemma HalvesAdd(reg: Poly, m: Poly)
    requires |m| <= |reg|
    ensures Plus(reg, m) == Plus(Top(reg, m), Rest(reg, |m|))
  {
    var k, high, low := |m|, Top(reg, m), Rest(reg, |m|);
    forall i | 0 <= i < |reg| ensures Plus(reg, m)[i] == Plus(high, low)[i] {
      if i < k {
        assert high[i] == (reg[i] != m[i]) && !low[i];
      } else {
        assert !high[i] && low[i] == reg[i];
      }
    }
  }

  lemma PlusCommutes(a: Poly, b: Poly)
    requires |a| == |b|
    ensures Plus(a, b) == Plus(b, a)
  {
  }

  lemma {:induction false} RunSplits(reg: Poly, a: Poly, b: Poly, p: Poly)
    requires |reg| == |p| > 0
    ensures Run(reg, a + b, p) == Run(Run(reg, a, p), b, p)
    decreases |a|
  {
    hide Run, Step;
    RunStep(reg, a, p);
    if a == [] {
      assert a + b == b;
    } else {
      RunStep(reg, a + b, p);
      assert (a + b)[1..] == a[1..] + b;
      RunSplits(Step(reg, a[0], p), a[1..], b, p);
    }
  }

  // ---------------------------------------------------------------- bursts

  /** Registers that end alike after inputs of at most w bits agreed, where the input had not come, and elsewhere
      differed as the inputs did. */
  lemma {:induction false} BackFromTheEnd(s: Poly, t: Poly, x: Poly, y: Poly, p: Poly)
    requires |s| == |t| == |p| > 0 && p[|p| - 1] && |x| == |y| <= |p|
    requires Run(s, x, p) == Run(t, y, p)
    ensures forall i :: 0 <= i < |p| ==> if i < |x| then (s[i] != x[i]) == (t[i] != y[i]) else s[i] == t[i]
    decreases |x|
  {
    hide Run;
    RunStep(s, x, p);
    RunStep(t, y, p);
    if x != [] {
      var s', t' := Step(s, x[0], p), Step(t, y[0], p);
      BackFromTheEnd(s', t', x[1..], y[1..], p);
      var w := |p|;
      // The last coefficient is the bit that was fed back.
      assert s'[w - 1] == (s[0] != x[0]) && t'[w - 1] == (t[0] != y[0]);
      assert s'[w - 1] == t'[w - 1];
      forall i | 0 < i < w ensures if i < |x| then (s[i] != x[i]) == (t[i] != y[i]) else s[i] == t[i] {
        assert s'[i - 1] == (s[i] != (s'[w - 1] && p[i - 1]));
        assert t'[i - 1] == (t[i] != (t'[w - 1] && p[i - 1]));
        assert i < |x| ==> (s'[i - 1] != x[1..][i - 1]) == (t'[i - 1] != y[1..][i - 1]);
      }
    }
  }

  lemma RunOne(reg: Poly, bit: bool, p: Poly)
    requires |reg| == |p| > 0
    ensures Run(reg, [bit], p) == Step(reg, bit, p)
  {
    hide Run, Step;
    RunStep(reg, [bit], p);
    RunStep(Step(reg, bit, p), [], p);
    assert [bit][1..] == [];
  }

  /** A step is one to one in the register. */
  lemma {:induction false} SameEndSameStart(s: Poly, t: Poly, m: Poly, p: Poly)
    requires |s| == |t| == |p| > 0 && p[|p| - 1] && Run(s, m, p) == Run(t, m, p)
    ensures s == t
    decreases |m|
  {
    hide Run, Step;
    RunStep(s, m, p);
    RunStep(t, m, p);
    if m != [] {
      SameEndSameStart(Step(s, m[0], p), Step(t, m[0], p), m[1..], p);
      RunOne(s, m[0], p);
      RunOne(t, m[0], p);
      BackFromTheEnd(s, t, [m[0]], [m[0]], p);
    }
  }

  lemma ShortInputsDiffer(s: Poly, x: Poly, y: Poly, p: Poly)
    requires |s| == |p| > 0 && p[|p| - 1] && |x| == |y| <= |p| && Run(s, x, p) == Run(s, y, p)
    ensures x == y
  {
    hide Run;
    BackFromTheEnd(s, s, x, y, p);
    assert forall i :: 0 <= i < |x| ==> (s[i] != x[i]) == (s[i] != y[i]);
  }

  /** Messages that differ inside at most w consecutive bits have different check values. */
  lemma BurstsAreDetected(reg: Poly, a: Poly, x: Poly, y: Poly, c: Poly, p: Poly)
    requires |reg| == |p| > 0 && p[|p| - 1] && |x| == |y| <= |p|
    ensures Run(reg, a + x + c, p) == Run(reg, a + y + c, p) <==> x == y
  {
    hide Run;
    if Run(reg, a + x + c, p) == Run(reg, a + y + c, p) {
      RunSplits(reg, a + x, c, p);
      RunSplits(reg, a + y, c, p);
      SameEndSameStart(Run(reg, a + x, p), Run(reg, a + y, p), c, p);
      RunSplits(reg, a, x, p);
      RunSplits(reg, a, y, p);
      ShortInputsDiffer(Run(reg, a, p), x, y, p);
    }
  }
}
