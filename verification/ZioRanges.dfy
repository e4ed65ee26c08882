// copy_interpose.c: the tracked ranges that stand for copies not made yet, and what the program sees through them.
module ZioRanges {

  type Byte = char

  const OPT_THRESHOLD := 4096

  /** An snode: [addr + offset, addr + offset + len) reads through orig. `node` is its address. */
  datatype Entry = Entry(lookup: int, orig: int, addr: int, len: int, offset: int, node: int) {
    function Start(): int { addr + offset }
    function End(): int { addr + offset + len }
    function SrcStart(): int { orig + offset }
    function SrcEnd(): int { orig + offset + len }
    // A root tracks a received buffer itself; anything else is the destination of a delayed copy.
    predicate IsCopy() { orig != addr }
    predicate Has(a: int) { Start() <= a < End() }
  }

  // The skip list, by lookup key.
  type Entries = map<int, Entry>

  // ---------------------------------------------------------------- pages

  predicate Aligned(a: int, page: int)
    requires page > 0
  {
    a % page == 0
  }

  function PageDown(a: int, page: int): (r: int)
    requires page > 0
    ensures Aligned(r, page) && r <= a < r + page
  {
    DownIsAligned(a, page);
    a - a % page
  }

  lemma DownIsAligned(a: int, page: int)
    requires page > 0
    ensures (a - a % page) % page == 0
  {
    AlignedMultiple(a / page, page);
    assert a == page * (a / page) + a % page;
  }

  lemma AlignedMultiple(k: int, page: int)
    requires page > 0
    ensures (page * k) % page == 0
  {
    DivModUnique(page * k, k, 0, page);
  }

  lemma TimesOrder(a: int, b: int, page: int)
    requires page > 0
    ensures a <= b ==> page * a <= page * b
  {
  }

  lemma DivModUnique(a: int, q: int, r: int, page: int)
    requires page > 0 && a == page * q + r && 0 <= r < page
    ensures a / page == q && a % page == r
  {
    var d := a / page - q;
    assert page * (a / page) + a % page == a;
    assert page * d == r - a % page by { assert page * d == page * (a / page) - page * q; }
    TimesOrder(1, d, page);
    TimesOrder(d, -1, page);
  }

  function PageUp(a: int, page: int): int
    requires page > 0
  {
    PageDown(a, page) + page
  }

  /** How far the next page boundary is; 0 on a boundary. */
  function LeftFringe(a: int, page: int): (r: int)
    requires page > 0
    ensures 0 <= r < page && Aligned(a + r, page)
    ensures r == 0 <==> Aligned(a, page)
  {
    FringeAligns(a, page);
    (PageUp(a, page) - a) % page
  }

  lemma FringeAligns(a: int, page: int)
    requires page > 0
    ensures var r := (PageUp(a, page) - a) % page;
            0 <= r < page && Aligned(a + r, page) && (r == 0 <==> Aligned(a, page))
  {
    var up := PageUp(a, page);
    assert 0 < up - a <= page;
    if up - a == page {
      DivModUnique(up - a, 1, 0, page);
    } else {
      DivModUnique(up - a, 0, up - a, page);
      AlignedSum(PageDown(a, page), page, page);
      DivModUnique(page, 1, 0, page);
      AlignedOrder(PageDown(a, page), a, page);
    }
  }

  lemma AlignedSum(a: int, b: int, page: int)
    requires page > 0 && Aligned(a, page)
    ensures Aligned(b, page) <==> Aligned(a + b, page)
    ensures Aligned(page, page)
    ensures Aligned(b, page) ==> Aligned(a - b, page)
  {
    DivModUnique(page, 1, 0, page);
    var k, j := a / page, b / page;
    assert a == page * k && b == page * j + b % page;
    assert page * (k + j) == page * k + page * j;
    assert page * (k - j) == page * k - page * j;
    DivModUnique(a + b, k + j, b % page, page);
    if Aligned(b, page) { DivModUnique(a - b, k - j, 0, page); }
  }

  /** Aligned addresses in order are at least a page apart. */
  lemma AlignedOrder(a: int, b: int, page: int)
    requires page > 0 && Aligned(a, page)
    ensures Aligned(b, page) && a < b ==> a + page <= b
  {
    var k, j := a / page, b / page;
    assert a == page * k && b == page * j + b % page;
    TimesOrder(j, k, page);
    TimesOrder(k + 1, j, page);
    assert page * (k + 1) == page * k + page;
  }

  // ---------------------------------------------------------------- the invariant

  ghost predicate EntryOk(e: Entry, l: int, page: int, size: int)
    requires page > 0
  {
    && e.lookup == l && 0 <= l <= e.Start() && e.offset >= 0
    && e.len > 0 && e.End() <= size
    && Aligned(e.Start(), page) && Aligned(e.len, page)
    && (e.IsCopy() ==> e.len > OPT_THRESHOLD && 0 <= e.SrcStart() && e.SrcEnd() <= size)
  }

  /** From the lookup key to the end: an entry never reaches another one's key or range. */
  predicate Apart(e: Entry, f: Entry) {
    e.End() <= f.lookup || f.End() <= e.lookup
  }

  /** What `e` reads through is not itself the destination of the delayed copy `f`. */
  predicate ReadsOutside(e: Entry, f: Entry) {
    e.IsCopy() && f.IsCopy() ==> e.SrcEnd() <= f.Start() || f.End() <= e.SrcStart()
  }

  ghost predicate Wf(es: Entries, page: int, size: int)
    requires page > 0
  {
    && (forall l :: l in es ==> EntryOk(es[l], l, page, size))
    && (forall l, m :: l in es && m in es && l != m ==> Apart(es[l], es[m]))
    && (forall l, m :: l in es && m in es ==> ReadsOutside(es[l], es[m]))
  }

  // ---------------------------------------------------------------- what the program sees

  ghost predicate Tracked(es: Entries, a: int) {
    exists l :: l in es && es[l].Has(a)
  }

  /** Where the byte at `a` is read. */
  ghost function Source(es: Entries, a: int): int {
    if l :| l in es && es[l].Has(a) then es[l].orig + (a - es[l].addr) else a
  }

  ghost function View(mem: seq<Byte>, es: Entries, a: int): Byte
    requires 0 <= Source(es, a) < |mem|
  {
    mem[Source(es, a)]
  }

  lemma SourceIs(es: Entries, page: int, size: int, l: int, a: int)
    requires page > 0 && Wf(es, page, size) && l in es && es[l].Has(a)
    ensures Source(es, a) == es[l].orig + (a - es[l].addr)
  {
    var m :| m in es && es[m].Has(a) && Source(es, a) == es[m].orig + (a - es[m].addr);
    assert EntryOk(es[l], l, page, size) && EntryOk(es[m], m, page, size);
    if m != l { assert Apart(es[l], es[m]); }
  }

  lemma SourceInMemory(es: Entries, page: int, size: int, a: int)
    requires page > 0 && Wf(es, page, size) && 0 <= a < size
    ensures 0 <= Source(es, a) < size
  {
    if Tracked(es, a) {
      var l :| l in es && es[l].Has(a);
      SourceIs(es, page, size, l, a);
      assert EntryOk(es[l], l, page, size);
    }
  }

  /** No byte is read from inside the destination of a delayed copy. */
  lemma SourceIsReal(es: Entries, page: int, size: int, l: int, a: int)
    requires page > 0 && Wf(es, page, size) && l in es && es[l].IsCopy()
    ensures !es[l].Has(Source(es, a))
  {
    if Tracked(es, a) {
      var m :| m in es && es[m].Has(a);
      SourceIs(es, page, size, m, a);
      assert EntryOk(es[l], l, page, size) && EntryOk(es[m], m, page, size);
      assert ReadsOutside(es[m], es[l]);
      assert l != m ==> Apart(es[l], es[m]);
    }
  }
}
