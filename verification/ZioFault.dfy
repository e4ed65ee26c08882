// copy_interpose.c: handle_missing_fault, which makes a delayed copy of the page that was touched.
module ZioFault {
  import opened ZioRanges

  // ---------------------------------------------------------------- taking a hole out of a tracked range

  ghost predicate PieceOf(p: Entry, e: Entry, k: int, page: int)
    requires page > 0
  {
    && p.lookup == k && p.offset >= 0 && p.orig - p.addr == e.orig - e.addr
    && e.lookup <= p.lookup <= p.Start() && e.Start() <= p.Start() && p.End() <= e.End()
    && Aligned(p.Start(), page) && Aligned(p.len, page) && p.len > OPT_THRESHOLD
  }

  predicate Kept(es: Entries, l: int, k: int) {
    k in es && k != l
  }

  /** `es2` is `es` with [lo, hi) no longer tracked by entry `l`, and nothing else changed. */
  ghost predicate Carved(es: Entries, es2: Entries, l: int, lo: int, hi: int, page: int)
    requires page > 0
  {
    && l in es && es[l].Start() <= lo < hi <= es[l].End()
    && (forall k :: Kept(es, l, k) ==> k in es2 && es2[k] == es[k])
    && (forall k :: k in es2 && !Kept(es, l, k) ==>
          PieceOf(es2[k], es[l], k, page) && (es2[k].End() <= lo || hi <= es2[k].Start()))
    && (forall j, k :: j in es2 && k in es2 && j != k && !Kept(es, l, j) && !Kept(es, l, k) ==> Apart(es2[j], es2[k]))
    && (forall a :: es[l].Has(a) && !(lo <= a < hi) ==> Tracked(es2, a))
  }

  lemma CarvedKeepsWf(es: Entries, es2: Entries, l: int, lo: int, hi: int, page: int, size: int)
    requires page > 0 && Wf(es, page, size) && Carved(es, es2, l, lo, hi, page) && es[l].IsCopy()
    ensures Wf(es2, page, size)
  {
    hide Aligned;
    forall k | k in es2 ensures EntryOk(es2[k], k, page, size) {
      assert EntryOk(es[l], l, page, size);
      if Kept(es, l, k) { assert EntryOk(es[k], k, page, size); }
    }
    forall j, k | j in es2 && k in es2 ensures (j != k ==> Apart(es2[j], es2[k])) && ReadsOutside(es2[j], es2[k]) {
      var j0, k0 := if Kept(es, l, j) then j else l, if Kept(es, l, k) then k else l;
      assert j0 != k0 ==> Apart(es[j0], es[k0]);
      assert ReadsOutside(es[j0], es[k0]);
    }
  }

  /** The hole is not tracked any more. */
  lemma HoleUntracked(es: Entries, es2: Entries, l: int, lo: int, hi: int, page: int, size: int, a: int)
    requires page > 0 && Wf(es, page, size) && Carved(es, es2, l, lo, hi, page) && lo <= a < hi
    ensures !Tracked(es2, a)
  {
    hide Aligned, PieceOf;
    forall k | k in es2 ensures !es2[k].Has(a) {
      assert EntryOk(es[l], l, page, size);
      if Kept(es, l, k) {
        assert EntryOk(es[k], k, page, size) && Apart(es[l], es[k]);
      }
    }
  }

  lemma SourceInHole(es: Entries, es2: Entries, l: int, lo: int, hi: int, page: int, size: int, a: int)
    requires page > 0 && Wf(es, page, size) && Carved(es, es2, l, lo, hi, page) && lo <= a < hi
    ensures Source(es2, a) == a && Source(es, a) == es[l].orig + (a - es[l].addr)
  {
    hide Wf, Aligned;
    HoleUntracked(es, es2, l, lo, hi, page, size, a);
    SourceIs(es, page, size, l, a);
  }

  /** What is tracked afterwards was tracked before, and displaced alike. */
  lemma NothingNew(es: Entries, es2: Entries, l: int, lo: int, hi: int, page: int, k: int, a: int) returns (k0: int)
    requires page > 0 && Carved(es, es2, l, lo, hi, page) && k in es2 && es2[k].Has(a)
    ensures k0 in es && es[k0].Has(a) && es[k0].orig - es[k0].addr == es2[k].orig - es2[k].addr
  {
    hide Aligned, Tracked;
    k0 := if Kept(es, l, k) then k else l;
  }

  lemma OutsideStays(es: Entries, es2: Entries, l: int, lo: int, hi: int, page: int, k: int, a: int)
    requires page > 0 && Carved(es, es2, l, lo, hi, page) && k in es && es[k].Has(a) && !(lo <= a < hi)
    ensures Tracked(es2, a)
  {
    hide Aligned, PieceOf;
    if k != l {
      assert Kept(es, l, k) && es2[k].Has(a);
    }
  }

  lemma SourceOutside(es: Entries, es2: Entries, l: int, lo: int, hi: int, page: int, size: int, a: int)
    requires page > 0 && Wf(es, page, size) && Carved(es, es2, l, lo, hi, page) && es[l].IsCopy() && !(lo <= a < hi)
    ensures Source(es2, a) == Source(es, a) && (Tracked(es2, a) <==> Tracked(es, a))
  {
    hide Wf, Carved;
    CarvedKeepsWf(es, es2, l, lo, hi, page, size);
    if k :| k in es2 && es2[k].Has(a) {
      SourceIs(es2, page, size, k, a);
      var k0 := NothingNew(es, es2, l, lo, hi, page, k, a);
      SourceIs(es, page, size, k0, a);
    } else {
      forall k | k in es ensures !es[k].Has(a) {
        if es[k].Has(a) { OutsideStays(es, es2, l, lo, hi, page, k, a); }
      }
    }
  }

  lemma CarvedSource(es: Entries, es2: Entries, l: int, lo: int, hi: int, page: int, size: int, a: int)
    requires page > 0 && Wf(es, page, size) && Carved(es, es2, l, lo, hi, page) && es[l].IsCopy()
    ensures lo <= a < hi ==> !Tracked(es2, a) && Source(es2, a) == a && Source(es, a) == es[l].orig + (a - es[l].addr)
    ensures !(lo <= a < hi) ==> Source(es2, a) == Source(es, a) && (Tracked(es2, a) <==> Tracked(es, a))
  {
    hide Wf, Tracked, Source;
    if lo <= a < hi {
      HoleUntracked(es, es2, l, lo, hi, page, size, a);
      SourceInHole(es, es2, l, lo, hi, page, size, a);
    } else {
      SourceOutside(es, es2, l, lo, hi, page, size, a);
    }
  }

  /** The hole is filled from where it was read, so the program sees the same memory. */
  lemma CarvedKeepsView(es: Entries, es2: Entries, l: int, lo: int, hi: int, page: int, mem: seq<Byte>, mem2: seq<Byte>,
                        a: int)
    requires page > 0 && Wf(es, page, |mem|) && Carved(es, es2, l, lo, hi, page) && es[l].IsCopy()
    requires |mem2| == |mem| && forall x :: 0 <= x < |mem| && !(lo <= x < hi) ==> mem2[x] == mem[x]
    requires forall x :: lo <= x < hi ==>
               0 <= x < |mem| && 0 <= es[l].orig + (x - es[l].addr) < |mem|
                 && mem2[x] == mem[es[l].orig + (x - es[l].addr)]
    requires 0 <= a < |mem|
    ensures 0 <= Source(es, a) < |mem| && 0 <= Source(es2, a) < |mem|
    ensures View(mem2, es2, a) == View(mem, es, a)
  {
    hide Wf, Carved, Tracked, Source;
    CarvedBounds(es, es2, l, lo, hi, page);
    SourceInMemory(es, page, |mem|, a);
    CarvedSource(es, es2, l, lo, hi, page, |mem|, a);
    SourceIsReal(es, page, |mem|, l, a);
  }

  /** What is left of entry `l`: at most one piece before the hole, under the same key, and one behind it. */
  ghost predicate Pieces(es: Entries, es2: Entries, l: int, lo: int, hi: int, page: int, left: bool, right: bool,
                         r: int)
    requires page > 0 && l in es
  {
    var e := es[l];
    && (forall k :: k in es2 <==> Kept(es, l, k) || (left && k == l) || (right && k == r))
    && (forall k :: Kept(es, l, k) ==> es2[k] == es[k])
    && (left ==> PieceOf(es2[l], e, l, page) && es2[l].Start() == e.Start() && es2[l].End() == lo)
    && (right ==> !Kept(es, l, r) && PieceOf(es2[r], e, r, page) && es2[r].Start() == hi && es2[r].End() == e.End())
    && (!left ==> lo == e.Start())
    && (!right ==> hi == e.End())
    && (left && right ==> hi <= r)
  }

  lemma PiecesCarve(es: Entries, es2: Entries, l: int, lo: int, hi: int, page: int, left: bool, right: bool, r: int)
    requires page > 0 && l in es && es[l].Start() <= lo < hi <= es[l].End()
    requires Pieces(es, es2, l, lo, hi, page, left, right, r)
    ensures Carved(es, es2, l, lo, hi, page)
  {
    hide Aligned;
    forall a | es[l].Has(a) && !(lo <= a < hi) ensures Tracked(es2, a) {
      assert if a < lo then l in es2 && es2[l].Has(a) else r in es2 && es2[r].Has(a);
    }
  }

  /** No other entry has its key inside the range of `l`. */
  lemma KeyIsFree(es: Entries, page: int, size: int, l: int, k: int)
    requires page > 0 && Wf(es, page, size) && l in es && es[l].Start() < k < es[l].End()
    ensures k !in es
  {
    assert EntryOk(es[l], l, page, size);
    assert k in es ==> EntryOk(es[k], k, page, size);
    assert k in es && k != l ==> Apart(es[l], es[k]);
  }

  lemma CarvedBounds(es: Entries, es2: Entries, l: int, lo: int, hi: int, page: int)
    requires page > 0 && Carved(es, es2, l, lo, hi, page)
    ensures l in es && es[l].Start() <= lo < hi <= es[l].End()
  {
  }

  // ---------------------------------------------------------------- the state

  class Zio {
    const page: int
    const mem: array<Byte>
    var entries: Entries

    constructor (page: int, mem: array<Byte>)
      requires page > 0
      ensures Valid() && this.page == page && this.mem == mem && entries == map[]
    {
      this.page, this.mem, this.entries := page, mem, map[];
    }

    ghost predicate Valid()
      reads this
    {
      page > 0 && Wf(entries, page, mem.Length)
    }

    // mmap of fresh anonymous pages over [dst, dst + len).
    method Mmap(dst: int, len: int)
      requires 0 <= dst && len >= 0 && dst + len <= mem.Length
      modifies mem
      ensures forall x :: 0 <= x < mem.Length ==> mem[x] == if dst <= x < dst + len then '\0' else old(mem[x])
    {
      var i := 0;
      while i < len
        invariant 0 <= i <= len
        invariant forall x :: 0 <= x < mem.Length ==> mem[x] == if dst <= x < dst + i then '\0' else old(mem[x])
      {
        mem[dst + i] := '\0';
        i := i + 1;
      }
    }

    method Memcpy(dst: int, src: int, len: int)
      requires 0 <= dst && 0 <= src && len >= 0 && dst + len <= mem.Length && src + len <= mem.Length
      requires dst + len <= src || src + len <= dst
      modifies mem
      ensures forall x :: 0 <= x < mem.Length ==>
                mem[x] == if dst <= x < dst + len then old(mem[src + (x - dst)]) else old(mem[x])
    {
      var i := 0;
      while i < len
        invariant 0 <= i <= len
        invariant forall x :: 0 <= x < mem.Length ==>
                    mem[x] == if dst <= x < dst + i then old(mem[src + (x - dst)]) else old(mem[x])
      {
        mem[dst + i] := mem[src + i];
        i := i + 1;
      }
    }

    // skiplist_search_buffer_fallin; ranges do not overlap, so the order of the search does not matter.
    method FallIn(a: int) returns (found: bool, l: int)
      ensures found <==> Tracked(entries, a)
      ensures found ==> l in entries && entries[l].Has(a)
    {
      l := 0;
      var todo := entries.Keys;
      while todo != {}
        invariant todo <= entries.Keys
        invariant forall k :: k in entries && k !in todo ==> !entries[k].Has(a)
        decreases |todo|
      {
        SomeKey(todo);
        var k :| k in todo;
        if entries[k].Has(a) { return true, k; }
        todo := todo - {k};
      }
      return false, l;
    }

    method Insert(e: Entry)
      modifies `entries
      ensures entries == old(entries)[e.lookup := e]
    {
      entries := entries[e.lookup := e];
    }

    method Delete(lookup: int)
      modifies `entries
      ensures entries == old(entries) - {lookup}
    {
      entries := entries - {lookup};
    }

    /** The new entries around the faulting page, and the range to copy: what is left but too short is copied too. */
    method SplitAt(l: int, faultPage: int) returns (dst: int, src: int, len: int)
      requires Valid() && l in entries && entries[l].Has(faultPage) && entries[l].IsCopy() && Aligned(faultPage, page)
      modifies `entries
      ensures Carved(old(entries), entries, l, dst, dst + len, page)
      ensures src == old(entries[l]).orig + (dst - old(entries[l]).addr)
      // A piece of at most OPT_THRESHOLD bytes that would be left on a side is copied too, a longer one is not.
      ensures var e := old(entries[l]);
              && dst == (if faultPage - e.Start() <= OPT_THRESHOLD then e.Start() else faultPage)
              && dst + len == if e.End() - (faultPage + page) <= OPT_THRESHOLD then e.End() else faultPage + page
      ensures dst <= faultPage && faultPage + page <= dst + len
    {
      hide Wf, Carved, Tracked, Aligned, PieceOf, Pieces;
      ghost var es := entries;
      var e := entries[l];
      EntryFits(entries, page, mem.Length, l, faultPage);
      dst, src, len := faultPage, e.orig + (faultPage - e.addr), page;
      if e.Start() == faultPage {
        var e1 := e.(offset := e.offset + page, len := e.len - page);
        Insert(e1);
        if e1.len <= OPT_THRESHOLD {
          dst := e1.addr + e1.offset - page;
          src := e1.orig + e1.offset - page;
          len := e1.len + page;
          Delete(e1.lookup);
        }
        OnePiece(es, entries, l, dst, dst + len, page, mem.Length, e1);
        PiecesCarve(es, entries, l, dst, dst + len, page, false, e1.len > OPT_THRESHOLD, l);
      } else if e.End() == faultPage + page {
        var e1 := e.(len := e.len - page);
        Insert(e1);
        if e1.len <= OPT_THRESHOLD {
          dst := e1.addr + e1.offset;
          src := e1.orig + e1.offset;
          len := e1.len + page;
          Delete(e1.lookup);
        }
        OnePiece(es, entries, l, dst, dst + len, page, mem.Length, e1);
        PiecesCarve(es, entries, l, dst, dst + len, page, e1.len > OPT_THRESHOLD, false, l);
      } else {
        dst, src, len := SplitInside(l, faultPage);
      }
    }

    // The page is neither the first nor the last of the range.
    method SplitInside(l: int, faultPage: int) returns (dst: int, src: int, len: int)
      requires Valid() && l in entries && entries[l].Has(faultPage) && entries[l].IsCopy() && Aligned(faultPage, page)
      requires entries[l].Start() != faultPage && entries[l].End() != faultPage + page
      modifies `entries
      ensures Carved(old(entries), entries, l, dst, dst + len, page)
      ensures src == old(entries[l]).orig + (dst - old(entries[l]).addr)
      // A piece of at most OPT_THRESHOLD bytes that would be left on a side is copied too, a longer one is not.
      ensures var e := old(entries[l]);
              && dst == (if faultPage - e.Start() <= OPT_THRESHOLD then e.Start() else faultPage)
              && dst + len == if e.End() - (faultPage + page) <= OPT_THRESHOLD then e.End() else faultPage + page
      ensures dst <= faultPage && faultPage + page <= dst + len
    {
      hide Wf, Carved, Tracked, Aligned, PieceOf, Pieces;
      ghost var es := entries;
      var e := entries[l];
      EntryFits(entries, page, mem.Length, l, faultPage);
      dst, src, len := faultPage, e.orig + (faultPage - e.addr), page;
      var offset := faultPage + page - e.addr;
      var second := Entry(e.addr + offset, e.orig + offset, e.addr + offset,
                          e.len - (faultPage - e.addr - e.offset) - page, 0, e.node);
      var e1 := e.(len := e.len - (second.len + page));
      Insert(e1);
      if e1.len <= OPT_THRESHOLD {
        dst := e1.addr + e1.offset;
        src := e1.orig + e1.offset;
        len := e1.len + page;
        Delete(e1.lookup);
      }
      if second.len <= OPT_THRESHOLD {
        len := len + second.len;
      } else {
        Insert(second);
      }
      KeyIsFree(es, page, mem.Length, l, second.lookup);
      TwoPieces(es, entries, l, dst, dst + len, page, mem.Length, e1, second);
      PiecesCarve(es, entries, l, dst, dst + len, page, e1.len > OPT_THRESHOLD, second.len > OPT_THRESHOLD,
                  second.lookup);
    }

    /** A fault in a page whose copy was delayed: the page becomes real, and the program sees no difference. */
    method HandleMissingFault(faultAddr: int) returns (ok: bool)
      requires Valid() && 0 <= faultAddr < mem.Length
      // Only the destinations of delayed copies are registered for missing faults.
      requires forall l :: l in entries && entries[l].Has(PageDown(faultAddr, page)) ==> entries[l].IsCopy()
      modifies `entries, mem
      ensures Valid()
      // It aborts only when no range is tracked there.
      ensures ok <==> old(Tracked(entries, PageDown(faultAddr, page)))
      ensures !ok ==> entries == old(entries) && mem[..] == old(mem[..])
      ensures forall a :: 0 <= a < mem.Length ==>
              0 <= Source(entries, a) < mem.Length && 0 <= old(Source(entries, a)) < mem.Length
      ensures forall a :: 0 <= a < mem.Length ==> View(mem[..], entries, a) == old(View(mem[..], entries, a))
      ensures ok ==> forall a :: PageDown(faultAddr, page) <= a < PageDown(faultAddr, page) + page ==>
                                   !Tracked(entries, a)
      // Of the range that covers the page just the page becomes real, and what would be left of it on a side if that
      // is no longer than OPT_THRESHOLD.
      ensures forall l, a :: l in old(entries) && old(entries)[l].Has(PageDown(faultAddr, page)) ==>
              var e, p := old(entries)[l], PageDown(faultAddr, page);
              Tracked(entries, a) <==>
              old(Tracked(entries, a)) && !((if p - e.Start() <= OPT_THRESHOLD then e.Start() else p) <= a
                                            < (if e.End() - (p + page) <= OPT_THRESHOLD then e.End() else p + page))
      // Nothing new is tracked, and what stays tracked is read where it was.
      ensures forall a :: Tracked(entries, a) ==>
              old(Tracked(entries, a)) && Source(entries, a) == old(Source(entries, a))
    {
      hide Wf, Carved, Source, Tracked, View, Aligned, PageDown;
      var faultPage := PageDown(faultAddr, page);
      ghost var es, before := entries, mem[..];
      var found, l := FallIn(faultPage);
      if !found {
        forall a | 0 <= a < mem.Length ensures 0 <= Source(es, a) < mem.Length {
          SourceInMemory(es, page, mem.Length, a);
        }
        NoneCovers(es, faultPage);
        return false;
      }
      var dst, src, len := SplitAt(l, faultPage);
      CarvedKeepsWf(es, entries, l, dst, dst + len, page, mem.Length);
      CopyFits(es, entries, l, dst, dst + len, page, mem.Length);
      Mmap(dst, len);
      Memcpy(dst, src, len);
      forall a | 0 <= a < mem.Length
        ensures 0 <= Source(es, a) < mem.Length && 0 <= Source(entries, a) < mem.Length
        ensures View(mem[..], entries, a) == View(before, es, a)
      {
        CarvedKeepsView(es, entries, l, dst, dst + len, page, before, mem[..], a);
      }
      forall a
        ensures Tracked(entries, a) <==> Tracked(es, a) && !(dst <= a < dst + len)
        ensures Tracked(entries, a) ==> Source(entries, a) == Source(es, a)
      {
        CarvedSource(es, entries, l, dst, dst + len, page, mem.Length, a);
      }
      OnlyOne(es, page, mem.Length, l, faultPage);
      return true;
    }
  }

  lemma NoneCovers(es: Entries, a: int)
    requires !Tracked(es, a)
    ensures forall k :: k in es ==> !es[k].Has(a)
  {
  }

  lemma OnlyOne(es: Entries, page: int, size: int, l: int, a: int)
    requires page > 0 && Wf(es, page, size) && l in es && es[l].Has(a)
    ensures forall k :: k in es && es[k].Has(a) ==> k == l
  {
    forall k | k in es && es[k].Has(a) ensures k == l {
      assert EntryOk(es[l], l, page, size) && EntryOk(es[k], k, page, size);
      assert k != l ==> Apart(es[k], es[l]);
    }
  }

  /** The hole and where it is read from lie in memory, apart from each other. */
  lemma CopyFits(es: Entries, es2: Entries, l: int, lo: int, hi: int, page: int, size: int)
    requires page > 0 && Wf(es, page, size) && Carved(es, es2, l, lo, hi, page) && es[l].IsCopy()
    ensures l in es && 0 <= lo < hi <= size
    ensures var src := es[l].orig + (lo - es[l].addr);
            0 <= src && src + (hi - lo) <= size && (hi <= src || src + (hi - lo) <= lo)
  {
    assert EntryOk(es[l], l, page, size) && ReadsOutside(es[l], es[l]);
  }

  lemma SomeKey(s: set<int>)
    requires s != {}
    ensures exists k :: k in s
  {
    assert (forall k :: k !in s) ==> s == {};
  }

  lemma PageFits(e: Entry, p: int, page: int)
    requires page > 0 && e.Has(p) && Aligned(p, page) && Aligned(e.Start(), page) && Aligned(e.len, page)
    ensures p + page <= e.End()
    ensures Aligned(p - e.Start(), page) && Aligned(p + page, page) && Aligned(e.End() - (p + page), page)
    ensures Aligned(e.Start() + page, page) && Aligned(e.len - page, page)
  {
    AlignedSum(e.Start(), e.len, page);
    AlignedOrder(p, e.End(), page);
    AlignedSum(p, page, page);
    AlignedSum(p, e.Start(), page);
    AlignedSum(e.End(), p + page, page);
    AlignedSum(e.Start(), page, page);
    AlignedSum(e.len, page, page);
  }

  lemma EntryFits(es: Entries, page: int, size: int, l: int, p: int)
    requires page > 0 && Wf(es, page, size) && l in es && es[l].Has(p) && Aligned(p, page)
    ensures EntryOk(es[l], l, page, size) && p + page <= es[l].End()
    ensures es[l].Start() != p ==> es[l].Start() + page <= p
    ensures Aligned(p - es[l].Start(), page) && Aligned(p + page, page) && Aligned(es[l].End() - (p + page), page)
    ensures Aligned(es[l].Start() + page, page) && Aligned(es[l].len - page, page)
  {
    PageFits(es[l], p, page);
    AlignedOrder(es[l].Start(), p, page);
  }

  /** The hole is at one end of the range. */
  lemma OnePiece(es: Entries, es2: Entries, l: int, lo: int, hi: int, page: int, size: int, e1: Entry)
    requires page > 0 && l in es && EntryOk(es[l], l, page, size)
    requires e1.lookup == l && e1.offset >= 0 && e1.orig == es[l].orig && e1.addr == es[l].addr
    requires Aligned(e1.Start(), page) && Aligned(e1.len, page)
    requires es2 == if e1.len <= OPT_THRESHOLD then es[l := e1] - {l} else es[l := e1]
    requires e1.len <= OPT_THRESHOLD ==> lo == es[l].Start() && hi == es[l].End()
    requires e1.len > OPT_THRESHOLD ==>
               || (lo == es[l].Start() && hi == e1.Start() && e1.End() == es[l].End() && hi > lo)
               || (lo == e1.End() && hi == es[l].End() && e1.Start() == es[l].Start() && hi > lo)
    ensures Pieces(es, es2, l, lo, hi, page, lo != es[l].Start(), e1.len > OPT_THRESHOLD && lo == es[l].Start(), l)
  {
    hide Aligned;
  }

  lemma TwoPieces(es: Entries, es2: Entries, l: int, lo: int, hi: int, page: int, size: int, e1: Entry, e2: Entry)
    requires page > 0 && l in es && EntryOk(es[l], l, page, size)
    requires e1.lookup == l && e1.offset == es[l].offset && e1.orig == es[l].orig && e1.addr == es[l].addr
    requires e2.offset == 0 && e2.lookup == e2.addr && e2.orig - e2.addr == es[l].orig - es[l].addr
    requires es[l].Start() < e1.End() < e2.Start() < e2.End() == es[l].End() && e2.lookup !in es
    requires Aligned(e2.Start(), page) && Aligned(e1.len, page) && Aligned(e2.len, page)
    requires var es1 := if e1.len <= OPT_THRESHOLD then es[l := e1] - {l} else es[l := e1];
             es2 == if e2.len <= OPT_THRESHOLD then es1 else es1[e2.lookup := e2]
    requires lo == if e1.len <= OPT_THRESHOLD then es[l].Start() else e1.End()
    requires hi == if e2.len <= OPT_THRESHOLD then es[l].End() else e2.Start()
    ensures Pieces(es, es2, l, lo, hi, page, e1.len > OPT_THRESHOLD, e2.len > OPT_THRESHOLD, e2.lookup)
  {
    hide Aligned;
    assert PieceOf(e2, es[l], e2.lookup, page) || e2.len <= OPT_THRESHOLD;
    assert PieceOf(e1, es[l], l, page) || e1.len <= OPT_THRESHOLD;
  }
}
