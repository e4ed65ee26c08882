// copy_interpose.c: copy_from_original, and the gather loop that pwrite and sendmsg share.
module ZioGather {
  import opened ZioRanges
  import opened ZioFault

  // ---------------------------------------------------------------- copying to the trackers of a buffer

  predicate Matches(e: Entry, origAddr: int, page: int)
    requires page > 0
  {
    e.IsCopy() && PageDown(origAddr, page) == PageDown(e.orig, page)
  }

  /** Every entry whose buffer starts on the page of `origAddr` is copied. It is then deleted by the address of its
      node, which is no lookup key, so it stays tracked. */
  method CopyFromOriginal(z: Zio, origAddr: int)
    requires z.Valid()
    // Nodes are allocated apart from the buffers that are tracked.
    requires forall l :: l in z.entries ==> z.entries[l].node !in z.entries
    modifies z`entries, z.mem
    ensures z.Valid() && z.entries == old(z.entries)
    ensures forall a :: 0 <= a < z.mem.Length ==> 0 <= Source(z.entries, a) < z.mem.Length
    ensures forall a :: 0 <= a < z.mem.Length ==> View(z.mem[..], z.entries, a) == old(View(z.mem[..], z.entries, a))
    // The copied ranges now hold what the program sees there.
    ensures forall l, a :: l in z.entries && Matches(z.entries[l], origAddr, z.page) ==>
              z.entries[l].Has(a) && 0 <= a < z.mem.Length ==> z.mem[a] == View(z.mem[..], z.entries, a)
    ensures forall a :: 0 <= a < z.mem.Length && z.mem[a] != old(z.mem[a]) ==>
              exists l :: l in z.entries && Matches(z.entries[l], origAddr, z.page) && z.entries[l].Has(a)
  {
    hide Wf, Source, Tracked, View, Matches;
    ghost var es, before := z.entries, z.mem[..];
    forall a | 0 <= a < z.mem.Length ensures 0 <= Source(es, a) < z.mem.Length {
      SourceInMemory(es, z.page, z.mem.Length, a);
    }
    var todo := z.entries.Keys;
    while todo != {}
      invariant todo <= es.Keys && z.entries == es
      invariant forall a :: 0 <= a < |before| ==> View(z.mem[..], es, a) == View(before, es, a)
      invariant forall l, a :: l in es && l !in todo && Matches(es[l], origAddr, z.page) ==>
                  es[l].Has(a) && 0 <= a < |before| ==> z.mem[a] == View(before, es, a)
      invariant forall a :: 0 <= a < |before| && z.mem[a] != before[a] ==>
                  exists l :: l in es && Matches(es[l], origAddr, z.page) && es[l].Has(a)
      decreases |todo|
    {
      SomeKey(todo);
      var l :| l in todo;
      var e := z.entries[l];
      if e.orig != e.addr && PageDown(origAddr, z.page) == PageDown(e.orig, z.page) {
        assert Matches(e, origAddr, z.page) by { MatchesIs(e, origAddr, z.page); }
        CopyRange(z, l);
        z.Delete(e.node);
        assert z.entries == es;
      } else {
        assert !Matches(e, origAddr, z.page) by { MatchesIs(e, origAddr, z.page); }
      }
      todo := todo - {l};
    }
  }

  lemma MatchesIs(e: Entry, origAddr: int, page: int)
    requires page > 0
    ensures Matches(e, origAddr, page) <==> e.orig != e.addr && PageDown(origAddr, page) == PageDown(e.orig, page)
  {
  }

  /** The mmap and memcpy of one whole tracked range. */
  method CopyRange(z: Zio, l: int)
    requires z.Valid() && l in z.entries && z.entries[l].IsCopy()
    modifies z.mem
    ensures forall a :: 0 <= a < z.mem.Length ==> 0 <= Source(z.entries, a) < z.mem.Length
    ensures forall a :: 0 <= a < z.mem.Length ==> View(z.mem[..], z.entries, a) == old(View(z.mem[..], z.entries, a))
    ensures forall a :: 0 <= a < z.mem.Length && !z.entries[l].Has(a) ==> z.mem[a] == old(z.mem[a])
    ensures forall a :: 0 <= a < z.mem.Length && z.entries[l].Has(a) ==> z.mem[a] == old(View(z.mem[..], z.entries, a))
  {
    hide Source, Tracked;
    var e := z.entries[l];
    assert EntryOk(e, l, z.page, z.mem.Length) && ReadsOutside(e, e);
    ghost var before := z.mem[..];
    forall a | 0 <= a < z.mem.Length
      ensures 0 <= Source(z.entries, a) < z.mem.Length && !e.Has(Source(z.entries, a))
      ensures e.Has(a) ==> Source(z.entries, a) == e.orig + (a - e.addr)
    {
      SourceInMemory(z.entries, z.page, z.mem.Length, a);
      SourceIsReal(z.entries, z.page, z.mem.Length, l, a);
      if e.Has(a) { SourceIs(z.entries, z.page, z.mem.Length, l, a); }
    }
    z.Mmap(e.addr + e.offset, e.len);
    z.Memcpy(e.addr + e.offset, e.orig + e.offset, e.len);
  }

  predicate ReadsThrough(e: Entry, x: int) {
    e.IsCopy() && e.SrcStart() <= x < e.SrcEnd()
  }

  /** Overwriting a byte of real memory is invisible elsewhere if and only if no delayed copy reads it. As no entry
      goes, copying to the trackers first does not change which ones do. */
  lemma OverwriteIsLocal(es: Entries, page: int, mem: seq<Byte>, x: int, v: Byte)
    requires page > 0 && Wf(es, page, |mem|) && 0 <= x < |mem| && v != mem[x]
    requires forall l :: l in es && es[l].IsCopy() ==> !es[l].Has(x)
    ensures forall a :: 0 <= a < |mem| ==> 0 <= Source(es, a) < |mem|
    ensures (forall a :: 0 <= a < |mem| && a != x ==> View(mem[x := v], es, a) == View(mem, es, a)) <==>
            (forall l :: l in es ==> !ReadsThrough(es[l], x))
  {
    hide Wf, Source, Tracked, ReadsThrough;
    forall a | 0 <= a < |mem|
      ensures 0 <= Source(es, a) < |mem|
      ensures View(mem[x := v], es, a) == View(mem, es, a) <==> Source(es, a) != x
    {
      SourceInMemory(es, page, |mem|, a);
    }
    forall l | l in es && ReadsThrough(es[l], x)
      ensures exists a :: 0 <= a < |mem| && a != x && View(mem[x := v], es, a) != View(mem, es, a)
    {
      var a := ReaderOf(es, page, |mem|, x, l);
      assert View(mem[x := v], es, a) != View(mem, es, a);
    }
    if forall l :: l in es ==> !ReadsThrough(es[l], x) {
      forall a | 0 <= a < |mem| && a != x ensures Source(es, a) != x {
        NobodyReads(es, page, |mem|, x, a);
      }
    }
  }

  /** A byte that is read from `x` through the delayed copy `l`. */
  lemma ReaderOf(es: Entries, page: int, size: int, x: int, l: int) returns (a: int)
    requires page > 0 && Wf(es, page, size) && l in es && ReadsThrough(es[l], x)
    requires forall m :: m in es && es[m].IsCopy() ==> !es[m].Has(x)
    ensures 0 <= a < size && a != x && Source(es, a) == x
  {
    a := es[l].addr + (x - es[l].orig);
    assert EntryOk(es[l], l, page, size);
    SourceIs(es, page, size, l, a);
  }

  lemma NobodyReads(es: Entries, page: int, size: int, x: int, a: int)
    requires page > 0 && Wf(es, page, size) && a != x && forall l :: l in es ==> !ReadsThrough(es[l], x)
    ensures Source(es, a) != x
  {
    hide Wf;
    if Tracked(es, a) {
      var l :| l in es && es[l].Has(a);
      SourceIs(es, page, size, l, a);
      assert !ReadsThrough(es[l], x);
    }
  }

  ghost predicate Alone(e: Entry, page: int, size: int)
    requires page > 0
  {
    EntryOk(e, e.lookup, page, size) && ReadsOutside(e, e) && e.node != e.lookup
  }

  lemma OneEntry(e: Entry, page: int, size: int) returns (es: Entries)
    requires page > 0 && Alone(e, page, size)
    ensures Wf(es, page, size) && e.lookup in es && es[e.lookup] == e && e.node !in es
    ensures forall l :: l in es ==> l == e.lookup
  {
    es := map[e.lookup := e];
  }

  /** A buffer at address 0 with one tracker: the tracker matches, is copied, and still sees the next write to the
      buffer. */
  lemma CopiedButStillRead(mem: seq<Byte>) returns (es: Entries)
    requires |mem| >= 24576 && mem[0] != 'x'
    ensures Wf(es, 4096, |mem|) && 16384 in es && Matches(es[16384], 0, 4096)
    ensures forall l :: l in es ==> es[l].node !in es
    ensures 0 <= Source(es, 16384) < |mem|
    ensures View(mem[0 := 'x'], es, 16384) != View(mem, es, 16384)
  {
    hide Wf, Source, Aligned, Matches, Alone;
    var e := Entry(16384, 0, 16384, 8192, 0, 99);
    TrackerIsFine(e, |mem|);
    es := OneEntry(e, 4096, |mem|);
    SourceIs(es, 4096, |mem|, 16384, 16384);
  }

  lemma TrackerIsFine(e: Entry, size: int)
    requires e == Entry(16384, 0, 16384, 8192, 0, 99) && size >= 24576
    ensures Alone(e, 4096, size) && Matches(e, 0, 4096)
  {
  }

  // ---------------------------------------------------------------- the gather loop

  const IOV_MAX_CNT := 10000

  datatype Iov = Iov(base: int, len: int)

  function Run(base: int, len: int): (r: seq<int>)
    requires len >= 0
    ensures |r| == len && forall i :: 0 <= i < len ==> r[i] == base + i
  {
    seq(len, i => base + i)
  }

  /** The addresses that a vector of buffers stands for, in order. */
  function Spread(iov: seq<Iov>): seq<int> {
    if iov == [] then []
    else
      var v := iov[|iov| - 1];
      Spread(iov[..|iov| - 1]) + if v.len >= 0 then Run(v.base, v.len) else []
  }

  lemma SpreadSnoc(iov: seq<Iov>, v: Iov)
    requires v.len >= 0
    ensures Spread(iov + [v]) == Spread(iov) + Run(v.base, v.len)
  {
    assert (iov + [v])[..|iov|] == iov;
  }

  /** The buffer begins strictly inside a tracked range that ends before it. */
  ghost predicate Overruns(es: Entries, buf: int, count: int) {
    exists l :: l in es && es[l].Start() < buf < es[l].End() < buf + count
  }

  ghost predicate EntersAtStart(es: Entries, a: int) {
    forall l :: l in es && es[l].Has(a) ==> es[l].Start() == a
  }

  /** The byte behind the range of `e` is not read through the same displacement. */
  ghost predicate Seam(es: Entries, e: Entry) {
    Source(es, e.End()) != e.orig + (e.End() - e.addr)
  }

  /** The byte at `a` is displaced as the bytes of `e` are. */
  ghost predicate Alike(es: Entries, e: Entry, a: int) {
    && (forall m :: m in es && es[m].Has(a) ==> es[m].orig - es[m].addr == e.orig - e.addr)
    && (Tracked(es, a) || !e.IsCopy())
  }

  lemma AlikeIs(es: Entries, page: int, size: int, e: Entry, a: int)
    requires page > 0 && Wf(es, page, size)
    ensures Alike(es, e, a) <==> Source(es, a) == e.orig + (a - e.addr)
  {
    hide Wf;
    if Tracked(es, a) {
      var l :| l in es && es[l].Has(a);
      forall m | m in es && es[m].Has(a) ensures Source(es, a) == es[m].orig + (a - es[m].addr) {
        SourceIs(es, page, size, m, a);
      }
    }
  }

  /** A range that a chunk enters in its middle is followed, up to the chunk's end, by bytes displaced alike. */
  ghost predicate Harmless(es: Entries, p: int, len: int) {
    forall l, a :: l in es && es[l].Start() < p < es[l].End() <= a < p + len ==> Alike(es, es[l], a)
  }

  /** How long the next chunk is: a whole range, wherever it is entered, or to the next page boundary. */
  ghost function ChunkLen(es: Entries, page: int, p: int, remaining: int): int
    requires page > 0
  {
    var len := if l :| l in es && es[l].Has(p) then es[l].len else NextFringe(p, page);
    if remaining < len then remaining else len
  }

  /** All the chunks of a buffer are harmless. */
  ghost predicate AllHarmless(es: Entries, page: int, p: int, remaining: int)
    requires page > 0
    decreases remaining
  {
    remaining <= 0 ||
    var len := ChunkLen(es, page, p, remaining);
    Harmless(es, p, len) && (len <= 0 || AllHarmless(es, page, p + len, remaining - len))
  }

  function NextFringe(a: int, page: int): int
    requires page > 0
  {
    if LeftFringe(a, page) == 0 then page else LeftFringe(a, page)
  }

  lemma NextFringeIs(a: int, page: int)
    requires page > 0
    ensures a + NextFringe(a, page) == PageUp(a, page) && 0 < NextFringe(a, page) <= page
    ensures Aligned(a + NextFringe(a, page), page) && (Aligned(a, page) ==> NextFringe(a, page) == page)
  {
    AlignedSum(PageDown(a, page), page, page);
    AlignedOrder(PageDown(a, page), a, page);
    AlignedOrder(PageDown(a, page), a + LeftFringe(a, page), page);
    if Aligned(a, page) { AlignedOrder(a, PageUp(a, page), page); }
    AlignedOrder(a + LeftFringe(a, page), PageUp(a, page), page);
  }

  /** From an untracked byte to the next page boundary nothing is tracked, and no range is entered in its middle. */
  lemma UntrackedToBoundary(es: Entries, page: int, size: int, p: int)
    requires page > 0 && Wf(es, page, size) && !Tracked(es, p)
    ensures forall a :: p <= a < p + NextFringe(p, page) ==> Source(es, a) == a
    ensures EntersAtStart(es, p + NextFringe(p, page))
  {
    NextFringeIs(p, page);
    forall l | l in es ensures es[l].End() <= p || p + NextFringe(p, page) <= es[l].Start() {
      assert EntryOk(es[l], l, page, size) && !es[l].Has(p);
      AlignedOrder(PageDown(p, page), es[l].Start(), page);
    }
    forall a | p <= a < p + NextFringe(p, page) ensures Source(es, a) == a {
      assert !Tracked(es, a);
    }
  }

  /** At the end of a range, another one can only begin. */
  lemma EndEntersAtStart(es: Entries, page: int, size: int, l: int)
    requires page > 0 && Wf(es, page, size) && l in es
    ensures EntersAtStart(es, es[l].End())
  {
    forall m | m in es && es[m].Has(es[l].End()) ensures es[m].Start() == es[l].End() {
      assert EntryOk(es[l], l, page, size) && EntryOk(es[m], m, page, size) && Apart(es[l], es[m]);
    }
  }

  /** One buffer of the vector. */
  method NextChunk(z: Zio, buf: int, off: int, remaining: int) returns (v: Iov)
    requires z.Valid() && remaining > 0
    ensures 0 < v.len <= remaining
    // It either takes all that remains, or a whole range, or reaches the next page boundary.
    ensures v.len < remaining ==> v.len >= z.page || (!Aligned(buf + off, z.page) && Aligned(buf + off + v.len, z.page))
    ensures v.len < remaining && Aligned(buf + off, z.page) ==> Aligned(buf + off + v.len, z.page)
    ensures EntersAtStart(z.entries, buf + off) ==> Right(z.entries, v, buf + off, v.len)
    ensures EntersAtStart(z.entries, buf + off) ==> v.len == remaining || EntersAtStart(z.entries, buf + off + v.len)
    // Inside a range, the displacement of that range is used for the whole chunk.
    ensures forall l :: l in z.entries && z.entries[l].Has(buf + off) ==>
              v.base == z.entries[l].orig + (buf + off - z.entries[l].addr)
              && v.len == if z.entries[l].len < remaining then z.entries[l].len else remaining
    ensures v.len == ChunkLen(z.entries, z.page, buf + off, remaining)
    ensures Right(z.entries, v, buf + off, v.len) <==> Harmless(z.entries, buf + off, v.len)
  {
    hide Wf, Source, Tracked, Aligned, EntersAtStart, LeftFringe, Harmless, ChunkLen;
    var p := buf + off;
    var found, l := z.FallIn(p);
    if found {
      var e := z.entries[l];
      v := Iov(e.orig + (buf - e.addr) + off, e.len);
      RangeChunk(z.entries, z.page, z.mem.Length, l, p);
    } else {
      v := Iov(buf + off, if LeftFringe(buf + off, z.page) == 0 then z.page else LeftFringe(buf + off, z.page));
      NextFringeIs(p, z.page);
      UntrackedToBoundary(z.entries, z.page, z.mem.Length, p);
      NoneHas(z.entries, p);
    }
    if remaining < v.len {
      v := v.(len := remaining);
    }
    ChunkIs(z, v, p, remaining);
    RightIfHarmless(z, v, p);
  }

  lemma ChunkIs(z: Zio, v: Iov, p: int, remaining: int)
    requires z.Valid()
    requires forall l :: l in z.entries && z.entries[l].Has(p) ==>
               v.len == if z.entries[l].len < remaining then z.entries[l].len else remaining
    requires !Tracked(z.entries, p) ==>
               v.len == if NextFringe(p, z.page) < remaining then NextFringe(p, z.page) else remaining
    ensures v.len == ChunkLen(z.entries, z.page, p, remaining)
  {
    hide Wf;
  }

  lemma RightIfHarmless(z: Zio, v: Iov, p: int)
    requires z.Valid() && v.len >= 0
    requires forall l :: l in z.entries && z.entries[l].Has(p) ==>
               v.base == z.entries[l].orig + (p - z.entries[l].addr) && v.len <= z.entries[l].len
    requires !Tracked(z.entries, p) ==> Right(z.entries, v, p, v.len)
    ensures Right(z.entries, v, p, v.len) <==> Harmless(z.entries, p, v.len)
  {
    hide Wf, Source, Alike;
    if Tracked(z.entries, p) {
      var l :| l in z.entries && z.entries[l].Has(p);
      var e := z.entries[l];
      RangeChunk(z.entries, z.page, z.mem.Length, l, p);
      forall a | p <= a < p + v.len
        ensures Source(z.entries, a) == v.base + (a - p) <==> a < e.End() || Alike(z.entries, e, a)
      {
        AlikeIs(z.entries, z.page, z.mem.Length, e, a);
      }
    }
  }

  /** Every byte of the chunk is read from where the program sees it. */
  ghost predicate Right(es: Entries, v: Iov, p: int, len: int) {
    forall a :: p <= a < p + len ==> Source(es, a) == v.base + (a - p)
  }

  lemma NoneHas(es: Entries, p: int)
    requires !Tracked(es, p)
    ensures forall l :: l in es ==> !es[l].Has(p)
  {
  }

  lemma RangeChunk(es: Entries, page: int, size: int, l: int, p: int)
    requires page > 0 && Wf(es, page, size) && l in es && es[l].Has(p)
    ensures es[l].len >= page
    ensures forall m :: m in es && es[m].Has(p) ==> m == l
    ensures Aligned(p, page) ==> Aligned(p + es[l].len, page)
    ensures EntersAtStart(es, p) ==> p + es[l].len == es[l].End() && EntersAtStart(es, es[l].End())
    ensures forall a :: p <= a < es[l].End() ==> Source(es, a) == es[l].orig + (a - es[l].addr)
  {
    hide Aligned, Source;
    var e := es[l];
    assert EntryOk(e, l, page, size);
    AlignedSum(e.Start(), page, page);
    AlignedSum(e.len, page, page);
    AlignedOrder(e.Start(), e.Start() + e.len, page);
    AlignedSum(e.Start(), e.len, page);
    AlignedSum(e.len, p, page);
    forall m | m in es && es[m].Has(p) ensures m == l {
      assert EntryOk(es[m], m, page, size);
    }
    EndEntersAtStart(es, page, size, l);
    forall a | p <= a < e.End() ensures Source(es, a) == e.orig + (a - e.addr) {
      SourceIs(es, page, size, l, a);
    }
  }

  /** The addresses from `p` on are those the program's bytes are read from. */
  ghost predicate Agree(es: Entries, addrs: seq<int>, p: int) {
    forall a :: p <= a < p + |addrs| ==> Source(es, a) == addrs[a - p]
  }

  lemma AgreeOneMore(es: Entries, page: int, addrs: seq<int>, p: int, v: Iov, remaining: int)
    requires page > 0 && 0 < v.len <= remaining
    requires v.len == ChunkLen(es, page, p + |addrs|, remaining)
    requires Right(es, v, p + |addrs|, v.len) <==> Harmless(es, p + |addrs|, v.len)
    ensures Agree(es, addrs, p) && AllHarmless(es, page, p + |addrs|, remaining)
            <==> Agree(es, addrs + Run(v.base, v.len), p)
                 && AllHarmless(es, page, p + |addrs| + v.len, remaining - v.len)
    ensures Agree(es, addrs + Run(v.base, v.len), p) <==> Agree(es, addrs, p) && Right(es, v, p + |addrs|, v.len)
  {
    hide Source, ChunkLen, Harmless;
    var more := addrs + Run(v.base, v.len);
    forall i | 0 <= i < |more| ensures more[i] == if i < |addrs| then addrs[i] else v.base + (i - |addrs|) {
    }
    if Agree(es, more, p) {
      forall a | p <= a < p + |addrs| ensures Source(es, a) == addrs[a - p] {
        assert more[a - p] == addrs[a - p];
      }
      forall a | p + |addrs| <= a < p + |addrs| + v.len ensures Source(es, a) == v.base + (a - (p + |addrs|)) {
        assert more[a - p] == v.base + (a - p - |addrs|);
      }
    }
  }

  /** The vector stands for exactly `count` bytes. They are the bytes the program sees if and only if all its chunks are
      harmless; they are if the buffer does not begin inside a range that ends before it. The last but one clause names
      a byte that is wrong when they are not at the end of that range. */
  method Gather(z: Zio, buf: int, count: int) returns (ok: bool, iov: seq<Iov>)
    requires z.Valid() && 0 <= buf && 0 < count && buf + count <= z.mem.Length
    ensures ok ==> |Spread(iov)| == count && |iov| < IOV_MAX_CNT
    ensures ok && !Overruns(z.entries, buf, count) ==> Agree(z.entries, Spread(iov), buf)
    ensures ok ==> (Agree(z.entries, Spread(iov), buf) <==> AllHarmless(z.entries, z.page, buf, count))
    ensures ok ==> forall l ::
              l in z.entries && z.entries[l].Start() < buf < z.entries[l].End() < buf + count
              && Seam(z.entries, z.entries[l]) ==>
              Spread(iov)[z.entries[l].End() - buf] != Source(z.entries, z.entries[l].End())
    // It aborts only on a buffer of thousands of pages.
    ensures !ok ==> count >= (IOV_MAX_CNT - 2) * z.page
  {
    hide Wf, Source, Tracked, Aligned, EntersAtStart, Overruns, Spread, LeftFringe, Agree, AllHarmless, Harmless, Right;
    hide ChunkLen;
    iov := [];
    var off, remaining := 0, count;
    ghost var overruns := Overruns(z.entries, buf, count);
    ghost var aligned := 0;
    SpreadNil();
    AgreeOnNothing(z.entries, buf);
    while remaining > 0
      invariant 0 <= remaining && 0 <= off && off + remaining == count && |iov| < IOV_MAX_CNT
      invariant |Spread(iov)| == off
      invariant iov == [] <==> off == 0
      invariant Agree(z.entries, Spread(iov), buf) && AllHarmless(z.entries, z.page, buf + off, remaining)
                <==> AllHarmless(z.entries, z.page, buf, count)
      invariant !overruns ==> Agree(z.entries, Spread(iov), buf)
      invariant !overruns && off > 0 ==> remaining == 0 || EntersAtStart(z.entries, buf + off)
      invariant off > 0 ==> ReadsOn(z.entries, Spread(iov), buf, count)
      // All chunks so far but one were a page or more; the exception ended on a page boundary.
      invariant remaining > 0 ==>
                off >= Pages(|iov| - 1, z.page) && (Aligned(buf + off, z.page) || off >= Pages(|iov|, z.page))
      invariant iov != [] ==> count >= Pages(|iov| - 2, z.page)
    {
      var v := NextChunk(z, buf, off, remaining);
      PagesStep(|iov|, z.page);
      if off == 0 { FirstChunk(z, buf, count, v); }
      SpreadSnoc(iov, v);
      AgreeOneMore(z.entries, z.page, Spread(iov), buf, v, remaining);
      iov := iov + [v];
      off := off + v.len;
      remaining := remaining - v.len;
      if |iov| >= IOV_MAX_CNT {
        return false, iov;
      }
    }
    NothingIsHarmless(z.entries, z.page, buf + off);
    ok := true;
  }

  lemma AgreeOnNothing(es: Entries, p: int)
    ensures Agree(es, [], p)
  {
  }

  lemma NothingIsHarmless(es: Entries, page: int, p: int)
    requires page > 0
    ensures AllHarmless(es, page, p, 0)
  {
  }

  function Pages(n: int, page: int): int {
    n * page
  }

  lemma PagesStep(n: int, page: int)
    ensures Pages(n - 1, page) + page == Pages(n, page) && Pages(n, page) + page == Pages(n + 1, page)
    ensures Pages(n - 2, page) + page == Pages(n - 1, page)
  {
  }

  lemma SpreadNil()
    ensures Spread([]) == []
  {
  }

  /** A range that the buffer begins in is read on beyond its end. */
  ghost predicate ReadsOn(es: Entries, addrs: seq<int>, buf: int, count: int) {
    forall l :: l in es && es[l].Start() < buf < es[l].End() < buf + count ==>
      es[l].End() - buf < |addrs| && addrs[es[l].End() - buf] == es[l].orig + (es[l].End() - es[l].addr)
  }

  /** The first chunk is right, or runs over the end of its range. */
  lemma FirstChunk(z: Zio, buf: int, count: int, v: Iov)
    requires z.Valid() && 0 < v.len <= count
    requires EntersAtStart(z.entries, buf) ==> Right(z.entries, v, buf, v.len)
    requires EntersAtStart(z.entries, buf) ==> v.len == count || EntersAtStart(z.entries, buf + v.len)
    requires forall l :: l in z.entries && z.entries[l].Has(buf) ==>
               v.base == z.entries[l].orig + (buf - z.entries[l].addr)
                 && v.len == if z.entries[l].len < count then z.entries[l].len else count
    ensures !Overruns(z.entries, buf, count) ==> Right(z.entries, v, buf, v.len)
    ensures !Overruns(z.entries, buf, count) ==> v.len == count || EntersAtStart(z.entries, buf + v.len)
    ensures forall l :: l in z.entries && z.entries[l].Start() < buf < z.entries[l].End() < buf + count ==>
              z.entries[l].End() - buf < v.len
                && v.base + (z.entries[l].End() - buf) == z.entries[l].orig + (z.entries[l].End() - z.entries[l].addr)
  {
    hide Source;
    if !Overruns(z.entries, buf, count) && !EntersAtStart(z.entries, buf) {
      var l :| l in z.entries && z.entries[l].Has(buf) && z.entries[l].Start() != buf;
      RangeChunk(z.entries, z.page, z.mem.Length, l, buf);
    }
  }

  /** Such a buffer at work, where the wrong byte is not the one behind the range: a buffer in the middle of a received
      one is read on over bytes displaced alike, the gap between two ranges, and then over a delayed copy. */
  lemma WrongBehindTheGap() returns (es: Entries)
    ensures Wf(es, 4096, 65536) && Overruns(es, 12288, 16384)
    ensures 4096 in es && es[4096].Start() < 12288 < es[4096].End() && !Seam(es, es[4096])
    ensures !AllHarmless(es, 4096, 12288, 16384)
  {
    var root, copy := Entry(4096, 4096, 4096, 12288, 0, 1), Entry(20480, 40960, 20480, 8192, 0, 2);
    es := map[4096 := root, 20480 := copy];
    TwoEntries(es, root, copy);
    assert es[20480].Has(20480) && !Alike(es, root, 20480);
    assert es[4096].Has(12288) && forall l :: l in es && es[l].Has(12288) ==> l == 4096;
    assert ChunkLen(es, 4096, 12288, 16384) == 12288;
    assert !Harmless(es, 12288, 12288);
    assert !Tracked(es, 16384);
  }

  lemma Multiple(a: int, k: int)
    requires a == 4096 * k
    ensures Aligned(a, 4096)
  {
    AlignedMultiple(k, 4096);
  }

  lemma TwoEntriesAreFine(root: Entry, copy: Entry)
    requires root == Entry(4096, 4096, 4096, 12288, 0, 1) && copy == Entry(20480, 40960, 20480, 8192, 0, 2)
    ensures EntryOk(root, 4096, 4096, 65536) && EntryOk(copy, 20480, 4096, 65536)
  {
    hide Aligned;
    Multiple(4096, 1);
    Multiple(12288, 3);
    Multiple(20480, 5);
    Multiple(8192, 2);
  }

  lemma TwoEntries(es: Entries, root: Entry, copy: Entry)
    requires root == Entry(4096, 4096, 4096, 12288, 0, 1) && copy == Entry(20480, 40960, 20480, 8192, 0, 2)
    requires es == map[4096 := root, 20480 := copy]
    ensures Wf(es, 4096, 65536)
  {
    hide EntryOk, Aligned;
    TwoEntriesAreFine(root, copy);
  }
}
