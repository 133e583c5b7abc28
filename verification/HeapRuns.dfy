/** What malloc and free promise: every step keeps the heap reachable and moves the map of live
    allocations as it should, and so does every run. */
module HeapRuns {
  import opened BlockList
  import opened HeapSteps
  import opened Words

  // ----- One call at a time -----

  lemma {:induction false} Reground(h: Heap, bs: seq<Block>)
    requires Reachable(h) && SameGround(h.bs, bs)
    ensures Reachable(h.(bs := bs))
  {
  }

  lemma {:induction false} Nonempty(h: Heap)
    requires Reachable(h)
    ensures |h.bs| > 0 && |h.rs| > 0 && h.page > 0 && PageSize(h.page)
  {
  }

  lemma {:induction false} MappedInWord(h: Heap, x: int)
    requires Reachable(h) && Mapped(h.rs, x)
    ensures h.page <= x < WORD
  {
    var i :| 0 <= i < |h.rs| && h.rs[i].addr <= x < h.rs[i].End();
    assert h.rs[i] in h.rs;
  }

  /** Every block lies above the first page and inside the address space. */
  lemma {:induction false} BlockInWord(h: Heap, i: nat)
    requires Reachable(h) && i < |h.bs|
    ensures 0 < h.page <= h.bs[i].addr && h.bs[i].End() <= WORD
  {
    var b := h.bs[i];
    assert b in h.bs;
    assert Covers(h.bs, b.addr) && Covers(h.bs, b.End() - 1);
    MappedInWord(h, b.addr);
    MappedInWord(h, b.End() - 1);
  }

  lemma {:induction false} StatusGround(bs: seq<Block>, i: nat, free: bool)
    requires i < |bs|
    ensures SameGround(bs, bs[i := bs[i].(free := free)])
  {
    hide Covers, Total;
    var cs := bs[i := bs[i].(free := free)];
    forall x ensures Covers(bs, x) <==> Covers(cs, x) {
      if Covers(bs, x) { SamePlacesCover(bs, cs, x); }
      if Covers(cs, x) { SamePlacesCover(cs, bs, x); }
    }
    TotalAt(bs, i);
    TotalAt(cs, i);
    assert bs[..i] == cs[..i] && bs[i + 1..] == cs[i + 1..];
  }

  lemma {:induction false} SamePlacesCover(bs: seq<Block>, cs: seq<Block>, x: int)
    requires |bs| == |cs| && (forall j :: 0 <= j < |bs| ==> bs[j].addr == cs[j].addr && bs[j].cap == cs[j].cap)
    requires Covers(bs, x)
    ensures Covers(cs, x)
  {
    var j :| 0 <= j < |bs| && bs[j].addr <= x < bs[j].End();
    assert cs[j].addr <= x < cs[j].End();
  }

  lemma {:induction false} SplitRoomy(bs: seq<Block>, i: nat, q: int)
    requires i < |bs| && Roomy(bs) && Splittable(bs[i], q)
    requires BLOCK_MIN_CAPACITY <= q && q + HEADER + BLOCK_MIN_CAPACITY < WORD
    ensures Roomy(SplitAt(bs, i, q))
  {
    hide Wrap;
    WrapOnce(q + HEADER + BLOCK_MIN_CAPACITY);
    var cut := SplitAt(bs, i, q);
    forall j | 0 <= j < |cut| ensures cut[j].cap >= BLOCK_MIN_CAPACITY {
      assert j < i ==> cut[j] == bs[j];
      assert j > i + 1 ==> cut[j] == bs[j - 1];
    }
  }

  lemma {:induction false} SplitIsCut(bs: seq<Block>, i: nat, q: int)
    requires i < |bs| && Splittable(bs[i], q) && Roomy(SplitAt(bs, i, q))
    ensures IsCut(bs, SplitAt(bs, i, q), i)
  {
    hide Splittable, SplitAt;
    var cut := SplitAt(bs, i, q);
    SplitAtIndex(bs, i, q, i);
    SplitAtIndex(bs, i, q, i + 1);
    forall j | 0 <= j < i ensures cut[j] == bs[j] { SplitAtIndex(bs, i, q, j); }
    forall j | i + 1 < j < |cut| ensures cut[j] == bs[j - 1] { SplitAtIndex(bs, i, q, j); }
  }

  lemma {:induction false} SplitAtIndex(bs: seq<Block>, i: nat, q: int, j: nat)
    requires i < |bs| && Splittable(bs[i], q) && j <= |bs|
    ensures |SplitAt(bs, i, q)| == |bs| + 1
    ensures SplitAt(bs, i, q)[j] ==
      if j < i then bs[j]
      else if j == i then bs[i].(cap := q)
      else if j == i + 1 then Block(bs[i].addr + (q + HEADER), bs[i].cap - (q + HEADER), true)
      else bs[j - 1]
  {
    hide Splittable;
  }

  lemma {:induction false} SplitNothing(bs: seq<Block>, i: nat, q: int)
    requires i < |bs| && !Splittable(bs[i], q)
    ensures SplitAt(bs, i, q) == bs
  {
  }

  lemma {:induction false} CutIsLonger(bs: seq<Block>, cut: seq<Block>, i: nat)
    requires IsCut(bs, cut, i)
    ensures |cut| == |bs| + 1
  {
  }

  /** Splitting never changes the ground. */
  lemma {:induction false} SplitGround(bs: seq<Block>, i: nat, q: int)
    requires i < |bs| && Roomy(bs)
    requires BLOCK_MIN_CAPACITY <= q && q + HEADER + BLOCK_MIN_CAPACITY < WORD
    ensures SameGround(bs, SplitAt(bs, i, q))
  {
    hide Apart, Covers, Total, Roomy, Splittable, SplitAt, IsCut;
    if Splittable(bs[i], q) {
      SplitRoomy(bs, i, q);
      SplitIsCut(bs, i, q);
      CutIsLonger(bs, SplitAt(bs, i, q), i);
      GlueGround(bs, SplitAt(bs, i, q), i);
    } else {
      SplitNothing(bs, i, q);
    }
  }

  /** It leaves the first part at most 40 bytes over the request. */
  lemma {:induction false} SplitCapacity(bs: seq<Block>, i: nat, q: int)
    requires i < |bs| && BLOCK_MIN_CAPACITY <= q <= bs[i].cap && q + HEADER + BLOCK_MIN_CAPACITY < WORD
    ensures bs[i].free ==> q <= SplitAt(bs, i, q)[i].cap <= q + HEADER + BLOCK_MIN_CAPACITY - 1
    ensures SplitAt(bs, i, q)[i].(cap := bs[i].cap) == bs[i]
  {
    hide Wrap;
    WrapOnce(q + HEADER + BLOCK_MIN_CAPACITY);
  }

  lemma {:induction false} SplitUsed(bs: seq<Block>, i: nat, q: int)
    requires i < |bs|
    ensures SameUsed(bs, SplitAt(bs, i, q))
  {
    var cut := SplitAt(bs, i, q);
    if Splittable(bs[i], q) {
      forall k: Block | !k.free ensures k in bs <==> k in cut {
        if k in bs {
          var j :| 0 <= j < |bs| && bs[j] == k;
          assert cut[if j < i then j else j + 1] == k;
        }
        if k in cut {
          var j :| 0 <= j < |cut| && cut[j] == k;
          assert bs[if j < i then j else j - 1] == k;
        }
      }
    }
  }

  /** The blocks in use in `after` are those in `before` and b, which is a new one. */
  ghost predicate UsedPlus(before: seq<Block>, after: seq<Block>, b: Block) {
    && !b.free && b in after
    && (forall k: Block :: !k.free ==> (k in after <==> k in before || k == b))
    && forall k <- before :: !k.free ==> k.addr != b.addr
  }

  lemma {:induction false} OccupyUsed(bs: seq<Block>, i: nat)
    requires i < |bs| && bs[i].free && Apart(bs) && Roomy(bs)
    ensures UsedPlus(bs, Occupy(bs, i), bs[i].(free := false))
  {
    var cs := Occupy(bs, i);
    assert cs[i] in cs;
    forall k: Block | !k.free ensures k in cs <==> k in bs || k == cs[i] {
      if k in bs {
        var j :| 0 <= j < |bs| && bs[j] == k;
        assert cs[j] == k;
      }
    }
    forall k | k in bs && !k.free ensures k.addr != bs[i].addr {
      var j :| 0 <= j < |bs| && bs[j] == k;
      assert Disjoint(bs[if j < i then j else i], bs[if j < i then i else j]);
      assert bs[i] in bs && bs[i].cap >= 0 && k.cap >= 0;
    }
  }

  lemma {:induction false} UsedPlusLive(before: Heap, after: Heap, b: Block)
    requires Reachable(before) && Reachable(after) && UsedPlus(before.bs, after.bs, b)
    ensures b.Payload() !in Live(before) && Live(after) == Live(before)[b.Payload() := b.cap]
  {
    hide Covers, Mapped, Total, TotalMapped, RegionsApart, RegionOk, PageSize;
  }

  /** try_memalloc_existing keeps the heap reachable; a found block is new among those in use and
      large enough without wasting room for another block, and nothing else changes hands. */
  lemma {:induction false} ExistingKeeps(h: Heap, i: nat, q: int)
    requires Reachable(h) && i < |h.bs| && BLOCK_MIN_CAPACITY <= q
    ensures var (out, o) := Existing(h.bs, i, q);
      && Reachable(h.(bs := out))
      && match o
         case Good(k) => UsedPlus(h.bs, out, out[k]) && q <= out[k].cap <= q + 40
         case Last(_) => SameUsed(h.bs, out)
  {
    var (ms, o) := SearchFrom(h.bs, i, q);
    SearchGround(h.bs, i, q);
    Reground(h, ms);
    if o.Good? {
      var k := o.index;
      var m := SearchIsFirstFit(h.bs, i, q);
      assert ms[k].free && ms[k].cap >= q;
      var h' := h.(bs := ms);
      BlockInWord(h', k);
      SplitGround(ms, k, q);
      SplitCapacity(ms, k, q);
      SplitUsed(ms, k, q);
      var cut := SplitAt(ms, k, q);
      Reground(h', cut);
      OccupyUsed(cut, k);
      StatusGround(cut, k, false);
      Reground(h'.(bs := cut), Occupy(cut, k));
    }
  }

  // ----- Growing -----

  lemma {:induction false} FreshIsUnmapped(h: Heap, at: int, size: int, x: int)
    requires h.page > 0 && at != MAP_FAILED && MmapAnswer(h, at, size) && at <= x < at + size
    ensures !Mapped(h.rs, x)
  {
  }

  lemma {:induction false} FreshIsApart(h: Heap, at: int, size: int, j: nat)
    requires Reachable(h) && at != MAP_FAILED && MmapAnswer(h, at, size) && size > 0 && j < |h.bs|
    ensures at + size <= h.bs[j].addr || h.bs[j].End() <= at
  {
    var b := h.bs[j];
    assert b in h.bs && b.cap >= 0;
    if !(at + size <= b.addr || b.End() <= at) {
      FreshIsUnmapped(h, at, size, if at > b.addr then at else b.addr);
      assert false;
    }
  }

  lemma {:induction false} AppendCovers(h: Heap, b: Block, r: Region)
    requires Reachable(h) && b.addr == r.addr && b.End() == r.End()
    ensures forall x :: Covers(h.bs + [b], x) <==> Mapped(h.rs + [r], x)
  {
    var bs, rs := h.bs + [b], h.rs + [r];
    forall x ensures Covers(bs, x) <==> Mapped(rs, x) {
      if Covers(bs, x) {
        var i :| 0 <= i < |bs| && bs[i].addr <= x < bs[i].End();
        if i < |h.bs| {
          assert Covers(h.bs, x);
          var j :| 0 <= j < |h.rs| && h.rs[j].addr <= x < h.rs[j].End();
          assert rs[j].addr <= x < rs[j].End();
        } else {
          assert rs[|h.rs|].addr <= x < rs[|h.rs|].End();
        }
      }
      if Mapped(rs, x) {
        var i :| 0 <= i < |rs| && rs[i].addr <= x < rs[i].End();
        if i < |h.rs| {
          assert Mapped(h.rs, x);
          var j :| 0 <= j < |h.bs| && h.bs[j].addr <= x < h.bs[j].End();
          assert bs[j].addr <= x < bs[j].End();
        } else {
          assert bs[|h.bs|].addr <= x < bs[|h.bs|].End();
        }
      }
    }
  }

  /** A fresh region appended as one free block. */
  lemma {:induction false} AppendReachable(h: Heap, at: int, size: int)
    requires Reachable(h) && at != MAP_FAILED && MmapAnswer(h, at, size)
    requires size % h.page == 0 && REGION_MIN_SIZE <= size
    ensures Reachable(Heap(h.page, h.bs + [Block(at, size - HEADER, true)], h.rs + [Region(at, size)]))
  {
    hide Covers, Mapped, Total, TotalMapped, PageSize;
    var b, r := Block(at, size - HEADER, true), Region(at, size);
    forall j | 0 <= j < |h.bs| ensures Disjoint(h.bs[j], b) { FreshIsApart(h, at, size, j); }
    AppendCovers(h, b, r);
    TotalConcat(h.bs, [b]);
    TotalMappedConcat(h.rs, [r]);
    OneBlockTiles(b, r);
  }

  lemma {:induction false} GrowReachable(h: Heap, at: int, size: int)
    requires Reachable(h) && at != MAP_FAILED && MmapAnswer(h, at, size)
    requires size % h.page == 0 && REGION_MIN_SIZE <= size
    ensures var (grown, i) := Grow(h.bs, at, size);
      && Reachable(Heap(h.page, grown, h.rs + [Region(at, size)]))
      && SameUsed(h.bs, grown)
      && grown[i].free && grown[i].cap >= size - HEADER
  {
    var b := Block(at, size - HEADER, true);
    var bs := h.bs + [b];
    AppendReachable(h, at, size);
    var last := |h.bs| - 1;
    assert bs[last] == h.bs[last] && bs[last + 1] == b;
    assert h.bs[last] in h.bs;
    if Mergeable(h.bs[last], b) {
      MergeNextGround(bs, last);
      MergeNextUsed(bs, last);
      Reground(Heap(h.page, bs, h.rs + [Region(at, size)]), MergeNext(bs, last));
    }
  }

  // ----- malloc -----

  /** The retry after growth starts at the last block, so it finds that block or nothing. */
  lemma {:induction false} SearchAtLast(bs: seq<Block>, i: nat, q: int)
    requires i + 1 == |bs| && bs[i].free
    ensures SearchFrom(bs, i, q) == (bs, if bs[i].cap >= q then Good(i) else Last(i))
  {
  }

  lemma {:induction false} MallocGrows(h: Heap, q: int, at: int)
    requires Reachable(h) && BLOCK_MIN_CAPACITY <= q < WORD
    requires at != MAP_FAILED && MmapAnswer(h, at, RegionSize(h.page, q))
    ensures var size := RegionSize(h.page, q);
      var (grown, i) := Grow(h.bs, at, size);
      var (out, o) := Existing(grown, i, q);
      && Reachable(Heap(h.page, out, h.rs + [Region(at, size)]))
      && (o.Last? <==> Overflows(h.page, q))
      && (o.Last? ==> SameUsed(h.bs, out))
      && (o.Good? ==> UsedPlus(h.bs, out, out[o.index]) && q <= out[o.index].cap <= q + 40)
  {
    var size := RegionSize(h.page, q);
    RegionSizeMeaning(h.page, q);
    GrowReachable(h, at, size);
    var (grown, i) := Grow(h.bs, at, size);
    var h' := Heap(h.page, grown, h.rs + [Region(at, size)]);
    SearchAtLast(grown, i, q);
    BlockInWord(h', i);
    ExistingKeeps(h', i, q);
  }

  /** malloc on a reachable heap, with any answers of mmap. */
  lemma {:induction false} MallocCorrect(h: Heap, query: int, fixed: int, anywhere: int)
    requires Reachable(h) && 0 <= query < WORD
    requires MmapAnswer(h, Answer(fixed, anywhere), RegionSize(h.page, Request(query)))
    ensures var q := if query > 24 then query else 24;
      var at := if fixed != MAP_FAILED then fixed else anywhere;
      var (h', p) := Malloc(h, query, fixed, anywhere);
      && Reachable(h')
      && (p == NULL <==> NoFit(h.bs, 0, q) && (at == MAP_FAILED || Overflows(h.page, q)))
      && (p == NULL ==> Live(h') == Live(h))
      && (p != NULL ==>
           && p in Live(h') && query <= Live(h')[p] && 24 <= Live(h')[p] <= q + 40
           && p !in Live(h) && Live(h') == Live(h)[p := Live(h')[p]])
      && h'.rs == h.rs + if NoFit(h.bs, 0, q) && at != MAP_FAILED then [Region(at, RegionSize(h.page, q))] else []
  {
    hide Reachable, Live, UsedPlus, SameUsed, Existing, NoFit, Overflows, RegionSize, Grow, Mapped, MmapAnswer;
    Nonempty(h);
    var q := Request(query);
    var at := Answer(fixed, anywhere);
    var (ms, o) := Existing(h.bs, 0, q);
    ExistingKeeps(h, 0, q);
    ExistingFits(h.bs, 0, q);
    var h1 := h.(bs := ms);
    var (h', p) := Malloc(h, query, fixed, anywhere);
    if o.Good? {
      BlockInWord(h1, o.index);
      UsedPlusLive(h, h1, ms[o.index]);
    } else {
      SameUsedSameLive(h, h1);
      if at != MAP_FAILED {
        var size := RegionSize(h.page, q);
        SameAnswers(h, h1, at, size);
        MallocGrows(h1, q, at);
        var (grown, i) := Grow(ms, at, size);
        var (out, o') := Existing(grown, i, q);
        BlockInWord(h', o'.index);
        if o'.Good? { UsedPlusLive(h1, h', out[o'.index]); } else { SameUsedSameLive(h1, h'); }
      }
    }
  }

  lemma {:induction false} SameAnswers(h: Heap, h1: Heap, at: int, size: int)
    requires h.page > 0 && h1.page == h.page && h1.rs == h.rs && MmapAnswer(h, at, size)
    ensures MmapAnswer(h1, at, size)
  {
  }

  /** The search of try_memalloc_existing succeeds exactly when some maximal free run is large enough. */
  lemma {:induction false} ExistingFits(bs: seq<Block>, i: nat, q: int)
    requires i < |bs|
    ensures Existing(bs, i, q).1.Last? <==> NoFit(bs, i, q)
  {
    var m := SearchIsFirstFit(bs, i, q);
  }

  /** What try_memalloc_existing makes of the block it finds: the request and no more when another block fits behind it,
      the whole block otherwise. */
  lemma {:induction false} ExistingServes(h: Heap, i: nat, q: int)
    requires Reachable(h) && i < |h.bs| && BLOCK_MIN_CAPACITY <= q && Existing(h.bs, i, q).1.Good?
    ensures var (out, o) := Existing(h.bs, i, q);
      var found := SearchFrom(h.bs, i, q).0[o.index];
      out[o.index] == Block(found.addr, if found.cap >= q + 41 then q else found.cap, false)
  {
    hide Reachable, Wrap, SearchFrom, SameTail, NoFit, RunCap, RunEnd, RunStarts;
    var (ms, o) := SearchFrom(h.bs, i, q);
    var m := SearchIsFirstFit(h.bs, i, q);
    SearchReachable(h, i, q);
    RequestInWord(h.(bs := ms), o.index, q);
    WrapOnce(q + HEADER + BLOCK_MIN_CAPACITY);
  }

  lemma {:induction false} SearchReachable(h: Heap, i: nat, q: int)
    requires Reachable(h) && i < |h.bs|
    ensures Reachable(h.(bs := SearchFrom(h.bs, i, q).0)) && SameUsed(h.bs, SearchFrom(h.bs, i, q).0)
  {
    SearchGround(h.bs, i, q);
    Reground(h, SearchFrom(h.bs, i, q).0);
  }

  /** When something fits, malloc serves the first maximal free run that does: its front, or all of it when what
      would be left is too small for a block. */
  lemma {:induction false} MallocIsFirstFit(h: Heap, query: int, fixed: int, anywhere: int) returns (m: nat, k: nat)
    requires Reachable(h) && !NoFit(h.bs, 0, if query > 24 then query else 24)
    ensures var q := if query > 24 then query else 24;
      var (h', p) := Malloc(h, query, fixed, anywhere);
      && FirstFit(h.bs, 0, m, q) && p == h.bs[m].addr + 17
      && k < |h'.bs|
      && h'.bs[k] == Block(h.bs[m].addr, if RunCap(h.bs, m) >= q + 41 then q else RunCap(h.bs, m), false)
  {
    hide Reachable, NoFit, FirstFit, SearchFrom, SameTail, RunCap, RunEnd, Splittable, SplitAt, Occupy;
    Nonempty(h);
    var q := Request(query);
    m := SearchIsFirstFit(h.bs, 0, q);
    ExistingServes(h, 0, q);
    k := Existing(h.bs, 0, q).1.index;
  }

  /** Growing: the new region extends a free last block that ends where it begins, and is a block of its own
      otherwise. */
  lemma {:induction false} GrowMeans(bs: seq<Block>, at: int, size: int)
    requires |bs| > 0
    ensures var (grown, i) := Grow(bs, at, size);
      var last := bs[|bs| - 1];
      if last.free && last.addr + 17 + last.cap == at then
        |grown| == |bs| && i == |bs| - 1 && grown == bs[i := Block(last.addr, last.cap + size, true)]
      else
        |grown| == |bs| + 1 && i == |bs| && grown == bs + [Block(at, size - 17, true)]
  {
  }

  /** When nothing fits and mmap gives a region: the block served is the run at the list's end, extended by the region,
      when that run is free and ends where the region begins; otherwise it is the region's own. */
  lemma {:induction false} MallocAfterGrowth(h: Heap, query: int, fixed: int, anywhere: int) returns (m: nat, k: nat)
    requires Reachable(h) && 0 <= query < WORD && (fixed != MAP_FAILED || anywhere != MAP_FAILED)
    requires MmapAnswer(h, Answer(fixed, anywhere), RegionSize(h.page, Request(query)))
    requires NoFit(h.bs, 0, if query > 24 then query else 24) && Malloc(h, query, fixed, anywhere).1 != NULL
    ensures LastRun(h.bs, 0, m)
    ensures var q := if query > 24 then query else 24;
      var at := if fixed != MAP_FAILED then fixed else anywhere;
      var size := RegionSize(h.page, q);
      var last := h.bs[|h.bs| - 1];
      var joins := last.free && last.addr + 17 + last.cap == at;
      var room := if joins then RunCap(h.bs, m) + size else size - 17;
      var addr := if joins then h.bs[m].addr else at;
      var (h', p) := Malloc(h, query, fixed, anywhere);
      && p == addr + 17
      && k < |h'.bs| && h'.bs[k] == Block(addr, if room >= q + 41 then q else room, false)
  {
    hide Reachable, NoFit, SearchFrom, SameTail, RunCap, RunEnd, Splittable, SplitAt, Occupy, Grow, MmapAnswer;
    hide RegionSize;
    Nonempty(h);
    var q := Request(query);
    var at := Answer(fixed, anywhere);
    m := SearchIsFirstFit(h.bs, 0, q);
    var (ms, o) := SearchFrom(h.bs, 0, q);
    ExistingFits(h.bs, 0, q);
    LastRunFree(h.bs, m);
    SearchReachable(h, 0, q);
    var size := RegionSize(h.page, q);
    var h1 := h.(bs := ms);
    SameAnswers(h, h1, at, size);
    RegionSizeMeaning(h.page, q);
    GrowReachable(h1, at, size);
    GrowMeans(ms, at, size);
    var (grown, i) := Grow(ms, at, size);
    SearchAtLast(grown, i, q);
    ExistingServes(Heap(h.page, grown, h.rs + [Region(at, size)]), i, q);
    k := i;
  }

  /** After a search that failed, growing leaves no two mergeable neighbours anywhere. */
  lemma {:induction false} GrowCoalesces(bs: seq<Block>, at: int, size: int)
    requires |bs| > 0 && Coalesced(bs, 0, |bs|)
    ensures var (grown, _) := Grow(bs, at, size); Coalesced(grown, 0, |grown|)
  {
    hide Grow;
    GrowMeans(bs, at, size);
    var (grown, _) := Grow(bs, at, size);
    forall j | 0 <= j && j + 1 < |grown| ensures !Mergeable(grown[j], grown[j + 1]) {
      if j + 1 < |bs| { assert !Mergeable(bs[j], bs[j + 1]); }
    }
  }

  lemma {:induction false} TotalIsMapped(h: Heap)
    requires Reachable(h)
    ensures Total(h.bs) == TotalMapped(h.rs)
  {
  }

  /** No call creates or loses bytes: the list grows by exactly the regions mmap gave. */
  lemma {:induction false} BytesConserved(h: Heap, query: int, fixed: int, anywhere: int)
    requires Reachable(h) && 0 <= query < WORD
    requires MmapAnswer(h, Answer(fixed, anywhere), RegionSize(h.page, Request(query)))
    ensures var q := if query > 24 then query else 24;
      var h' := Malloc(h, query, fixed, anywhere).0;
      Total(h'.bs) == Total(h.bs) +
        if NoFit(h.bs, 0, q) && (fixed != MAP_FAILED || anywhere != MAP_FAILED) then RegionSize(h.page, q) else 0
  {
    hide Reachable, Live, NoFit, RegionSize, MmapAnswer, Malloc;
    Nonempty(h);
    MallocCorrect(h, query, fixed, anywhere);
    TotalIsMapped(h);
    TotalIsMapped(Malloc(h, query, fixed, anywhere).0);
    var r := Region(Answer(fixed, anywhere), RegionSize(h.page, Request(query)));
    TotalMappedConcat(h.rs, [r]);
    assert TotalMapped([r]) == r.size + TotalMapped([]);
    assert h.rs + [] == h.rs;
  }

  // ----- free -----

  lemma {:induction false} IndexOfLive(h: Heap, p: int)
    requires Reachable(h) && p in Live(h)
    ensures var i := IndexAt(h.bs, p - HEADER);
      i < |h.bs| && h.bs[i] == Block(p - HEADER, Live(h)[p], false)
  {
    hide Covers, Mapped, Total, TotalMapped, RegionsApart, RegionOk, PageSize;
    var i := IndexAt(h.bs, p - HEADER);
    var b :| b in h.bs && !b.free && b.Payload() == p;
    var j :| 0 <= j < |h.bs| && h.bs[j] == b;
    assert h.bs[i] in h.bs;
    SameAddrSameIndex(h.bs, i, j);
  }

  lemma {:induction false} SameAddrSameIndex(bs: seq<Block>, i: nat, j: nat)
    requires Apart(bs) && Roomy(bs) && i < |bs| && j < |bs| && bs[i].addr == bs[j].addr
    ensures i == j
  {
  }

  lemma {:induction false} VacateUsed(bs: seq<Block>, i: nat)
    requires i < |bs| && !bs[i].free && Apart(bs) && Roomy(bs)
    ensures UsedPlus(bs[i := bs[i].(free := true)], bs, bs[i])
  {
    var cs := bs[i := bs[i].(free := true)];
    StatusGround(bs, i, true);
    OccupyUsed(cs, i);
    assert Occupy(cs, i) == bs;
  }

  /** free of a live pointer: that allocation and nothing else leaves the live map. */
  lemma {:induction false} FreeCorrect(h: Heap, p: int)
    requires Reachable(h) && p in Live(h)
    ensures var h' := Free(h, p);
      Reachable(h') && Live(h') == Live(h) - {p} && h'.rs == h.rs
  {
    hide Reachable, Live, UsedPlus, SameUsed, MergeAt, IndexAt;
    var i := IndexAt(h.bs, p - HEADER);
    IndexOfLive(h, p);
    BlockInWord(h, i);
    VacateReachable(h, i);
    var h1 := h.(bs := h.bs[i := h.bs[i].(free := true)]);
    MergeReachable(h1, i);
    UsedPlusLive(h1, h, h.bs[i]);
    SameUsedSameLive(h1, Free(h, p));
  }

  /** The block that is freed takes in the whole run of free neighbours behind it, and everything else stays. */
  lemma {:induction false} FreeMergesRun(h: Heap, p: int) returns (i: nat)
    requires Reachable(h) && p in Live(h)
    ensures i < |h.bs| && h.bs[i].addr + 17 == p
    ensures var cs, after := h.bs[i := h.bs[i].(free := true)], Free(h, p).bs;
      RunMerged(cs, i, after) && (i + 1 < |after| ==> !Mergeable(after[i], after[i + 1]))
  {
    hide Reachable, Live, MergeAt, IndexAt, RunMerged;
    i := IndexAt(h.bs, p - HEADER);
    IndexOfLive(h, p);
    BlockInWord(h, i);
    MergeAtIsRun(h.bs[i := h.bs[i].(free := true)], i);
  }

  lemma {:induction false} VacateReachable(h: Heap, i: nat)
    requires Reachable(h) && i < |h.bs| && !h.bs[i].free
    ensures var cs := h.bs[i := h.bs[i].(free := true)];
      Reachable(h.(bs := cs)) && UsedPlus(cs, h.bs, h.bs[i])
  {
    StatusGround(h.bs, i, true);
    Reground(h, h.bs[i := h.bs[i].(free := true)]);
    VacateUsed(h.bs, i);
  }

  lemma {:induction false} SplitReachable(h: Heap, i: nat, q: int)
    requires Reachable(h) && i < |h.bs| && BLOCK_MIN_CAPACITY <= q && q + HEADER + BLOCK_MIN_CAPACITY < WORD
    ensures Reachable(h.(bs := SplitAt(h.bs, i, q)))
  {
    if Splittable(h.bs[i], q) {
      SplitGround(h.bs, i, q);
      Reground(h, SplitAt(h.bs, i, q));
    }
  }

  lemma {:induction false} StatusReachable(h: Heap, i: nat, free: bool)
    requires Reachable(h) && i < |h.bs|
    ensures Reachable(h.(bs := h.bs[i := h.bs[i].(free := free)]))
  {
    StatusGround(h.bs, i, free);
    Reground(h, h.bs[i := h.bs[i].(free := free)]);
  }

  lemma {:induction false} MergeNextReachable(h: Heap, i: nat)
    requires Reachable(h) && i + 1 < |h.bs| && Mergeable(h.bs[i], h.bs[i + 1])
    ensures Reachable(h.(bs := MergeNext(h.bs, i)))
  {
    MergeNextGround(h.bs, i);
    Reground(h, MergeNext(h.bs, i));
  }

  lemma {:induction false} MergeReachable(h: Heap, i: nat)
    requires Reachable(h) && i < |h.bs|
    ensures Reachable(h.(bs := MergeAt(h.bs, i))) && SameUsed(h.bs, MergeAt(h.bs, i))
  {
    MergeAtGround(h.bs, i);
    Reground(h, MergeAt(h.bs, i));
  }

  // ----- free right after malloc -----

  /** The list a successful malloc of q ends up searching: the coalesced one, grown when nothing fitted. */
  function Searched(h: Heap, q: int, at: int): seq<Block>
    requires Reachable(h)
  {
    var (ms, o) := SearchFrom(h.bs, 0, q);
    if o.Good? then ms else Grow(ms, at, RegionSize(h.page, q)).0
  }

  lemma {:induction false} FreeUndoesOccupy(bs: seq<Block>, k: nat, q: int)
    requires k < |bs| && bs[k].free && q + HEADER + BLOCK_MIN_CAPACITY < WORD && 0 <= q
    requires k + 1 < |bs| ==> !Mergeable(bs[k], bs[k + 1])
    ensures FreeAt(Occupy(SplitAt(bs, k, q), k), k) == bs
  {
    var cut := SplitAt(bs, k, q);
    assert Occupy(cut, k)[k := Occupy(cut, k)[k].(free := true)] == cut;
    if Splittable(bs[k], q) {
      assert Mergeable(cut[k], cut[k + 1]);
      assert MergeNext(cut, k) == bs;
    }
    assert MergeAt(bs, k) == bs;
  }

  lemma {:induction false} FreeUndoesExisting(bs: seq<Block>, i: nat, q: int)
    requires i < |bs| && q + HEADER + BLOCK_MIN_CAPACITY < WORD && 0 <= q
    ensures var (out, o) := Existing(bs, i, q);
      o.Good? ==> FreeAt(out, o.index) == SearchFrom(bs, i, q).0
  {
    var (ms, o) := SearchFrom(bs, i, q);
    if o.Good? {
      SearchCoalesces(bs, i, q);
      var m := SearchIsFirstFit(bs, i, q);
      FreeUndoesOccupy(ms, o.index, q);
    }
  }

  /** Freeing what malloc has just returned leaves exactly the list the search (and the growth, if any)
      produced: split and forward merge undo each other and no other block changes. */
  lemma {:induction false} FreeUndoesMalloc(h: Heap, query: int, fixed: int, anywhere: int)
    requires Reachable(h) && 0 <= query < WORD
    requires MmapAnswer(h, Answer(fixed, anywhere), RegionSize(h.page, Request(query)))
    requires Malloc(h, query, fixed, anywhere).1 != NULL
    ensures var (h', p) := Malloc(h, query, fixed, anywhere);
      Reachable(h') && Free(h', p) == h'.(bs := Searched(h, Request(query), Answer(fixed, anywhere)))
  {
    hide Reachable, Live, UsedPlus, SameUsed, MergeAt, SearchFrom, NoFit, Overflows, RegionSize, Grow, SplitAt;
    hide Mapped, MmapAnswer, FreeAt, IndexAt;
    Nonempty(h);
    var q := Request(query);
    var at := Answer(fixed, anywhere);
    var (h', p) := Malloc(h, query, fixed, anywhere);
    var (ms, o) := Existing(h.bs, 0, q);
    ExistingKeeps(h, 0, q);
    if o.Good? {
      FreeOfIndex(h', o.index);
      RequestInWord(h', o.index, q);
      FreeUndoesExisting(h.bs, 0, q);
    } else {
      var size := RegionSize(h.page, q);
      SameAnswers(h, h.(bs := ms), at, size);
      MallocGrows(h.(bs := ms), q, at);
      var (grown, i) := Grow(ms, at, size);
      var (out, o') := Existing(grown, i, q);
      FreeOfIndex(h', o'.index);
      RequestInWord(h', o'.index, q);
      FreeUndoesExisting(grown, i, q);
      RetryFindsLast(h.(bs := ms), at, q);
    }
  }

  lemma {:induction false} FreeOfIndex(h: Heap, k: nat)
    requires Reachable(h) && k < |h.bs|
    ensures Free(h, h.bs[k].Payload()) == h.(bs := FreeAt(h.bs, k))
  {
    BlockInWord(h, k);
    var i := IndexAt(h.bs, h.bs[k].addr);
    assert h.bs[k] in h.bs;
    SameAddrSameIndex(h.bs, i, k);
  }

  lemma {:induction false} RequestInWord(h: Heap, k: nat, q: int)
    requires Reachable(h) && k < |h.bs| && q <= h.bs[k].cap
    ensures q + HEADER + BLOCK_MIN_CAPACITY < WORD
  {
    BlockInWord(h, k);
  }

  lemma {:induction false} RetryFindsLast(h: Heap, at: int, q: int)
    requires Reachable(h) && BLOCK_MIN_CAPACITY <= q < WORD
    requires at != MAP_FAILED && MmapAnswer(h, at, RegionSize(h.page, q))
    ensures var (grown, i) := Grow(h.bs, at, RegionSize(h.page, q)); SearchFrom(grown, i, q).0 == grown
  {
    RegionSizeMeaning(h.page, q);
    GrowReachable(h, at, RegionSize(h.page, q));
    var (grown, i) := Grow(h.bs, at, RegionSize(h.page, q));
    SearchAtLast(grown, i, q);
  }

  // ----- What the invariant gives a caller -----

  /** Live payloads are disjoint from each other and from every header, and are mapped memory. */
  lemma {:induction false} LivePayloadsAreSafe(h: Heap, p: int, i: nat)
    requires Reachable(h) && p in Live(h) && i < |h.bs|
    ensures var c := Live(h)[p]; var b := h.bs[i];
      && (p + c <= b.addr || b.Payload() <= p)
      && (!b.free && b.Payload() != p ==> p + c <= b.Payload() || b.End() <= p)
      && forall x :: p <= x < p + c ==> Mapped(h.rs, x)
  {
  }

  /** The address grow_heap asks mmap for, the end of the last block, is a whole number of pages. */
  lemma {:induction false} HintIsAligned(h: Heap)
    requires Reachable(h)
    ensures h.bs[|h.bs| - 1].End() % h.page == 0
  {
    var r := h.rs[|h.rs| - 1];
    assert r in h.rs;
    SumMod(h.page, r.addr, r.size);
  }

  // ----- Runs -----

  datatype Call = MallocCall(query: int, fixed: int, anywhere: int) | FreeCall(p: int)

  /** Requests are size_t values, mmap answers as it may, and only null or live pointers are freed. */
  ghost predicate Legal(h: Heap, c: Call)
    requires Reachable(h)
  {
    match c
    case MallocCall(query, fixed, anywhere) =>
      0 <= query < WORD && MmapAnswer(h, Answer(fixed, anywhere), RegionSize(h.page, Request(query)))
    case FreeCall(p) => p == NULL || p in Live(h)
  }

  function Do(h: Heap, c: Call): Heap
    requires Reachable(h)
  {
    match c
    case MallocCall(query, fixed, anywhere) => Malloc(h, query, fixed, anywhere).0
    case FreeCall(p) => Free(h, p)
  }

  /** The same call on the abstract heap: a fresh allocation of a suitable size or none, or a removal. */
  ghost predicate MapStep(m: map<int, int>, c: Call, m': map<int, int>) {
    match c
    case MallocCall(query, _, _) =>
      || m' == m
      || exists p ::
           && p !in m && p in m' && m' == m[p := m'[p]]
           && query <= m'[p] && 24 <= m'[p] <= (if query > 24 then query else 24) + 40
    case FreeCall(p) => m' == m - {p}
  }

  lemma {:induction false} StepRefines(h: Heap, c: Call)
    requires Reachable(h) && Legal(h, c)
    ensures Reachable(Do(h, c)) && MapStep(Live(h), c, Live(Do(h, c)))
  {
    hide Malloc, Overflows, RegionSize, PageSize, RegionOk, Covers, Mapped;
    match c
    case MallocCall(query, fixed, anywhere) =>
      MallocCorrect(h, query, fixed, anywhere);
    case FreeCall(p) =>
      if p in Live(h) {
        IndexOfLive(h, p);
        BlockInWord(h, IndexAt(h.bs, p - HEADER));
        FreeCorrect(h, p);
      }
  }

  ghost predicate LegalRun(h: Heap, cs: seq<Call>)
    requires Reachable(h)
    decreases |cs|
  {
    cs == [] || (Legal(h, cs[0]) && (StepRefines(h, cs[0]); LegalRun(Do(h, cs[0]), cs[1..])))
  }

  ghost function Run(h: Heap, cs: seq<Call>): Heap
    requires Reachable(h) && LegalRun(h, cs)
    decreases |cs|
  {
    if cs == [] then h else StepRefines(h, cs[0]); Run(Do(h, cs[0]), cs[1..])
  }

  /** Over every legal run: the heap stays reachable, and an allocation keeps its address and capacity
      for as long as it is not freed. */
  lemma {:induction false} RunKeeps(h: Heap, cs: seq<Call>, p: int)
    requires Reachable(h) && LegalRun(h, cs)
    ensures var h' := Run(h, cs);
      && Reachable(h')
      && (p in Live(h) && FreeCall(p) !in cs ==> p in Live(h') && Live(h')[p] == Live(h)[p])
    decreases |cs|
  {
    hide Reachable, Live, Legal, Do;
    if cs != [] {
      StepRefines(h, cs[0]);
      RunKeeps(Do(h, cs[0]), cs[1..], p);
    }
  }

  // ----- heap_init -----

  /** heap_init: the heap of one free block that a successful answer gives. */
  function Init(page: int, initial: int, at: int): Heap
    requires page > 0
  {
    var size := RegionSize(page, initial);
    Heap(page, [Block(at, size - HEADER, true)], [Region(at, size)])
  }

  /** malloc walks from HEAP_START, so the heap is a reachable one exactly when the first region is there.  Elsewhere no
      block starts at HEAP_START, and that address is mapped only if it happens to lie inside the region. */
  lemma {:induction false} InitCorrect(page: int, initial: int, at: int)
    requires PageSize(page) && 0 <= initial < WORD
    requires at != MAP_FAILED && MmapAnswer(Heap(page, [], []), at, RegionSize(page, initial))
    ensures Reachable(Init(page, initial, at)) <==> at == HEAP_START
    ensures (exists b <- Init(page, initial, at).bs :: b.addr == HEAP_START) <==> at == HEAP_START
    ensures Mapped(Init(page, initial, at).rs, HEAP_START) <==> at <= HEAP_START < at + RegionSize(page, initial)
    ensures Total(Init(page, initial, at).bs) == RegionSize(page, initial)
  {
    RegionSizeMeaning(page, initial);
    var h := Init(page, initial, at);
    OneBlockTiles(h.bs[0], h.rs[0]);
    assert RegionOk(page, h.rs[0]);
    assert h.bs[0] in h.bs;
  }

  /** From heap_init on, after every legal run: live payloads are mapped, disjoint from each other and from every
      header, and the blocks account for every byte that mmap has given. */
  lemma {:induction false} RunsAreSafe(page: int, initial: int, cs: seq<Call>)
    requires PageSize(page) && Reachable(Init(page, initial, HEAP_START))
      && LegalRun(Init(page, initial, HEAP_START), cs)
    ensures var h := Run(Init(page, initial, HEAP_START), cs);
      && Reachable(h) && Total(h.bs) == TotalMapped(h.rs)
      && forall p :: p in Live(h) ==>
           && (forall b <- h.bs :: p + Live(h)[p] <= b.addr || b.Payload() <= p)
           && (forall q :: q in Live(h) && q != p ==> p + Live(h)[p] <= q || q + Live(h)[q] <= p)
           && (forall x :: p <= x < p + Live(h)[p] ==> Mapped(h.rs, x))
  {
    hide Reachable, Live, LegalRun, Run, Init, Covers, Mapped;
    RunKeeps(Init(page, initial, HEAP_START), cs, NULL);
    var h := Run(Init(page, initial, HEAP_START), cs);
    TotalIsMapped(h);
    forall p | p in Live(h)
      ensures (forall b <- h.bs :: p + Live(h)[p] <= b.addr || b.Payload() <= p)
      ensures (forall q :: q in Live(h) && q != p ==> p + Live(h)[p] <= q || q + Live(h)[q] <= p)
      ensures (forall x :: p <= x < p + Live(h)[p] ==> Mapped(h.rs, x))
    {
      IndexOfLive(h, p);
      LivePayloadsAreSafe(h, p, IndexAt(h.bs, p - HEADER));
      forall b | b in h.bs ensures p + Live(h)[p] <= b.addr || b.Payload() <= p {
        var i :| 0 <= i < |h.bs| && h.bs[i] == b;
        LivePayloadsAreSafe(h, p, i);
      }
      forall q | q in Live(h) && q != p ensures p + Live(h)[p] <= q || q + Live(h)[q] <= p {
        IndexOfLive(h, q);
        LivePayloadsAreSafe(h, p, IndexAt(h.bs, q - HEADER));
      }
    }
  }

  lemma {:induction false} OneBlockTiles(b: Block, r: Region)
    requires b.addr == r.addr && b.End() == r.End()
    ensures forall x :: Covers([b], x) <==> Mapped([r], x)
    ensures Total([b]) == r.size == TotalMapped([r])
  {
    forall x ensures Covers([b], x) <==> Mapped([r], x) {
      if Covers([b], x) { assert [r][0].addr <= x < [r][0].End(); }
      if Mapped([r], x) { assert [b][0].addr <= x < [b][0].End(); }
    }
    assert [b][1..] == [] && [r][1..] == [];
  }
}
