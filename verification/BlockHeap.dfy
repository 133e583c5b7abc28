/** The lab-4 allocator over mutable memory: headers sit at addresses in `mem` and are rewritten in place. */
module BlockHeap {
  import opened BlockList
  import opened HeapSteps
  import opened HeapRuns
  import opened Words

  /** struct block_header without its payload */
  datatype Header = Header(next: int, cap: int, free: bool)

  function NextOf(bs: seq<Block>, i: nat): int
    requires i < |bs|
  {
    if i + 1 < |bs| then bs[i + 1].addr else NULL
  }

  function HeaderOf(bs: seq<Block>, i: nat): Header
    requires i < |bs|
  {
    Header(NextOf(bs, i), bs[i].cap, bs[i].free)
  }

  /** The list in mem that starts at the address of bs[0] is bs. */
  ghost predicate Linked(mem: map<int, Header>, bs: seq<Block>) {
    forall i {:trigger bs[i]} :: 0 <= i < |bs| ==> bs[i].addr in mem && mem[bs[i].addr] == HeaderOf(bs, i)
  }

  ghost predicate Distinct(bs: seq<Block>) {
    forall i, j :: 0 <= i < j < |bs| ==> bs[i].addr != bs[j].addr
  }

  lemma {:induction false} ReachableIsDistinct(h: Heap)
    requires Reachable(h)
    ensures Distinct(h.bs) && forall b <- h.bs :: b.addr > 0
  {
    forall i, j | 0 <= i < j < |h.bs| ensures h.bs[i].addr != h.bs[j].addr {
      if h.bs[i].addr == h.bs[j].addr { SameAddrSameIndex(h.bs, i, j); }
    }
    forall b | b in h.bs ensures b.addr > 0 {
      var i :| 0 <= i < |h.bs| && h.bs[i] == b;
      BlockInWord(h, i);
    }
  }

  lemma {:induction false} LinkedMerge(mem: map<int, Header>, bs: seq<Block>, i: nat)
    requires Linked(mem, bs) && Distinct(bs) && i + 1 < |bs|
    ensures var ms := MergeNext(bs, i); Linked(mem[bs[i].addr := HeaderOf(ms, i)], ms)
  {
    var ms := MergeNext(bs, i);
    forall j | 0 <= j < |ms| && j != i
      ensures ms[j].addr != bs[i].addr && ms[j].addr in mem && mem[ms[j].addr] == HeaderOf(ms, j)
    {
      var j' := if j < i then j else j + 1;
      assert ms[j] == bs[j'];
      assert bs[if j' < i then j' else i].addr != bs[if j' < i then i else j'].addr;
    }
  }

  lemma {:induction false} LinkedStatus(mem: map<int, Header>, bs: seq<Block>, i: nat, free: bool)
    requires Linked(mem, bs) && Distinct(bs) && i < |bs|
    ensures var cs := bs[i := bs[i].(free := free)]; Linked(mem[bs[i].addr := HeaderOf(cs, i)], cs)
  {
  }

  lemma {:induction false} LinkedSplit(mem: map<int, Header>, bs: seq<Block>, i: nat, q: int)
    requires Linked(mem, bs) && Distinct(bs) && i < |bs| && Splittable(bs[i], q)
    requires Distinct(SplitAt(bs, i, q))
    ensures var cut := SplitAt(bs, i, q);
      Linked(mem[cut[i + 1].addr := HeaderOf(cut, i + 1)][bs[i].addr := HeaderOf(cut, i)], cut)
  {
  }

  lemma {:induction false} LinkedAppend(mem: map<int, Header>, bs: seq<Block>, b: Block)
    requires Linked(mem, bs) && |bs| > 0 && Distinct(bs + [b])
    requires b.addr in mem && mem[b.addr] == Header(NULL, b.cap, b.free)
    ensures var last := |bs| - 1; Linked(mem[bs[last].addr := HeaderOf(bs + [b], last)], bs + [b])
  {
  }

  lemma {:induction false} HeaderAt(mem: map<int, Header>, bs: seq<Block>, i: nat)
    requires Linked(mem, bs) && (forall b <- bs :: b.addr > 0) && i < |bs|
    ensures bs[i].addr in mem && mem[bs[i].addr] == HeaderOf(bs, i)
    ensures mem[bs[i].addr].next == NULL <==> i + 1 == |bs|
  {
  }

  lemma {:induction false} SearchIsGood(bs: seq<Block>, i: nat, q: int)
    requires i < |bs|
    ensures var (ms, o) := SearchFrom(bs, i, q); o.Good? ==> ms[o.index].free && ms[o.index].cap >= q
  {
    var m := SearchIsFirstFit(bs, i, q);
  }

  lemma {:induction false} FreshIsNoBlock(h: Heap, at: int, size: int)
    requires Reachable(h) && at != MAP_FAILED && MmapAnswer(h, at, size) && size > 0
    ensures forall b <- h.bs :: b.addr != at
  {
    forall b | b in h.bs ensures b.addr != at {
      var j :| 0 <= j < |h.bs| && h.bs[j] == b;
      FreshIsApart(h, at, size, j);
    }
  }

  lemma {:induction false} LinkedElsewhere(mem: map<int, Header>, bs: seq<Block>, at: int, header: Header)
    requires Linked(mem, bs) && forall b <- bs :: b.addr != at
    ensures Linked(mem[at := header], bs)
  {
  }

  lemma {:induction false} AnswerIsNotNull(h: Heap, at: int, size: int)
    requires Reachable(h) && MmapAnswer(h, at, size)
    ensures at != NULL
  {
  }

  lemma {:induction false} StartsAtHeapStart(h: Heap)
    requires Reachable(h)
    ensures h.bs[0].addr == HEAP_START
  {
  }

  lemma {:induction false} HeapStartIsAligned(page: int)
    requires PageSize(page)
    ensures HEAP_START % page == 0
  {
    var k := REGION_MIN_SIZE / page;
    assert HEAP_START == REGION_MIN_SIZE * 8224 == page * k * 8224 == page * (k * 8224);
    MultipleMod(page, k * 8224);
  }

  class Allocator {
    const page: int
    var mem: map<int, Header>
    ghost var heap: Heap

    ghost predicate Valid()
      reads this
    {
      heap.page == page && Reachable(heap) && Linked(mem, heap.bs)
    }

    /** A process before heap_init: nothing is mapped. */
    constructor (page: int)
      ensures this.page == page && mem == map[]
    {
      this.page := page;
      mem := map[];
      heap := Heap(page, [], []);
    }

    /** heap_init, wherever mmap puts the first region.  Only a region at HEAP_START makes a heap that the other
        calls can work on; elsewhere there is no header where they begin to walk. */
    method HeapInit(initial: int, fixed: int, anywhere: int) returns (addr: int)
      requires PageSize(page) && mem == map[] && 0 <= initial < WORD
      requires MmapAnswer(Heap(page, [], []), Answer(fixed, anywhere), RegionSize(page, initial))
      modifies this`mem, this`heap
      ensures var at := Answer(fixed, anywhere);
        && (HEAP_START in mem <==> at == HEAP_START)
        && if at == MAP_FAILED then addr == NULL && mem == map[]
           else
             && addr == at && heap == Init(page, initial, at)
             && mem == map[at := Header(NULL, RegionSize(page, initial) - HEADER, true)]
             && (Valid() <==> at == HEAP_START)
    {
      hide Reachable, MmapAnswer, RegionSize;
      HeapStartIsAligned(page);
      var region, _ := AllocRegion(HEAP_START, initial, fixed, anywhere);
      heap := Init(page, initial, region.addr);
      if Answer(fixed, anywhere) != MAP_FAILED {
        InitCorrect(page, initial, region.addr);
      }
      return region.addr;
    }

    method TryMergeWithNext(block: int, ghost i: nat) returns (merged: bool)
      requires Valid() && i < |heap.bs| && heap.bs[i].addr == block
      modifies this`mem, this`heap
      ensures Valid() && heap.rs == old(heap.rs) && i < |heap.bs| && heap.bs[i].addr == block
      ensures merged <==> i + 1 < |old(heap.bs)| && Mergeable(old(heap.bs)[i], old(heap.bs)[i + 1])
      ensures heap.bs == if merged then MergeNext(old(heap.bs), i) else old(heap.bs)
    {
      hide Reachable, Linked, Distinct;
      ReachableIsDistinct(heap);
      HeaderAt(mem, heap.bs, i);
      var next := mem[block].next;
      if next == NULL { return false; }
      HeaderAt(mem, heap.bs, i + 1);
      if !(mem[block].free && mem[next].free && next == block + HEADER + mem[block].cap) { return false; }
      LinkedMerge(mem, heap.bs, i);
      MergeNextReachable(heap, i);
      mem := mem[block := mem[block].(next := mem[next].next, cap := mem[block].cap + (mem[next].cap + HEADER))];
      heap := heap.(bs := MergeNext(heap.bs, i));
      return true;
    }

    /** The loop `while (try_merge_with_next (block));` of the search and of _free. */
    method MergeAll(block: int, ghost i: nat)
      requires Valid() && i < |heap.bs| && heap.bs[i].addr == block
      modifies this`mem, this`heap
      ensures Valid() && heap == old(heap).(bs := MergeAt(old(heap.bs), i))
      ensures i < |heap.bs| && heap.bs[i].addr == block
    {
      var merged := TryMergeWithNext(block, i);
      while merged
        invariant Valid() && heap.rs == old(heap.rs) && i < |heap.bs| && heap.bs[i].addr == block
        invariant MergeAt(heap.bs, i) == MergeAt(old(heap.bs), i)
        invariant !merged ==> MergeAt(heap.bs, i) == heap.bs
        decreases |heap.bs|, merged
      {
        merged := TryMergeWithNext(block, i);
      }
    }

    method FindGoodOrLast(start: int, sz: int, ghost i: nat) returns (good: bool, block: int, ghost k: nat)
      requires Valid() && i < |heap.bs| && heap.bs[i].addr == start
      modifies this`mem, this`heap
      ensures Valid() && heap.rs == old(heap.rs)
      ensures (heap.bs, if good then Good(k) else Last(k)) == SearchFrom(old(heap.bs), i, sz)
      ensures k < |heap.bs| && heap.bs[k].addr == block
    {
      hide Reachable, Linked, Distinct, MergeAt;
      block, k := start, i;
      while true
        invariant Valid() && heap.rs == old(heap.rs) && k < |heap.bs| && heap.bs[k].addr == block
        invariant SearchFrom(heap.bs, k, sz) == SearchFrom(old(heap.bs), i, sz)
        decreases |heap.bs| - k
      {
        ReachableIsDistinct(heap);
        HeaderAt(mem, heap.bs, k);
        if mem[block].free {
          MergeAtFront(heap.bs, k);
          MergeAll(block, k);
          ReachableIsDistinct(heap);
          HeaderAt(mem, heap.bs, k);
          if mem[block].cap >= sz { return true, block, k; }
        }
        if mem[block].next == NULL { break; }
        HeaderAt(mem, heap.bs, k + 1);
        block, k := mem[block].next, k + 1;
      }
      good := false;
    }

    method SplitIfTooBig(block: int, query: int, ghost i: nat) returns (split: bool)
      requires Valid() && i < |heap.bs| && heap.bs[i].addr == block
      requires BLOCK_MIN_CAPACITY <= query && query + HEADER + BLOCK_MIN_CAPACITY < WORD
      modifies this`mem, this`heap
      ensures Valid() && heap == old(heap).(bs := SplitAt(old(heap.bs), i, query))
      ensures split <==> Splittable(old(heap.bs)[i], query)
    {
      hide Reachable, Linked, Distinct;
      ReachableIsDistinct(heap);
      HeaderAt(mem, heap.bs, i);
      if !(mem[block].free && Wrap(query + HEADER + BLOCK_MIN_CAPACITY) <= mem[block].cap) { return false; }
      ghost var cut := SplitAt(heap.bs, i, query);
      SplitReachable(heap, i, query);
      ReachableIsDistinct(heap.(bs := cut));
      LinkedSplit(mem, heap.bs, i, query);
      var rest := block + (query + HEADER);
      mem := mem[rest := Header(mem[block].next, mem[block].cap - (query + HEADER), true)];
      mem := mem[block := Header(rest, query, mem[block].free)];
      heap := heap.(bs := cut);
      return true;
    }

    method SetStatus(block: int, free: bool, ghost i: nat)
      requires Valid() && i < |heap.bs| && heap.bs[i].addr == block
      modifies this`mem, this`heap
      ensures Valid() && heap == old(heap).(bs := old(heap.bs)[i := old(heap.bs)[i].(free := free)])
    {
      hide Reachable, Linked, Distinct;
      ReachableIsDistinct(heap);
      HeaderAt(mem, heap.bs, i);
      LinkedStatus(mem, heap.bs, i, free);
      StatusReachable(heap, i, free);
      mem := mem[block := mem[block].(free := free)];
      heap := heap.(bs := heap.bs[i := heap.bs[i].(free := free)]);
    }

    method TryMemallocExisting(query: int, start: int, ghost i: nat) returns (good: bool, block: int, ghost k: nat)
      requires Valid() && i < |heap.bs| && heap.bs[i].addr == start && BLOCK_MIN_CAPACITY <= query
      modifies this`mem, this`heap
      ensures Valid() && heap.rs == old(heap.rs) && k < |heap.bs| && heap.bs[k].addr == block
      ensures (heap.bs, if good then Good(k) else Last(k)) == Existing(old(heap.bs), i, query)
    {
      hide Reachable, Linked, Distinct;
      good, block, k := FindGoodOrLast(start, query, i);
      if good {
        SearchIsGood(old(heap.bs), i, query);
        RequestInWord(heap, k, query);
        var _ := SplitIfTooBig(block, query, k);
        SetStatus(block, false, k);
      }
    }

    /** alloc_region, mmap's answers to its two calls being parameters; the hint goes to both calls. */
    method AllocRegion(hint: int, query: int, fixed: int, anywhere: int) returns (region: Region, extends_: bool)
      requires PageSize(page) && hint % page == 0 && 0 <= query < WORD
      modifies this`mem
      ensures var at := Answer(fixed, anywhere);
        if at == MAP_FAILED then region == Region(NULL, 0) && !extends_ && mem == old(mem)
        else
          && region == Region(at, RegionSize(page, query)) && (extends_ <==> at == hint)
          && mem == old(mem)[at := Header(NULL, RegionSize(page, query) - HEADER, true)]
    {
      hide RegionSize;
      var actual := RegionSize(page, query);
      var at := fixed;
      if at == MAP_FAILED {
        at := anywhere;
        if at == MAP_FAILED { return Region(NULL, 0), false; }
      }
      mem := mem[at := Header(NULL, actual - HEADER, true)];
      return Region(at, actual), at == hint;
    }

    method GrowHeap(last: int, query: int, fixed: int, anywhere: int) returns (suitable: int, ghost k: nat)
      requires Valid() && last == heap.bs[|heap.bs| - 1].addr && BLOCK_MIN_CAPACITY <= query < WORD
      requires MmapAnswer(heap, Answer(fixed, anywhere), RegionSize(page, query))
      modifies this`mem, this`heap
      ensures Valid()
      ensures var at := Answer(fixed, anywhere);
        if at == MAP_FAILED then suitable == NULL && heap == old(heap)
        else
          && (heap.bs, k) == Grow(old(heap.bs), at, RegionSize(page, query))
          && heap.rs == old(heap.rs) + [Region(at, RegionSize(page, query))]
          && suitable == heap.bs[k].addr > 0
    {
      hide Reachable, Linked, Distinct, MmapAnswer, RegionSize;
      ghost var bs, rs := heap.bs, heap.rs;
      ghost var n := |bs| - 1;
      Nonempty(heap);
      ReachableIsDistinct(heap);
      HintIsAligned(heap);
      HeaderAt(mem, bs, n);
      var region, extends_ := AllocRegion(last + HEADER + mem[last].cap, Max(query, BLOCK_MIN_CAPACITY), fixed,
        anywhere);
      if region.addr == NULL {
        AnswerIsNotNull(heap, Answer(fixed, anywhere), RegionSize(page, query));
        return NULL, 0;
      }
      RegionSizeMeaning(page, query);
      extends_ := true;
      FreshIsNoBlock(heap, region.addr, region.size);
      LinkedElsewhere(old(mem), bs, region.addr, Header(NULL, region.size - HEADER, true));
      ghost var b := Block(region.addr, region.size - HEADER, true);
      AppendReachable(heap, region.addr, region.size);
      ReachableIsDistinct(Heap(page, bs + [b], rs + [region]));
      LinkedAppend(mem, bs, b);
      HeaderAt(mem, bs, n);
      mem := mem[last := mem[last].(next := region.addr)];
      heap := Heap(page, bs + [b], rs + [region]);
      BlockInWord(heap, n);
      BlockInWord(heap, n + 1);
      var merged := TryMergeWithNext(last, n);
      if merged { return last, n; }
      return region.addr, n + 1;
    }

    /** _malloc (memalloc and the step from header to payload). */
    method Malloc(query: int, fixed: int, anywhere: int) returns (p: int)
      requires Valid() && 0 <= query < WORD
      requires MmapAnswer(heap, Answer(fixed, anywhere), RegionSize(page, Request(query)))
      modifies this`mem, this`heap
      ensures Valid() && (heap, p) == HeapSteps.Malloc(old(heap), query, fixed, anywhere)
    {
      hide Reachable, Linked, Distinct, MmapAnswer, RegionSize, Existing, Grow;
      var q := Max(query, BLOCK_MIN_CAPACITY);
      Nonempty(heap);
      StartsAtHeapStart(heap);
      var good, block, k := TryMemallocExisting(q, HEAP_START, 0);
      if good { return block + HEADER; }
      SameAnswers(old(heap), heap, Answer(fixed, anywhere), RegionSize(page, q));
      var suitable, i := GrowHeap(block, q, fixed, anywhere);
      if suitable == NULL { return NULL; }
      good, block, k := TryMemallocExisting(q, suitable, i);
      return if good then block + HEADER else NULL;
    }

    /** _free of a pointer that is null or live. */
    method Free(p: int)
      requires Valid() && (p == NULL || p in Live(heap))
      modifies this`mem, this`heap
      ensures Valid() && heap == HeapSteps.Free(old(heap), p)
    {
      hide Reachable, Linked, Distinct, Live, MergeAt;
      if p == NULL { return; }
      var header := p - HEADER;
      IndexOfLive(heap, p);
      ghost var i := IndexAt(heap.bs, header);
      SetStatus(header, true, i);
      MergeAll(header, i);
    }

    /** Whatever the owner of a live payload stores in it, no header of the list is touched: `stores` gives
        new contents to header-sized places that overlap the payload. */
    method ClientStores(p: int, stores: map<int, Header>)
      requires Valid() && p in Live(heap)
      requires forall a <- stores :: a < p + Live(heap)[p] && p < a + HEADER
      modifies this`mem
      ensures Valid() && heap == old(heap) && mem == old(mem) + stores
    {
      hide Distinct;
      forall i | 0 <= i < |heap.bs| ensures heap.bs[i].addr !in stores {
        LivePayloadsAreSafe(heap, p, i);
      }
      mem := mem + stores;
    }
  }
}
