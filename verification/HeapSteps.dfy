/** The calls of the lab-4 allocator as functions on the block list, what every reachable heap
    satisfies, and what each call means for the map of live allocations. */
module HeapSteps {
  import opened BlockList
  import opened Words

  const HEAP_START := 0x04040000
  const MAP_FAILED := -1

  /** blocks in list order, and every region mmap has returned, in the order it returned them. */
  datatype Heap = Heap(page: int, bs: seq<Block>, rs: seq<Region>)

  // ----- Sizes -----

  predicate PageSize(page: int) {
    64 <= page && REGION_MIN_SIZE % page == 0
  }

  function Max(a: int, b: int): (m: int)
    ensures m >= a && m >= b && (m == a || m == b)
  {
    if a > b then a else b
  }

  function PagesCount(page: int, mem: int): int
    requires page > 0
  {
    mem / page + if mem % page > 0 then 1 else 0
  }

  function RoundPages(page: int, mem: int): int
    requires page > 0
  {
    page * PagesCount(page, mem)
  }

  /** region_actual_size (size_from_capacity (query)), in size_t arithmetic. */
  function RegionSize(page: int, query: int): int
    requires page > 0
  {
    Max(Wrap(RoundPages(page, Wrap(query + HEADER))), REGION_MIN_SIZE)
  }

  /** Rounding the request and its header up to whole pages leaves the range of size_t. */
  predicate Overflows(page: int, query: int)
    requires page > 0
  {
    RoundPages(page, query + HEADER) >= WORD
  }

  lemma {:induction false} MultipleMod(page: int, k: int)
    requires page > 0
    ensures (page * k) % page == 0
  {
    var x := page * k;
    assert x == page * (x / page) + x % page;
    assert page * (k - x / page) == x % page;
    MulBounds(page, k - x / page);
  }

  /** Sums of page multiples are page multiples. */
  lemma {:induction false} SumMod(page: int, a: int, b: int)
    requires page > 0 && a % page == 0 && b % page == 0
    ensures (a + b) % page == 0
  {
    assert a + b == page * (a / page + b / page);
    MultipleMod(page, a / page + b / page);
  }

  /** round_pages gives the least page multiple that covers mem. */
  lemma {:induction false} RoundPagesIsLeast(page: int, mem: int)
    requires page > 0 && mem >= 0
    ensures var r := RoundPages(page, mem);
      && r % page == 0 && mem <= r < mem + page
      && forall k :: page * k >= mem ==> r <= page * k
  {
    MultipleMod(page, PagesCount(page, mem));
    assert mem == page * (mem / page) + mem % page;
    forall k | page * k >= mem ensures RoundPages(page, mem) <= page * k {
      assert page * (k - PagesCount(page, mem)) == page * k - RoundPages(page, mem);
      MulBounds(page, k - PagesCount(page, mem));
    }
  }

  /** Below overflow a region is the larger of 8192 and the rounded request, so the request fits;
      past it the region is far too small for the request.  Either way it is whole pages. */
  lemma {:induction false} RegionSizeMeaning(page: int, query: int)
    requires PageSize(page) && 0 <= query < WORD
    ensures var size, r := RegionSize(page, query), RoundPages(page, query + 17);
      && size % page == 0 && REGION_MIN_SIZE <= size
      && (!Overflows(page, query) ==>
            size == (if r > 8192 then r else 8192) && size >= query + 17)
      && (Overflows(page, query) ==> size == REGION_MIN_SIZE && query + HEADER + page > WORD)
  {
    hide Wrap, RoundPages;
    PageAtMostMin(page);
    WrapOnce(query + HEADER);
    RoundPagesIsLeast(page, query + HEADER);
    RoundPagesIsLeast(page, Wrap(query + HEADER));
    assert page * 1 >= query + HEADER - WORD;
    WrapOnce(RoundPages(page, Wrap(query + HEADER)));
  }

  lemma {:induction false} PageAtMostMin(page: int)
    requires PageSize(page)
    ensures page <= REGION_MIN_SIZE
  {
    assert REGION_MIN_SIZE == page * (REGION_MIN_SIZE / page);
    MulBounds(page, REGION_MIN_SIZE / page);
  }

  // ----- What holds in every reachable heap -----

  ghost predicate RegionOk(page: int, r: Region)
    requires page > 0
  {
    page <= r.addr && r.addr % page == 0 && REGION_MIN_SIZE <= r.size && r.size % page == 0 && r.End() <= WORD
  }

  ghost predicate Reachable(h: Heap) {
    && PageSize(h.page)
    && |h.bs| > 0 && |h.rs| > 0
    && (forall r <- h.rs :: RegionOk(h.page, r))
    && RegionsApart(h.rs)
    && Roomy(h.bs) && Apart(h.bs)
    // the blocks tile what is mapped, byte for byte
    && (forall x :: Covers(h.bs, x) <==> Mapped(h.rs, x))
    && Total(h.bs) == TotalMapped(h.rs)
    // the list starts where _malloc starts and ends where the last region ends
    && h.bs[0].addr == HEAP_START
    && h.bs[|h.bs| - 1].End() == h.rs[|h.rs| - 1].End()
  }

  /** What mmap may answer to a request for size bytes: a failure, or a fresh page-aligned range. */
  ghost predicate MmapAnswer(h: Heap, at: int, size: int)
    requires h.page > 0
  {
    at != MAP_FAILED ==>
    && h.page <= at && at % h.page == 0 && at + size <= WORD
    && forall r <- h.rs :: at + size <= r.addr || r.End() <= at
  }

  /** The abstract heap: payload address to capacity, for the blocks in use. */
  ghost function Live(h: Heap): map<int, int>
    requires Reachable(h)
  {
    map b | b in h.bs && !b.free :: b.Payload() := b.cap
  }

  lemma {:induction false} SameUsedSameLive(a: Heap, b: Heap)
    requires Reachable(a) && Reachable(b) && SameUsed(a.bs, b.bs)
    ensures Live(a) == Live(b)
  {
  }

  // ----- The calls -----

  /** block_splittable */
  predicate Splittable(b: Block, q: int) {
    b.free && Wrap(q + HEADER + BLOCK_MIN_CAPACITY) <= b.cap
  }

  /** split_if_too_big: the block at i keeps q bytes, a new free block behind it gets the rest. */
  function SplitAt(bs: seq<Block>, i: nat, q: int): seq<Block>
    requires i < |bs|
  {
    if !Splittable(bs[i], q) then bs
    else
      seq(|bs| + 1, j requires 0 <= j < |bs| + 1 =>
        if j < i then bs[j]
        else if j == i then bs[i].(cap := q)
        else if j == i + 1 then Block(bs[i].addr + (q + HEADER), bs[i].cap - (q + HEADER), true)
        else bs[j - 1])
  }

  function Occupy(bs: seq<Block>, i: nat): seq<Block>
    requires i < |bs|
  {
    bs[i := bs[i].(free := false)]
  }

  /** try_memalloc_existing, started at the block with index i. */
  function Existing(bs: seq<Block>, i: nat, q: int): (r: (seq<Block>, Outcome))
    requires i < |bs|
    ensures i <= r.1.index < |r.0|
    ensures r.1.Last? ==> r.1.index == |r.0| - 1
  {
    var (ms, o) := SearchFrom(bs, i, q);
    match o
    case Good(k) => (Occupy(SplitAt(ms, k, q), k), o)
    case Last(_) => (ms, o)
  }

  /** grow_heap once mmap has answered with the address `at`: the new blocks, and where the retry starts. */
  function Grow(bs: seq<Block>, at: int, size: int): (r: (seq<Block>, nat))
    requires |bs| > 0
    ensures r.1 < |r.0| && r.1 == |r.0| - 1
  {
    var b := Block(at, size - HEADER, true);
    if Mergeable(bs[|bs| - 1], b) then (MergeNext(bs + [b], |bs| - 1), |bs| - 1) else (bs + [b], |bs|)
  }

  /** The answer alloc_region works with: the second mmap is made only when the first one fails. */
  function Answer(fixed: int, anywhere: int): (at: int)
    ensures at == MAP_FAILED <==> fixed == MAP_FAILED && anywhere == MAP_FAILED
    ensures fixed != MAP_FAILED ==> at == fixed
    ensures at == fixed || at == anywhere
  {
    if fixed != MAP_FAILED then fixed else anywhere
  }

  /** The capacity memalloc works with: no less than asked for, and at least 24 bytes. */
  function Request(query: int): (q: int)
    ensures q >= query && q >= 24 && (q == query || q == 24)
  {
    Max(query, BLOCK_MIN_CAPACITY)
  }

  /** _malloc: the heap it leaves and the pointer it returns. */
  function Malloc(h: Heap, query: int, fixed: int, anywhere: int): (r: (Heap, int))
    requires Reachable(h)
  {
    var q := Request(query);
    var (ms, o) := Existing(h.bs, 0, q);
    if o.Good? then (h.(bs := ms), ms[o.index].Payload())
    else
      var at := Answer(fixed, anywhere);
      if at == MAP_FAILED then (h.(bs := ms), NULL)
      else
        var size := RegionSize(h.page, q);
        var (grown, i) := Grow(ms, at, size);
        var (out, o') := Existing(grown, i, q);
        (h.(bs := out, rs := h.rs + [Region(at, size)]), if o'.Good? then out[o'.index].Payload() else NULL)
  }

  function IndexAt(bs: seq<Block>, addr: int): (i: nat)
    ensures i <= |bs| && (i < |bs| ==> bs[i].addr == addr)
    ensures i == |bs| ==> forall b <- bs :: b.addr != addr
  {
    if bs == [] then 0 else if bs[0].addr == addr then 0 else IndexAt(bs[1..], addr) + 1
  }

  function FreeAt(bs: seq<Block>, i: nat): seq<Block>
    requires i < |bs|
  {
    MergeAt(bs[i := bs[i].(free := true)], i)
  }

  /** _free of a pointer that is null or was returned by _malloc. */
  function Free(h: Heap, p: int): Heap
    requires Reachable(h)
  {
    var i := IndexAt(h.bs, p - HEADER);
    if p == NULL || i == |h.bs| then h else h.(bs := FreeAt(h.bs, i))
  }
}
