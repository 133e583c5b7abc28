/** The block list of the lab-4 allocator as a value: the blocks in list order and the
    regions obtained from mmap.  `BlockHeap` refines these functions in mutable memory. */
module BlockList {
  import opened Words

  // offsetof (struct block_header, contents) on a 64-bit machine
  const HEADER := 17
  const BLOCK_MIN_CAPACITY := 24
  const REGION_MIN_SIZE := 8192

  datatype Block = Block(addr: int, cap: int, free: bool) {
    function End(): int { addr + HEADER + cap }
    function Payload(): int { addr + HEADER }
  }

  datatype Region = Region(addr: int, size: int) {
    function End(): int { addr + size }
  }

  function Wrap(x: int): int { x % WORD }

  lemma {:induction false} WrapOnce(x: int)
    requires 0 <= x < 2 * WORD
    ensures Wrap(x) == if x < WORD then x else x - WORD
  {
  }

  // ----- Geometry: what the blocks occupy -----

  ghost predicate Covers(bs: seq<Block>, x: int) {
    exists i :: 0 <= i < |bs| && bs[i].addr <= x < bs[i].End()
  }

  ghost predicate Mapped(rs: seq<Region>, x: int) {
    exists i :: 0 <= i < |rs| && rs[i].addr <= x < rs[i].End()
  }

  predicate Disjoint(a: Block, b: Block) {
    a.End() <= b.addr || b.End() <= a.addr
  }

  ghost predicate Apart(bs: seq<Block>) {
    forall i, j :: 0 <= i < j < |bs| ==> Disjoint(bs[i], bs[j])
  }

  ghost predicate RegionsApart(rs: seq<Region>) {
    forall i, j :: 0 <= i < j < |rs| ==> rs[i].End() <= rs[j].addr || rs[j].End() <= rs[i].addr
  }

  /** Bytes in headers and payloads together. */
  function Total(bs: seq<Block>): int {
    if bs == [] then 0 else HEADER + bs[0].cap + Total(bs[1..])
  }

  function TotalMapped(rs: seq<Region>): int {
    if rs == [] then 0 else rs[0].size + TotalMapped(rs[1..])
  }

  ghost predicate Roomy(bs: seq<Block>) {
    forall b <- bs :: b.cap >= BLOCK_MIN_CAPACITY
  }

  /** Both lists occupy the same bytes, have the same total and the same two ends. */
  ghost predicate SameGround(a: seq<Block>, b: seq<Block>) {
    && |a| > 0 && |b| > 0
    && (Apart(a) ==> Apart(b))
    && (Roomy(a) ==> Roomy(b))
    && (forall x :: Covers(a, x) <==> Covers(b, x))
    && Total(a) == Total(b)
    && a[0].addr == b[0].addr
    && a[|a| - 1].End() == b[|b| - 1].End()
  }

  /** The blocks in use are the same ones, at the same addresses with the same capacities. */
  ghost predicate SameUsed(a: seq<Block>, b: seq<Block>) {
    forall k: Block :: !k.free ==> (k in a <==> k in b)
  }

  lemma {:induction false} TotalConcat(a: seq<Block>, b: seq<Block>)
    ensures Total(a + b) == Total(a) + Total(b)
  {
    if a == [] {
      assert a + b == b;
    } else {
      assert (a + b)[1..] == a[1..] + b;
      TotalConcat(a[1..], b);
    }
  }

  lemma {:induction false} TotalMappedConcat(a: seq<Region>, b: seq<Region>)
    ensures TotalMapped(a + b) == TotalMapped(a) + TotalMapped(b)
  {
    if a == [] {
      assert a + b == b;
    } else {
      assert (a + b)[1..] == a[1..] + b;
      TotalMappedConcat(a[1..], b);
    }
  }

  /** cut is bs with the block at i cut in two adjacent pieces. */
  ghost predicate IsCut(bs: seq<Block>, cut: seq<Block>, i: nat) {
    && i < |bs| && |cut| == |bs| + 1
    && (forall j {:trigger cut[j]} :: 0 <= j < i ==> cut[j] == bs[j])
    && (forall j {:trigger cut[j]} :: i + 1 < j < |cut| ==> cut[j] == bs[j - 1])
    && bs[i].addr == cut[i].addr && cut[i].End() == cut[i + 1].addr && cut[i + 1].End() == bs[i].End()
    && forall b <- cut :: b.cap >= 0
  }

  lemma {:induction false} CutApart(bs: seq<Block>, cut: seq<Block>, i: nat)
    requires IsCut(bs, cut, i) && Apart(bs)
    ensures Apart(cut)
  {
  }

  lemma {:induction false} GlueApart(bs: seq<Block>, cut: seq<Block>, i: nat)
    requires IsCut(bs, cut, i) && Apart(cut)
    ensures Apart(bs)
  {
    forall j, k | 0 <= j < k < |bs| ensures Disjoint(bs[j], bs[k]) {
      var j', k' := if j <= i then j else j + 1, if k <= i then k else k + 1;
      assert Disjoint(cut[j'], cut[k']) && cut[j'].cap >= 0 && cut[k'].cap >= 0;
      if j == i {
        assert Disjoint(cut[i + 1], cut[k']);
      } else if k == i {
        assert Disjoint(cut[j'], cut[i + 1]);
      }
    }
  }

  lemma {:induction false} CutCovers(bs: seq<Block>, cut: seq<Block>, i: nat, x: int)
    requires IsCut(bs, cut, i)
    ensures Covers(bs, x) <==> Covers(cut, x)
  {
    if Covers(bs, x) {
      var j :| 0 <= j < |bs| && bs[j].addr <= x < bs[j].End();
      var j' := if j < i then j else if j > i || x >= cut[i].End() then j + 1 else i;
      assert cut[j'].addr <= x < cut[j'].End();
    }
    if Covers(cut, x) {
      var j :| 0 <= j < |cut| && cut[j].addr <= x < cut[j].End();
      assert cut[i].cap >= 0 && cut[i + 1].cap >= 0;
      var j' := if j <= i then j else j - 1;
      assert bs[j'].addr <= x < bs[j'].End();
    }
  }

  lemma {:induction false} TotalAt(bs: seq<Block>, i: nat)
    requires i < |bs|
    ensures Total(bs) == Total(bs[..i]) + (HEADER + bs[i].cap) + Total(bs[i + 1..])
  {
    assert bs == bs[..i] + bs[i..];
    TotalConcat(bs[..i], bs[i..]);
    assert bs[i..][1..] == bs[i + 1..];
  }

  lemma {:induction false} CutTotal(bs: seq<Block>, cut: seq<Block>, i: nat)
    requires IsCut(bs, cut, i)
    ensures Total(bs) == Total(cut)
  {
    TotalAt(bs, i);
    TotalAt(cut, i);
    assert cut[i + 1..][0] == cut[i + 1] && cut[i + 1..][1..] == cut[i + 2..];
    assert cut[..i] == bs[..i];
    assert cut[i + 2..] == bs[i + 1..];
  }

  // ----- Merging (try_merge_with_next and the loops around it) -----

  predicate Mergeable(a: Block, b: Block) {
    a.free && b.free && b.addr == a.End()
  }

  function Join(a: Block, b: Block): Block {
    a.(cap := a.cap + (b.cap + HEADER))
  }

  /** The blocks at i and i + 1 made one; the others as they were. */
  function MergeNext(bs: seq<Block>, i: nat): (r: seq<Block>)
    requires i + 1 < |bs|
    ensures |r| == |bs| - 1
  {
    seq(|bs| - 1, j requires 0 <= j < |bs| - 1 =>
      if j < i then bs[j] else if j == i then Join(bs[i], bs[i + 1]) else bs[j + 1])
  }

  /** What `while (try_merge_with_next (block));` makes of the block at i. */
  function MergeAt(bs: seq<Block>, i: nat): (r: seq<Block>)
    requires i < |bs|
    ensures i < |r| <= |bs|
    decreases |bs|
  {
    if i + 1 < |bs| && Mergeable(bs[i], bs[i + 1]) then MergeAt(MergeNext(bs, i), i) else bs
  }

  lemma {:induction false} MergeNextIsGlue(bs: seq<Block>, i: nat)
    requires i + 1 < |bs| && Mergeable(bs[i], bs[i + 1]) && Roomy(bs)
    ensures IsCut(MergeNext(bs, i), bs, i) && Roomy(MergeNext(bs, i))
  {
  }

  lemma {:induction false} GlueGround(bs: seq<Block>, cut: seq<Block>, i: nat)
    requires IsCut(bs, cut, i)
    ensures Apart(cut) <==> Apart(bs)
    ensures forall x :: Covers(bs, x) <==> Covers(cut, x)
    ensures Total(bs) == Total(cut)
    ensures bs[0].addr == cut[0].addr && bs[|bs| - 1].End() == cut[|cut| - 1].End()
  {
    if Apart(cut) { GlueApart(bs, cut, i); }
    if Apart(bs) { CutApart(bs, cut, i); }
    forall x ensures Covers(bs, x) <==> Covers(cut, x) { CutCovers(bs, cut, i, x); }
    CutTotal(bs, cut, i);
  }

  lemma {:induction false} MergeNextGround(bs: seq<Block>, i: nat)
    requires i + 1 < |bs| && Mergeable(bs[i], bs[i + 1]) && Roomy(bs)
    ensures SameGround(bs, MergeNext(bs, i))
  {
    MergeNextIsGlue(bs, i);
    GlueGround(MergeNext(bs, i), bs, i);
  }

  lemma {:induction false} MergeNextUsed(bs: seq<Block>, i: nat)
    requires i + 1 < |bs| && Mergeable(bs[i], bs[i + 1])
    ensures SameUsed(bs, MergeNext(bs, i))
  {
    var ms := MergeNext(bs, i);
    forall k: Block | !k.free ensures k in bs <==> k in ms {
      if k in bs {
        var j :| 0 <= j < |bs| && bs[j] == k;
        assert ms[if j < i then j else j - 1] == k;
      }
      if k in ms {
        var j :| 0 <= j < |ms| && ms[j] == k;
        assert bs[if j < i then j else j + 1] == k;
      }
    }
  }

  lemma {:induction false} MergeAtGround(bs: seq<Block>, i: nat)
    requires i < |bs| && Roomy(bs)
    ensures SameGround(bs, MergeAt(bs, i)) && SameUsed(bs, MergeAt(bs, i))
    decreases |bs|
  {
    hide Mergeable, MergeNext, Apart, Covers, Total;
    if i + 1 < |bs| && Mergeable(bs[i], bs[i + 1]) {
      MergeNextGround(bs, i);
      MergeNextUsed(bs, i);
      MergeAtGround(MergeNext(bs, i), i);
    }
  }

  // ----- Maximal free runs: the independent reading of merging -----

  /** One past the last block of the run of mergeable neighbours that starts at i. */
  function RunEnd(bs: seq<Block>, i: nat): (e: nat)
    requires i < |bs|
    ensures i < e <= |bs|
    decreases |bs| - i
  {
    if i + 1 < |bs| && Mergeable(bs[i], bs[i + 1]) then RunEnd(bs, i + 1) else i + 1
  }

  /** Payload bytes of that run once it is one block. */
  function RunCap(bs: seq<Block>, i: nat): int
    requires i < |bs|
  {
    bs[RunEnd(bs, i) - 1].End() - bs[i].Payload()
  }

  /** A maximal free run starts at i, seen from the block at `from`. */
  predicate RunStarts(bs: seq<Block>, from: nat, i: nat)
    requires from <= i < |bs|
  {
    bs[i].free && (i == from || !Mergeable(bs[i - 1], bs[i]))
  }

  /** a from i on is b from j on. */
  ghost predicate SameTail(a: seq<Block>, i: nat, b: seq<Block>, j: nat) {
    i <= |a| && j <= |b| && a[i..] == b[j..]
  }

  lemma {:induction false} TailAt(a: seq<Block>, i: nat, b: seq<Block>, j: nat, k: nat)
    requires SameTail(a, i, b, j) && k <= |a| - i
    ensures |a| - i == |b| - j
    ensures SameTail(a, i + k, b, j + k)
    ensures k < |a| - i ==> a[i + k] == b[j + k]
  {
  }

  lemma {:induction false} RunEndShift(a: seq<Block>, i: nat, b: seq<Block>, j: nat)
    requires i < |a| && j < |b| && SameTail(a, i, b, j)
    ensures RunEnd(a, i) - i == RunEnd(b, j) - j
    ensures RunCap(a, i) == RunCap(b, j)
    decreases |a| - i
  {
    TailAt(a, i, b, j, 0);
    if i + 1 < |a| {
      TailAt(a, i, b, j, 1);
      if Mergeable(a[i], a[i + 1]) { RunEndShift(a, i + 1, b, j + 1); }
    }
  }

  lemma {:induction false} MergeNextTail(bs: seq<Block>, i: nat)
    requires i + 1 < |bs|
    ensures SameTail(MergeNext(bs, i), i + 1, bs, i + 2)
  {
  }

  lemma {:induction false} TailsMeet(a: seq<Block>, i: nat, b: seq<Block>, j: nat, c: seq<Block>, k: nat, n: nat)
    requires SameTail(a, i, b, j + n) && SameTail(b, j, c, k)
    ensures SameTail(a, i, c, k + n)
  {
  }

  lemma {:induction false} MergeAtFront(bs: seq<Block>, i: nat)
    requires i < |bs|
    ensures var ms := MergeAt(bs, i);
      && (forall j {:trigger ms[j]} :: 0 <= j < i ==> ms[j] == bs[j])
      && ms[i].addr == bs[i].addr && ms[i].free == bs[i].free
      && (i + 1 < |ms| ==> !Mergeable(ms[i], ms[i + 1]))
    decreases |bs|
  {
    if i + 1 < |bs| && Mergeable(bs[i], bs[i + 1]) { MergeAtFront(MergeNext(bs, i), i); }
  }

  lemma {:induction false} RunOfMerged(bs: seq<Block>, i: nat)
    requires i + 1 < |bs| && Mergeable(bs[i], bs[i + 1])
    ensures var ms := MergeNext(bs, i); RunEnd(ms, i) + 1 == RunEnd(bs, i) && RunCap(ms, i) == RunCap(bs, i)
  {
    hide SameTail;
    var ms := MergeNext(bs, i);
    if i + 2 < |bs| {
      MergeNextTail(bs, i);
      RunEndShift(ms, i + 1, bs, i + 2);
    }
  }

  lemma {:induction false} MergeAtTail(bs: seq<Block>, i: nat)
    requires i < |bs|
    ensures var ms := MergeAt(bs, i); ms[i].cap == RunCap(bs, i) && SameTail(ms, i + 1, bs, RunEnd(bs, i))
    decreases |bs|
  {
    hide SameTail;
    if i + 1 < |bs| && Mergeable(bs[i], bs[i + 1]) {
      var ms := MergeNext(bs, i);
      MergeAtTail(ms, i);
      MergeNextTail(bs, i);
      RunOfMerged(bs, i);
      TailsMeet(MergeAt(ms, i), i + 1, ms, i + 1, bs, i + 2, RunEnd(ms, i) - (i + 1));
    } else {
      TailRefl(bs, i + 1);
    }
  }

  /** Merging at i replaces exactly the run that starts there by one block; nothing mergeable is left after it. */
  lemma {:induction false} MergeAtIsRun(bs: seq<Block>, i: nat)
    requires i < |bs|
    ensures RunMerged(bs, i, MergeAt(bs, i))
    ensures var ms := MergeAt(bs, i); i + 1 < |ms| ==> !Mergeable(ms[i], ms[i + 1])
  {
    hide SameTail;
    MergeAtFront(bs, i);
    MergeAtTail(bs, i);
  }

  lemma {:induction false} TailRefl(bs: seq<Block>, i: nat)
    requires i <= |bs|
    ensures SameTail(bs, i, bs, i)
  {
  }

  /** ms is bs with the run at i made one block. */
  ghost predicate RunMerged(bs: seq<Block>, i: nat, ms: seq<Block>) {
    && i < |bs| && i < |ms|
    && (forall j {:trigger ms[j]} :: 0 <= j < i ==> ms[j] == bs[j])
    && ms[i] == Block(bs[i].addr, RunCap(bs, i), bs[i].free)
    && SameTail(ms, i + 1, bs, RunEnd(bs, i))
  }

  // ----- Search (find_good_or_last) -----

  datatype Outcome = Good(index: nat) | Last(index: nat)

  /** find_good_or_last started at the block with index i: the list it leaves and where it stopped. */
  function SearchFrom(bs: seq<Block>, i: nat, sz: int): (r: (seq<Block>, Outcome))
    requires i < |bs|
    ensures i <= r.1.index < |r.0| <= |bs|
    ensures r.1.Last? ==> r.1.index == |r.0| - 1
    decreases |bs| - i
  {
    var ms := if bs[i].free then MergeAt(bs, i) else bs;
    if bs[i].free && ms[i].cap >= sz then (ms, Good(i))
    else if i + 1 == |ms| then (ms, Last(i))
    else SearchFrom(ms, i + 1, sz)
  }

  lemma {:induction false} SearchGround(bs: seq<Block>, i: nat, sz: int)
    requires i < |bs| && Roomy(bs)
    ensures SameGround(bs, SearchFrom(bs, i, sz).0) && SameUsed(bs, SearchFrom(bs, i, sz).0)
    decreases |bs| - i
  {
    hide SameGround, SameUsed, MergeAt, Roomy;
    var ms := if bs[i].free then MergeAt(bs, i) else bs;
    if bs[i].free { MergeAtGround(bs, i); } else { SameAsItself(bs); }
    if !(bs[i].free && ms[i].cap >= sz) && i + 1 != |ms| {
      StillRoomy(bs, ms);
      SearchGround(ms, i + 1, sz);
      SameInTurn(bs, ms, SearchFrom(ms, i + 1, sz).0);
    }
  }

  lemma {:induction false} SameAsItself(bs: seq<Block>)
    requires |bs| > 0
    ensures SameGround(bs, bs) && SameUsed(bs, bs)
  {
  }

  lemma {:induction false} StillRoomy(a: seq<Block>, b: seq<Block>)
    requires SameGround(a, b) && Roomy(a)
    ensures Roomy(b)
  {
  }

  lemma {:induction false} SameInTurn(a: seq<Block>, b: seq<Block>, c: seq<Block>)
    requires SameGround(a, b) && SameUsed(a, b) && SameGround(b, c) && SameUsed(b, c)
    ensures SameGround(a, c) && SameUsed(a, c)
  {
    hide Apart, Roomy, Covers, Total;
  }

  /** The run at m is the first, from `from` on, whose merged capacity reaches sz. */
  ghost predicate FirstFit(bs: seq<Block>, from: nat, m: nat, sz: int)
    requires from <= |bs|
  {
    && from <= m < |bs| && RunStarts(bs, from, m) && RunCap(bs, m) >= sz
    && forall j :: from <= j < m && RunStarts(bs, from, j) ==> RunCap(bs, j) < sz
  }

  ghost predicate NoFit(bs: seq<Block>, from: nat, sz: int) {
    forall j :: from <= j < |bs| && RunStarts(bs, from, j) ==> RunCap(bs, j) < sz
  }

  /** No two neighbours from `from` up to `to` and the one behind it are free and adjacent. */
  ghost predicate Coalesced(bs: seq<Block>, from: nat, to: nat) {
    forall j :: from <= j < to && j + 1 < |bs| ==> !Mergeable(bs[j], bs[j + 1])
  }

  /** The search changes nothing in front of where it starts, nor the address and status of its first block. */
  lemma {:induction false} SearchKeepsFront(bs: seq<Block>, i: nat, sz: int)
    requires i < |bs|
    ensures var ms := SearchFrom(bs, i, sz).0;
      && (forall j {:trigger ms[j]} :: 0 <= j < i ==> ms[j] == bs[j])
      && ms[i].addr == bs[i].addr && ms[i].free == bs[i].free
    decreases |bs| - i
  {
    var ms := if bs[i].free then MergeAt(bs, i) else bs;
    MergeStep(bs, i);
    if !(bs[i].free && ms[i].cap >= sz) && i + 1 != |ms| { SearchKeepsFront(ms, i + 1, sz); }
  }

  /** From its start up to the block it stops at, the search leaves no two mergeable neighbours. */
  lemma {:induction false} SearchCoalesces(bs: seq<Block>, i: nat, sz: int)
    requires i < |bs|
    ensures var (ms, o) := SearchFrom(bs, i, sz); Coalesced(ms, i, o.index + 1)
    decreases |bs| - i
  {
    var ms := if bs[i].free then MergeAt(bs, i) else bs;
    MergeStep(bs, i);
    if !(bs[i].free && ms[i].cap >= sz) && i + 1 != |ms| {
      SearchCoalesces(ms, i + 1, sz);
      SearchKeepsFront(ms, i + 1, sz);
      var (out, o) := SearchFrom(ms, i + 1, sz);
      assert out[i] == ms[i];
      assert !Mergeable(out[i], out[i + 1]);
    }
  }

  /** The blocks from m on are one run, or one used block, at the end of the list. */
  ghost predicate LastRun(bs: seq<Block>, from: nat, m: nat) {
    from <= m < |bs| && RunEnd(bs, m) == |bs| && (bs[m].free ==> RunStarts(bs, from, m))
  }

  /** A run that reaches the end is free exactly when its last block is. */
  lemma {:induction false} LastRunFree(bs: seq<Block>, m: nat)
    requires m < |bs| && RunEnd(bs, m) == |bs|
    ensures bs[m].free == bs[|bs| - 1].free
    decreases |bs| - m
  {
    if m + 1 < |bs| { LastRunFree(bs, m + 1); }
  }

  /** What the outcome o of a search for sz over bs from i says, m being where the chosen run starts. */
  ghost predicate SearchMeans(bs: seq<Block>, i: nat, sz: int, ms: seq<Block>, o: Outcome, m: nat)
    requires i < |bs| && o.index < |ms|
  {
    match o
    case Good(k) =>
      && FirstFit(bs, i, m, sz)
      && ms[k] == Block(bs[m].addr, RunCap(bs, m), true)
      && SameTail(ms, k + 1, bs, RunEnd(bs, m))
    case Last(k) =>
      && NoFit(bs, i, sz)
      && LastRun(bs, i, m)
      && ms[k] == Block(bs[m].addr, RunCap(bs, m), bs[m].free)
      && ms[k].End() == bs[|bs| - 1].End()
  }

  /** find_good_or_last is first fit over maximal free runs: a good block is the first run that fits,
      merged, with everything behind it untouched; otherwise no run fits and the walk ended at the last block. */
  lemma {:induction false} SearchIsFirstFit(bs: seq<Block>, i: nat, sz: int) returns (m: nat)
    requires i < |bs|
    ensures SearchMeans(bs, i, sz, SearchFrom(bs, i, sz).0, SearchFrom(bs, i, sz).1, m)
    decreases |bs| - i
  {
    hide SameTail, Mergeable, MergeAt, RunEnd;
    m := i;
    var ms := if bs[i].free then MergeAt(bs, i) else bs;
    MergeStep(bs, i);
    if !(bs[i].free && ms[i].cap >= sz) && i + 1 != |ms| {
      m := SearchIsFirstFit(ms, i + 1, sz);
      var (out, o) := SearchFrom(ms, i + 1, sz);
      SearchBehind(bs, i, ms, sz, out, o, m);
      m := m + (RunEnd(bs, i) - (i + 1));
    } else if i + 1 == |ms| {
      TailAt(ms, i + 1, bs, RunEnd(bs, i), 0);
    }
  }

  /** One step of the walk: the block at i after its merges. */
  lemma {:induction false} MergeStep(bs: seq<Block>, i: nat)
    requires i < |bs|
    ensures var ms := if bs[i].free then MergeAt(bs, i) else bs;
      RunMerged(bs, i, ms) && (i + 1 < |ms| ==> !Mergeable(ms[i], ms[i + 1]))
    ensures forall j :: i < j < RunEnd(bs, i) ==> !RunStarts(bs, i, j)
  {
    InsideRun(bs, i);
    if bs[i].free { MergeAtIsRun(bs, i); }
  }

  lemma {:induction false} RunBehind(bs: seq<Block>, i: nat, ms: seq<Block>, j: nat)
    requires RunMerged(bs, i, ms) && i < j < |ms|
    ensures var d := RunEnd(bs, i) - (i + 1);
      && |ms| + d == |bs| && ms[j] == bs[j + d]
      && RunStarts(ms, i + 1, j) == RunStarts(bs, i, j + d)
      && RunCap(ms, j) == RunCap(bs, j + d) && RunEnd(ms, j) + d == RunEnd(bs, j + d)
  {
    hide SameTail, Mergeable, RunEnd, RunCap;
    var e := RunEnd(bs, i);
    TailAt(ms, i + 1, bs, e, j - (i + 1));
    RunEndShift(ms, j, bs, e + (j - (i + 1)));
    if j > i + 1 { TailAt(ms, i + 1, bs, e, j - 1 - (i + 1)); } else { InsideRun(bs, i); }
  }

  lemma {:induction false} FirstFitBehind(bs: seq<Block>, i: nat, ms: seq<Block>, m: nat, sz: int)
    requires RunMerged(bs, i, ms) && (!bs[i].free || RunCap(bs, i) < sz)
    requires FirstFit(ms, i + 1, m, sz)
    ensures FirstFit(bs, i, m + (RunEnd(bs, i) - (i + 1)), sz)
  {
    var d := RunEnd(bs, i) - (i + 1);
    RunBehind(bs, i, ms, m);
    InsideRun(bs, i);
    forall j | i <= j < m + d && RunStarts(bs, i, j) ensures RunCap(bs, j) < sz {
      if j > i { RunBehind(bs, i, ms, j - d); }
    }
  }

  lemma {:induction false} NoFitBehind(bs: seq<Block>, i: nat, ms: seq<Block>, sz: int)
    requires RunMerged(bs, i, ms) && (!bs[i].free || RunCap(bs, i) < sz)
    requires NoFit(ms, i + 1, sz)
    ensures NoFit(bs, i, sz)
  {
    var d := RunEnd(bs, i) - (i + 1);
    TailAt(ms, i + 1, bs, RunEnd(bs, i), 0);
    InsideRun(bs, i);
    forall j | i <= j < |bs| && RunStarts(bs, i, j) ensures RunCap(bs, j) < sz {
      if j > i { RunBehind(bs, i, ms, j - d); }
    }
  }

  lemma {:induction false} SearchBehind(bs: seq<Block>, i: nat, ms: seq<Block>, sz: int, out: seq<Block>, o: Outcome,
                                        m: nat)
    requires RunMerged(bs, i, ms) && i + 1 < |ms| && (!bs[i].free || RunCap(bs, i) < sz)
    requires o.index < |out| && SearchMeans(ms, i + 1, sz, out, o, m)
    ensures SearchMeans(bs, i, sz, out, o, m + (RunEnd(bs, i) - (i + 1)))
  {
    if o.Good? {
      FirstFitBehind(bs, i, ms, m, sz);
      RunBehind(bs, i, ms, m);
      TailAt(ms, i + 1, bs, RunEnd(bs, i), RunEnd(ms, m) - (i + 1));
    } else {
      NoFitBehind(bs, i, ms, sz);
      RunBehind(bs, i, ms, |ms| - 1);
      RunBehind(bs, i, ms, m);
    }
  }

  /** No run starts strictly inside a run, and the block right behind a run does not merge into it. */
  lemma {:induction false} InsideRun(bs: seq<Block>, i: nat)
    requires i < |bs|
    ensures forall j :: i < j < RunEnd(bs, i) ==> !RunStarts(bs, i, j)
    ensures var e := RunEnd(bs, i); e < |bs| ==> !Mergeable(bs[e - 1], bs[e])
    ensures var e := RunEnd(bs, i); !bs[i].free ==> e == i + 1
    decreases |bs| - i
  {
    if i + 1 < |bs| && Mergeable(bs[i], bs[i + 1]) {
      InsideRun(bs, i + 1);
      forall j | i < j < RunEnd(bs, i) ensures !RunStarts(bs, i, j) {
        if j > i + 1 { assert !RunStarts(bs, i + 1, j); }
      }
    }
  }
}
