/** Boundary tags of a ptmalloc arena: chunks in address order, the top chunk last, and what their size
    words and footers say.  Freeing, malloc_consolidate and splitting on these. */
module BoundaryTags {
  import opened BinIndexing
  import opened Words

  const MINSIZE := 32
  const ALIGNMENT := 16

  /** Busy belongs to the program; Fast is freed but sits in a fastbin, still marked in use; Binned is
      free and in a bin; Top is the chunk at the end of memory. */
  datatype Use = Busy | Fast | Binned | Top

  datatype Chunk = Chunk(addr: int, size: nat, use: Use) {
    function End(): int { addr + size }
  }

  /** The chunks tile the arena from base on; the top chunk and no other is last. */
  ghost predicate Tiled(base: int, cs: seq<Chunk>) {
    && |cs| > 0 && cs[0].addr == base
    && (forall i {:trigger cs[i].use} :: 0 <= i < |cs| ==> (cs[i].use == Top <==> i == |cs| - 1))
    && (forall i {:trigger cs[i].size} :: 0 <= i < |cs| ==> cs[i].size >= MINSIZE && cs[i].size % ALIGNMENT == 0)
    && (forall i :: 0 < i < |cs| ==> Follows(cs, i))
  }

  predicate Follows(cs: seq<Chunk>, i: nat)
    requires 0 < i < |cs|
  {
    cs[i].addr == cs[i - 1].End()
  }

  /** No binned chunk borders another, and none borders top. */
  ghost predicate Consolidated(cs: seq<Chunk>) {
    forall i :: 0 < i < |cs| ==> Separated(cs, i)
  }

  predicate Separated(cs: seq<Chunk>, i: nat)
    requires 0 < i < |cs|
  {
    cs[i - 1].use == Binned ==> InUse(cs[i])
  }

  predicate InUse(c: Chunk) { c.use == Busy || c.use == Fast }

  /** The P bit of the chunk at i: the chunk below is in use, or there is none. */
  function PrevInUse(cs: seq<Chunk>, i: nat): nat
    requires i < |cs|
  {
    if i > 0 && cs[i - 1].use == Binned then 0 else PREV_INUSE
  }

  /** Size words hold size and P bit; a binned chunk's size stands again behind its end. */
  ghost predicate Tags(head: map<int, nat>, foot: map<int, nat>, cs: seq<Chunk>) {
    && (forall i {:trigger cs[i].addr} :: 0 <= i < |cs| ==>
          cs[i].addr in head && head[cs[i].addr] == cs[i].size + PrevInUse(cs, i))
    && (forall i {:trigger cs[i].use} :: 0 <= i < |cs| && cs[i].use == Binned ==>
          cs[i].End() in foot && foot[cs[i].End()] == cs[i].size)
  }

  function Total(cs: seq<Chunk>): nat {
    if cs == [] then 0 else cs[0].size + Total(cs[1..])
  }

  /** Chunks further on lie strictly higher. */
  lemma {:induction false} AddrGrows(base: int, cs: seq<Chunk>, i: nat, j: nat)
    requires Tiled(base, cs) && i < j < |cs|
    ensures cs[i].End() <= cs[j].addr && cs[i].addr < cs[j].addr
    decreases j - i
  {
    assert cs[i].size >= MINSIZE && Follows(cs, j);
    if i < j - 1 {
      AddrGrows(base, cs, i, j - 1);
      assert cs[j - 1].size >= MINSIZE;
    }
  }

  /** The bytes of the arena are the bytes of its chunks. */
  lemma {:induction false} TotalIsExtent(cs: seq<Chunk>)
    requires |cs| > 0 && forall i :: 0 < i < |cs| ==> Follows(cs, i)
    ensures Total(cs) == cs[|cs| - 1].End() - cs[0].addr
  {
    if |cs| > 1 {
      var t := cs[1..];
      forall i | 0 < i < |t| ensures Follows(t, i) { assert Follows(cs, i + 1); }
      TotalIsExtent(t);
      assert Follows(cs, 1);
    }
  }

  // ----- Merging lo..hi into one free chunk -----

  function Merged(cs: seq<Chunk>, lo: nat, hi: nat): Chunk
    requires lo <= hi < |cs|
  {
    var size := cs[hi].End() - cs[lo].addr;
    Chunk(cs[lo].addr, if size < 0 then 0 else size, if cs[hi].use == Top then Top else Binned)
  }

  function MergeRange(cs: seq<Chunk>, lo: nat, hi: nat): seq<Chunk>
    requires lo <= hi < |cs|
  {
    seq(|cs| - (hi - lo), j requires 0 <= j < |cs| - (hi - lo) =>
      if j < lo then cs[j] else if j == lo then Merged(cs, lo, hi) else cs[j + (hi - lo)])
  }

  function Lowest(cs: seq<Chunk>, k: nat): (lo: nat)
    requires k < |cs|
    ensures lo <= k
  {
    if k > 0 && cs[k - 1].use == Binned then k - 1 else k
  }

  function Highest(cs: seq<Chunk>, k: nat): (hi: nat)
    requires k + 1 < |cs|
    ensures k <= hi < |cs|
  {
    if cs[k + 1].use == Binned || cs[k + 1].use == Top then k + 1 else k
  }

  /** Freeing the chunk at k: it joins free neighbours on both sides, or top. */
  function Released(cs: seq<Chunk>, k: nat): seq<Chunk>
    requires k + 1 < |cs|
  {
    MergeRange(cs, Lowest(cs, k), Highest(cs, k))
  }

  lemma {:induction false} MergeTiled(base: int, cs: seq<Chunk>, lo: nat, hi: nat)
    requires Tiled(base, cs) && lo <= hi < |cs|
    ensures Tiled(base, MergeRange(cs, lo, hi))
    ensures Merged(cs, lo, hi).End() == cs[hi].End()
    ensures var ms := MergeRange(cs, lo, hi); ms[|ms| - 1].End() == cs[|cs| - 1].End()
  {
    if lo < hi { AddrGrows(base, cs, lo, hi); }
    var m, ms := Merged(cs, lo, hi), MergeRange(cs, lo, hi);
    assert cs[lo].size >= MINSIZE && cs[hi].size >= MINSIZE;
    MergedAligned(base, cs, lo, hi);
    forall i | 0 < i < |ms| ensures Follows(ms, i) {
      var d := hi - lo;
      assert i <= lo ==> Follows(cs, i);
      assert i > lo ==> Follows(cs, i + d);
    }
  }

  lemma {:induction false} MergedAligned(base: int, cs: seq<Chunk>, lo: nat, hi: nat)
    requires Tiled(base, cs) && lo <= hi < |cs|
    ensures (cs[hi].End() - cs[lo].addr) % ALIGNMENT == 0 && cs[hi].End() - cs[lo].addr >= MINSIZE
    decreases hi - lo
  {
    hide Tiled;
    ChunkFacts(base, cs, hi);
    if lo < hi {
      MergedAligned(base, cs, lo, hi - 1);
      AlignedSum(cs[hi - 1].End() - cs[lo].addr, cs[hi].size);
    }
  }

  lemma {:induction false} ReleasedConsolidated(base: int, cs: seq<Chunk>, k: nat)
    requires Tiled(base, cs) && Consolidated(cs) && k + 1 < |cs| && InUse(cs[k])
    ensures Consolidated(Released(cs, k))
  {
    var lo, hi, ms := Lowest(cs, k), Highest(cs, k), Released(cs, k);
    forall i | 0 < i < |ms| ensures Separated(ms, i) {
      var d := hi - lo;
      if i < lo {
        assert Separated(cs, i);
      } else if i == lo {
        assert lo < k ==> Separated(cs, lo);
        assert ms[i - 1] == cs[lo - 1];
      } else {
        assert ms[i] == cs[i + d];
        assert Separated(cs, i + d);
        if i == lo + 1 { assert hi == |cs| - 1 <==> cs[hi].use == Top; } else { assert ms[i - 1] == cs[i + d - 1]; }
      }
    }
  }

  // ----- Splitting, for an allocation from a bin or from top -----

  /** The first nb bytes of the chunk at k go to the program; the rest stays what the chunk was. */
  function SplitOff(cs: seq<Chunk>, k: nat, nb: nat): seq<Chunk>
    requires k < |cs| && nb <= cs[k].size
  {
    seq(|cs| + 1, j requires 0 <= j < |cs| + 1 =>
      if j < k then cs[j]
      else if j == k then Chunk(cs[k].addr, nb, Busy)
      else if j == k + 1 then Chunk(cs[k].addr + nb, cs[k].size - nb, cs[k].use)
      else cs[j - 1])
  }

  function Exhausted(cs: seq<Chunk>, k: nat): seq<Chunk>
    requires k < |cs|
  {
    cs[k := cs[k].(use := Busy)]
  }

  predicate LegalSize(nb: nat) { nb >= MINSIZE && nb % ALIGNMENT == 0 }

  lemma {:induction false} AlignedDifference(a: int, b: int)
    requires a % ALIGNMENT == 0 && b % ALIGNMENT == 0
    ensures (a - b) % ALIGNMENT == 0
  {
    assert a - b == ALIGNMENT * (a / ALIGNMENT - b / ALIGNMENT);
  }

  lemma {:induction false} SplitTiled(base: int, cs: seq<Chunk>, k: nat, nb: nat)
    requires Tiled(base, cs) && Consolidated(cs) && k < |cs| && !InUse(cs[k]) && LegalSize(nb)
      && nb + MINSIZE <= cs[k].size
    ensures var r := SplitOff(cs, k, nb);
      Tiled(base, r) && Consolidated(r) && r[|r| - 1].End() == cs[|cs| - 1].End()
  {
    var r := SplitOff(cs, k, nb);
    assert cs[k].size % ALIGNMENT == 0;
    AlignedDifference(cs[k].size, nb);
    forall i | 0 < i < |r| ensures Follows(r, i) && Separated(r, i) {
      if i <= k {
        assert Follows(cs, i) && Separated(cs, i);
      } else if i > k + 1 {
        assert Follows(cs, i - 1) && Separated(cs, i - 1);
      }
    }
  }

  lemma {:induction false} ExhaustTiled(base: int, cs: seq<Chunk>, k: nat)
    requires Tiled(base, cs) && Consolidated(cs) && k < |cs| && cs[k].use == Binned
    ensures var r := Exhausted(cs, k);
      Tiled(base, r) && Consolidated(r) && r[|r| - 1].End() == cs[|cs| - 1].End()
  {
    var r := Exhausted(cs, k);
    forall i | 0 < i < |r| ensures Follows(r, i) && Separated(r, i) { assert Follows(cs, i) && Separated(cs, i); }
  }

  // ----- The words in memory -----

  function SetP(w: nat): nat { w - w % 2 + PREV_INUSE }

  function ClearP(w: nat): nat { w - w % 2 }

  /** Chunks stand at different addresses. */
  lemma {:induction false} SameAddrSameChunk(base: int, cs: seq<Chunk>, i: nat, j: nat)
    requires Tiled(base, cs) && i < |cs| && j < |cs| && cs[i].addr == cs[j].addr
    ensures i == j
  {
    if i < j { AddrGrows(base, cs, i, j); } else if j < i { AddrGrows(base, cs, j, i); }
  }

  lemma {:induction false} ChunkFacts(base: int, cs: seq<Chunk>, i: nat)
    requires Tiled(base, cs) && i < |cs|
    ensures cs[i].size >= MINSIZE && cs[i].size % ALIGNMENT == 0 && (cs[i].use == Top <==> i == |cs| - 1)
    ensures i > 0 ==> Follows(cs, i)
  {
  }

  lemma {:induction false} Parity(a: int)
    ensures 2 * a % 2 == 0 && (2 * a + 1) % 2 == 1
  {
  }

  /** Sizes leave the P bit free. */
  lemma {:induction false} WordBits(size: nat)
    requires size % ALIGNMENT == 0
    ensures ClearP(size) == ClearP(size + PREV_INUSE) == size
    ensures SetP(size) == SetP(size + PREV_INUSE) == size + PREV_INUSE
  {
    Parity(8 * (size / ALIGNMENT));
  }

  lemma {:induction false} TagsReleased(base: int, head: map<int, nat>, foot: map<int, nat>, cs: seq<Chunk>, k: nat)
    requires Tiled(base, cs) && Consolidated(cs) && Tags(head, foot, cs) && k + 1 < |cs| && InUse(cs[k])
    ensures var lo, hi := Lowest(cs, k), Highest(cs, k);
      var m := Merged(cs, lo, hi);
      && cs[k].End() in head
      && var h := if hi == k then head[cs[k].End() := ClearP(head[cs[k].End()])] else head;
      var f := if cs[hi].use == Top then foot else foot[m.End() := m.size];
      Tags(h[m.addr := m.size + PREV_INUSE], f, Released(cs, k))
  {
    var lo, hi := Lowest(cs, k), Highest(cs, k);
    hide Tiled, Consolidated, ClearP, Released, PrevInUse;
    var m, ms := Merged(cs, lo, hi), Released(cs, k);
    ChunkFacts(base, cs, k + 1);
    assert cs[k + 1].addr in head;
    var h := if hi == k then head[cs[k].End() := ClearP(head[cs[k].End()])] else head;
    var f := if cs[hi].use == Top then foot else foot[m.End() := m.size];
    var h' := h[m.addr := m.size + PREV_INUSE];
    forall i | 0 <= i < |ms| ensures ms[i].addr in h' && h'[ms[i].addr] == ms[i].size + PrevInUse(ms, i) {
      TagReleased(base, head, foot, cs, k, i);
    }
    forall i | 0 <= i < |ms| && ms[i].use == Binned ensures ms[i].End() in f && f[ms[i].End()] == ms[i].size {
      FootReleased(base, head, foot, cs, k, i);
    }
  }

  /** What a release does to the P bits: the merged chunk has none below, the one behind it has. */
  lemma {:induction false} PrevReleased(base: int, cs: seq<Chunk>, k: nat, i: nat)
    requires Tiled(base, cs) && Consolidated(cs) && k + 1 < |cs| && InUse(cs[k]) && i < |Released(cs, k)|
    ensures var lo, hi, ms := Lowest(cs, k), Highest(cs, k), Released(cs, k);
      && (i == lo ==> PrevInUse(ms, i) == PREV_INUSE)
      && (i != lo ==>
            var i' := if i < lo then i else i + (hi - lo);
            && ms[i] == cs[i']
            && (i' == k + 1 ==> PrevInUse(ms, i) == 0 && PrevInUse(cs, i') == PREV_INUSE)
            && (i' != k + 1 ==> PrevInUse(ms, i) == PrevInUse(cs, i')))
  {
    hide Tiled;
    var lo, hi := Lowest(cs, k), Highest(cs, k);
    var d, ms := hi - lo, Released(cs, k);
    ChunkFacts(base, cs, hi);
    if i == lo {
      if lo > 0 && lo < k { assert Separated(cs, lo); }
      assert lo > 0 ==> ms[i - 1] == cs[lo - 1];
    } else if i > lo + 1 {
      assert ms[i - 1] == cs[i + d - 1];
    }
  }

  lemma {:induction false} TagReleased(base: int, head: map<int, nat>, foot: map<int, nat>, cs: seq<Chunk>, k: nat,
                                       i: nat)
    requires Tiled(base, cs) && Consolidated(cs) && Tags(head, foot, cs) && k + 1 < |cs| && InUse(cs[k])
    requires i < |Released(cs, k)|
    ensures var lo, hi, ms := Lowest(cs, k), Highest(cs, k), Released(cs, k);
      var m := Merged(cs, lo, hi);
      cs[k + 1].addr == cs[k].End() && cs[k].End() in head
      && var h := if hi == k then head[cs[k].End() := ClearP(head[cs[k].End()])] else head;
      var h' := h[m.addr := m.size + PREV_INUSE];
      ms[i].addr in h' && h'[ms[i].addr] == ms[i].size + PrevInUse(ms, i)
  {
    hide Tiled, ClearP, LegalSize, PrevInUse, Consolidated;
    var lo, hi := Lowest(cs, k), Highest(cs, k);
    var ms := Released(cs, k);
    ChunkFacts(base, cs, k + 1);
    assert cs[k + 1].addr in head;
    PrevReleased(base, cs, k, i);
    if i != lo {
      var i' := if i < lo then i else i + (hi - lo);
      ChunkFacts(base, cs, i');
      WordBits(cs[i'].size);
      assert cs[i'].addr in head;
      if cs[i'].addr == cs[lo].addr { SameAddrSameChunk(base, cs, i', lo); }
      if cs[i'].addr == cs[k + 1].addr { SameAddrSameChunk(base, cs, i', k + 1); }
    }
  }

  lemma {:induction false} EndsApart(base: int, cs: seq<Chunk>, i: nat, j: nat)
    requires Tiled(base, cs) && i < |cs| && j < |cs| && i != j
    ensures cs[i].End() != cs[j].End()
  {
    hide Tiled;
    ChunkFacts(base, cs, i);
    ChunkFacts(base, cs, j);
    if i < j { AddrGrows(base, cs, i, j); } else { AddrGrows(base, cs, j, i); }
  }

  lemma {:induction false} FootReleased(base: int, head: map<int, nat>, foot: map<int, nat>, cs: seq<Chunk>, k: nat,
                                        i: nat)
    requires Tiled(base, cs) && Consolidated(cs) && Tags(head, foot, cs) && k + 1 < |cs| && InUse(cs[k])
    requires i < |Released(cs, k)| && Released(cs, k)[i].use == Binned
    ensures var lo, hi, ms := Lowest(cs, k), Highest(cs, k), Released(cs, k);
      var m := Merged(cs, lo, hi);
      var f := if cs[hi].use == Top then foot else foot[m.End() := m.size];
      ms[i].End() in f && f[ms[i].End()] == ms[i].size
  {
    var lo, hi := Lowest(cs, k), Highest(cs, k);
    var d, ms := hi - lo, Released(cs, k);
    hide Tiled, Consolidated, InUse;
    MergeTiled(base, cs, lo, hi);
    if i != lo {
      EndsApart(base, ms, i, lo);
      assert cs[if i < lo then i else i + d].use == Binned;
    }
  }

  lemma {:induction false} TagsExhausted(base: int, head: map<int, nat>, foot: map<int, nat>, cs: seq<Chunk>, k: nat)
    requires Tiled(base, cs) && Consolidated(cs) && Tags(head, foot, cs) && k < |cs| && cs[k].use == Binned
    ensures k + 1 < |cs| && cs[k].End() in head
    ensures Tags(head[cs[k].End() := SetP(head[cs[k].End()])], foot, Exhausted(cs, k))
  {
    var r := Exhausted(cs, k);
    assert Follows(cs, k + 1) && cs[k + 1].addr in head && cs[k + 1].size % ALIGNMENT == 0;
    var h := head[cs[k].End() := SetP(head[cs[k].End()])];
    forall i | 0 <= i < |r| ensures r[i].addr in h && h[r[i].addr] == r[i].size + PrevInUse(r, i) {
      assert cs[i].addr in head;
      if cs[i].addr == cs[k + 1].addr { SameAddrSameChunk(base, cs, i, k + 1); }
    }
  }

  lemma {:induction false} TagSplit(base: int, head: map<int, nat>, foot: map<int, nat>, cs: seq<Chunk>, k: nat,
                                    nb: nat, i: nat)
    requires Tiled(base, cs) && Consolidated(cs) && Tags(head, foot, cs)
    requires k < |cs| && !InUse(cs[k]) && LegalSize(nb) && nb + MINSIZE <= cs[k].size && i <= |cs|
    ensures var r, h := SplitOff(cs, k, nb),
      head[cs[k].addr := nb + PREV_INUSE][cs[k].addr + nb := cs[k].size - nb + PREV_INUSE];
      r[i].addr in h && h[r[i].addr] == r[i].size + PrevInUse(r, i)
  {
    hide Tiled, Consolidated, PrevInUse, SplitOff;
    var r := SplitOff(cs, k, nb);
    SplitTiled(base, cs, k, nb);
    PrevSplit(base, cs, k, nb, i);
    PrevSplit(base, cs, k, nb, k);
    PrevSplit(base, cs, k, nb, k + 1);
    if r[i].addr == r[k].addr { SameAddrSameChunk(base, r, i, k); }
    if r[i].addr == r[k + 1].addr { SameAddrSameChunk(base, r, i, k + 1); }
    if i < k { assert cs[i].addr in head; } else if i > k + 1 { assert cs[i - 1].addr in head; }
  }

  /** What a split does to places and P bits: both parts have none below them. */
  lemma {:induction false} PrevSplit(base: int, cs: seq<Chunk>, k: nat, nb: nat, i: nat)
    requires Tiled(base, cs) && Consolidated(cs)
    requires k < |cs| && !InUse(cs[k]) && nb <= cs[k].size && i <= |cs|
    ensures var r := SplitOff(cs, k, nb);
      && |r| == |cs| + 1
      && (i < k ==> r[i] == cs[i] && PrevInUse(r, i) == PrevInUse(cs, i))
      && (i == k ==> r[i] == Chunk(cs[k].addr, nb, Busy) && PrevInUse(r, i) == PREV_INUSE)
      && (i == k + 1 ==> r[i] == Chunk(cs[k].addr + nb, cs[k].size - nb, cs[k].use) && PrevInUse(r, i) == PREV_INUSE)
      && (i > k + 1 ==> r[i] == cs[i - 1] && PrevInUse(r, i) == PrevInUse(cs, i - 1))
  {
    hide Tiled, Consolidated;
    if i == k > 0 { BeforeFree(base, cs, k); }
  }

  lemma {:induction false} FootSplit(base: int, head: map<int, nat>, foot: map<int, nat>, cs: seq<Chunk>, k: nat,
                                     nb: nat, i: nat)
    requires Tiled(base, cs) && Consolidated(cs) && Tags(head, foot, cs)
    requires k < |cs| && !InUse(cs[k]) && LegalSize(nb) && nb + MINSIZE <= cs[k].size
    requires i <= |cs| && SplitOff(cs, k, nb)[i].use == Binned
    ensures var r, f := SplitOff(cs, k, nb), if cs[k].use == Top then foot else foot[cs[k].End() := cs[k].size - nb];
      r[i].End() in f && f[r[i].End()] == r[i].size
  {
    if i < k {
      assert cs[i].use == Binned;
      AddrGrows(base, cs, i, k);
      assert cs[k].size >= MINSIZE;
    } else if i > k + 1 {
      assert cs[i - 1].use == Binned;
      AddrGrows(base, cs, k, i - 1);
      assert cs[i - 1].size >= MINSIZE;
    }
  }

  lemma {:induction false} TagsSplit(base: int, head: map<int, nat>, foot: map<int, nat>, cs: seq<Chunk>, k: nat,
                                     nb: nat)
    requires Tiled(base, cs) && Consolidated(cs) && Tags(head, foot, cs)
    requires k < |cs| && !InUse(cs[k]) && LegalSize(nb) && nb + MINSIZE <= cs[k].size
    ensures Tags(head[cs[k].addr := nb + PREV_INUSE][cs[k].addr + nb := cs[k].size - nb + PREV_INUSE],
                 if cs[k].use == Top then foot else foot[cs[k].End() := cs[k].size - nb],
                 SplitOff(cs, k, nb))
  {
    hide Tiled, Consolidated;
    forall i | 0 <= i <= |cs| { TagSplit(base, head, foot, cs, k, nb, i); }
    forall i | 0 <= i <= |cs| && SplitOff(cs, k, nb)[i].use == Binned { FootSplit(base, head, foot, cs, k, nb, i); }
  }

  /** Below a binned or top chunk there is never a binned one. */
  lemma {:induction false} BeforeFree(base: int, cs: seq<Chunk>, k: nat)
    requires Tiled(base, cs) && Consolidated(cs) && 0 < k < |cs| && !InUse(cs[k])
    ensures cs[k - 1].use != Binned
  {
    assert Separated(cs, k);
  }

  // ----- Which chunks the lists hold -----

  ghost function BinnedSet(cs: seq<Chunk>): set<int> {
    set i | 0 <= i < |cs| && cs[i].use == Binned :: cs[i].addr
  }

  function FastIndex(size: nat): int { size / 16 - 2 }

  ghost function FastSet(cs: seq<Chunk>, idx: int): set<int> {
    set i | 0 <= i < |cs| && cs[i].use == Fast && FastIndex(cs[i].size) == idx :: cs[i].addr
  }

  /** Every binned chunk is on the unsorted list or in a regular bin, once. */
  ghost predicate Listed(cs: seq<Chunk>, unsorted: seq<int>, regular: set<int>) {
    multiset(unsorted) + multiset(regular) == multiset(BinnedSet(cs))
  }

  function Without(s: seq<int>, x: int): seq<int> {
    if s == [] then [] else if s[0] == x then s[1..] else [s[0]] + Without(s[1..], x)
  }

  lemma {:induction false} WithoutElements(s: seq<int>, x: int)
    ensures multiset(Without(s, x)) == if x in s then multiset(s) - multiset{x} else multiset(s)
  {
    if s != [] {
      assert s == [s[0]] + s[1..];
      assert multiset(s) == multiset{s[0]} + multiset(s[1..]);
      if s[0] != x {
        WithoutElements(s[1..], x);
        assert multiset([s[0]] + Without(s[1..], x)) == multiset{s[0]} + multiset(Without(s[1..], x));
      }
    }
  }

  lemma {:induction false} WithoutAbsent(s: seq<int>, x: int)
    requires x !in s
    ensures Without(s, x) == s
  {
    if s != [] {
      WithoutAbsent(s[1..], x);
      assert s == [s[0]] + s[1..];
    }
  }

  lemma {:induction false} MultisetMinus(a: set<int>, x: int)
    requires x in a
    ensures multiset(a - {x}) == multiset(a) - multiset{x}
  {
  }

  lemma {:induction false} MultisetPlus(a: set<int>, x: int)
    requires x !in a
    ensures multiset(a + {x}) == multiset(a) + multiset{x}
  {
  }

  lemma {:induction false} UnlinkListed(b: set<int>, unsorted: seq<int>, regular: set<int>, x: int)
    requires multiset(unsorted) + multiset(regular) == multiset(b) && x in b
    ensures x !in unsorted ==> x in regular && Without(unsorted, x) == unsorted
    ensures x in unsorted ==> x !in regular && regular - {x} == regular
    ensures var u := if x in unsorted then Without(unsorted, x) else unsorted;
      var r := if x in unsorted then regular else regular - {x};
      multiset(u) + multiset(r) == multiset(b - {x})
  {
    MultisetMinus(b, x);
    WithoutElements(unsorted, x);
    assert multiset(b)[x] == 1;
    assert (multiset(unsorted) + multiset(regular))[x] == 1;
    if x !in unsorted {
      WithoutAbsent(unsorted, x);
      assert (multiset(unsorted) + multiset(regular))[x] == multiset(regular)[x];
      MultisetMinus(regular, x);
    }
  }

  /** The free neighbours that a release takes off their lists. */
  function Absorbed(cs: seq<Chunk>, k: nat): set<int>
    requires k + 1 < |cs|
  {
    var lo, hi := Lowest(cs, k), Highest(cs, k);
    (if lo < k then {cs[lo].addr} else {}) + (if hi > k && cs[hi].use == Binned then {cs[hi].addr} else {})
  }

  lemma {:induction false} BinnedReleased(base: int, cs: seq<Chunk>, k: nat)
    requires Tiled(base, cs) && Consolidated(cs) && k + 1 < |cs| && InUse(cs[k])
    ensures var m := Merged(cs, Lowest(cs, k), Highest(cs, k));
      && Absorbed(cs, k) <= BinnedSet(cs)
      && BinnedSet(Released(cs, k)) == BinnedSet(cs) - Absorbed(cs, k) + (if m.use == Binned then {m.addr} else {})
      && m.addr !in BinnedSet(cs) - Absorbed(cs, k)
  {
    hide Tiled, Consolidated, Released, BinnedSet, Absorbed, InUse;
    var m := Merged(cs, Lowest(cs, k), Highest(cs, k));
    AbsorbedAreBinned(cs, k);
    if m.use == Binned { MergedIsBinned(cs, k); }
    forall x | x in BinnedSet(Released(cs, k))
      ensures x in BinnedSet(cs) - Absorbed(cs, k) || (m.use == Binned && x == m.addr)
    {
      WasBinned(base, cs, k, x);
    }
    forall x | x in BinnedSet(cs) && x !in Absorbed(cs, k) ensures x in BinnedSet(Released(cs, k)) && x != m.addr {
      StaysBinned(base, cs, k, x);
    }
  }

  lemma {:induction false} AbsorbedAreBinned(cs: seq<Chunk>, k: nat)
    requires k + 1 < |cs|
    ensures Absorbed(cs, k) <= BinnedSet(cs)
  {
  }

  lemma {:induction false} MergedIsBinned(cs: seq<Chunk>, k: nat)
    requires k + 1 < |cs| && Merged(cs, Lowest(cs, k), Highest(cs, k)).use == Binned
    ensures cs[Lowest(cs, k)].addr in BinnedSet(Released(cs, k))
  {
    assert Released(cs, k)[Lowest(cs, k)].addr == cs[Lowest(cs, k)].addr;
  }

  lemma {:induction false} WasBinned(base: int, cs: seq<Chunk>, k: nat, x: int)
    requires Tiled(base, cs) && k + 1 < |cs| && InUse(cs[k]) && x in BinnedSet(Released(cs, k))
    ensures var m := Merged(cs, Lowest(cs, k), Highest(cs, k));
      x in BinnedSet(cs) - Absorbed(cs, k) || (m.use == Binned && x == m.addr)
  {
    hide Tiled;
    var lo, hi, ms := Lowest(cs, k), Highest(cs, k), Released(cs, k);
    var i :| 0 <= i < |ms| && ms[i].use == Binned && ms[i].addr == x;
    if i != lo {
      var i' := if i < lo then i else i + (hi - lo);
      assert cs[i'].use == Binned && cs[i'].addr == x;
      if x == cs[lo].addr { SameAddrSameChunk(base, cs, i', lo); }
      if x == cs[hi].addr { SameAddrSameChunk(base, cs, i', hi); }
    }
  }

  lemma {:induction false} StaysBinned(base: int, cs: seq<Chunk>, k: nat, x: int)
    requires Tiled(base, cs) && k + 1 < |cs| && InUse(cs[k]) && x in BinnedSet(cs) && x !in Absorbed(cs, k)
    ensures x in BinnedSet(Released(cs, k)) && x != cs[Lowest(cs, k)].addr
  {
    hide Tiled;
    var lo, hi, ms := Lowest(cs, k), Highest(cs, k), Released(cs, k);
    var i :| 0 <= i < |cs| && cs[i].use == Binned && cs[i].addr == x;
    assert i != k;
    if x == cs[lo].addr { SameAddrSameChunk(base, cs, i, lo); }
    assert ms[if i < lo then i else i - (hi - lo)].addr == x;
  }

  lemma {:induction false} FastReleased(base: int, cs: seq<Chunk>, k: nat, idx: int)
    requires Tiled(base, cs) && Consolidated(cs) && k + 1 < |cs| && InUse(cs[k])
    ensures FastSet(Released(cs, k), idx) ==
      FastSet(cs, idx) - if cs[k].use == Fast && FastIndex(cs[k].size) == idx then {cs[k].addr} else {}
  {
    var lo, hi := Lowest(cs, k), Highest(cs, k);
    var d, ms := hi - lo, Released(cs, k);
    forall x | x in FastSet(ms, idx) ensures x in FastSet(cs, idx) && x != cs[k].addr {
      var i :| 0 <= i < |ms| && ms[i].use == Fast && FastIndex(ms[i].size) == idx && ms[i].addr == x;
      var i' := if i < lo then i else i + d;
      assert cs[i'] == ms[i];
      if x == cs[k].addr { SameAddrSameChunk(base, cs, i', k); }
    }
    forall x | x in FastSet(cs, idx) && x != cs[k].addr ensures x in FastSet(ms, idx) {
      var i :| 0 <= i < |cs| && cs[i].use == Fast && FastIndex(cs[i].size) == idx && cs[i].addr == x;
      assert i < lo || i > hi;
      assert ms[if i < lo then i else i - d] == cs[i];
    }
    if cs[k].use == Fast && FastIndex(cs[k].size) != idx && cs[k].addr in FastSet(cs, idx) {
      var i :| 0 <= i < |cs| && cs[i].use == Fast && FastIndex(cs[i].size) == idx && cs[i].addr == cs[k].addr;
      SameAddrSameChunk(base, cs, i, k);
    }
    if cs[k].use != Fast && cs[k].addr in FastSet(cs, idx) {
      var i :| 0 <= i < |cs| && cs[i].use == Fast && FastIndex(cs[i].size) == idx && cs[i].addr == cs[k].addr;
      SameAddrSameChunk(base, cs, i, k);
    }
  }

  const NFASTBINS := 10

  ghost predicate FastListed(cs: seq<Chunk>, fastbins: seq<seq<int>>) {
    && |fastbins| == NFASTBINS
    && (forall i {:trigger cs[i].use} :: 0 <= i < |cs| && cs[i].use == Fast ==> 0 <= FastIndex(cs[i].size) < NFASTBINS)
    && forall idx :: 0 <= idx < NFASTBINS ==> multiset(fastbins[idx]) == multiset(FastSet(cs, idx))
  }

  /** Everything but the fastbins. */
  ghost predicate Core(base: int, cs: seq<Chunk>, head: map<int, nat>, foot: map<int, nat>, top: int,
                       unsorted: seq<int>, regular: set<int>) {
    && Tiled(base, cs) && Consolidated(cs) && Tags(head, foot, cs)
    && top == cs[|cs| - 1].addr && Listed(cs, unsorted, regular)
  }

  /** chunksize and prev_inuse of a size word. */
  function ChunkSize(w: nat): nat { w - w % 8 }

  predicate PrevInUseBit(w: nat) { w % 2 == 1 }

  lemma {:induction false} LowBits(q: int)
    ensures 8 * q % 8 == 0 && (8 * q + 1) % 8 == 1
  {
  }

  lemma {:induction false} WordMeans(size: nat, p: nat)
    requires size % ALIGNMENT == 0 && p <= 1
    ensures ChunkSize(size + p) == size && (PrevInUseBit(size + p) <==> p == 1)
  {
    var q := 2 * (size / ALIGNMENT);
    LowBits(q);
    Parity(4 * q);
  }

  /** What the words at a chunk say: its size, and the size and place of a free chunk below. */
  lemma {:induction false} OwnWords(base: int, cs: seq<Chunk>, head: map<int, nat>, foot: map<int, nat>, k: nat)
    requires Tiled(base, cs) && Tags(head, foot, cs) && k < |cs|
    ensures cs[k].addr in head && ChunkSize(head[cs[k].addr]) == cs[k].size
    ensures !PrevInUseBit(head[cs[k].addr]) <==> k > 0 && cs[k - 1].use == Binned
    ensures k > 0 && cs[k - 1].use == Binned ==> cs[k].addr in foot && foot[cs[k].addr] == cs[k - 1].size
    ensures k > 0 ==> cs[k].addr == cs[k - 1].End()
  {
    hide ChunkSize, PrevInUseBit;
    assert cs[k].size % ALIGNMENT == 0;
    WordMeans(cs[k].size, PrevInUse(cs, k));
    if k > 0 { assert Follows(cs, k); }
  }

  /** The check that opens unlink_chunk: the size word of a chunk and the footer behind it agree. */
  predicate SizeAgrees(head: map<int, nat>, foot: map<int, nat>, p: int) {
    p in head && p + ChunkSize(head[p]) in foot && ChunkSize(head[p]) == foot[p + ChunkSize(head[p])]
  }

  lemma {:induction false} BinnedSizeAgrees(base: int, cs: seq<Chunk>, head: map<int, nat>, foot: map<int, nat>, k: nat)
    requires Tiled(base, cs) && Tags(head, foot, cs) && k < |cs| && cs[k].use == Binned
    ensures k + 1 < |cs| && SizeAgrees(head, foot, cs[k].addr)
  {
    hide ChunkSize, PrevInUseBit;
    OwnWords(base, cs, head, foot, k);
    OwnWords(base, cs, head, foot, k + 1);
  }

  lemma {:induction false} TopIsLast(base: int, cs: seq<Chunk>, k: nat)
    requires Tiled(base, cs) && k < |cs|
    ensures cs[k].addr == cs[|cs| - 1].addr <==> cs[k].use == Top
    ensures cs[k].use == Top <==> k == |cs| - 1
  {
    if cs[k].addr == cs[|cs| - 1].addr { SameAddrSameChunk(base, cs, k, |cs| - 1); }
  }

  lemma {:induction false} TopReleased(base: int, cs: seq<Chunk>, k: nat)
    requires Tiled(base, cs) && k + 1 < |cs|
    ensures var ms, hi := Released(cs, k), Highest(cs, k);
      |ms| > 0 && ms[|ms| - 1].addr == if cs[hi].use == Top then cs[Lowest(cs, k)].addr else cs[|cs| - 1].addr
  {
  }

  lemma {:induction false} ListedIs(cs: seq<Chunk>, unsorted: seq<int>, regular: set<int>)
    ensures Listed(cs, unsorted, regular) <==> multiset(unsorted) + multiset(regular) == multiset(BinnedSet(cs))
  {
  }

  lemma {:induction false} ReleasedCore(base: int, cs: seq<Chunk>, head: map<int, nat>, foot: map<int, nat>, top: int,
                                        unsorted: seq<int>, regular: set<int>, k: nat, u: seq<int>, r: set<int>)
    requires Core(base, cs, head, foot, top, unsorted, regular) && k + 1 < |cs| && InUse(cs[k])
    requires multiset(u) + multiset(r) == multiset(BinnedSet(Released(cs, k)))
    ensures var lo, hi := Lowest(cs, k), Highest(cs, k);
      var m := Merged(cs, lo, hi);
      && cs[k].End() in head
      && var h := if hi == k then head[cs[k].End() := ClearP(head[cs[k].End()])] else head;
      Core(base, Released(cs, k), h[m.addr := m.size + PREV_INUSE],
           if cs[hi].use == Top then foot else foot[m.End() := m.size],
           if cs[hi].use == Top then m.addr else top, u, r)
  {
    hide Tiled, Consolidated, Tags, BinnedSet, MergeRange;
    MergeTiled(base, cs, Lowest(cs, k), Highest(cs, k));
    ReleasedConsolidated(base, cs, k);
    TagsReleased(base, head, foot, cs, k);
    TopReleased(base, cs, k);
  }

  /** Everything the consolidation code reads, and how the set of binned chunks changes. */
  lemma {:induction false} ReleaseReads(base: int, cs: seq<Chunk>, head: map<int, nat>, foot: map<int, nat>, top: int,
                                        unsorted: seq<int>, regular: set<int>, k: nat)
    requires Core(base, cs, head, foot, top, unsorted, regular) && k + 1 < |cs| && InUse(cs[k])
    ensures var lo, hi := Lowest(cs, k), Highest(cs, k);
      var m, p, n, b := Merged(cs, lo, hi), cs[k].addr, cs[k].End(), BinnedSet(cs);
      && multiset(unsorted) + multiset(regular) == multiset(b)
      && p in head && ChunkSize(head[p]) == cs[k].size && (PrevInUseBit(head[p]) <==> lo == k)
      && n in head && ChunkSize(head[n]) == cs[k + 1].size && (n == top <==> cs[k + 1].use == Top)
      && (lo < k ==> p in foot && foot[p] == cs[lo].size && cs[lo].addr == p - cs[lo].size && cs[lo].addr in b)
      && (lo < k ==> SizeAgrees(head, foot, cs[lo].addr)) && (hi > k && n != top ==> SizeAgrees(head, foot, n))
      && (n != top ==> cs[k + 1].End() in head && (PrevInUseBit(head[cs[k + 1].End()]) <==> hi == k))
      && (hi > k && n != top ==> cs[hi].addr == n && n in b && cs[lo].addr != n)
      && m.addr == cs[lo].addr
         && m.size == (if lo < k then cs[lo].size else 0) + cs[k].size + (if hi > k then cs[k + 1].size else 0)
      && cs[k + 1].addr == n && m.addr + m.size == m.End()
      && (m.use == Top <==> n == top) && (cs[hi].use == Top <==> n == top)
      && BinnedSet(Released(cs, k)) ==
           b - (if lo < k then {cs[lo].addr} else {}) - (if hi > k && n != top then {n} else {})
             + (if n != top then {m.addr} else {})
      && (n != top ==> m.addr !in b - (if lo < k then {cs[lo].addr} else {}) - (if hi > k then {n} else {}))
  {
    hide Tiled, Consolidated, Tags, BinnedSet, MergeRange, ChunkSize, PrevInUseBit, SizeAgrees;
    if Lowest(cs, k) < k { BinnedSizeAgrees(base, cs, head, foot, k - 1); }
    if cs[k + 1].use == Binned { BinnedSizeAgrees(base, cs, head, foot, k + 1); }
    OwnWords(base, cs, head, foot, k);
    OwnWords(base, cs, head, foot, k + 1);
    TopIsLast(base, cs, k);
    TopIsLast(base, cs, k + 1);
    if k + 2 < |cs| { OwnWords(base, cs, head, foot, k + 2); }
    MergeTiled(base, cs, Lowest(cs, k), Highest(cs, k));
    BinnedReleased(base, cs, k);
    ListedIs(cs, unsorted, regular);
    if Lowest(cs, k) < Highest(cs, k) { AddrGrows(base, cs, Lowest(cs, k), Highest(cs, k)); }
  }

  const MAX_FAST_SIZE := 160

  /** Freed to a fastbin: the tags still say in use. */
  function FastFreed(cs: seq<Chunk>, k: nat): seq<Chunk>
    requires k < |cs|
  {
    cs[k := cs[k].(use := Fast)]
  }

  ghost function BusySet(cs: seq<Chunk>): set<Chunk> {
    set i | 0 <= i < |cs| && cs[i].use == Busy :: cs[i]
  }

  lemma {:induction false} CoreParts(base: int, cs: seq<Chunk>, head: map<int, nat>, foot: map<int, nat>, top: int,
                                     unsorted: seq<int>, regular: set<int>)
    requires Core(base, cs, head, foot, top, unsorted, regular)
    ensures Tiled(base, cs) && Consolidated(cs) && Tags(head, foot, cs) && |cs| > 0 && top == cs[|cs| - 1].addr
    ensures Listed(cs, unsorted, regular)
  {
  }

  lemma {:induction false} CoreWhole(base: int, cs: seq<Chunk>, head: map<int, nat>, foot: map<int, nat>, top: int,
                                     unsorted: seq<int>, regular: set<int>)
    requires Tiled(base, cs) && Consolidated(cs) && Tags(head, foot, cs) && |cs| > 0 && top == cs[|cs| - 1].addr
    requires multiset(unsorted) + multiset(regular) == multiset(BinnedSet(cs))
    ensures Core(base, cs, head, foot, top, unsorted, regular)
  {
  }

  lemma {:induction false} FastFreedTiled(base: int, cs: seq<Chunk>, k: nat)
    requires Tiled(base, cs) && Consolidated(cs) && k + 1 < |cs| && cs[k].use == Busy
    ensures Tiled(base, FastFreed(cs, k)) && Consolidated(FastFreed(cs, k))
  {
    var r := FastFreed(cs, k);
    forall i | 0 < i < |r| ensures Follows(r, i) && Separated(r, i) { assert Follows(cs, i) && Separated(cs, i); }
  }

  lemma {:induction false} FastFreedBinned(cs: seq<Chunk>, k: nat)
    requires k < |cs| && cs[k].use == Busy
    ensures BinnedSet(FastFreed(cs, k)) == BinnedSet(cs)
  {
    var r := FastFreed(cs, k);
    forall x | x in BinnedSet(cs) ensures x in BinnedSet(r) {
      var i :| 0 <= i < |cs| && cs[i].use == Binned && cs[i].addr == x;
      assert r[i].addr == x && r[i].use == Binned;
    }
  }

  lemma {:induction false} FastFreedKeeps(base: int, cs: seq<Chunk>, head: map<int, nat>, foot: map<int, nat>, top: int,
                                          unsorted: seq<int>, regular: set<int>, fastbins: seq<seq<int>>, k: nat)
    requires Core(base, cs, head, foot, top, unsorted, regular) && FastListed(cs, fastbins)
    requires k + 1 < |cs| && cs[k].use == Busy && cs[k].size <= MAX_FAST_SIZE
    ensures Core(base, FastFreed(cs, k), head, foot, top, unsorted, regular)
    ensures var idx := FastIndex(cs[k].size);
      0 <= idx < |fastbins| && FastListed(FastFreed(cs, k), fastbins[idx := [cs[k].addr] + fastbins[idx]])
  {
    hide Tiled, Consolidated, Tags, BinnedSet, FastSet;
    var r, idx := FastFreed(cs, k), FastIndex(cs[k].size);
    FastFreedTiled(base, cs, k);
    TagsFastFreed(head, foot, cs, k);
    FastFreedBinned(cs, k);
    ChunkFacts(base, cs, k);
    forall j | 0 <= j < NFASTBINS
      ensures multiset(fastbins[idx := [cs[k].addr] + fastbins[idx]][j]) == multiset(FastSet(r, j))
    {
      FastSetFreed(base, cs, k, j);
      if j == idx {
        MultisetPlus(FastSet(cs, j), cs[k].addr);
        assert multiset([cs[k].addr] + fastbins[idx]) == multiset{cs[k].addr} + multiset(fastbins[idx]);
      }
    }
  }

  lemma {:induction false} TagsFastFreed(head: map<int, nat>, foot: map<int, nat>, cs: seq<Chunk>, k: nat)
    requires Tags(head, foot, cs) && k < |cs| && cs[k].use == Busy
    ensures Tags(head, foot, FastFreed(cs, k))
  {
  }

  /** A chunk taken back out of its fastbin: the reverse of freeing it there. */
  lemma {:induction false} FastTakenTiled(base: int, cs: seq<Chunk>, k: nat)
    requires Tiled(base, cs) && Consolidated(cs) && k < |cs| && cs[k].use == Fast
    ensures Tiled(base, Exhausted(cs, k)) && Consolidated(Exhausted(cs, k)) && SameEnd(cs, Exhausted(cs, k))
  {
    var r := Exhausted(cs, k);
    forall i | 0 < i < |r| ensures Follows(r, i) && Separated(r, i) { assert Follows(cs, i) && Separated(cs, i); }
  }

  lemma {:induction false} TagsFastTaken(head: map<int, nat>, foot: map<int, nat>, cs: seq<Chunk>, k: nat)
    requires Tags(head, foot, cs) && k < |cs| && cs[k].use == Fast
    ensures Tags(head, foot, Exhausted(cs, k))
  {
    var r := Exhausted(cs, k);
    forall i | 0 <= i < |r| ensures r[i].addr in head && head[r[i].addr] == r[i].size + PrevInUse(r, i) {
      assert cs[i].addr in head;
    }
    forall i | 0 <= i < |r| && r[i].use == Binned ensures r[i].End() in foot && foot[r[i].End()] == r[i].size {
      assert cs[i].use == Binned;
    }
  }

  lemma {:induction false} FastTakenKeeps(base: int, cs: seq<Chunk>, head: map<int, nat>, foot: map<int, nat>, top: int,
                                          unsorted: seq<int>, regular: set<int>, fastbins: seq<seq<int>>, idx: nat,
                                          k: nat)
    requires Core(base, cs, head, foot, top, unsorted, regular) && FastListed(cs, fastbins)
    requires idx < NFASTBINS && fastbins[idx] != [] && k + 1 < |cs| && cs[k].addr == fastbins[idx][0]
    requires cs[k].use == Fast && FastIndex(cs[k].size) == idx
    ensures Core(base, Exhausted(cs, k), head, foot, top, unsorted, regular)
    ensures FastListed(Exhausted(cs, k), fastbins[idx := fastbins[idx][1..]])
  {
    hide Tiled, Consolidated, Tags, BinnedSet, FastSet;
    var r, p := Exhausted(cs, k), fastbins[idx];
    FastTakenTiled(base, cs, k);
    TagsFastTaken(head, foot, cs, k);
    assert FastFreed(r, k) == cs;
    FastFreedBinned(r, k);
    forall j | 0 <= j < NFASTBINS ensures multiset(fastbins[idx := p[1..]][j]) == multiset(FastSet(r, j)) {
      FastSetFreed(base, r, k, j);
      if j == idx {
        assert p == [p[0]] + p[1..];
        MultisetPlus(FastSet(r, j), p[0]);
        assert multiset(p) == multiset(FastSet(cs, j));
        assert multiset(p) == multiset{p[0]} + multiset(p[1..]);
        assert multiset(p[1..]) == multiset(p) - multiset{p[0]};
      }
    }
  }

  lemma {:induction false} FastSetFreed(base: int, cs: seq<Chunk>, k: nat, idx: int)
    requires Tiled(base, cs) && k < |cs| && cs[k].use == Busy
    ensures FastSet(FastFreed(cs, k), idx) ==
      FastSet(cs, idx) + (if idx == FastIndex(cs[k].size) then {cs[k].addr} else {})
    ensures cs[k].addr !in FastSet(cs, idx)
  {
    var r := FastFreed(cs, k);
    forall x | x in FastSet(cs, idx) ensures x in FastSet(r, idx) && x != cs[k].addr {
      var i :| 0 <= i < |cs| && cs[i].use == Fast && FastIndex(cs[i].size) == idx && cs[i].addr == x;
      assert r[i] == cs[i];
      if x == cs[k].addr { SameAddrSameChunk(base, cs, i, k); }
    }
    assert r[k].use == Fast && r[k].addr == cs[k].addr;
  }

  /** Releasing a chunk in use leaves the fastbins right. */
  lemma {:induction false} FastListedReleased(base: int, cs: seq<Chunk>, fastbins: seq<seq<int>>, k: nat)
    requires Tiled(base, cs) && Consolidated(cs) && FastListed(cs, fastbins) && k + 1 < |cs| && cs[k].use == Busy
    ensures FastListed(Released(cs, k), fastbins)
  {
    hide Tiled, Consolidated, FastSet;
    FastKindReleased(cs, k);
    forall idx | 0 <= idx < NFASTBINS ensures multiset(fastbins[idx]) == multiset(FastSet(Released(cs, k), idx)) {
      FastReleased(base, cs, k, idx);
    }
  }

  lemma {:induction false} FastKindReleased(cs: seq<Chunk>, k: nat)
    requires k + 1 < |cs|
    requires forall i {:trigger cs[i].use} :: 0 <= i < |cs| && cs[i].use == Fast ==>
      0 <= FastIndex(cs[i].size) < NFASTBINS
    ensures var r := Released(cs, k);
      forall i {:trigger r[i].use} :: 0 <= i < |r| && r[i].use == Fast ==> 0 <= FastIndex(r[i].size) < NFASTBINS
  {
  }

  ghost predicate NoFastBelow(fastbins: seq<seq<int>>, idx: nat) {
    forall j :: 0 <= j < idx && j < |fastbins| ==> fastbins[j] == []
  }

  ghost predicate SameEnd(a: seq<Chunk>, b: seq<Chunk>) {
    |a| > 0 && |b| > 0 && a[|a| - 1].End() == b[|b| - 1].End()
  }

  lemma {:induction false} FastListedShape(cs: seq<Chunk>, fastbins: seq<seq<int>>)
    requires FastListed(cs, fastbins)
    ensures |fastbins| == NFASTBINS && forall idx :: 0 <= idx < NFASTBINS ==> fastbins[idx := fastbins[idx]] == fastbins
  {
  }

  /** The chunk at the front of a fastbin. */
  lemma {:induction false} FastChunkOf(base: int, cs: seq<Chunk>, fastbins: seq<seq<int>>, idx: nat) returns (k: nat)
    requires Tiled(base, cs) && FastListed(cs, fastbins) && idx < NFASTBINS && fastbins[idx] != []
    ensures k + 1 < |cs| && cs[k].addr == fastbins[idx][0] && cs[k].use == Fast && FastIndex(cs[k].size) == idx
  {
    var x := fastbins[idx][0];
    assert x in multiset(fastbins[idx]);
    assert x in FastSet(cs, idx);
    k :| 0 <= k < |cs| && cs[k].use == Fast && FastIndex(cs[k].size) == idx && cs[k].addr == x;
  }

  lemma {:induction false} PendingReleased(base: int, cs: seq<Chunk>, fastbins: seq<seq<int>>, idx: nat, p: seq<int>,
                                           k: nat)
    requires Tiled(base, cs) && Consolidated(cs) && |fastbins| == NFASTBINS && idx < NFASTBINS
      && FastListed(cs, fastbins[idx := p])
    requires p != [] && k + 1 < |cs| && cs[k].addr == p[0] && cs[k].use == Fast && FastIndex(cs[k].size) == idx
    ensures FastListed(Released(cs, k), fastbins[idx := p[1..]])
  {
    hide Tiled, Consolidated;
    FastKindReleased(cs, k);
    forall j | 0 <= j < NFASTBINS
      ensures multiset(fastbins[idx := p[1..]][j]) == multiset(FastSet(Released(cs, k), j))
    {
      FastReleased(base, cs, k, j);
      assert multiset(fastbins[idx := p][j]) == multiset(FastSet(cs, j));
      if j == idx {
        assert p == [p[0]] + p[1..];
        assert cs[k].addr in FastSet(cs, j);
        MultisetMinus(FastSet(cs, j), p[0]);
      }
    }
  }

  lemma {:induction false} BusyReleased(base: int, cs: seq<Chunk>, k: nat)
    requires Tiled(base, cs) && k + 1 < |cs| && InUse(cs[k])
    ensures BusySet(Released(cs, k)) == BusySet(cs) - (if cs[k].use == Busy then {cs[k]} else {})
  {
    var lo, hi, r := Lowest(cs, k), Highest(cs, k), Released(cs, k);
    var d := hi - lo;
    forall c | c in BusySet(r) ensures c in BusySet(cs) && c != cs[k] {
      var i :| 0 <= i < |r| && r[i].use == Busy && r[i] == c;
      var i' := if i < lo then i else i + d;
      assert cs[i'] == c;
      if c == cs[k] { SameAddrSameChunk(base, cs, i', k); }
    }
    forall c | c in BusySet(cs) && c != cs[k] ensures c in BusySet(r) {
      var i :| 0 <= i < |cs| && cs[i].use == Busy && cs[i] == c;
      assert r[if i < lo then i else i - d] == c;
    }
  }

  lemma {:induction false} EndReleased(cs: seq<Chunk>, k: nat)
    requires k + 1 < |cs|
    requires var ms := MergeRange(cs, Lowest(cs, k), Highest(cs, k)); ms[|ms| - 1].End() == cs[|cs| - 1].End()
    ensures SameEnd(cs, Released(cs, k))
  {
  }

  lemma {:induction false} NoFastLeft(cs: seq<Chunk>, fastbins: seq<seq<int>>)
    requires FastListed(cs, fastbins) && NoFastBelow(fastbins, NFASTBINS)
    ensures forall i :: 0 <= i < |cs| ==> cs[i].use != Fast
  {
    forall i | 0 <= i < |cs| ensures cs[i].use != Fast {
      var idx := FastIndex(cs[i].size);
      assert cs[i].use == Fast ==> cs[i].addr in FastSet(cs, idx);
      if 0 <= idx < NFASTBINS { EmptyFastSet(cs, fastbins, idx); }
    }
  }

  lemma {:induction false} EmptyFastSet(cs: seq<Chunk>, fastbins: seq<seq<int>>, idx: nat)
    requires FastListed(cs, fastbins) && idx < NFASTBINS && fastbins[idx] == []
    ensures FastSet(cs, idx) == {}
  {
    var f := FastSet(cs, idx);
    assert multiset(f) == multiset(fastbins[idx]) == multiset{};
    forall x ensures x !in f { assert x in f <==> x in multiset(f); }
  }

  lemma {:induction false} BinnedTaken(base: int, cs: seq<Chunk>, k: nat, nb: nat)
    requires Tiled(base, cs) && k < |cs| && cs[k].use == Binned && nb <= cs[k].size && LegalSize(nb)
    ensures cs[k].addr in BinnedSet(cs)
    ensures BinnedSet(Exhausted(cs, k)) == BinnedSet(cs) - {cs[k].addr}
    ensures nb + MINSIZE <= cs[k].size ==>
      && cs[k].addr + nb !in BinnedSet(cs) - {cs[k].addr}
      && BinnedSet(SplitOff(cs, k, nb)) == BinnedSet(cs) - {cs[k].addr} + {cs[k].addr + nb}
  {
    var e, r := Exhausted(cs, k), SplitOff(cs, k, nb);
    forall x | x in BinnedSet(cs) && x != cs[k].addr ensures x in BinnedSet(e) && x in BinnedSet(r) {
      var i :| 0 <= i < |cs| && cs[i].use == Binned && cs[i].addr == x;
      assert e[i] == cs[i] && r[if i < k then i else i + 1] == cs[i];
    }
    forall x | x in BinnedSet(e) ensures x in BinnedSet(cs) && x != cs[k].addr {
      var i :| 0 <= i < |e| && e[i].use == Binned && e[i].addr == x;
      assert e[i] == cs[i];
      if x == cs[k].addr { SameAddrSameChunk(base, cs, i, k); }
    }
    if nb + MINSIZE <= cs[k].size {
      assert r[k + 1].use == Binned && r[k + 1].addr == cs[k].addr + nb;
      forall x | x in BinnedSet(r) && x != cs[k].addr + nb ensures x in BinnedSet(cs) && x != cs[k].addr {
        var i :| 0 <= i < |r| && r[i].use == Binned && r[i].addr == x;
        var i' := if i < k then i else i - 1;
        assert cs[i'] == r[i];
        if x == cs[k].addr { SameAddrSameChunk(base, cs, i', k); }
      }
      forall x | x in BinnedSet(cs) ensures x != cs[k].addr + nb {
        var i :| 0 <= i < |cs| && cs[i].use == Binned && cs[i].addr == x;
        if i < k { AddrGrows(base, cs, i, k); } else if i > k { AddrGrows(base, cs, k, i); }
      }
    }
  }

  lemma {:induction false} BinnedTopTaken(cs: seq<Chunk>, k: nat, nb: nat)
    requires k < |cs| && cs[k].use == Top && nb <= cs[k].size
    ensures BinnedSet(SplitOff(cs, k, nb)) == BinnedSet(cs)
  {
    var r := SplitOff(cs, k, nb);
    forall x | x in BinnedSet(cs) ensures x in BinnedSet(r) {
      var i :| 0 <= i < |cs| && cs[i].use == Binned && cs[i].addr == x;
      assert r[if i < k then i else i + 1] == cs[i];
    }
    forall x | x in BinnedSet(r) ensures x in BinnedSet(cs) {
      var i :| 0 <= i < |r| && r[i].use == Binned && r[i].addr == x;
      assert cs[if i < k then i else i - 1] == r[i];
    }
  }

  /** Taking from a free chunk leaves the fastbins right. */
  lemma {:induction false} FastTaken(cs: seq<Chunk>, fastbins: seq<seq<int>>, k: nat, nb: nat)
    requires FastListed(cs, fastbins) && k < |cs| && !InUse(cs[k]) && nb <= cs[k].size
    ensures FastListed(Exhausted(cs, k), fastbins) && FastListed(SplitOff(cs, k, nb), fastbins)
  {
    var e, r := Exhausted(cs, k), SplitOff(cs, k, nb);
    forall i | 0 <= i < |e| && e[i].use == Fast
      ensures 0 <= FastIndex(e[i].size) < NFASTBINS { assert cs[i].use == Fast; }
    forall i | 0 <= i < |r| && r[i].use == Fast ensures 0 <= FastIndex(r[i].size) < NFASTBINS {
      assert cs[if i < k then i else i - 1].use == Fast;
    }
    forall idx | 0 <= idx < NFASTBINS
      ensures FastSet(e, idx) == FastSet(cs, idx) && FastSet(r, idx) == FastSet(cs, idx)
    {
      FastSetTaken(cs, k, nb, idx);
    }
  }

  lemma {:induction false} FastSetTaken(cs: seq<Chunk>, k: nat, nb: nat, idx: int)
    requires k < |cs| && !InUse(cs[k]) && nb <= cs[k].size
    ensures FastSet(Exhausted(cs, k), idx) == FastSet(cs, idx)
    ensures FastSet(SplitOff(cs, k, nb), idx) == FastSet(cs, idx)
  {
    var e, r := Exhausted(cs, k), SplitOff(cs, k, nb);
    forall x | x in FastSet(cs, idx) ensures x in FastSet(e, idx) && x in FastSet(r, idx) {
      var i :| 0 <= i < |cs| && cs[i].use == Fast && FastIndex(cs[i].size) == idx && cs[i].addr == x;
      assert e[i] == cs[i] && r[if i < k then i else i + 1] == cs[i];
    }
    forall x | x in FastSet(e, idx) ensures x in FastSet(cs, idx) {
      var i :| 0 <= i < |e| && e[i].use == Fast && FastIndex(e[i].size) == idx && e[i].addr == x;
      assert cs[i] == e[i];
    }
    forall x | x in FastSet(r, idx) ensures x in FastSet(cs, idx) {
      var i :| 0 <= i < |r| && r[i].use == Fast && FastIndex(r[i].size) == idx && r[i].addr == x;
      assert cs[if i < k then i else i - 1] == r[i];
    }
  }

  lemma {:induction false} TopStays(cs: seq<Chunk>, k: nat)
    requires k < |cs|
    ensures |Exhausted(cs, k)| > 0 && Exhausted(cs, k)[|Exhausted(cs, k)| - 1].addr == cs[|cs| - 1].addr
  {
  }

  lemma {:induction false} TopTaken(before: seq<Chunk>, after: seq<Chunk>, k: nat, nb: nat)
    requires k < |before| && nb <= before[k].size && after == SplitOff(before, k, nb)
    ensures |after| > 0
    ensures after[|after| - 1].addr == if k == |before| - 1 then before[k].addr + nb else before[|before| - 1].addr
  {
  }

  // ----- The allocator's own debug check, and whole runs -----

  lemma {:induction false} AddrAligned(base: int, cs: seq<Chunk>, k: nat)
    requires Tiled(base, cs) && k < |cs|
    ensures (cs[k].addr - base) % ALIGNMENT == 0
  {
    hide Tiled;
    FirstAtBase(base, cs);
    if k > 0 {
      AddrAligned(base, cs, k - 1);
      ChunkFacts(base, cs, k);
      ChunkFacts(base, cs, k - 1);
      AlignedSum(cs[k - 1].addr - base, cs[k - 1].size);
    }
  }

  lemma {:induction false} FirstAtBase(base: int, cs: seq<Chunk>)
    requires Tiled(base, cs)
    ensures cs[0].addr == base
  {
  }

  lemma {:induction false} AlignedSum(a: int, b: int)
    requires a % ALIGNMENT == 0 && b % ALIGNMENT == 0
    ensures (a + b) % ALIGNMENT == 0
  {
    assert a + b == ALIGNMENT * (a / ALIGNMENT + b / ALIGNMENT);
  }

  /** What do_check_free_chunk asserts of words and sizes: a binned chunk claims to be free, its size is legal, its
      address as aligned as the arena, its foot matches its size, and the chunks below and above are in use. */
  lemma {:induction false} CheckFreeChunk(base: int, cs: seq<Chunk>, head: map<int, nat>, foot: map<int, nat>, k: nat)
    requires Tiled(base, cs) && Consolidated(cs) && Tags(head, foot, cs) && k < |cs| && cs[k].use == Binned
    ensures var p, n := cs[k].addr, cs[k].End();
      && p in head && n in head && n in foot
      && ChunkSize(head[p]) == cs[k].size == foot[n]
      && cs[k].size >= MINSIZE && cs[k].size % ALIGNMENT == 0 && (p - base) % ALIGNMENT == 0
      && PrevInUseBit(head[p]) && !PrevInUseBit(head[n])
      && n + ChunkSize(head[n]) in head && PrevInUseBit(head[n + ChunkSize(head[n])])
  {
    hide ChunkSize, PrevInUseBit;
    assert Separated(cs, k + 1);
    ChunkFacts(base, cs, k);
    AddrAligned(base, cs, k);
    OwnWords(base, cs, head, foot, k);
    OwnWords(base, cs, head, foot, k + 1);
    OwnWords(base, cs, head, foot, k + 2);
    if k > 0 { BeforeFree(base, cs, k); }
  }

  datatype Step =
    | FreeFast(k: nat)
    | TakeFast(k: nat)
    | Consolidate(k: nat)
    | FromBin(k: nat, nb: nat)
    | FromTop(nb: nat)

  predicate Enabled(cs: seq<Chunk>, s: Step) {
    match s
    case FreeFast(k) => k < |cs| && cs[k].use == Busy
    case TakeFast(k) => k < |cs| && cs[k].use == Fast
    case Consolidate(k) => k + 1 < |cs| && InUse(cs[k])
    case FromBin(k, nb) => k < |cs| && cs[k].use == Binned && LegalSize(nb) && nb <= cs[k].size
    case FromTop(nb) => |cs| > 0 && cs[|cs| - 1].use == Top && LegalSize(nb) && nb + MINSIZE <= cs[|cs| - 1].size
  }

  function Next(cs: seq<Chunk>, s: Step): seq<Chunk>
    requires Enabled(cs, s)
  {
    match s
    case FreeFast(k) => FastFreed(cs, k)
    case TakeFast(k) => Exhausted(cs, k)
    case Consolidate(k) => Released(cs, k)
    case FromBin(k, nb) => if cs[k].size - nb < MINSIZE then Exhausted(cs, k) else SplitOff(cs, k, nb)
    case FromTop(nb) => SplitOff(cs, |cs| - 1, nb)
  }

  /** The size words and feet a step writes. */
  datatype Marks = Marks(head: map<int, nat>, foot: map<int, nat>)

  function Edit(m: map<int, nat>, at: int, f: nat -> nat): map<int, nat> {
    if at in m then m[at := f(m[at])] else m
  }

  function NextMarks(m: Marks, cs: seq<Chunk>, s: Step): Marks
    requires Enabled(cs, s)
  {
    match s
    case FreeFast(_) => m
    case TakeFast(_) => m
    case Consolidate(k) => ReleasedMarks(m, cs, k)
    case FromBin(k, nb) =>
      if cs[k].size - nb < MINSIZE then m.(head := Edit(m.head, cs[k].End(), SetP)) else SplitMarks(m, cs, k, nb)
    case FromTop(nb) => SplitMarks(m, cs, |cs| - 1, nb)
  }

  function ReleasedMarks(m: Marks, cs: seq<Chunk>, k: nat): Marks
    requires k + 1 < |cs|
  {
    var lo, hi := Lowest(cs, k), Highest(cs, k);
    var c := Merged(cs, lo, hi);
    var h := if hi == k then Edit(m.head, cs[k].End(), ClearP) else m.head;
    Marks(h[c.addr := c.size + PREV_INUSE], if cs[hi].use == Top then m.foot else m.foot[c.End() := c.size])
  }

  function SplitMarks(m: Marks, cs: seq<Chunk>, k: nat, nb: nat): Marks
    requires k < |cs| && nb <= cs[k].size
  {
    Marks(m.head[cs[k].addr := nb + PREV_INUSE][cs[k].addr + nb := cs[k].size - nb + PREV_INUSE],
          if cs[k].use == Top then m.foot else m.foot[cs[k].End() := cs[k].size - nb])
  }

  /** Every step keeps the tiling, full consolidation, the extent of the arena and every size word and foot. */
  lemma {:induction false} NextKeeps(base: int, cs: seq<Chunk>, m: Marks, s: Step)
    requires Tiled(base, cs) && Consolidated(cs) && Enabled(cs, s) && Tags(m.head, m.foot, cs)
    ensures Tiled(base, Next(cs, s)) && Consolidated(Next(cs, s)) && SameEnd(cs, Next(cs, s))
    ensures Tags(NextMarks(m, cs, s).head, NextMarks(m, cs, s).foot, Next(cs, s))
  {
    hide Tiled, Consolidated, Tags, ClearP, SetP, MergeRange, SplitOff, Exhausted;
    match s
    case FreeFast(k) =>
      TopIsLast(base, cs, k);
      FastFreedTiled(base, cs, k);
      TagsFastFreed(m.head, m.foot, cs, k);
    case TakeFast(k) =>
      FastTakenTiled(base, cs, k);
      TagsFastTaken(m.head, m.foot, cs, k);
    case Consolidate(k) =>
      MergeTiled(base, cs, Lowest(cs, k), Highest(cs, k));
      ReleasedConsolidated(base, cs, k);
      TagsReleased(base, m.head, m.foot, cs, k);
    case FromBin(k, nb) =>
      if cs[k].size - nb < MINSIZE {
        ExhaustTiled(base, cs, k);
        TagsExhausted(base, m.head, m.foot, cs, k);
      } else {
        SplitTiled(base, cs, k, nb);
        TagsSplit(base, m.head, m.foot, cs, k, nb);
      }
    case FromTop(nb) =>
      SplitTiled(base, cs, |cs| - 1, nb);
      TagsSplit(base, m.head, m.foot, cs, |cs| - 1, nb);
  }

  /** n overlaps nothing that is held. */
  ghost predicate ApartFrom(n: Chunk, held: set<Chunk>) {
    forall c <- held :: c.End() <= n.addr || n.End() <= c.addr
  }

  /** After the step the program holds n as well, which overlaps nothing it held before. */
  ghost predicate Gains(cs: seq<Chunk>, n: Chunk, after: seq<Chunk>) {
    BusySet(after) == BusySet(cs) + {n} && ApartFrom(n, BusySet(cs))
  }

  /** What the program holds after a step: a request gives it one new chunk that fits with less than a chunk to
      spare, a free takes one away, and consolidating what it freed earlier changes nothing for it. */
  ghost predicate BusyStep(cs: seq<Chunk>, s: Step, after: seq<Chunk>)
    requires Enabled(cs, s)
  {
    match s
    case FreeFast(k) => BusySet(after) == BusySet(cs) - {cs[k]}
    case TakeFast(k) => Gains(cs, cs[k].(use := Busy), after)
    case Consolidate(k) => BusySet(after) == BusySet(cs) - (if cs[k].use == Busy then {cs[k]} else {})
    case FromBin(k, nb) =>
      var size := if cs[k].size - nb < MINSIZE then cs[k].size else nb;
      nb <= size < nb + MINSIZE && Gains(cs, Chunk(cs[k].addr, size, Busy), after)
    case FromTop(nb) => Gains(cs, Chunk(cs[|cs| - 1].addr, nb, Busy), after)
  }

  lemma {:induction false} NextMeans(base: int, cs: seq<Chunk>, s: Step)
    requires Tiled(base, cs) && Enabled(cs, s)
    ensures BusyStep(cs, s, Next(cs, s))
  {
    hide Tiled, BusySet, ApartFrom, Released, SplitOff, Exhausted, FastFreed;
    match s
    case FreeFast(k) => BusyFastFreed(base, cs, k);
    case TakeFast(k) =>
      BusyExhausted(cs, k);
      FrontApart(base, cs, k, cs[k].size);
    case Consolidate(k) => BusyReleased(base, cs, k);
    case FromBin(k, nb) =>
      var size := if cs[k].size - nb < MINSIZE then cs[k].size else nb;
      if cs[k].size - nb < MINSIZE { BusyExhausted(cs, k); } else { BusySplit(cs, k, nb); }
      FrontApart(base, cs, k, size);
    case FromTop(nb) =>
      BusySplit(cs, |cs| - 1, nb);
      FrontApart(base, cs, |cs| - 1, nb);
  }

  /** The unsorted list after a release: without the neighbours taken in, and with the merged chunk in front, unless
      that is top. */
  function ReleasedUnsorted(unsorted: seq<int>, cs: seq<Chunk>, k: nat): seq<int>
    requires k + 1 < |cs|
  {
    var lo, hi := Lowest(cs, k), Highest(cs, k);
    var u := if lo < k then Without(unsorted, cs[lo].addr) else unsorted;
    if cs[hi].use == Top then u else [cs[lo].addr] + if hi > k then Without(u, cs[hi].addr) else u
  }

  lemma {:induction false} MarksReleased(m: Marks, cs: seq<Chunk>, k: nat)
    requires k + 1 < |cs| && cs[k].End() in m.head
    ensures var lo, hi := Lowest(cs, k), Highest(cs, k);
      var c := Merged(cs, lo, hi);
      var n := cs[k].End();
      var h := if hi == k then m.head[n := ClearP(m.head[n])] else m.head;
      ReleasedMarks(m, cs, k) ==
        Marks(h[c.addr := c.size + PREV_INUSE], if cs[hi].use == Top then m.foot else m.foot[c.End() := c.size])
  {
  }

  lemma {:induction false} UnsortedReleased(unsorted: seq<int>, cs: seq<Chunk>, k: nat)
    requires k + 1 < |cs|
    ensures var lo, hi := Lowest(cs, k), Highest(cs, k);
      var u := if lo < k then Without(unsorted, cs[lo].addr) else unsorted;
      && (cs[hi].use == Top ==> ReleasedUnsorted(unsorted, cs, k) == u)
      && (cs[hi].use != Top ==>
            ReleasedUnsorted(unsorted, cs, k) == [cs[lo].addr] + if hi > k then Without(u, cs[hi].addr) else u)
  {
  }

  /** The front of a chunk that is not the program's overlaps nothing that is. */
  lemma {:induction false} FrontApart(base: int, cs: seq<Chunk>, k: nat, size: nat)
    requires Tiled(base, cs) && k < |cs| && cs[k].use != Busy && size <= cs[k].size
    ensures ApartFrom(Chunk(cs[k].addr, size, Busy), BusySet(cs))
  {
    forall c | c in BusySet(cs) ensures c.End() <= cs[k].addr || cs[k].addr + size <= c.addr {
      var i :| 0 <= i < |cs| && cs[i].use == Busy && cs[i] == c;
      if i < k { AddrGrows(base, cs, i, k); } else { AddrGrows(base, cs, k, i); }
    }
  }

  lemma {:induction false} BusyFastFreed(base: int, cs: seq<Chunk>, k: nat)
    requires Tiled(base, cs) && k < |cs| && cs[k].use == Busy
    ensures BusySet(FastFreed(cs, k)) == BusySet(cs) - {cs[k]}
  {
    var r := FastFreed(cs, k);
    forall c | c in BusySet(r) ensures c in BusySet(cs) && c != cs[k] {
      var i :| 0 <= i < |r| && r[i].use == Busy && r[i] == c;
      if c == cs[k] { SameAddrSameChunk(base, cs, i, k); }
    }
    forall c | c in BusySet(cs) && c != cs[k] ensures c in BusySet(r) {
      var i :| 0 <= i < |cs| && cs[i].use == Busy && cs[i] == c;
      assert r[i] == c;
    }
  }

  lemma {:induction false} BusyExhausted(cs: seq<Chunk>, k: nat)
    requires k < |cs| && cs[k].use != Busy
    ensures BusySet(Exhausted(cs, k)) == BusySet(cs) + {cs[k].(use := Busy)}
  {
    var r := Exhausted(cs, k);
    forall c | c in BusySet(cs) ensures c in BusySet(r) {
      var i :| 0 <= i < |cs| && cs[i].use == Busy && cs[i] == c;
      assert r[i] == c;
    }
    assert r[k] in BusySet(r);
  }

  lemma {:induction false} BusySplit(cs: seq<Chunk>, k: nat, nb: nat)
    requires k < |cs| && cs[k].use != Busy && nb <= cs[k].size
    ensures BusySet(SplitOff(cs, k, nb)) == BusySet(cs) + {Chunk(cs[k].addr, nb, Busy)}
  {
    var r := SplitOff(cs, k, nb);
    forall c | c in BusySet(cs) ensures c in BusySet(r) {
      var i :| 0 <= i < |cs| && cs[i].use == Busy && cs[i] == c;
      assert r[if i < k then i else i + 1] == c;
    }
    forall c | c in BusySet(r) && c != r[k] ensures c in BusySet(cs) {
      var i :| 0 <= i < |r| && r[i].use == Busy && r[i] == c;
      assert cs[if i < k then i else i - 1] == c;
    }
    assert r[k] in BusySet(r);
  }

  ghost predicate Run(cs: seq<Chunk>, m: Marks, steps: seq<Step>, end: seq<Chunk>, last: Marks)
    decreases |steps|
  {
    if steps == [] then end == cs && last == m
    else Enabled(cs, steps[0]) && Run(Next(cs, steps[0]), NextMarks(m, cs, steps[0]), steps[1..], end, last)
  }

  /** Over every run: the chunks tile the arena, no two free ones touch, every size word and foot is right, and no
      byte appears or is lost. */
  lemma {:induction false} RunKeeps(base: int, cs: seq<Chunk>, m: Marks, steps: seq<Step>, end: seq<Chunk>, last: Marks)
    requires Tiled(base, cs) && Consolidated(cs) && Tags(m.head, m.foot, cs) && Run(cs, m, steps, end, last)
    ensures Tiled(base, end) && Consolidated(end) && Tags(last.head, last.foot, end) && Total(end) == Total(cs)
    decreases |steps|
  {
    hide Tags, Next, NextMarks, Enabled, Consolidated;
    if steps != [] {
      NextKeeps(base, cs, m, steps[0]);
      TotalIsExtent(cs);
      TotalIsExtent(Next(cs, steps[0]));
      RunKeeps(base, Next(cs, steps[0]), NextMarks(m, cs, steps[0]), steps[1..], end, last);
    }
  }

  /** The arena once its first memory is there: one top chunk. */
  function Fresh(base: int, size: nat): seq<Chunk> { [Chunk(base, size, Top)] }

  /** From that arena on, after every run, what the debug check asserts of words and sizes holds of every free chunk. */
  lemma {:induction false} EveryFreeChunkIsSane(base: int, size: nat, steps: seq<Step>, end: seq<Chunk>, last: Marks,
                                                k: nat)
    requires LegalSize(size) && Run(Fresh(base, size), Marks(map[base := size + PREV_INUSE], map[]), steps, end, last)
    requires k < |end| && end[k].use == Binned
    ensures Total(end) == size
    ensures var p, n := end[k].addr, end[k].End();
      && p in last.head && n in last.head && n in last.foot
      && ChunkSize(last.head[p]) == end[k].size == last.foot[n] >= MINSIZE
      && PrevInUseBit(last.head[p]) && !PrevInUseBit(last.head[n])
  {
    hide Run, ChunkSize, PrevInUseBit;
    RunKeeps(base, Fresh(base, size), Marks(map[base := size + PREV_INUSE], map[]), steps, end, last);
    CheckFreeChunk(base, end, last.head, last.foot, k);
    TotalIsExtent(Fresh(base, size));
  }

  lemma {:induction false} FastIndexInRange(nb: nat)
    requires LegalSize(nb) && nb <= MAX_FAST_SIZE
    ensures 0 <= FastIndex(nb) < NFASTBINS
  {
  }

  /** A fastbin has one size only. */
  lemma {:induction false} FastSizeOf(size: nat, nb: nat)
    requires size % ALIGNMENT == 0 && nb % ALIGNMENT == 0 && FastIndex(size) == FastIndex(nb)
    ensures size == nb
  {
  }

  lemma {:induction false} BackAgain(cs: seq<Chunk>, k: nat)
    requires k < |cs| && cs[k].use == Busy
    ensures |FastFreed(cs, k)| == |cs| && FastFreed(cs, k)[k] == cs[k].(use := Fast)
    ensures Exhausted(FastFreed(cs, k), k) == cs
  {
  }

  lemma {:induction false} PushThenPop(fastbins: seq<seq<int>>, i: int, x: int)
    ensures 0 <= i < |fastbins| ==>
      var f := fastbins[i := [x] + fastbins[i]];
      f[i] != [] && f[i][0] == x && f[i := f[i][1..]] == fastbins
  {
  }

  class Arena {
    const base: int
    var head: map<int, nat>
    var foot: map<int, nat>
    var top: int
    var unsorted: seq<int>
    var regular: set<int>
    var fastbins: seq<seq<int>>
    ghost var cs: seq<Chunk>

    ghost predicate Sound()
      reads this
    {
      Core(base, cs, head, foot, top, unsorted, regular)
    }

    ghost predicate Valid()
      reads this
    {
      Sound() && FastListed(cs, fastbins)
    }

    /** malloc_init_state, and the first top chunk that sysmalloc installs. */
    constructor (base: int, size: nat)
      requires LegalSize(size)
      ensures Valid() && cs == Fresh(base, size)
    {
      this.base := base;
      head, foot, top := map[base := size + PREV_INUSE], map[], base;
      unsorted, regular := [], {};
      fastbins := seq(NFASTBINS, _ => []);
      cs := Fresh(base, size);
      new;
      assert forall idx :: 0 <= idx < NFASTBINS ==> FastSet(cs, idx) == {};
      assert BinnedSet(cs) == {};
    }

    /** unlink_chunk, for whichever bin the chunk is in; b is the set of chunks in bins.  Its size check passes. */
    method Unlink(p: int, ghost b: set<int>)
      requires SizeAgrees(head, foot, p)
      requires multiset(unsorted) + multiset(regular) == multiset(b) && p in b
      modifies this`unsorted, this`regular
      ensures multiset(unsorted) + multiset(regular) == multiset(b - {p})
      ensures unsorted == Without(old(unsorted), p) && regular == old(regular) - {p}
    {
      UnlinkListed(b, unsorted, regular, p);
      if p in unsorted { unsorted := Without(unsorted, p); } else { regular := regular - {p}; }
    }

    /** Putting a chunk at the front of the unsorted list. */
    method PushUnsorted(p: int, ghost b: set<int>)
      requires multiset(unsorted) + multiset(regular) == multiset(b) && p !in b
      modifies this`unsorted
      ensures multiset(unsorted) + multiset(regular) == multiset(b + {p})
      ensures unsorted == [p] + old(unsorted)
    {
      MultisetPlus(b, p);
      assert multiset([p] + unsorted) == multiset{p} + multiset(unsorted);
      unsorted := [p] + unsorted;
    }

    /** The backward half of consolidation: a free chunk below is unlinked and taken in. */
    method JoinBelow(chunk: int, ghost k: nat) returns (p: int, size: nat)
      requires Sound() && k + 1 < |cs| && cs[k].addr == chunk && InUse(cs[k])
      modifies this`unsorted, this`regular
      ensures var lo := Lowest(cs, k);
        && p == cs[lo].addr && size == (if lo < k then cs[lo].size else 0) + cs[k].size
        && unsorted == (if lo < k then Without(old(unsorted), cs[lo].addr) else old(unsorted))
        && multiset(unsorted) + multiset(regular) == multiset(BinnedSet(cs) - if lo < k then {cs[lo].addr} else {})
    {
      hide Core, Released, BinnedSet, ChunkSize, PrevInUseBit, Merged, InUse, SizeAgrees, Without;
      ReleaseReads(base, cs, head, foot, top, unsorted, regular, k);
      p := chunk;
      size := ChunkSize(head[p]);
      assert BinnedSet(cs) - {} == BinnedSet(cs);
      if !PrevInUseBit(head[p]) {
        var prevSize := foot[p];
        size := size + prevSize;
        p := p - prevSize;
        Unlink(p, BinnedSet(cs));
      }
    }

    /** The forward half, below anything but top: a free chunk above is unlinked and taken in, any other is told that
        the chunk below it is free; the result goes on the unsorted list. */
    method JoinAbove(p: int, size: nat, next: int, nextSize: nat, ghost b: set<int>, ghost above: bool)
      requires next in head && next + nextSize in head && (PrevInUseBit(head[next + nextSize]) <==> !above)
      requires above ==> SizeAgrees(head, foot, next) && next in b
      requires multiset(unsorted) + multiset(regular) == multiset(b) && p !in b - (if above then {next} else {})
      modifies this`head, this`foot, this`unsorted, this`regular
      ensures var total := if above then size + nextSize else size;
        && head == (if above then old(head) else old(head)[next := ClearP(old(head)[next])])[p := total + PREV_INUSE]
        && foot == old(foot)[p + total := total]
      ensures unsorted == [p] + if above then Without(old(unsorted), next) else old(unsorted)
      ensures multiset(unsorted) + multiset(regular) == multiset(b - (if above then {next} else {}) + {p})
    {
      hide PrevInUseBit, ClearP, SizeAgrees, Without;
      var total := size;
      ghost var rest := b - if above then {next} else {};
      assert !above ==> rest == b;
      if !PrevInUseBit(head[next + nextSize]) {
        Unlink(next, b);
        total := total + nextSize;
      } else {
        head := head[next := ClearP(head[next])];
      }
      PushUnsorted(p, rest);
      head := head[p := total + PREV_INUSE];
      foot := foot[p + total := total];
    }

    /** The consolidation code shared by _int_free and malloc_consolidate. */
    method Release(chunk: int, ghost k: nat)
      requires Sound() && k + 1 < |cs| && cs[k].addr == chunk && InUse(cs[k])
      modifies this`head, this`foot, this`top, this`unsorted, this`regular, this`cs
      ensures Sound() && cs == Released(old(cs), k)
      ensures Marks(head, foot) == ReleasedMarks(Marks(old(head), old(foot)), old(cs), k)
      ensures unsorted == ReleasedUnsorted(old(unsorted), old(cs), k)
    {
      hide Core, Released, BinnedSet, ChunkSize, PrevInUseBit, ClearP, Merged, InUse, SizeAgrees, Without;
      hide ReleasedMarks, ReleasedUnsorted;
      ghost var lo, hi := Lowest(cs, k), Highest(cs, k);
      ghost var m := Merged(cs, lo, hi);
      ghost var b := BinnedSet(cs) - if lo < k then {cs[lo].addr} else {};
      ghost var head0, foot0, top0, unsorted0, regular0 := head, foot, top, unsorted, regular;
      ReleaseReads(base, cs, head, foot, top, unsorted, regular, k);
      ghost var n := cs[k].End();
      ghost var head1 := (if hi == k then head[n := ClearP(head[n])] else head)[m.addr := m.size + PREV_INUSE];
      ghost var foot1 := if cs[hi].use == Top then foot else foot[m.End() := m.size];
      var p := chunk;
      var size := ChunkSize(head[p]);
      var next := p + size;
      var nextSize := ChunkSize(head[next]);
      p, size := JoinBelow(chunk, k);
      if next != top {
        JoinAbove(p, size, next, nextSize, b, hi > k);
      } else {
        assert b - {} + {} == b;
        size := size + nextSize;
        head := head[p := size + PREV_INUSE];
        top := p;
      }
      assert head == head1 && foot == foot1;
      MarksReleased(Marks(head0, foot0), cs, k);
      UnsortedReleased(unsorted0, cs, k);
      ReleasedCore(base, cs, head0, foot0, top0, unsorted0, regular0, k, unsorted, regular);
      cs := Released(cs, k);
    }

    /** _int_free of a chunk in use: small ones go to a fastbin with their tags untouched, others are consolidated. */
    method Free(chunk: int, maxFast: nat, ghost k: nat)
      requires Valid() && k + 1 < |cs| && cs[k].addr == chunk && cs[k].use == Busy && maxFast <= MAX_FAST_SIZE
      modifies this
      ensures Valid()
      ensures cs == if old(cs)[k].size <= maxFast then FastFreed(old(cs), k) else Released(old(cs), k)
      ensures Marks(head, foot) ==
        if old(cs)[k].size <= maxFast then Marks(old(head), old(foot))
        else ReleasedMarks(Marks(old(head), old(foot)), old(cs), k)
      ensures if old(cs)[k].size <= maxFast then unsorted == old(unsorted) && regular == old(regular) && top == old(top)
              else unsorted == ReleasedUnsorted(old(unsorted), old(cs), k)
      ensures |old(fastbins)| == NFASTBINS && old(cs)[k].size >= 32
      ensures old(cs)[k].size > maxFast ==> fastbins == old(fastbins)
      ensures old(cs)[k].size <= maxFast ==>
        var i := old(cs)[k].size / 16 - 2;
        i < NFASTBINS && fastbins == old(fastbins)[i := [chunk] + old(fastbins)[i]]
    {
      hide Core, Tiled, Consolidated, Tags, Released, FastFreed, FastListed, ChunkSize;
      CoreParts(base, cs, head, foot, top, unsorted, regular);
      OwnWords(base, cs, head, foot, k);
      FastListedShape(cs, fastbins);
      ChunkFacts(base, cs, k);
      var size := ChunkSize(head[chunk]);
      if size <= maxFast {
        FastFreedKeeps(base, cs, head, foot, top, unsorted, regular, fastbins, k);
        var idx := FastIndex(size);
        fastbins := fastbins[idx := [chunk] + fastbins[idx]];
        cs := FastFreed(cs, k);
      } else {
        FastListedReleased(base, cs, fastbins, k);
        Release(chunk, k);
      }
    }

    /** The fastbin part of _int_malloc: the first chunk of the bin of exactly that size, if there is one. */
    method TakeFast(nb: nat, maxFast: nat) returns (victim: int, ghost k: nat)
      requires Valid() && LegalSize(nb) && maxFast <= MAX_FAST_SIZE && base > 0
      modifies this`fastbins, this`cs
      ensures Valid()
      ensures var idx := FastIndex(nb);
        if nb <= maxFast && 0 <= idx < NFASTBINS && old(fastbins)[idx] != [] then
          && victim == old(fastbins)[idx][0] && fastbins == old(fastbins)[idx := old(fastbins)[idx][1..]]
          && k < |old(cs)| && old(cs)[k] == Chunk(victim, nb, Fast) && cs == Exhausted(old(cs), k)
        else victim == NULL && cs == old(cs) && fastbins == old(fastbins)
    {
      hide Core, Tiled, Consolidated, Tags, Exhausted, FastListed;
      victim, k := NULL, 0;
      CoreParts(base, cs, head, foot, top, unsorted, regular);
      FastListedShape(cs, fastbins);
      if nb <= maxFast {
        var idx := FastIndex(nb);
        FastIndexInRange(nb);
        if fastbins[idx] != [] {
          victim := fastbins[idx][0];
          k := FastChunkOf(base, cs, fastbins, idx);
          ChunkFacts(base, cs, k);
          FastSizeOf(cs[k].size, nb);
          FastTakenKeeps(base, cs, head, foot, top, unsorted, regular, fastbins, idx, k);
          fastbins := fastbins[idx := fastbins[idx][1..]];
          cs := Exhausted(cs, k);
        }
      }
    }

    /** Fastbins are stacks: a small chunk just freed is the next one of its size to be given out. */
    method FreeThenTake(chunk: int, maxFast: nat, ghost k: nat) returns (victim: int)
      requires Valid() && k + 1 < |cs| && cs[k].addr == chunk && cs[k].use == Busy && base > 0
      requires cs[k].size <= maxFast <= MAX_FAST_SIZE
      modifies this
      ensures Valid() && victim == chunk && cs == old(cs) && fastbins == old(fastbins)
      ensures Marks(head, foot) == Marks(old(head), old(foot)) && top == old(top)
      ensures unsorted == old(unsorted) && regular == old(regular)
    {
      hide Core, Tiled, Consolidated, Tags, FastListed, ChunkSize, FastFreed, Exhausted;
      CoreParts(base, cs, head, foot, top, unsorted, regular);
      ChunkFacts(base, cs, k);
      OwnWords(base, cs, head, foot, k);
      var nb := ChunkSize(head[chunk]);
      BackAgain(cs, k);
      PushThenPop(fastbins, FastIndex(nb), chunk);
      Free(chunk, maxFast, k);
      ghost var was := cs;
      ghost var j: nat;
      CoreParts(base, cs, head, foot, top, unsorted, regular);
      victim, j := TakeFast(nb, maxFast);
      SameAddrSameChunk(base, was, j, k);
    }

    /** Every chunk of every fastbin is consolidated: none is left, and the program's chunks are as they were. */
    method MallocConsolidate()
      requires Valid()
      modifies this
      ensures Valid() && forall i :: 0 <= i < |cs| ==> cs[i].use != Fast
      ensures BusySet(cs) == BusySet(old(cs)) && cs[|cs| - 1].End() == old(cs)[|old(cs)| - 1].End()
    {
      hide Core, Tiled, Consolidated, Tags, Released, BusySet, FastListed;
      CoreParts(base, cs, head, foot, top, unsorted, regular);
      for idx := 0 to NFASTBINS
        invariant Valid() && NoFastBelow(fastbins, idx)
        invariant BusySet(cs) == BusySet(old(cs)) && SameEnd(old(cs), cs)
      {
        FastListedShape(cs, fastbins);
        var p := fastbins[idx];
        ghost var before := fastbins;
        fastbins := fastbins[idx := []];
        assert fastbins[idx := p] == before;
        while p != []
          invariant Sound() && |fastbins| == NFASTBINS && FastListed(cs, fastbins[idx := p])
          invariant NoFastBelow(fastbins, idx + 1)
          invariant BusySet(cs) == BusySet(old(cs)) && SameEnd(old(cs), cs)
          decreases |p|
        {
          CoreParts(base, cs, head, foot, top, unsorted, regular);
          ghost var k := FastChunkOf(base, cs, fastbins[idx := p], idx);
          PendingReleased(base, cs, fastbins, idx, p, k);
          BusyReleased(base, cs, k);
          MergeTiled(base, cs, Lowest(cs, k), Highest(cs, k));
          EndReleased(cs, k);
          Release(p[0], k);
          p := p[1..];
        }
        assert fastbins[idx := p] == fastbins;
      }
      NoFastLeft(cs, fastbins);
    }

    /** Taking a chunk out of its bin for nb bytes: whole, or split with the remainder on the unsorted list. */
    method TakeBinned(victim: int, nb: nat, ghost k: nat)
      requires Valid() && k < |cs| && cs[k].addr == victim && cs[k].use == Binned && LegalSize(nb) && nb <= cs[k].size
      modifies this
      ensures Valid()
      ensures cs == Next(old(cs), FromBin(k, nb))
      ensures Marks(head, foot) == NextMarks(Marks(old(head), old(foot)), old(cs), FromBin(k, nb))
      ensures unsorted ==
        (if old(cs)[k].size - nb < MINSIZE then [] else [victim + nb]) + Without(old(unsorted), victim)
      ensures regular == old(regular) - {victim} && fastbins == old(fastbins)
    {
      hide Core, Tiled, Consolidated, Tags, FastListed, ChunkSize, SetP, Exhausted, SplitOff, BinnedSet, SizeAgrees;
      CoreParts(base, cs, head, foot, top, unsorted, regular);
      BinnedSizeAgrees(base, cs, head, foot, k);
      OwnWords(base, cs, head, foot, k);
      ListedIs(cs, unsorted, regular);
      TopIsLast(base, cs, k);
      var size := ChunkSize(head[victim]);
      BinnedTaken(base, cs, k, nb);
      Unlink(victim, BinnedSet(cs));
      if size - nb < MINSIZE { Exhaust(victim, size, nb, k); } else { Split(victim, size, nb, k); }
    }

    /** The victim, already unlinked, is used whole. */
    method Exhaust(victim: int, size: nat, ghost nb: nat, ghost k: nat)
      requires Tiled(base, cs) && Consolidated(cs) && Tags(head, foot, cs) && FastListed(cs, fastbins)
      requires top == cs[|cs| - 1].addr && k < |cs| && cs[k].addr == victim && cs[k].use == Binned
        && nb <= size == cs[k].size
      requires multiset(unsorted) + multiset(regular) == multiset(BinnedSet(Exhausted(cs, k)))
      modifies this`head, this`cs
      ensures Valid() && cs == Exhausted(old(cs), k)
      ensures Marks(head, foot) == Marks(Edit(old(head), victim + size, SetP), old(foot))
    {
      hide Core, Tiled, Consolidated, Tags, FastListed, SetP, Exhausted, SplitOff, BinnedSet;
      ExhaustTiled(base, cs, k);
      TagsExhausted(base, head, foot, cs, k);
      FastTaken(cs, fastbins, k, nb);
      head := head[victim + size := SetP(head[victim + size])];
      cs := Exhausted(cs, k);
      TopStays(old(cs), k);
      CoreWhole(base, cs, head, foot, top, unsorted, regular);
    }

    /** The victim, already unlinked, is split, and the remainder goes on the unsorted list. */
    method Split(victim: int, size: nat, nb: nat, ghost k: nat)
      requires Tiled(base, cs) && Consolidated(cs) && Tags(head, foot, cs) && FastListed(cs, fastbins)
      requires top == cs[|cs| - 1].addr && k < |cs| && cs[k].addr == victim && cs[k].use == Binned
      requires LegalSize(nb) && nb + MINSIZE <= size == cs[k].size
      requires multiset(unsorted) + multiset(regular) == multiset(BinnedSet(cs) - {victim})
      modifies this`head, this`foot, this`unsorted, this`cs
      ensures Valid() && cs == SplitOff(old(cs), k, nb)
      ensures Marks(head, foot) == SplitMarks(Marks(old(head), old(foot)), old(cs), k, nb)
      ensures unsorted == [victim + nb] + old(unsorted)
    {
      hide Core, Tiled, Consolidated, Tags, FastListed, Exhausted, SplitOff, BinnedSet;
      var rest := size - nb;
      TopIsLast(base, cs, k);
      BinnedTaken(base, cs, k, nb);
      SplitTiled(base, cs, k, nb);
      TagsSplit(base, head, foot, cs, k, nb);
      FastTaken(cs, fastbins, k, nb);
      PushUnsorted(victim + nb, BinnedSet(cs) - {victim});
      head := head[victim := nb + PREV_INUSE];
      head := head[victim + nb := rest + PREV_INUSE];
      foot := foot[victim + nb + rest := rest];
      cs := SplitOff(cs, k, nb);
      TopTaken(old(cs), cs, k, nb);
      CoreWhole(base, cs, head, foot, top, unsorted, regular);
    }

    /** use_top: the front of the top chunk, when something of a legal size is left of it. */
    method TakeTop(nb: nat) returns (taken: bool, victim: int)
      requires Valid() && LegalSize(nb)
      modifies this
      ensures Valid()
      ensures var last := |old(cs)| - 1;
        && last >= 0 && victim == old(cs)[last].addr && (taken <==> nb + MINSIZE <= old(cs)[last].size)
        && cs == (if taken then SplitOff(old(cs), last, nb) else old(cs))
        && Marks(head, foot) ==
             if taken then SplitMarks(Marks(old(head), old(foot)), old(cs), last, nb) else Marks(old(head), old(foot))
      ensures unsorted == old(unsorted) && regular == old(regular) && fastbins == old(fastbins)
    {
      hide Core, Tiled, Consolidated, Tags, FastListed, ChunkSize, SplitOff, BinnedSet;
      CoreParts(base, cs, head, foot, top, unsorted, regular);
      ghost var k: nat := |cs| - 1;
      OwnWords(base, cs, head, foot, k);
      TopIsLast(base, cs, k);
      ListedIs(cs, unsorted, regular);
      victim := top;
      var size := ChunkSize(head[victim]);
      taken := size >= nb + MINSIZE;
      if taken {
        SplitTiled(base, cs, k, nb);
        TagsSplit(base, head, foot, cs, k, nb);
        FastTaken(cs, fastbins, k, nb);
        BinnedTopTaken(cs, k, nb);
        top := victim + nb;
        head := head[victim := nb + PREV_INUSE];
        head := head[victim + nb := size - nb + PREV_INUSE];
        cs := SplitOff(cs, k, nb);
        TopTaken(old(cs), cs, k, nb);
        CoreWhole(base, cs, head, foot, top, unsorted, regular);
      }
    }
  }
}
