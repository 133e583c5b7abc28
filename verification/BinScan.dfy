/** The binmap-guided best-fit scan of _int_malloc, over an array of 32-bit map words. */
module BinScan {
  import opened BinIndexing
  import opened Words

  const BITSPERMAP := 32
  const BINMAPSIZE := 4

  // ----- Map words: 32-bit unsigned values and the bit operations on them -----

  function Or(a: nat, b: nat): nat {
    if a == 0 then b else (if a % 2 == 1 || b % 2 == 1 then 1 else 0) + 2 * Or(a / 2, b / 2)
  }

  function And(a: nat, b: nat): nat {
    if a == 0 then 0 else (if a % 2 == 1 && b % 2 == 1 then 1 else 0) + 2 * And(a / 2, b / 2)
  }

  /** a & ~b */
  function AndNot(a: nat, b: nat): (r: nat)
    ensures r <= a
  {
    if a == 0 then 0 else (if a % 2 == 1 && b % 2 == 0 then 1 else 0) + 2 * AndNot(a / 2, b / 2)
  }

  /** b << 1 in unsigned arithmetic */
  function ShiftOne(b: nat): nat { 2 * b % UINT32 }

  /** 1U << k */
  function Bit(k: nat): (b: nat)
    ensures b >= 1
  {
    if k == 0 then 1 else 2 * Bit(k - 1)
  }

  predicate BitSet(w: nat, k: nat) { And(Bit(k), w) != 0 }

  lemma {:induction false} AndZero(a: nat)
    ensures And(a, 0) == 0
    decreases a
  {
    if a != 0 { AndZero(a / 2); }
  }

  lemma {:induction false} BitSetHalf(w: nat, k: nat)
    ensures BitSet(w, 0) <==> w % 2 == 1
    ensures k > 0 ==> (BitSet(w, k) <==> BitSet(w / 2, k - 1))
  {
    assert And(1, w) == (if w % 2 == 1 then 1 else 0) + 2 * And(0, w / 2);
    if k > 0 { assert Bit(k) / 2 == Bit(k - 1) && Bit(k) % 2 == 0; }
  }

  /** The bits of a word: 31 is the last one, and shifting it out leaves nothing. */
  lemma {:induction false} BitRunsOut()
    ensures Bit(32) == UINT32
  {
    assert Bit(4) == 16 && Bit(8) == 256 && Bit(12) == 4096 && Bit(16) == 0x1_0000;
    assert Bit(20) == 0x10_0000 && Bit(24) == 0x100_0000 && Bit(28) == 0x1000_0000;
  }

  lemma {:induction false} BitGrows(j: nat, k: nat)
    requires j <= k
    ensures Bit(j) <= Bit(k)
    decreases k
  {
    if j < k { BitGrows(j, k - 1); }
  }

  lemma {:induction false} ShiftBit(k: nat)
    requires k < BITSPERMAP
    ensures ShiftOne(Bit(k)) == if k == BITSPERMAP - 1 then 0 else Bit(k + 1)
  {
    BitRunsOut();
    BitGrows(k + 1, BITSPERMAP);
    if k < BITSPERMAP - 1 { BitGrows(k + 1, BITSPERMAP - 1); }
  }

  /** bit > map: no bit from this one on is set. */
  lemma {:induction false} NoneAbove(w: nat, k: nat, j: nat)
    requires k <= j && Bit(k) > w
    ensures !BitSet(w, j)
    decreases k
  {
    BitSetHalf(w, j);
    if w == 0 {
      AndZero(Bit(j));
    } else if k > 0 {
      NoneAbove(w / 2, k - 1, j - 1);
    }
  }

  /** bit <= map with this bit clear: some later bit is set, so the advancing loop cannot run out. */
  lemma {:induction false} SomeAbove(w: nat, k: nat)
    requires Bit(k) <= w && !BitSet(w, k)
    ensures Bit(k + 1) <= w
    decreases k
  {
    BitSetHalf(w, k);
    if k > 0 { SomeAbove(w / 2, k - 1); }
  }

  /** Clearing or setting bit k touches no other bit. */
  lemma {:induction false} ClearBit(w: nat, k: nat, j: nat)
    ensures BitSet(AndNot(w, Bit(k)), j) <==> BitSet(w, j) && j != k
    decreases j
  {
    BitSetHalf(w, j);
    BitSetHalf(AndNot(w, Bit(k)), j);
    if w == 0 {
      AndZero(Bit(j));
    } else {
      assert AndNot(w, Bit(k)) / 2 == AndNot(w / 2, Bit(k) / 2);
      if k == 0 {
        AndNotZero(w / 2);
      } else {
        assert Bit(k) / 2 == Bit(k - 1) && Bit(k) % 2 == 0;
        if j > 0 { ClearBit(w / 2, k - 1, j - 1); }
      }
    }
  }

  lemma {:induction false} AndNotZero(w: nat)
    ensures AndNot(w, 0) == w
    decreases w
  {
    if w != 0 { AndNotZero(w / 2); }
  }

  lemma {:induction false} SetBit(w: nat, k: nat, j: nat)
    ensures BitSet(Or(w, Bit(k)), j) <==> BitSet(w, j) || j == k
    decreases j
  {
    BitSetHalf(w, j);
    BitSetHalf(Or(w, Bit(k)), j);
    assert Or(w, Bit(k)) / 2 == Or(w / 2, Bit(k) / 2) && (Or(w, Bit(k)) % 2 == 1 <==> w % 2 == 1 || Bit(k) % 2 == 1);
    if k == 0 {
      OrZero(w / 2);
    } else {
      assert Bit(k) / 2 == Bit(k - 1) && Bit(k) % 2 == 0;
      if j > 0 { SetBit(w / 2, k - 1, j - 1); }
    }
  }

  lemma {:induction false} OrZero(w: nat)
    ensures Or(w, 0) == w
    decreases w
  {
    if w != 0 { OrZero(w / 2); }
  }

  // ----- The map and the bins -----

  datatype Chunk = Chunk(addr: int, size: nat)

  ghost predicate Marked(binmap: seq<nat>, i: nat)
    requires |binmap| == BINMAPSIZE && i < NBINS
  {
    BitSet(binmap[i / BITSPERMAP], i % BITSPERMAP)
  }

  /** after is before with the bits of bins from..to cleared. */
  ghost predicate Cleared(before: seq<nat>, after: seq<nat>, from: nat, to: nat)
    requires |before| == |after| == BINMAPSIZE
  {
    forall i :: 0 <= i < NBINS ==> (Marked(after, i) <==> Marked(before, i) && !(from <= i < to))
  }

  lemma {:induction false} ClearedOne(before: seq<nat>, after: seq<nat>, bin: nat)
    requires |before| == |after| == BINMAPSIZE && bin < NBINS
    requires after == before[bin / BITSPERMAP := AndNot(before[bin / BITSPERMAP], Bit(bin % BITSPERMAP))]
    ensures Cleared(before, after, bin, bin + 1)
  {
    hide Bit, BitSet, AndNot;
    forall i | 0 <= i < NBINS ensures Marked(after, i) <==> Marked(before, i) && i != bin {
      ClearBit(before[i / BITSPERMAP], bin % BITSPERMAP, i % BITSPERMAP);
    }
  }

  predicate LegalSize(c: Config, size: nat) { c.MinSize() <= size && size % c.Alignment() == 0 }

  /** Chunks lie in the bins of their sizes. */
  ghost predicate Placed(c: Config, bins: seq<seq<Chunk>>) {
    forall i, k :: 0 <= i < |bins| && 0 <= k < |bins[i]| ==>
      LegalSize(c, bins[i][k].size) && BinIndex(c, bins[i][k].size) == i
  }

  /** Within a bin, the large ones come first. */
  ghost predicate Ordered(bins: seq<seq<Chunk>>) {
    forall i, k, l :: 0 <= i < |bins| && 0 <= k < l < |bins[i]| ==> bins[i][k].size >= bins[i][l].size
  }

  /** A clear bit means an empty bin. */
  ghost predicate Honest(binmap: seq<nat>, bins: seq<seq<Chunk>>)
    requires |binmap| == BINMAPSIZE && |bins| == NBINS
  {
    forall i :: 0 <= i < NBINS && bins[i] != [] ==> Marked(binmap, i)
  }

  ghost predicate Empty(bins: seq<seq<Chunk>>, from: nat, to: nat)
    requires to <= |bins|
  {
    forall i :: from <= i < to ==> bins[i] == []
  }

  lemma {:induction false} InBlock(block: nat, k: nat)
    requires k < BITSPERMAP
    ensures (BITSPERMAP * block + k) / BITSPERMAP == block && (BITSPERMAP * block + k) % BITSPERMAP == k
  {
  }

  /** The rest of a block is empty when the shifted bit is above the word, or has left it. */
  lemma {:induction false} SkipBlock(binmap: seq<nat>, bins: seq<seq<Chunk>>, idx: nat, block: nat, pos: nat)
    requires |binmap| == BINMAPSIZE && |bins| == NBINS && Honest(binmap, bins)
    requires block < BINMAPSIZE && pos <= BITSPERMAP
      && (pos < BITSPERMAP && binmap[block] != 0 ==> Bit(pos) > binmap[block])
    requires Empty(bins, idx, BITSPERMAP * block + pos)
    requires Cleared(binmap, binmap, idx, BITSPERMAP * block + pos)
    ensures Empty(bins, idx, BITSPERMAP * (block + 1))
    ensures Cleared(binmap, binmap, idx, BITSPERMAP * (block + 1))
  {
    hide Bit, BitSet;
    forall i | BITSPERMAP * block + pos <= i < BITSPERMAP * (block + 1) ensures !Marked(binmap, i) {
      InBlock(block, i - BITSPERMAP * block);
      NoneAbove(binmap[block], if binmap[block] == 0 then 0 else pos, i - BITSPERMAP * block);
    }
  }

  /** Passing one bin whose bit is clear. */
  lemma {:induction false} SkipBin(binmap: seq<nat>, bins: seq<seq<Chunk>>, idx: nat, bin: nat)
    requires |binmap| == BINMAPSIZE && |bins| == NBINS && Honest(binmap, bins) && bin < NBINS
    requires Empty(bins, idx, bin) && Cleared(binmap, binmap, idx, bin)
    requires !BitSet(binmap[bin / BITSPERMAP], bin % BITSPERMAP)
    ensures Empty(bins, idx, bin + 1) && Cleared(binmap, binmap, idx, bin + 1)
  {
  }

  /** Clearing the bit of an empty bin. */
  lemma {:induction false} ClearBin(binmap: seq<nat>, bins: seq<seq<Chunk>>, idx: nat, bin: nat)
    requires |binmap| == BINMAPSIZE && |bins| == NBINS && Honest(binmap, bins) && idx <= bin < NBINS && bins[bin] == []
    requires Empty(bins, idx, bin) && Cleared(binmap, binmap, idx, bin)
    ensures var after := binmap[bin / BITSPERMAP := AndNot(binmap[bin / BITSPERMAP], Bit(bin % BITSPERMAP))];
      && Honest(after, bins) && Empty(bins, idx, bin + 1)
      && Cleared(after, after, idx, bin + 1) && Cleared(binmap, after, idx, bin + 1)
  {
    ClearedOne(binmap, binmap[bin / BITSPERMAP := AndNot(binmap[bin / BITSPERMAP], Bit(bin % BITSPERMAP))], bin);
  }

  lemma {:induction false} NothingYet(binmap: seq<nat>, bins: seq<seq<Chunk>>, idx: nat)
    requires |binmap| == BINMAPSIZE && |bins| == NBINS && idx < NBINS
    ensures Empty(bins, idx, idx) && Cleared(binmap, binmap, idx, idx)
  {
  }

  lemma {:induction false} ClearedInTurn(a: seq<nat>, b: seq<nat>, c: seq<nat>, idx: nat, mid: nat, to: nat)
    requires |a| == |b| == |c| == BINMAPSIZE && mid <= to
    requires Cleared(a, b, idx, mid) && Cleared(b, c, idx, to)
    ensures Cleared(a, c, idx, to)
  {
  }

  lemma {:induction false} FirstBit()
    ensures Bit(0) == 1
  {
  }

  lemma {:induction false} IsBitSet(w: nat, k: nat)
    ensures BitSet(w, k) <==> And(Bit(k), w) != 0
  {
  }

  lemma {:induction false} WordInRange(k: nat, w: nat)
    requires Bit(k + 1) <= w < UINT32
    ensures k + 1 < BITSPERMAP
  {
    BitRunsOut();
    if k + 1 >= BITSPERMAP { BitGrows(BITSPERMAP, k + 1); }
  }

  datatype Found = UseTop | Victim(bin: nat, chunk: Chunk)

  /** No chunk in the bins from idx on is smaller than size. */
  ghost predicate SmallestAbove(c: Config, bins: seq<seq<Chunk>>, idx: nat, size: nat) {
    forall i, k :: idx <= i < |bins| && 0 <= k < |bins[i]| ==> bins[i][k].size >= size
  }

  lemma {:induction false} ScanStops(bins: seq<seq<Chunk>>, idx: nat, found: nat)
    requires |bins| == NBINS && idx <= found <= NBINS && Empty(bins, idx, found)
      && (found < NBINS ==> bins[found] != [])
    ensures found == NBINS <==> Empty(bins, idx, NBINS)
  {
  }

  /** A chunk of a higher bin is larger than the request: the assertion inside the scan cannot fail. */
  lemma {:induction false} LargerBinLargerSize(c: Config, nb: nat, size: nat)
    requires BinIndex(c, nb) < BinIndex(c, size)
    ensures nb < size
  {
    if size <= nb { BinIndexMonotone(c, size, nb); }
  }

  /** The last chunk of the first non-empty bin is the smallest of all bins from idx on. */
  lemma {:induction false} LastIsSmallest(c: Config, bins: seq<seq<Chunk>>, idx: nat, found: nat)
    requires Placed(c, bins) && Ordered(bins) && idx <= found < |bins| && Empty(bins, idx, found) && bins[found] != []
    ensures var v := bins[found][|bins[found]| - 1];
      SmallestAbove(c, bins, idx, v.size) && BinIndex(c, v.size) == found
  {
    hide BinIndex;
    var v := bins[found][|bins[found]| - 1];
    forall i, k | idx <= i < |bins| && 0 <= k < |bins[i]| ensures bins[i][k].size >= v.size {
      if i > found { LargerBinLargerSize(c, v.size, bins[i][k].size); }
    }
  }

  lemma {:induction false} TakeLast(c: Config, binmap: seq<nat>, bins: seq<seq<Chunk>>, i: nat)
    requires |binmap| == BINMAPSIZE && |bins| == NBINS && i < NBINS && bins[i] != []
    requires Placed(c, bins) && Ordered(bins) && Honest(binmap, bins)
    ensures var after := bins[i := bins[i][..|bins[i]| - 1]];
      Placed(c, after) && Ordered(after) && Honest(binmap, after)
  {
  }

  /** Where a chunk goes in its bin: first in a small bin; in a large one second among its equals, or in
      front of the smaller ones. */
  function PlacedIn(config: Config, s: seq<Chunk>, c: Chunk): seq<Chunk> {
    if InSmallbinRange(config, c.size) then [c] + s else SortedIn(s, c)
  }

  function SortedIn(s: seq<Chunk>, c: Chunk): seq<Chunk> {
    if s == [] || s[0].size < c.size then [c] + s
    else if s[0].size == c.size then [s[0], c] + s[1..]
    else [s[0]] + SortedIn(s[1..], c)
  }

  ghost predicate Descending(s: seq<Chunk>) {
    forall k, l :: 0 <= k < l < |s| ==> s[k].size >= s[l].size
  }

  /** Where c belongs in s: behind all larger chunks, and behind one of its own size when there is one. */
  ghost predicate InOrder(s: seq<Chunk>, c: Chunk, j: nat) {
    && j <= |s|
    && (forall k :: 0 <= k < j - 1 ==> s[k].size > c.size)
    && (j > 0 ==> s[j - 1].size >= c.size)
    && (j < |s| ==> if j > 0 && s[j - 1].size == c.size then true else s[j].size < c.size)
  }

  lemma {:induction false} SortedInPlace(s: seq<Chunk>, c: Chunk) returns (j: nat)
    ensures InOrder(s, c, j) && SortedIn(s, c) == s[..j] + [c] + s[j..]
  {
    j := 0;
    if s != [] && s[0].size == c.size {
      j := 1;
    } else if s != [] && s[0].size > c.size {
      j := SortedInPlace(s[1..], c);
      assert s[..j + 1] == [s[0]] + s[1..][..j] && s[j + 1..] == s[1..][j..];
      j := j + 1;
      assert forall k :: 0 <= k < j ==> k > 0 ==> s[k] == s[1..][k - 1];
    }
  }

  lemma {:induction false} SortedInElements(s: seq<Chunk>, c: Chunk)
    ensures multiset(SortedIn(s, c)) == multiset(s) + multiset{c}
    ensures forall x :: x in SortedIn(s, c) ==> x == c || x in s
  {
    if s != [] {
      assert s == [s[0]] + s[1..];
      if s[0].size > c.size { SortedInElements(s[1..], c); }
    }
  }

  lemma {:induction false} SortedInDescends(s: seq<Chunk>, c: Chunk)
    requires Descending(s)
    ensures Descending(SortedIn(s, c))
  {
    if s != [] && s[0].size > c.size {
      SortedInDescends(s[1..], c);
      SortedInElements(s[1..], c);
      var t := SortedIn(s[1..], c);
      forall k | 0 <= k < |t| ensures t[k].size <= s[0].size { assert t[k] in t; }
    }
  }

  /** A placed bin holds the old chunks and the new one, in order. */
  lemma {:induction false} PlacedKeepsOrder(config: Config, s: seq<Chunk>, c: Chunk)
    requires Descending(s) && (InSmallbinRange(config, c.size) ==> forall k :: 0 <= k < |s| ==> s[k].size == c.size)
    ensures var r := PlacedIn(config, s, c);
      Descending(r) && multiset(r) == multiset(s) + multiset{c} && forall x :: x in r ==> x == c || x in s
  {
    if !InSmallbinRange(config, c.size) {
      SortedInDescends(s, c);
      SortedInElements(s, c);
    }
  }

  lemma {:induction false} PlacedOrdered(config: Config, bins: seq<seq<Chunk>>, i: nat, c: Chunk)
    requires Placed(config, bins) && Ordered(bins) && i < |bins| && LegalSize(config, c.size)
      && BinIndex(config, c.size) == i
    ensures Placed(config, bins[i := PlacedIn(config, bins[i], c)]) && Ordered(bins[i := PlacedIn(config, bins[i], c)])
  {
    hide BinIndex, PlacedIn, InSmallbinRange;
    assert Descending(bins[i]);
    forall k | 0 <= k < |bins[i]| && InSmallbinRange(config, c.size) ensures bins[i][k].size == c.size {
      BinIndexRange(config, c.size);
      SmallBinHasOneSize(config, c.size, bins[i][k].size);
    }
    PlacedKeepsOrder(config, bins[i], c);
    var r := PlacedIn(config, bins[i], c);
    forall k | 0 <= k < |r|
      ensures LegalSize(config, r[k].size) && BinIndex(config, r[k].size) == i { assert r[k] in r; }
  }

  lemma {:induction false} MarkHonest(binmap: seq<nat>, bins: seq<seq<Chunk>>, i: nat, s: seq<Chunk>)
    requires |binmap| == BINMAPSIZE && |bins| == NBINS && i < NBINS && Honest(binmap, bins)
    ensures Honest(binmap[i / BITSPERMAP := Or(binmap[i / BITSPERMAP], Bit(i % BITSPERMAP))], bins[i := s])
  {
    hide Bit, Or, BitSet;
    forall j {:trigger bins[j]} | 0 <= j < NBINS && bins[i := s][j] != []
      ensures Marked(binmap[i / BITSPERMAP := Or(binmap[i / BITSPERMAP], Bit(i % BITSPERMAP))], j)
    {
      SetBit(binmap[i / BITSPERMAP], i % BITSPERMAP, j % BITSPERMAP);
    }
  }

  lemma {:induction false} OrBelow(a: nat, b: nat, k: nat)
    requires a < Bit(k) && b < Bit(k)
    ensures Or(a, b) < Bit(k)
    decreases k
  {
    if k > 0 && a != 0 { OrBelow(a / 2, b / 2, k - 1); }
  }

  lemma {:induction false} OrInRange(w: nat, k: nat)
    requires w < UINT32 && k < BITSPERMAP
    ensures Or(w, Bit(k)) < UINT32
  {
    BitRunsOut();
    BitGrows(k + 1, BITSPERMAP);
    OrBelow(w, Bit(k), BITSPERMAP);
  }

  class Bins {
    const config: Config
    const binmap: array<nat>
    /** Each bin from first to last, as its list threads it. */
    var bins: seq<seq<Chunk>>

    ghost predicate Valid()
      reads this, binmap
    {
      && binmap.Length == BINMAPSIZE && |bins| == NBINS
      && (forall i :: 0 <= i < BINMAPSIZE ==> binmap[i] < UINT32)
      && Placed(config, bins) && Ordered(bins) && Honest(binmap[..], bins)
    }

    /** malloc_init_state: every bin is empty, and so is the binmap. */
    constructor (config: Config)
      ensures Valid() && this.config == config && forall i :: 0 <= i < NBINS ==> bins[i] == []
    {
      this.config := config;
      binmap := new nat[BINMAPSIZE](_ => 0);
      bins := seq(NBINS, _ => []);
    }

    /** The loop over whole blocks: the first block behind this one with any bit set, or BINMAPSIZE. */
    method NextBlock(from: nat, ghost idx: nat, ghost pos: nat) returns (block: nat, word: nat)
      requires Valid() && from < BINMAPSIZE && pos <= BITSPERMAP
      requires pos < BITSPERMAP && binmap[from] != 0 ==> Bit(pos) > binmap[from]
      requires Empty(bins, idx, BITSPERMAP * from + pos)
        && Cleared(binmap[..], binmap[..], idx, BITSPERMAP * from + pos)
      ensures from < block <= BINMAPSIZE && (block < BINMAPSIZE ==> word == binmap[block] != 0)
      ensures Empty(bins, idx, BITSPERMAP * block) && Cleared(binmap[..], binmap[..], idx, BITSPERMAP * block)
    {
      hide Bit, BitSet, Placed, Ordered, Honest, Empty, Cleared;
      SkipBlock(binmap[..], bins, idx, from, pos);
      block, word := from + 1, 0;
      if block < BINMAPSIZE { word := binmap[block]; }
      while block < BINMAPSIZE && word == 0
        invariant from < block <= BINMAPSIZE && (block < BINMAPSIZE ==> word == binmap[block])
        invariant Empty(bins, idx, BITSPERMAP * block) && Cleared(binmap[..], binmap[..], idx, BITSPERMAP * block)
      {
        SkipBlock(binmap[..], bins, idx, block, 0);
        block := block + 1;
        if block < BINMAPSIZE { word := binmap[block]; }
      }
    }

    /** The loop over the bits of one word: the first set bit from this one on. */
    method NextBit(from: nat, first: nat, block: nat, word: nat, ghost idx: nat, ghost at: nat)
      returns (bin: nat, bit: nat, ghost pos: nat)
      requires Valid() && block < BINMAPSIZE && word == binmap[block] && idx <= from
      requires at < BITSPERMAP && from == BITSPERMAP * block + at && first == Bit(at) <= word
      requires Empty(bins, idx, from) && Cleared(binmap[..], binmap[..], idx, from)
      ensures at <= pos < BITSPERMAP && bin == BITSPERMAP * block + pos && bit == Bit(pos) && BitSet(word, pos)
      ensures Empty(bins, idx, bin) && Cleared(binmap[..], binmap[..], idx, bin)
    {
      hide Bit, BitSet, And, ShiftOne, Placed, Ordered, Honest, Empty, Cleared;
      bin, bit, pos := from, first, at;
      while And(bit, word) == 0
        invariant at <= pos < BITSPERMAP && bin == BITSPERMAP * block + pos && bit == Bit(pos) <= word < UINT32
        invariant Empty(bins, idx, bin) && Cleared(binmap[..], binmap[..], idx, bin)
        decreases BITSPERMAP - pos
      {
        IsBitSet(word, pos);
        SomeAbove(word, pos);
        WordInRange(pos, word);
        ShiftBit(pos);
        SkipBin(binmap[..], bins, idx, bin);
        bin, bit, pos := bin + 1, ShiftOne(bit), pos + 1;
        assert bit != 0;
      }
      IsBitSet(word, pos);
    }

    /** The scan from bin idx on: the first non-empty bin, or NBINS for use_top.  Bits are cleared
        exactly for the empty bins passed on the way. */
    method ScanBins(idx: nat) returns (found: nat)
      requires Valid() && idx < NBINS
      modifies binmap
      ensures Valid() && idx <= found <= NBINS
      ensures found < NBINS ==> bins[found] != []
      ensures Empty(bins, idx, found)
      ensures Cleared(old(binmap[..]), binmap[..], idx, found)
    {
      hide Bit, BitSet, And, AndNot, ShiftOne, Placed, Ordered, Honest, Empty, Cleared;
      var bin, block := idx, idx / BITSPERMAP;
      ghost var pos: nat := idx % BITSPERMAP;
      var bit, word := Bit(idx % BITSPERMAP), binmap[block];
      ghost var was, now := binmap[..], binmap[..];
      NothingYet(now, bins, idx);
      while true
        invariant block < BINMAPSIZE && bin == BITSPERMAP * block + pos && pos <= BITSPERMAP && idx <= bin
        invariant bit == if pos < BITSPERMAP then Bit(pos) else 0
        invariant was == old(binmap[..]) && now == binmap[..] && word == now[block]
        invariant forall i :: 0 <= i < BINMAPSIZE ==> binmap[i] < UINT32
        invariant Honest(now, bins) && Empty(bins, idx, bin)
        invariant Cleared(now, now, idx, bin) && Cleared(was, now, idx, bin)
        decreases NBINS - bin
      {
        ghost var mid := bin;
        if bit > word || bit == 0 {
          block, word := NextBlock(block, idx, pos);
          if block >= BINMAPSIZE {
            ClearedInTurn(was, now, now, idx, mid, NBINS);
            return NBINS;
          }
          bin, bit, pos := BITSPERMAP * block, 1, 0;
          FirstBit();
        }
        bin, bit, pos := NextBit(bin, bit, block, word, idx, pos);
        ClearedInTurn(was, now, now, idx, mid, bin);
        if bins[bin] == [] {
          ClearBin(now, bins, idx, bin);
          ghost var before := now;
          word := AndNot(word, bit);
          binmap[block] := word;
          now := binmap[..];
          assert now == before[block := word];
          ClearedInTurn(was, before, now, idx, bin, bin + 1);
          ShiftBit(pos);
          bin, bit, pos := bin + 1, ShiftOne(bit), pos + 1;
        } else {
          return bin;
        }
      }
    }

    /** The chunk the scan takes: the last of the first non-empty bin above the request's own. */
    method BestFit(nb: nat) returns (r: Found)
      requires Valid() && LegalSize(config, nb)
      modifies this`bins, binmap
      ensures Valid()
      ensures r == UseTop <==> Empty(old(bins), BinIndex(config, nb) + 1, NBINS)
      ensures r == UseTop ==> bins == old(bins)
      ensures r.Victim? ==>
        && BinIndex(config, nb) < r.bin < NBINS
        && old(bins)[r.bin] == bins[r.bin] + [r.chunk] && bins == old(bins)[r.bin := bins[r.bin]]
        && r.chunk.size >= nb
        && SmallestAbove(config, old(bins), BinIndex(config, nb) + 1, r.chunk.size)
    {
      hide BinIndex, SmallestAbove, Placed, Ordered, Honest, Empty, Cleared;
      BinIndexRange(config, nb);
      var idx := BinIndex(config, nb) + 1;
      var found := ScanBins(idx);
      ScanStops(bins, idx, found);
      if found == NBINS { return UseTop; }
      LastIsSmallest(config, bins, idx, found);
      var bin := bins[found];
      var victim := bin[|bin| - 1];
      LargerBinLargerSize(config, nb, victim.size);
      TakeLast(config, binmap[..], bins, found);
      bins := bins[found := bin[..|bin| - 1]];
      return Victim(found, victim);
    }

    /** Placing a chunk in its bin, with mark_bin. */
    method Place(c: Chunk)
      requires Valid() && LegalSize(config, c.size)
      modifies this`bins, binmap
      ensures Valid() && bins ==
        old(bins)[BinIndex(config, c.size) := PlacedIn(config, old(bins)[BinIndex(config, c.size)], c)]
      ensures var i := BinIndex(config, c.size);
        && i < |bins| == |old(bins)|
        && (i < 64 ==> bins[i] == [c] + old(bins)[i])
        && (i >= 64 ==>
              exists j: nat :: InOrder(old(bins)[i], c, j) && bins[i] == old(bins)[i][..j] + [c] + old(bins)[i][j..])
    {
      hide Honest, Bit, Or, BitSet;
      BinIndexRange(config, c.size);
      var i := BinIndex(config, c.size);
      ghost var before := binmap[..];
      MarkHonest(before, bins, i, PlacedIn(config, bins[i], c));
      OrInRange(binmap[i / BITSPERMAP], i % BITSPERMAP);
      binmap[i / BITSPERMAP] := Or(binmap[i / BITSPERMAP], Bit(i % BITSPERMAP));
      assert binmap[..] == before[i / BITSPERMAP := Or(before[i / BITSPERMAP], Bit(i % BITSPERMAP))];
      PlacedOrdered(config, bins, i, c);
      if i >= 64 { var j := SortedInPlace(bins[i], c); }
      bins := bins[i := PlacedIn(config, bins[i], c)];
    }
  }
}
