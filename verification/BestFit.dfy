/** The two searches of _int_malloc together: through the request's own bin, then through the binmap.  What they
    give is the best fit over all bins. */
module BestFit {
  import opened BinIndexing
  import L = LargeBin
  import S = BinScan

  // ----- A large bin as the list of its chunks with their sizes -----

  function Row(g: L.Group): (s: seq<S.Chunk>)
    ensures |s| == |g.chunks| && forall j :: 0 <= j < |s| ==> s[j] == S.Chunk(g.chunks[j], g.size)
  {
    seq(|g.chunks|, j requires 0 <= j < |g.chunks| => S.Chunk(g.chunks[j], g.size))
  }

  function Chunks(gs: seq<L.Group>): seq<S.Chunk> {
    if gs == [] then [] else Row(gs[0]) + Chunks(gs[1..])
  }

  lemma {:induction false} InChunks(gs: seq<L.Group>, c: S.Chunk)
    ensures c in Chunks(gs) <==> exists k :: 0 <= k < |gs| && c.size == gs[k].size && c.addr in gs[k].chunks
  {
    if gs != [] {
      InChunks(gs[1..], c);
      InRow(gs[0], c);
      if c in Chunks(gs[1..]) {
        var k :| 0 <= k < |gs[1..]| && c.size == gs[1..][k].size && c.addr in gs[1..][k].chunks;
        assert gs[k + 1] == gs[1..][k];
      }
      if k :| 0 <= k < |gs| && c.size == gs[k].size && c.addr in gs[k].chunks {
        assert k > 0 ==> gs[1..][k - 1] == gs[k];
      }
    }
  }

  lemma {:induction false} InRow(g: L.Group, c: S.Chunk)
    ensures c in Row(g) <==> c.size == g.size && c.addr in g.chunks
  {
    if c.size == g.size && c.addr in g.chunks {
      var j :| 0 <= j < |g.chunks| && g.chunks[j] == c.addr;
      assert Row(g)[j] == c;
    }
  }

  /** The insertion over the skip ring is the plain insertion into the sorted list. */
  lemma {:induction false} InsertedIsSortedIn(gs: seq<L.Group>, size: nat, x: int)
    requires L.Full(gs)
    ensures Chunks(L.Inserted(gs, size, x)) == S.SortedIn(Chunks(gs), S.Chunk(x, size))
  {
    hide S.SortedIn, Chunks;
    var c := S.Chunk(x, size);
    if gs == [] {
      NoChunks();
      ChunksCons(L.Group(size, [x]), gs);
      RowOfOne(size, x);
      InFront([], c);
    } else {
      var g, t := gs[0], gs[1..];
      assert gs == [g] + t;
      ChunksCons(g, t);
      assert g.chunks != [];
      if g.size < size {
        ChunksCons(L.Group(size, [x]), gs);
        RowOfOne(size, x);
        InFront(Chunks(gs), c);
      } else if g.size == size {
        ChunksCons(L.Joined(g, x), t);
        RowOfJoined(g, x);
        BehindFirst(Row(g), Chunks(t), c);
      } else {
        InsertedIsSortedIn(t, size, x);
        ChunksCons(g, L.Inserted(t, size, x));
        PastLarger(Row(g), Chunks(t), c);
      }
    }
  }

  lemma {:induction false} NoChunks()
    ensures Chunks([]) == []
  {
  }

  lemma {:induction false} ChunksCons(g: L.Group, t: seq<L.Group>)
    ensures Chunks([g] + t) == Row(g) + Chunks(t)
  {
    assert ([g] + t)[1..] == t;
  }

  lemma {:induction false} RowOfOne(size: nat, x: int)
    ensures Row(L.Group(size, [x])) == [S.Chunk(x, size)]
  {
  }

  lemma {:induction false} RowOfJoined(g: L.Group, x: int)
    requires g.chunks != []
    ensures Row(L.Joined(g, x)) == [Row(g)[0], S.Chunk(x, g.size)] + Row(g)[1..]
  {
  }

  lemma {:induction false} InFront(s: seq<S.Chunk>, c: S.Chunk)
    requires s == [] || s[0].size < c.size
    ensures S.SortedIn(s, c) == [c] + s
  {
  }

  lemma {:induction false} BehindFirst(row: seq<S.Chunk>, rest: seq<S.Chunk>, c: S.Chunk)
    requires row != [] && row[0].size == c.size
    ensures S.SortedIn(row + rest, c) == [row[0], c] + row[1..] + rest
  {
    assert (row + rest)[1..] == row[1..] + rest;
  }

  lemma {:induction false} PastLarger(row: seq<S.Chunk>, rest: seq<S.Chunk>, c: S.Chunk)
    requires forall j :: 0 <= j < |row| ==> row[j].size > c.size
    ensures S.SortedIn(row + rest, c) == row + S.SortedIn(rest, c)
    decreases |row|
  {
    if row == [] {
      assert row + rest == rest;
    } else {
      assert (row + rest)[1..] == row[1..] + rest;
      PastLarger(row[1..], rest, c);
      assert row == [row[0]] + row[1..];
    }
  }

  // ----- The best fit over all bins -----

  /** The sizes of all chunks in bins are told apart from nb as their bins are from nb's. */
  lemma {:induction false} OtherBins(c: Config, nb: nat, size: nat)
    ensures BinIndex(c, size) < BinIndex(c, nb) ==> size < nb
    ensures BinIndex(c, size) > BinIndex(c, nb) ==> size > nb
  {
    hide BinIndex;
    if size >= nb { BinIndexMonotone(c, nb, size); }
    if size <= nb { BinIndexMonotone(c, size, nb); }
  }

  ghost predicate NothingFits(bins: seq<seq<S.Chunk>>, nb: nat) {
    forall i, k :: 0 <= i < |bins| && 0 <= k < |bins[i]| ==> bins[i][k].size < nb
  }

  /** size fits, some binned chunk has it, and no fitting chunk in any bin is smaller. */
  ghost predicate IsBestFit(bins: seq<seq<S.Chunk>>, nb: nat, victim: S.Chunk) {
    && victim.size >= nb && (exists i :: 0 <= i < |bins| && victim in bins[i])
    && forall i, k :: 0 <= i < |bins| && 0 <= k < |bins[i]| && bins[i][k].size >= nb ==> bins[i][k].size >= victim.size
  }

  ghost predicate OwnFails(bins: seq<seq<S.Chunk>>, idx: nat, nb: nat)
    requires idx < |bins|
  {
    forall k :: 0 <= k < |bins[idx]| ==> bins[idx][k].size < nb
  }

  ghost predicate OwnFinds(bins: seq<seq<S.Chunk>>, idx: nat, nb: nat, victim: S.Chunk)
    requires idx < |bins|
  {
    && victim.size >= nb && victim in bins[idx]
    && forall k :: 0 <= k < |bins[idx]| && bins[idx][k].size >= nb ==> bins[idx][k].size >= victim.size
  }

  lemma {:induction false} OwnIsBest(c: Config, bins: seq<seq<S.Chunk>>, nb: nat, victim: S.Chunk)
    requires S.Placed(c, bins) && BinIndex(c, nb) < |bins| && OwnFinds(bins, BinIndex(c, nb), nb, victim)
    ensures IsBestFit(bins, nb, victim)
  {
    hide BinIndex;
    var idx := BinIndex(c, nb);
    var at :| 0 <= at < |bins[idx]| && bins[idx][at] == victim;
    forall i, k | 0 <= i < |bins| && 0 <= k < |bins[i]| && bins[i][k].size >= nb
      ensures bins[i][k].size >= victim.size
    {
      OtherBins(c, nb, bins[i][k].size);
      OtherBins(c, victim.size, bins[i][k].size);
    }
  }

  /** When the own bin has nothing, the smallest chunk above it is the best fit of all. */
  lemma {:induction false} AboveIsBest(c: Config, bins: seq<seq<S.Chunk>>, nb: nat, bin: nat, victim: S.Chunk)
    requires S.Placed(c, bins) && BinIndex(c, nb) < |bins| && OwnFails(bins, BinIndex(c, nb), nb)
    requires bin < |bins| && victim in bins[bin] && victim.size >= nb
    requires S.SmallestAbove(c, bins, BinIndex(c, nb) + 1, victim.size)
    ensures IsBestFit(bins, nb, victim)
  {
    hide BinIndex;
    forall i, k | 0 <= i < |bins| && 0 <= k < |bins[i]| && bins[i][k].size >= nb
      ensures bins[i][k].size >= victim.size
    {
      OtherBins(c, nb, bins[i][k].size);
    }
  }

  lemma {:induction false} NothingAbove(c: Config, bins: seq<seq<S.Chunk>>, nb: nat)
    requires S.Placed(c, bins) && BinIndex(c, nb) < |bins| && OwnFails(bins, BinIndex(c, nb), nb)
    requires S.Empty(bins, BinIndex(c, nb) + 1, |bins|)
    ensures NothingFits(bins, nb)
  {
    hide BinIndex;
    forall i, k | 0 <= i < |bins| && 0 <= k < |bins[i]| ensures bins[i][k].size < nb {
      OtherBins(c, nb, bins[i][k].size);
    }
  }

  lemma {:induction false} LargeOwnSearch(bins: seq<seq<S.Chunk>>, idx: nat, gs: seq<L.Group>, nb: nat, found: bool,
                                          victim: int, h: nat)
    requires idx < |bins| && bins[idx] == Chunks(gs) && L.Falling(gs)
    requires !found <==> forall k :: 0 <= k < |gs| ==> gs[k].size < nb
    requires found ==>
      h < |gs| && gs[h].size >= nb && (forall k :: h < k < |gs| ==> gs[k].size < nb) && victim in gs[h].chunks
    ensures if found then OwnFinds(bins, idx, nb, S.Chunk(victim, gs[h].size)) else OwnFails(bins, idx, nb)
  {
    hide Chunks;
    forall k | 0 <= k < |bins[idx]|
      ensures if found then bins[idx][k].size >= nb ==> bins[idx][k].size >= gs[h].size else bins[idx][k].size < nb
    {
      InChunks(gs, bins[idx][k]);
    }
    if found { InChunks(gs, S.Chunk(victim, gs[h].size)); }
  }

  lemma {:induction false} SmallOwnSearch(c: Config, bins: seq<seq<S.Chunk>>, nb: nat, victim: S.Chunk)
    requires S.Placed(c, bins) && S.LegalSize(c, nb) && InSmallbinRange(c, nb) && BinIndex(c, nb) < |bins|
    requires var own := bins[BinIndex(c, nb)]; own != [] ==> victim == own[|own| - 1]
    ensures if bins[BinIndex(c, nb)] != [] then OwnFinds(bins, BinIndex(c, nb), nb, victim)
            else OwnFails(bins, BinIndex(c, nb), nb)
    ensures bins[BinIndex(c, nb)] != [] ==> victim.size == nb
  {
    hide BinIndex, InSmallbinRange;
    BinIndexRange(c, nb);
    var idx := BinIndex(c, nb);
    forall k | 0 <= k < |bins[idx]| ensures bins[idx][k].size == nb { SmallBinHasOneSize(c, nb, bins[idx][k].size); }
  }

  /** With no unsorted chunks left: the chunk taken for a request is the smallest fitting one of all bins, and top is
      used exactly when no binned chunk fits.  `own` is the request's own bin, when that is a large one. */
  method Choose(scan: S.Bins, own: L.Bin, nb: nat) returns (r: S.Found)
    requires scan.Valid() && own.Valid() && S.LegalSize(scan.config, nb)
    requires !InSmallbinRange(scan.config, nb) ==> scan.bins[BinIndex(scan.config, nb)] == Chunks(own.groups)
    modifies scan`bins, scan.binmap
    ensures r == S.UseTop <==> NothingFits(old(scan.bins), nb)
    ensures r.Victim? ==> IsBestFit(old(scan.bins), nb, r.chunk)
    ensures r.Victim? && r.bin != BinIndex(scan.config, nb) ==>
      && r.bin < |old(scan.bins)| == |scan.bins|
      && old(scan.bins)[r.bin] == scan.bins[r.bin] + [r.chunk]
      && scan.bins == old(scan.bins)[r.bin := scan.bins[r.bin]]
    ensures r.Victim? && r.bin == BinIndex(scan.config, nb) ==>
      && scan.bins == old(scan.bins) && scan.binmap[..] == old(scan.binmap[..])
      && r.bin < |scan.bins| && r.chunk in scan.bins[r.bin]
    ensures r == S.UseTop ==> scan.bins == old(scan.bins)
  {
    hide BinIndex, Chunks, OwnFails, OwnFinds, IsBestFit, NothingFits, L.State;
    hide S.Placed, S.Ordered, S.Honest, S.Empty, S.SmallestAbove, S.LegalSize;
    var idx := BinIndex(scan.config, nb);
    LegalRequest(scan.config, nb);
    ghost var bins := scan.bins;
    var found, victim := false, S.Chunk(0, 0);
    if InSmallbinRange(scan.config, nb) {
      var bin := scan.bins[idx];
      found := bin != [];
      if found { victim := bin[|bin| - 1]; }
      SmallOwnSearch(scan.config, bins, nb, victim);
    } else {
      L.FullState(own.header, own.groups, own.head, own.fd, own.bk, own.fdNext, own.bkNext);
      var addr;
      ghost var h;
      found, addr, h := own.SmallestFit(nb);
      LargeOwnSearch(bins, idx, own.groups, nb, found, addr, h);
      if found {
        SizeOfVictim(own.header, own.groups, own.head, own.fd, own.bk, own.fdNext, own.bkNext, h, addr);
        victim := S.Chunk(addr, own.head[addr] - PREV_INUSE);
      }
    }
    if found {
      OwnIsBest(scan.config, bins, nb, victim);
      BestMeansFits(bins, nb, victim);
      FoundIsThere(bins, idx, nb, victim);
      return S.Victim(idx, victim);
    }
    r := scan.BestFit(nb);
    if r.Victim? {
      AboveIsBest(scan.config, bins, nb, r.bin, r.chunk);
      BestMeansFits(bins, nb, r.chunk);
    } else {
      NothingAbove(scan.config, bins, nb);
    }
  }

  lemma {:induction false} FoundIsThere(bins: seq<seq<S.Chunk>>, idx: nat, nb: nat, victim: S.Chunk)
    requires idx < |bins| && OwnFinds(bins, idx, nb, victim)
    ensures victim in bins[idx]
  {
  }

  lemma {:induction false} LegalRequest(c: Config, nb: nat)
    requires S.LegalSize(c, nb)
    ensures nb % 2 == 0 && 2 <= BinIndex(c, nb) < NBINS
  {
    hide BinIndex;
    BinIndexRange(c, nb);
  }

  lemma {:induction false} BestMeansFits(bins: seq<seq<S.Chunk>>, nb: nat, victim: S.Chunk)
    requires IsBestFit(bins, nb, victim)
    ensures !NothingFits(bins, nb)
  {
    var i :| 0 <= i < |bins| && victim in bins[i];
    var k :| 0 <= k < |bins[i]| && bins[i][k] == victim;
  }

  lemma {:induction false} SizeOfVictim(header: int, gs: seq<L.Group>, head: map<int, nat>, fd: map<int, int>,
                                        bk: map<int, int>, fdNext: map<int, int>, bkNext: map<int, int>, h: nat,
                                        victim: int)
    requires L.State(header, gs, head, fd, bk, fdNext, bkNext) && h < |gs| && victim in gs[h].chunks
    ensures victim in head && head[victim] == gs[h].size + PREV_INUSE
  {
  }
}
