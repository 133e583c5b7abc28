/** One large bin of ptmalloc in memory: the circular list from first to last, and the nextsize ring
    that skips from size to size. */
module LargeBin {
  import opened BinIndexing
  import opened ChunkRing
  import opened Words

  /** The chunks of one size, in list order; the first of them is on the nextsize ring. */
  datatype Group = Group(size: nat, chunks: seq<int>)

  function Flatten(gs: seq<Group>): seq<int> {
    if gs == [] then [] else gs[0].chunks + Flatten(gs[1..])
  }

  ghost predicate Full(gs: seq<Group>) {
    forall k {:trigger gs[k]} :: 0 <= k < |gs| ==> gs[k].chunks != []
  }

  function Heads(gs: seq<Group>): (r: seq<int>)
    requires Full(gs)
    ensures |r| == |gs| && forall k {:trigger r[k]} :: 0 <= k < |gs| ==> r[k] == gs[k].chunks[0]
  {
    seq(|gs|, k requires 0 <= k < |gs| => gs[k].chunks[0])
  }

  /** Strictly decreasing sizes. */
  ghost predicate Falling(gs: seq<Group>) {
    forall j, k :: 0 <= j < k < |gs| ==> gs[j].size > gs[k].size
  }

  ghost predicate Even(gs: seq<Group>) {
    forall k {:trigger gs[k]} :: 0 <= k < |gs| ==> gs[k].size % 2 == 0
  }

  lemma {:induction false} FlattenConcat(a: seq<Group>, b: seq<Group>)
    ensures Flatten(a + b) == Flatten(a) + Flatten(b)
  {
    if a == [] {
      assert a + b == b;
    } else {
      assert (a + b)[1..] == a[1..] + b;
      FlattenConcat(a[1..], b);
    }
  }

  lemma {:induction false} FlattenAt(gs: seq<Group>, h: nat)
    requires h < |gs|
    ensures Flatten(gs) == Flatten(gs[..h]) + gs[h].chunks + Flatten(gs[h + 1..])
  {
    assert gs == gs[..h] + gs[h..];
    FlattenConcat(gs[..h], gs[h..]);
    assert gs[h..][1..] == gs[h + 1..];
  }

  lemma {:induction false} InFlatten(gs: seq<Group>, x: int)
    ensures x in Flatten(gs) <==> exists k :: 0 <= k < |gs| && x in gs[k].chunks
  {
    if gs != [] {
      InFlatten(gs[1..], x);
      if x in Flatten(gs[1..]) {
        var k :| 0 <= k < |gs[1..]| && x in gs[1..][k].chunks;
        assert gs[k + 1] == gs[1..][k];
      }
      if k :| 0 <= k < |gs| && x in gs[k].chunks {
        assert k > 0 ==> gs[1..][k - 1] == gs[k];
      }
    }
  }

  // ----- What insertion and unlinking mean for the groups -----

  /** Sizes fall along the list, and a chunk of a size already there becomes the second of its size. */
  function Inserted(gs: seq<Group>, size: nat, x: int): seq<Group>
    requires Full(gs)
  {
    if gs == [] || gs[0].size < size then [Group(size, [x])] + gs
    else if gs[0].size == size then [Joined(gs[0], x)] + gs[1..]
    else [gs[0]] + Inserted(gs[1..], size, x)
  }

  function Joined(g: Group, x: int): Group
    requires g.chunks != []
  {
    Group(g.size, [g.chunks[0], x] + g.chunks[1..])
  }

  /** The chunk at place j of group h gone, and the group too when it was alone. */
  function Unlinked(gs: seq<Group>, h: nat, j: nat): seq<Group>
    requires h < |gs| && j < |gs[h].chunks|
  {
    var left := gs[h].chunks[..j] + gs[h].chunks[j + 1..];
    if left == [] then gs[..h] + gs[h + 1..] else gs[..h] + [Group(gs[h].size, left)] + gs[h + 1..]
  }

  ghost predicate LargerBefore(gs: seq<Group>, h: nat, size: nat)
    requires h <= |gs|
  {
    forall k {:trigger gs[k]} :: 0 <= k < h ==> gs[k].size > size
  }

  lemma {:induction false} Shifted(gs: seq<Group>, h: nat, m: seq<Group>, e: nat)
    requires 0 < h <= e <= |gs|
    ensures var t := gs[1..]; [gs[0]] + (t[..h - 1] + m + t[e - 1..]) == gs[..h] + m + gs[e..]
  {
  }

  lemma {:induction false} InsertedAt(gs: seq<Group>, size: nat, x: int, h: nat)
    requires Full(gs) && h <= |gs| && LargerBefore(gs, h, size) && (h < |gs| ==> gs[h].size <= size)
    ensures Inserted(gs, size, x) ==
      if h < |gs| && gs[h].size == size then gs[..h] + [Joined(gs[h], x)] + gs[h + 1..]
      else gs[..h] + [Group(size, [x])] + gs[h..]
  {
    if h > 0 {
      assert gs[0].size > size;
      var t := gs[1..];
      assert h < |gs| ==> t[h - 1] == gs[h];
      assert Full(t) && LargerBefore(t, h - 1, size);
      InsertedAt(t, size, x, h - 1);
      Shifted(gs, h, [Group(size, [x])], h);
      if h < |gs| { Shifted(gs, h, [Joined(gs[h], x)], h + 1); }
    }
  }

  lemma {:induction false} InsertedKeepsOrder(gs: seq<Group>, size: nat, x: int)
    requires Full(gs) && Falling(gs) && Even(gs) && size % 2 == 0
    ensures var r := Inserted(gs, size, x); Full(r) && Falling(r) && Even(r)
    ensures var r := Inserted(gs, size, x);
      |r| > 0 && r[0].size == (if gs == [] || gs[0].size < size then size else gs[0].size)
  {
    if gs != [] && gs[0].size > size { InsertedKeepsOrder(gs[1..], size, x); }
  }

  /** Insertion adds exactly x. */
  lemma {:induction false} InsertedElements(gs: seq<Group>, size: nat, x: int)
    requires Full(gs)
    ensures multiset(Flatten(Inserted(gs, size, x))) == multiset(Flatten(gs)) + multiset{x}
  {
    hide Flatten, Joined;
    if gs == [] || gs[0].size < size {
      FlattenCons(Group(size, [x]), gs);
    } else {
      var t := gs[1..];
      assert gs == [gs[0]] + t;
      FlattenCons(gs[0], t);
      if gs[0].size == size {
        FlattenCons(Joined(gs[0], x), t);
        JoinedElements(gs[0], x);
      } else {
        InsertedElements(t, size, x);
        FlattenCons(gs[0], Inserted(t, size, x));
      }
    }
  }

  /** The new chunk is alone in a new group of its size, or second in the one that was there. */
  lemma {:induction false} InsertedPlace(gs: seq<Group>, size: nat, x: int) returns (k: nat)
    requires Full(gs)
    ensures var r := Inserted(gs, size, x);
      k < |r| && r[k].size == size && (r[k].chunks == [x] || (|r[k].chunks| > 1 && r[k].chunks[1] == x))
  {
    k := 0;
    if gs != [] && gs[0].size > size {
      k := InsertedPlace(gs[1..], size, x);
      k := k + 1;
    }
  }

  lemma {:induction false} FlattenCons(g: Group, t: seq<Group>)
    ensures Flatten([g] + t) == g.chunks + Flatten(t)
  {
    assert ([g] + t)[1..] == t;
  }

  lemma {:induction false} JoinedElements(g: Group, x: int)
    requires g.chunks != []
    ensures multiset(Joined(g, x).chunks) == multiset(g.chunks) + multiset{x}
  {
    assert g.chunks == [g.chunks[0]] + g.chunks[1..];
  }

  /** Where the group at k after unlinking was before. */
  lemma {:induction false} GroupBefore(gs: seq<Group>, h: nat, j: nat, k: nat) returns (w: nat)
    requires Full(gs) && h < |gs| && j < |gs[h].chunks| && k < |Unlinked(gs, h, j)|
    ensures w == (if k < h || |gs[h].chunks| > 1 then k else k + 1) && w < |gs|
    ensures var r := Unlinked(gs, h, j); r[k].size == gs[w].size && r[k].chunks != []
  {
    w := if k < h || |gs[h].chunks| > 1 then k else k + 1;
    var left := gs[h].chunks[..j] + gs[h].chunks[j + 1..];
    assert |left| == |gs[h].chunks| - 1;
    assert w != h ==> gs[w].chunks != [];
  }

  lemma {:induction false} UnlinkedKeepsOrder(gs: seq<Group>, h: nat, j: nat)
    requires Full(gs) && Falling(gs) && Even(gs) && h < |gs| && j < |gs[h].chunks|
    ensures var r := Unlinked(gs, h, j); Full(r) && Falling(r) && Even(r)
  {
    hide Unlinked;
    var r := Unlinked(gs, h, j);
    forall k | 0 <= k < |r| ensures r[k].chunks != [] && r[k].size % 2 == 0 {
      var w := GroupBefore(gs, h, j, k);
      assert gs[w].chunks != [];
    }
    forall k, l | 0 <= k < l < |r| ensures r[k].size > r[l].size {
      var w := GroupBefore(gs, h, j, k);
      var v := GroupBefore(gs, h, j, l);
    }
  }

  // ----- The bin in memory -----

  ghost predicate Sizes(head: map<int, nat>, gs: seq<Group>) {
    forall k, j :: 0 <= k < |gs| && 0 <= j < |gs[k].chunks| ==>
      gs[k].chunks[j] in head && head[gs[k].chunks[j]] == gs[k].size + PREV_INUSE
  }

  /** Only the first chunk of a size is on the nextsize ring.  The header is no chunk; what sits where its
      fd_nextsize would be, the next bin's own link, is never null. */
  ghost predicate Skips(fdNext: map<int, int>, header: int, gs: seq<Group>) {
    && header in fdNext && fdNext[header] != NULL
    && forall k, j :: 0 <= k < |gs| && 1 <= j < |gs[k].chunks| ==>
         gs[k].chunks[j] in fdNext && fdNext[gs[k].chunks[j]] == NULL
  }

  lemma {:induction false} FlattenShort(g: Group)
    ensures Flatten([]) == [] && Flatten([g]) == g.chunks
  {
  }

  /** The list from group h on starts with its first chunk. */
  lemma {:induction false} FirstOfRest(gs: seq<Group>, h: nat)
    requires Full(gs) && h <= |gs|
    ensures if h < |gs| then Flatten(gs[h..]) != [] && Flatten(gs[h..])[0] == gs[h].chunks[0]
            else Flatten(gs[h..]) == []
  {
  }

  /** A group of one put in at h: where it goes in the list and on the nextsize ring. */
  lemma {:induction false} NewGroup(header: int, gs: seq<Group>, h: nat, size: nat, x: int)
    requires Full(gs) && h <= |gs| && |gs| > 0
    ensures var r := gs[..h] + [Group(size, [x])] + gs[h..];
      var a, b := [header] + Flatten(gs[..h]), Flatten(gs[h..]);
      && [header] + Flatten(gs) == a + b && [header] + Flatten(r) == a + [x] + b
      && After(a, b) == (if h < |gs| then gs[h].chunks[0] else header)
      && Full(r) && Heads(gs) == Heads(gs)[..h] + Heads(gs)[h..] && Heads(r) == Heads(gs)[..h] + [x] + Heads(gs)[h..]
  {
    hide Flatten;
    var g := Group(size, [x]);
    assert gs == gs[..h] + gs[h..];
    FlattenConcat(gs[..h], gs[h..]);
    FlattenConcat(gs[..h] + [g], gs[h..]);
    FlattenConcat(gs[..h], [g]);
    FlattenShort(g);
    if h < |gs| { FirstOfRest(gs, h); }
  }

  /** A chunk put in second place of group h. */
  lemma {:induction false} SecondOfGroup(header: int, gs: seq<Group>, h: nat, x: int)
    requires Full(gs) && h < |gs|
    ensures var r := gs[..h] + [Joined(gs[h], x)] + gs[h + 1..];
      var a, b := [header] + Flatten(gs[..h]) + [gs[h].chunks[0]], gs[h].chunks[1..] + Flatten(gs[h + 1..]);
      && [header] + Flatten(gs) == a + b && [header] + Flatten(r) == a + [x] + b
      && Before(a, b) == gs[h].chunks[0]
  {
    var r := gs[..h] + [Joined(gs[h], x)] + gs[h + 1..];
    FlattenAt(gs, h);
    FlattenAt(r, h);
    assert r[..h] == gs[..h] && r[h + 1..] == gs[h + 1..] && r[h] == Joined(gs[h], x);
    var p, q, t, c := Flatten(gs[..h]), Flatten(gs[h + 1..]), gs[h].chunks[1..], gs[h].chunks[0];
    assert gs[h].chunks == [c] + t;
    Regroup(header, p, [c], t, q);
    Regroup(header, p, [c, x], t, q);
    assert [header] + p + [c, x] + (t + q) == [header] + p + [c] + [x] + (t + q);
  }

  lemma {:induction false} Regroup(header: int, p: seq<int>, c: seq<int>, t: seq<int>, q: seq<int>)
    ensures [header] + (p + (c + t) + q) == [header] + p + c + (t + q)
  {
  }

  lemma {:induction false} SecondKeepsHeads(gs: seq<Group>, h: nat, x: int)
    requires Full(gs) && h < |gs|
    ensures var r := gs[..h] + [Joined(gs[h], x)] + gs[h + 1..]; Full(r) && Heads(r) == Heads(gs)
  {
  }

  lemma {:induction false} TimesConcat(a: seq<int>, b: seq<int>, x: int)
    ensures Times(a + b, x) == Times(a, x) + Times(b, x)
    ensures x in a <==> Times(a, x) >= 1
  {
  }

  /** A later chunk of a size is neither the header nor the first of any size. */
  lemma {:induction false} OnlyFirstsAreHeads(header: int, gs: seq<Group>, k: nat, j: nat)
    requires Distinct([header] + Flatten(gs)) && Full(gs)
    requires k < |gs| && 1 <= j < |gs[k].chunks|
    ensures gs[k].chunks[j] != header && gs[k].chunks[j] !in Heads(gs)
  {
    hide Flatten, Times;
    var y, c := gs[k].chunks[j], gs[k].chunks;
    var p, q := Flatten(gs[..k]), Flatten(gs[k + 1..]);
    FlattenAt(gs, k);
    TimesConcat([header], Flatten(gs), y);
    TimesConcat(p + c, q, y);
    TimesConcat(p, c, y);
    TimesConcat(q, [], y);
    assert c == c[..j] + c[j..];
    TimesConcat(c[..j], c[j..], y);
    assert c[j..][0] == y;
    TimesConcat(c[j..], [], y);
    assert Times([header] + Flatten(gs), y) <= 1;
    forall m | 0 <= m < |gs| ensures gs[m].chunks[0] != y {
      if m < k {
        InFlatten(gs[..k], gs[m].chunks[0]);
        assert gs[..k][m] == gs[m];
      } else if m > k {
        InFlatten(gs[k + 1..], gs[m].chunks[0]);
        assert gs[k + 1..][m - k - 1] == gs[m];
      } else {
        assert c[..j][0] == c[0];
      }
    }
  }

  lemma {:induction false} SizesInserted(head: map<int, nat>, gs: seq<Group>, h: nat, size: nat, x: int)
    requires Full(gs) && Sizes(head, gs) && h <= |gs| && x in head && head[x] == size + PREV_INUSE
    ensures Sizes(head, gs[..h] + [Group(size, [x])] + gs[h..])
    ensures h < |gs| && gs[h].size == size ==> Sizes(head, gs[..h] + [Joined(gs[h], x)] + gs[h + 1..])
  {
  }

  lemma {:induction false} SkipsInserted(fdNext: map<int, int>, header: int, gs: seq<Group>, h: nat, size: nat, x: int)
    requires Full(gs) && Skips(fdNext, header, gs) && h <= |gs|
    ensures Skips(fdNext, header, gs[..h] + [Group(size, [x])] + gs[h..])
    ensures h < |gs| && x in fdNext && fdNext[x] == NULL ==>
      Skips(fdNext, header, gs[..h] + [Joined(gs[h], x)] + gs[h + 1..])
  {
  }

  /** Writing the skip link of a head, or of an address outside the bin, keeps the others. */
  lemma {:induction false} SkipsElsewhere(fdNext: map<int, int>, header: int, gs: seq<Group>, a: int, n: int)
    requires Full(gs) && Skips(fdNext, header, gs) && Distinct([header] + Flatten(gs))
    requires a in Heads(gs) || a !in [header] + Flatten(gs)
    ensures Skips(fdNext[a := n], header, gs)
  {
    forall k, j | 0 <= k < |gs| && 1 <= j < |gs[k].chunks| ensures gs[k].chunks[j] != a {
      OnlyFirstsAreHeads(header, gs, k, j);
      InFlatten(gs, gs[k].chunks[j]);
    }
    HeaderIsNoHead(header, gs);
    assert ([header] + Flatten(gs))[0] == header;
  }

  lemma {:induction false} HeaderIsNoHead(header: int, gs: seq<Group>)
    requires Full(gs) && Distinct([header] + Flatten(gs))
    ensures header !in Heads(gs)
  {
    var f := Flatten(gs);
    TimesConcat([header], f, header);
    TimesConcat(f, [], header);
    assert Times([header] + f, header) <= 1;
    forall m | 0 <= m < |gs| ensures gs[m].chunks[0] != header { InFlatten(gs, gs[m].chunks[0]); }
  }

  /** The whole of a well-formed large bin. */
  ghost predicate State(header: int, gs: seq<Group>, head: map<int, nat>,
                        fd: map<int, int>, bk: map<int, int>, fdNext: map<int, int>, bkNext: map<int, int>) {
    && Full(gs) && Falling(gs) && Even(gs)
    && NULL !in Flatten(gs)
    && Sizes(head, gs) && Skips(fdNext, header, gs)
    && Ring(fd, bk, [header] + Flatten(gs))
    && Ring(fdNext, bkNext, Heads(gs))
  }

  /** The header's links: to the first chunk, which is a head, and to the last one. */
  lemma {:induction false} HeaderLinks(header: int, gs: seq<Group>, head: map<int, nat>,
                                       fd: map<int, int>, bk: map<int, int>, fdNext: map<int, int>,
                                       bkNext: map<int, int>)
    requires State(header, gs, head, fd, bk, fdNext, bkNext)
    ensures header in fd && header in bk
    ensures gs == [] ==> fd[header] == header
    ensures gs != [] ==>
      && var g := gs[|gs| - 1];
      && fd[header] == Heads(gs)[0] && fd[header] != header
      && bk[header] == g.chunks[|g.chunks| - 1]
      && bk[header] in head && head[bk[header]] == g.size + PREV_INUSE
  {
    var r := [header] + Flatten(gs);
    assert r[0] == header;
    if gs != [] {
      FlattenAt(gs, |gs| - 1);
      assert gs[|gs| - 1 + 1..] == [] && gs[0].chunks != [];
      assert Flatten(gs)[0] == gs[0].chunks[0] == r[1];
      DistinctAt(r, 0);
    } else {
      assert r == [header];
    }
  }

  lemma {:induction false} HeadLinks(header: int, gs: seq<Group>, head: map<int, nat>,
                                     fd: map<int, int>, bk: map<int, int>, fdNext: map<int, int>,
                                     bkNext: map<int, int>, h: nat)
    requires State(header, gs, head, fd, bk, fdNext, bkNext) && h < |gs|
    ensures var p := Heads(gs)[h];
      && p in head && head[p] == gs[h].size + PREV_INUSE && p != NULL
      && p in fdNext && fdNext[p] == Succ(Heads(gs), h) && fdNext[p] != NULL
      && p in bkNext && bkNext[p] == Pred(Heads(gs), h) && bkNext[p] != NULL
      && p in fd && p in bk
  {
    var p := Heads(gs)[h];
    InFlatten(gs, p);
    forall k | 0 <= k < |gs| ensures gs[k].chunks[0] != NULL { InFlatten(gs, gs[k].chunks[0]); }
    assert gs[h].chunks[0] == p;
    var r := [header] + Flatten(gs);
    var i :| 0 <= i < |Flatten(gs)| && Flatten(gs)[i] == p;
    assert r[i + 1] == p;
  }

  /** The nextsize links of a head undo each other. */
  lemma {:induction false} HeadLinksUndo(header: int, gs: seq<Group>, head: map<int, nat>, fd: map<int, int>,
                                         bk: map<int, int>, fdNext: map<int, int>, bkNext: map<int, int>, h: nat)
    requires State(header, gs, head, fd, bk, fdNext, bkNext) && h < |gs|
    ensures var p := gs[h].chunks[0];
      && p in fdNext && fdNext[p] in bkNext && bkNext[fdNext[p]] == p
      && p in bkNext && bkNext[p] in fdNext && fdNext[bkNext[p]] == p
  {
    hide Ring, Flatten, Sizes, Skips, Falling, Even;
    assert Heads(gs)[h] == gs[h].chunks[0];
    RingLinksUndo(fdNext, bkNext, Heads(gs), h);
  }

  ghost predicate Newcomer(header: int, gs: seq<Group>, head: map<int, nat>, x: int, size: nat) {
    size % 2 == 0 && x != NULL && x !in [header] + Flatten(gs) && x in head && head[x] == size + PREV_INUSE
  }

  lemma {:induction false} InsertIntoEmpty(header: int, head: map<int, nat>,
                                           fd: map<int, int>, bk: map<int, int>, fdNext: map<int, int>,
                                           bkNext: map<int, int>,
                                           x: int, size: nat)
    requires State(header, [], head, fd, bk, fdNext, bkNext) && Newcomer(header, [], head, x, size)
    ensures State(header, Inserted([], size, x), head,
                  fd[x := header][header := x], bk[x := header][header := x], fdNext[x := x], bkNext[x := x])
  {
    hide Flatten, Ring;
    FlattenShort(Group(size, [x]));
    assert [header] + Flatten([]) == [header] + [] == [header];
    RingInsert(fd, bk, [header], x, []);
    RingOfOne(fdNext, bkNext, x);
    assert Inserted([], size, x) == [Group(size, [x])];
    assert [header] + Flatten([Group(size, [x])]) == [header] + [x] + [];
    assert Heads(Inserted([], size, x)) == [x];
  }

  /** A size not yet in the bin, put in front of group h or at the end. */
  lemma {:induction false} InsertNewSize(header: int, gs: seq<Group>, head: map<int, nat>,
                                         fd: map<int, int>, bk: map<int, int>, fdNext: map<int, int>,
                                         bkNext: map<int, int>,
                                         x: int, size: nat, h: nat)
    requires State(header, gs, head, fd, bk, fdNext, bkNext) && Newcomer(header, gs, head, x, size)
    requires gs != [] && h <= |gs| && LargerBefore(gs, h, size) && (h < |gs| ==> gs[h].size < size)
    ensures var f := if h < |gs| then Heads(gs)[h] else header;
      var sf := if h < |gs| then Heads(gs)[h] else Heads(gs)[0];
      && f in bk && sf in bkNext
      && var l, sl := bk[f], bkNext[sf];
      && l in fd && fd[l] == f && sl in fdNext && fdNext[sl] == sf
      && State(header, Inserted(gs, size, x), head, fd[x := f][l := x], bk[x := l][f := x],
            fdNext[x := sf][sl := x], bkNext[x := sl][sf := x])
  {
    hide Flatten, Ring, Sizes, Skips, Falling, Even, Inserted;
    InsertedKeepsOrder(gs, size, x);
    InsertedAt(gs, size, x, h);
    var r := gs[..h] + [Group(size, [x])] + gs[h..];
    var a, b := [header] + Flatten(gs[..h]), Flatten(gs[h..]);
    NewGroup(header, gs, h, size, x);
    RingInsert(fd, bk, a, x, b);
    OneMoreElement(header, gs, r, a, x, b);
    NotAHead(header, gs, x);
    var n := Heads(gs);
    assert n == n[..h] + n[h..];
    RingInsert(fdNext, bkNext, n[..h], x, n[h..]);
    SizesInserted(head, gs, h, size, x);
    SkipsInserted(fdNext, header, gs, h, size, x);
    var sf, sl := After(n[..h], n[h..]), Before(n[..h], n[h..]);
    assert sf == if h < |gs| then n[h] else n[0];
    RingIsDistinct(fd[x := After(a, b)][Before(a, b) := x], bk[x := Before(a, b)][After(a, b) := x], a + [x] + b);
    SkipsElsewhere(fdNext, header, r, x, sf);
    SkipsElsewhere(fdNext[x := sf], header, r, sl, x);
  }

  lemma {:induction false} RingIsDistinct(next: map<int, int>, prev: map<int, int>, r: seq<int>)
    requires Ring(next, prev, r)
    ensures Distinct(r)
  {
  }

  lemma {:induction false} OneMoreElement(header: int, gs: seq<Group>, r: seq<Group>, a: seq<int>, x: int, b: seq<int>)
    requires [header] + Flatten(gs) == a + b && [header] + Flatten(r) == a + [x] + b
    ensures forall y :: y in Flatten(r) <==> y == x || y in Flatten(gs)
  {
    forall y ensures y in Flatten(r) <==> y == x || y in Flatten(gs) {
      TimesConcat([header], Flatten(gs), y);
      TimesConcat([header], Flatten(r), y);
      TimesConcat(a, b, y);
      TimesConcat(a + [x], b, y);
      TimesConcat(a, [x], y);
      TimesConcat(Flatten(r), [], y);
      TimesConcat(Flatten(gs), [], y);
    }
  }

  lemma {:induction false} NotAHead(header: int, gs: seq<Group>, x: int)
    requires Full(gs) && x !in [header] + Flatten(gs)
    ensures x !in Heads(gs)
  {
    forall m | 0 <= m < |gs| ensures gs[m].chunks[0] != x { InFlatten(gs, gs[m].chunks[0]); }
  }

  /** A size already there: x goes right behind the first chunk of that size, off the nextsize ring. */
  lemma {:induction false} InsertSameSize(header: int, gs: seq<Group>, head: map<int, nat>,
                                          fd: map<int, int>, bk: map<int, int>, fdNext: map<int, int>,
                                          bkNext: map<int, int>,
                                          x: int, size: nat, h: nat)
    requires State(header, gs, head, fd, bk, fdNext, bkNext) && Newcomer(header, gs, head, x, size)
    requires h < |gs| && LargerBefore(gs, h, size) && gs[h].size == size
    requires x in fdNext && fdNext[x] == NULL
    ensures var l := Heads(gs)[h];
      && l in fd && fd[l] in bk && bk[fd[l]] == l
      && var f := fd[l];
      State(header, Inserted(gs, size, x), head, fd[x := f][l := x], bk[x := l][f := x], fdNext, bkNext)
  {
    hide Flatten, Ring, Sizes, Skips, Falling, Even, Inserted;
    InsertedKeepsOrder(gs, size, x);
    InsertedAt(gs, size, x, h);
    var r := gs[..h] + [Joined(gs[h], x)] + gs[h + 1..];
    var a, b := [header] + Flatten(gs[..h]) + [gs[h].chunks[0]], gs[h].chunks[1..] + Flatten(gs[h + 1..]);
    SecondOfGroup(header, gs, h, x);
    SecondKeepsHeads(gs, h, x);
    RingInsert(fd, bk, a, x, b);
    OneMoreElement(header, gs, r, a, x, b);
    SizesInserted(head, gs, h, size, x);
    SkipsInserted(fdNext, header, gs, h, size, x);
  }

  // ----- Unlinking -----

  /** What is left of the list around the chunk at place j of group h. */
  lemma {:induction false} UnlinkedList(header: int, gs: seq<Group>, h: nat, j: nat)
    requires Full(gs) && h < |gs| && j < |gs[h].chunks|
    ensures var a := [header] + Flatten(gs[..h]) + gs[h].chunks[..j];
      var b := gs[h].chunks[j + 1..] + Flatten(gs[h + 1..]);
      [header] + Flatten(gs) == a + [gs[h].chunks[j]] + b && [header] + Flatten(Unlinked(gs, h, j)) == a + b
  {
    hide Flatten, Full;
    var g, r := gs[h], Unlinked(gs, h, j);
    var p, q := Flatten(gs[..h]), Flatten(gs[h + 1..]);
    FlattenAt(gs, h);
    assert g.chunks == g.chunks[..j] + ([g.chunks[j]] + g.chunks[j + 1..]);
    Regroup(header, p, g.chunks[..j], [g.chunks[j]] + g.chunks[j + 1..], q);
    var left := g.chunks[..j] + g.chunks[j + 1..];
    Regroup(header, p, g.chunks[..j], g.chunks[j + 1..], q);
    if left == [] {
      FlattenConcat(gs[..h], gs[h + 1..]);
      assert p + left + q == p + q;
    } else {
      FlattenAt(r, h);
      assert r[..h] == gs[..h] && r[h + 1..] == gs[h + 1..] && r[h].chunks == left;
    }
  }

  lemma {:induction false} Cancel(m: multiset<int>, n: multiset<int>, p: int)
    requires multiset{0} + m == multiset{0} + n + multiset{p}
    ensures m == n + multiset{p}
  {
    assert m == multiset{0} + m - multiset{0};
  }

  /** Unlinking takes away exactly the chunk at place j of group h. */
  lemma {:induction false} UnlinkedElements(gs: seq<Group>, h: nat, j: nat)
    requires Full(gs) && h < |gs| && j < |gs[h].chunks|
    ensures multiset(Flatten(gs)) == multiset(Flatten(Unlinked(gs, h, j))) + multiset{gs[h].chunks[j]}
  {
    hide Flatten, Unlinked;
    UnlinkedList(0, gs, h, j);
    var a, b, p := [0] + Flatten(gs[..h]) + gs[h].chunks[..j], gs[h].chunks[j + 1..] + Flatten(gs[h + 1..]),
      gs[h].chunks[j];
    assert multiset([0] + Flatten(gs)) == multiset{0} + multiset(Flatten(gs));
    assert multiset([0] + Flatten(Unlinked(gs, h, j))) == multiset{0} + multiset(Flatten(Unlinked(gs, h, j)));
    assert multiset([0] + Flatten(gs)) == multiset(a) + multiset{p} + multiset(b);
    assert multiset([0] + Flatten(Unlinked(gs, h, j))) == multiset(a) + multiset(b);
    Cancel(multiset(Flatten(gs)), multiset(Flatten(Unlinked(gs, h, j))), p);
  }

  lemma {:induction false} UnlinkedHeads(gs: seq<Group>, h: nat, j: nat)
    requires Full(gs) && h < |gs| && j < |gs[h].chunks|
    ensures var n := Heads(gs);
      && Full(Unlinked(gs, h, j)) && n == n[..h] + [n[h]] + n[h + 1..]
      && Heads(Unlinked(gs, h, j)) ==
        if j > 0 then n
        else if |gs[h].chunks| > 1 then n[..h] + [gs[h].chunks[1]] + n[h + 1..]
        else n[..h] + n[h + 1..]
  {
    var c := gs[h].chunks;
    var left := c[..j] + c[j + 1..];
    if left == [] {
      HeadsConcat(gs[..h], gs[h + 1..]);
    } else {
      HeadsConcat(gs[..h], [Group(gs[h].size, left)]);
      HeadsConcat(gs[..h] + [Group(gs[h].size, left)], gs[h + 1..]);
      assert left[0] == if j > 0 then c[0] else c[1];
    }
    HeadsSlices(gs, h);
  }

  lemma {:induction false} HeadsConcat(a: seq<Group>, b: seq<Group>)
    requires Full(a) && Full(b)
    ensures Full(a + b) && Heads(a + b) == Heads(a) + Heads(b)
  {
  }

  lemma {:induction false} HeadsSlices(gs: seq<Group>, h: nat)
    requires Full(gs) && h < |gs|
    ensures var n := Heads(gs);
      n == n[..h] + [n[h]] + n[h + 1..] && Heads(gs[..h]) == n[..h] && Heads(gs[h + 1..]) == n[h + 1..]
  {
  }

  /** Every chunk left was there, with the same size, and no further to the front. */
  lemma {:induction false} UnlinkedChunk(gs: seq<Group>, h: nat, j: nat, k: nat, i: nat) returns (k': nat, i': nat)
    requires h < |gs| && j < |gs[h].chunks| && k < |Unlinked(gs, h, j)| && i < |Unlinked(gs, h, j)[k].chunks|
    ensures k' < |gs| && i <= i' < |gs[k'].chunks|
    ensures var r := Unlinked(gs, h, j); r[k].size == gs[k'].size && r[k].chunks[i] == gs[k'].chunks[i']
  {
    k' := if k < h || |gs[h].chunks| > 1 then k else k + 1;
    i' := if k' != h || i < j then i else i + 1;
  }

  lemma {:induction false} UnlinkedFields(header: int, gs: seq<Group>, head: map<int, nat>, fdNext: map<int, int>,
                                          h: nat, j: nat)
    requires Full(gs) && h < |gs| && j < |gs[h].chunks| && Sizes(head, gs) && Skips(fdNext, header, gs)
    ensures Sizes(head, Unlinked(gs, h, j)) && Skips(fdNext, header, Unlinked(gs, h, j))
  {
    hide Unlinked, Full;
    var r := Unlinked(gs, h, j);
    forall k, i | 0 <= k < |r| && 0 <= i < |r[k].chunks|
      ensures r[k].chunks[i] in head && head[r[k].chunks[i]] == r[k].size + PREV_INUSE
    {
      var k', i' := UnlinkedChunk(gs, h, j, k, i);
    }
    forall k, i | 0 <= k < |r| && 1 <= i < |r[k].chunks|
      ensures r[k].chunks[i] in fdNext && fdNext[r[k].chunks[i]] == NULL
    {
      var k', i' := UnlinkedChunk(gs, h, j, k, i);
    }
  }

  /** The part of unlink_chunk that every chunk gets. */
  lemma {:induction false} UnlinkFromList(header: int, gs: seq<Group>, head: map<int, nat>,
                                          fd: map<int, int>, bk: map<int, int>, fdNext: map<int, int>,
                                          bkNext: map<int, int>,
                                          h: nat, j: nat)
    requires State(header, gs, head, fd, bk, fdNext, bkNext) && h < |gs| && j < |gs[h].chunks|
    ensures var p, r := gs[h].chunks[j], Unlinked(gs, h, j);
      && p in fd && p in bk && fd[p] in bk && bk[p] in fd && bk[fd[p]] == p && fd[bk[p]] == p
      && Ring(fd[bk[p] := fd[p]], bk[fd[p] := bk[p]], [header] + Flatten(r))
      && Full(r) && Falling(r) && Even(r) && NULL !in Flatten(r) && Sizes(head, r) && Skips(fdNext, header, r)
      && fd[p] == if j + 1 < |gs[h].chunks| then gs[h].chunks[j + 1] else if h + 1 < |gs| then gs[h + 1].chunks[0]
         else header
  {
    hide Flatten, Ring, Sizes, Skips, Falling, Even;
    var p, r := gs[h].chunks[j], Unlinked(gs, h, j);
    var a := [header] + Flatten(gs[..h]) + gs[h].chunks[..j];
    var b := gs[h].chunks[j + 1..] + Flatten(gs[h + 1..]);
    UnlinkedList(header, gs, h, j);
    UnlinkedKeepsOrder(gs, h, j);
    UnlinkedFields(header, gs, head, fdNext, h, j);
    RingRemove(fd, bk, a, p, b);
    assert (a + [p] + b)[|a|] == p;
    RingLinksUndo(fd, bk, a + [p] + b, |a|);
    OneMoreElement(header, r, gs, a, p, b);
    FirstOfRest(gs, h + 1);
  }

  /** A chunk that is not the first of its size leaves the nextsize ring alone. */
  lemma {:induction false} UnlinkLater(header: int, gs: seq<Group>, head: map<int, nat>,
                                       fd: map<int, int>, bk: map<int, int>, fdNext: map<int, int>,
                                       bkNext: map<int, int>,
                                       h: nat, j: nat)
    requires State(header, gs, head, fd, bk, fdNext, bkNext) && h < |gs| && 0 < j < |gs[h].chunks|
    ensures var p := gs[h].chunks[j];
      && p in fd && p in bk && p in fdNext && fdNext[p] == NULL
      && State(header, Unlinked(gs, h, j), head, fd[bk[p] := fd[p]], bk[fd[p] := bk[p]], fdNext, bkNext)
  {
    UnlinkFromList(header, gs, head, fd, bk, fdNext, bkNext, h, j);
    UnlinkedHeads(gs, h, j);
  }

  /** The first of its size with another of that size behind it hands its place on the ring over. */
  lemma {:induction false} UnlinkFirst(header: int, gs: seq<Group>, head: map<int, nat>,
                                       fd: map<int, int>, bk: map<int, int>, fdNext: map<int, int>,
                                       bkNext: map<int, int>, h: nat)
    requires State(header, gs, head, fd, bk, fdNext, bkNext) && h < |gs| && |gs[h].chunks| > 1
    ensures var p := gs[h].chunks[0];
      && p in fd && p in bk && fd[p] in fdNext && fdNext[fd[p]] == NULL && p in fdNext && p in bkNext
      && var f, n, b := fd[p], fdNext[p], bkNext[p];
      && n != NULL && b != NULL && (n == p <==> |gs| == 1)
      && State(header, Unlinked(gs, h, 0), head, fd[bk[p] := f], bk[f := bk[p]],
               if n == p then fdNext[f := f] else fdNext[f := n][b := f],
               if n == p then bkNext[f := f] else bkNext[f := b][n := f])
  {
    hide Flatten, Ring, Sizes, Falling, Even, Distinct;
    var p, f, r, ns := gs[h].chunks[0], gs[h].chunks[1], Unlinked(gs, h, 0), Heads(gs);
    UnlinkFromList(header, gs, head, fd, bk, fdNext, bkNext, h, 0);
    UnlinkedHeads(gs, h, 0);
    HeadLinks(header, gs, head, fd, bk, fdNext, bkNext, h);
    RingIsDistinct(fd, bk, [header] + Flatten(gs));
    RingIsDistinct(fd[bk[p] := f], bk[f := bk[p]], [header] + Flatten(r));
    OnlyFirstsAreHeads(header, gs, h, 1);
    assert ns == ns[..h] + [p] + ns[h + 1..];
    var rs := ns[..h] + [f] + ns[h + 1..];
    if |gs| == 1 {
      assert rs == [f];
      RingOfOne(fdNext, bkNext, f);
      SkipsElsewhere(fdNext, header, r, f, f);
    } else {
      RingReplace(fdNext, bkNext, ns[..h], p, ns[h + 1..], f);
      RingIsDistinct(fdNext, bkNext, ns);
      DistinctAt(ns, h);
      SkipsElsewhere(fdNext, header, r, f, fdNext[p]);
      SkipsElsewhere(fdNext[f := fdNext[p]], header, r, bkNext[p], f);
    }
  }

  lemma {:induction false} RingOfOne(next: map<int, int>, prev: map<int, int>, x: int)
    ensures Ring(next[x := x], prev[x := x], [x])
  {
  }

  /** The only chunk of its size leaves both lists. */
  lemma {:induction false} UnlinkOnly(header: int, gs: seq<Group>, head: map<int, nat>,
                                      fd: map<int, int>, bk: map<int, int>, fdNext: map<int, int>,
                                      bkNext: map<int, int>, h: nat)
    requires State(header, gs, head, fd, bk, fdNext, bkNext) && h < |gs| && |gs[h].chunks| == 1
    ensures var p := gs[h].chunks[0];
      && p in fd && p in bk && fd[p] in fdNext && fdNext[fd[p]] != NULL && p in fdNext && p in bkNext
      && fdNext[p] != NULL
      && State(header, Unlinked(gs, h, 0), head, fd[bk[p] := fd[p]], bk[fd[p] := bk[p]],
               fdNext[bkNext[p] := fdNext[p]], bkNext[fdNext[p] := bkNext[p]])
  {
    hide Flatten, Ring, Sizes, Falling, Even, Distinct;
    var p, r, ns := gs[h].chunks[0], Unlinked(gs, h, 0), Heads(gs);
    UnlinkFromList(header, gs, head, fd, bk, fdNext, bkNext, h, 0);
    UnlinkedHeads(gs, h, 0);
    var next := if h + 1 < |gs| then h + 1 else 0;
    HeadLinks(header, gs, head, fd, bk, fdNext, bkNext, h);
    HeadLinks(header, gs, head, fd, bk, fdNext, bkNext, next);
    RingIsDistinct(fd, bk, [header] + Flatten(gs));
    RingIsDistinct(fd[bk[p] := fd[p]], bk[fd[p] := bk[p]], [header] + Flatten(r));
    HeaderIsNoHead(header, gs);
    if |gs| == 1 {
      assert Heads(r) == [];
      EmptyRing(fdNext[bkNext[p] := fdNext[p]], bkNext[fdNext[p] := bkNext[p]]);
      assert r == [];
      assert Skips(fdNext[p := p], header, r);
    } else {
      RingRemove(fdNext, bkNext, ns[..h], p, ns[h + 1..]);
      assert bkNext[p] in Heads(r);
      SkipsElsewhere(fdNext, header, r, bkNext[p], fdNext[p]);
    }
  }

  lemma {:induction false} EmptyRing(next: map<int, int>, prev: map<int, int>)
    ensures Ring(next, prev, [])
  {
  }

  lemma {:induction false} NewcomerHead(header: int, gs: seq<Group>, head: map<int, nat>, x: int, size: nat)
    requires Newcomer(header, gs, head, x, size) && Full(gs)
    ensures x != header && x !in Heads(gs)
  {
    NotAHead(header, gs, x);
  }

  lemma {:induction false} FullState(header: int, gs: seq<Group>, head: map<int, nat>,
                                     fd: map<int, int>, bk: map<int, int>, fdNext: map<int, int>, bkNext: map<int, int>)
    requires State(header, gs, head, fd, bk, fdNext, bkNext)
    ensures Full(gs) && Falling(gs) && Even(gs)
  {
  }

  lemma {:induction false} SmallerThanLast(gs: seq<Group>, size: nat)
    requires Falling(gs) && gs != [] && size < gs[|gs| - 1].size
    ensures LargerBefore(gs, |gs|, size)
  {
  }

  lemma {:induction false} StepOn(gs: seq<Group>, h: nat)
    requires Full(gs) && h + 1 < |gs|
    ensures Succ(Heads(gs), h) == Heads(gs)[h + 1]
  {
  }

  lemma {:induction false} StepBack(gs: seq<Group>, h: nat)
    requires Full(gs) && 0 < h < |gs|
    ensures Pred(Heads(gs), h) == Heads(gs)[h - 1]
  {
  }

  lemma {:induction false} LastHead(gs: seq<Group>)
    requires Full(gs) && gs != []
    ensures Pred(Heads(gs), 0) == Heads(gs)[|gs| - 1]
  {
  }

  lemma {:induction false} FirstIsLargest(gs: seq<Group>, nb: nat)
    requires Falling(gs) && Even(gs) && gs != [] && nb % 2 == 0
    ensures gs[0].size + PREV_INUSE >= nb <==> exists k :: 0 <= k < |gs| && gs[k].size >= nb
    ensures gs[0].size + PREV_INUSE >= nb <==> gs[0].size >= nb
  {
  }

  /** What follows the first chunk of group h: the second of its size, the first of a smaller size, or the header. */
  lemma {:induction false} SecondInMemory(header: int, gs: seq<Group>, head: map<int, nat>,
                                          fd: map<int, int>, bk: map<int, int>, fdNext: map<int, int>,
                                          bkNext: map<int, int>, h: nat)
    requires State(header, gs, head, fd, bk, fdNext, bkNext) && h < |gs|
    ensures var p, c := Heads(gs)[h], gs[h].chunks;
      && p in fd && header in bk && p in head
      && (p == bk[header] <==> h == |gs| - 1 && |c| == 1)
      && (p != bk[header] ==> fd[p] in head && (head[p] == head[fd[p]] <==> |c| > 1))
      && (|c| > 1 ==> fd[p] == c[1])
  {
    var p, c := Heads(gs)[h], gs[h].chunks;
    HeadLinks(header, gs, head, fd, bk, fdNext, bkNext, h);
    HeaderLinks(header, gs, head, fd, bk, fdNext, bkNext);
    UnlinkFromList(header, gs, head, fd, bk, fdNext, bkNext, h, 0);
    if p != bk[header] && |c| == 1 { HeadLinks(header, gs, head, fd, bk, fdNext, bkNext, h + 1); }
    if |c| > 1 {
      OnlyFirstsAreHeads(header, gs, h, 1);
    }
    LastIsHead(header, gs, h);
  }

  /** The last chunk of the list is the first of a size only when it is the only one of the smallest size. */
  lemma {:induction false} LastIsHead(header: int, gs: seq<Group>, h: nat)
    requires Full(gs) && Distinct([header] + Flatten(gs)) && h < |gs|
    ensures var c := gs[|gs| - 1].chunks;
      Heads(gs)[h] == c[|c| - 1] <==> h == |gs| - 1 && |c| == 1
  {
    var n := |gs| - 1;
    var c := gs[n].chunks;
    if |c| > 1 { OnlyFirstsAreHeads(header, gs, n, |c| - 1); }
    if h < n { DifferentGroups(header, gs, h, n); }
  }

  lemma {:induction false} DifferentGroups(header: int, gs: seq<Group>, h: nat, n: nat)
    requires Full(gs) && Distinct([header] + Flatten(gs)) && h < n < |gs|
    ensures gs[h].chunks[0] != gs[n].chunks[0]
  {
    var y, p, q := gs[n].chunks[0], Flatten(gs[..n]), Flatten(gs[n + 1..]);
    FlattenAt(gs, n);
    TimesConcat([header], Flatten(gs), y);
    TimesConcat(p + gs[n].chunks, q, y);
    TimesConcat(p, gs[n].chunks, y);
    TimesConcat(gs[n].chunks, [], y);
    assert Times([header] + Flatten(gs), y) <= 1;
    InFlatten(gs[..n], gs[h].chunks[0]);
    assert gs[..n][h] == gs[h];
  }

  // ----- The bin as an object -----

  class Bin {
    const header: int
    var head: map<int, nat>
    var fd: map<int, int>
    var bk: map<int, int>
    var fdNext: map<int, int>
    var bkNext: map<int, int>
    ghost var groups: seq<Group>

    ghost predicate Valid()
      reads this
    {
      State(header, groups, head, fd, bk, fdNext, bkNext)
    }

    /** An empty bin, as malloc_init_state links it: the header points to itself.  Where its fd_nextsize would be
        lies a link of a later bin, which is never null. */
    constructor (header: int, later: int)
      requires later != NULL
      ensures Valid() && groups == [] && this.header == header
    {
      this.header := header;
      head, fd, bk := map[], map[header := header], map[header := header];
      fdNext, bkNext := map[header := later], map[];
      groups := [];
      new;
      RingOfOne(map[], map[], header);
      EmptyRing(fdNext, bkNext);
      assert [header] + Flatten([]) == [header];
    }

    /** The sorted insertion of _int_malloc.  The victim comes from the unsorted list with null nextsize links. */
    method Insert(victim: int, size: nat)
      requires Valid() && Newcomer(header, groups, head, victim, size)
      requires victim in fdNext && fdNext[victim] == NULL
      modifies this`fd, this`bk, this`fdNext, this`bkNext, this`groups
      ensures Valid() && groups == Inserted(old(groups), size, victim)
    {
      hide State, Newcomer, Flatten, Heads, Inserted, Succ, Pred;
      ghost var gs := groups;
      HeaderLinks(header, gs, head, fd, bk, fdNext, bkNext);
      FullState(header, gs, head, fd, bk, fdNext, bkNext);
      NewcomerHead(header, gs, head, victim, size);
      var bck := header;
      var fwd := fd[bck];
      if fwd != bck {
        var sz := size + PREV_INUSE;
        ghost var h: nat := 0;
        if sz < head[bk[bck]] {
          SmallerThanLast(gs, size);
          InsertNewSize(header, gs, head, fd, bk, fdNext, bkNext, victim, size, |gs|);
          fwd := bck;
          bck := bk[bck];
          var first := fd[fwd];
          fdNext := fdNext[victim := first];
          bkNext := bkNext[victim := bkNext[first]];
          fdNext := fdNext[bkNext[victim] := victim];
          bkNext := bkNext[first := victim];
        } else {
          HeadLinks(header, gs, head, fd, bk, fdNext, bkNext, 0);
          while sz < head[fwd]
            invariant h < |gs| && fwd == Heads(gs)[h] && fwd in head && head[fwd] == gs[h].size + PREV_INUSE
            invariant LargerBefore(gs, h, size) && State(header, gs, head, fd, bk, fdNext, bkNext)
            modifies {}
            decreases |gs| - h
          {
            HeadLinks(header, gs, head, fd, bk, fdNext, bkNext, h);
            StepOn(gs, h);
            fwd, h := fdNext[fwd], h + 1;
            HeadLinks(header, gs, head, fd, bk, fdNext, bkNext, h);
          }
          if sz == head[fwd] {
            InsertSameSize(header, gs, head, fd, bk, fdNext, bkNext, victim, size, h);
            fwd := fd[fwd];
          } else {
            InsertNewSize(header, gs, head, fd, bk, fdNext, bkNext, victim, size, h);
            fdNext := fdNext[victim := fwd];
            bkNext := bkNext[victim := bkNext[fwd]];
            assert fdNext[bkNext[fwd]] == fwd;
            bkNext := bkNext[fwd := victim];
            fdNext := fdNext[bkNext[victim] := victim];
          }
          bck := bk[fwd];
          assert fd[bck] == fwd;
        }
      } else {
        InsertIntoEmpty(header, head, fd, bk, fdNext, bkNext, victim, size);
        fdNext, bkNext := fdNext[victim := victim], bkNext[victim := victim];
      }
      bk := bk[victim := bck];
      fd := fd[victim := fwd];
      bk := bk[fwd := victim];
      fd := fd[bck := victim];
      groups := Inserted(gs, size, victim);
    }

    /** unlink_chunk of the chunk at place j of group h.  Its checks on fd and bk and on the nextsize links always
        pass. */
    method Unlink(p: int, ghost h: nat, ghost j: nat)
      requires Valid() && h < |groups| && j < |groups[h].chunks| && groups[h].chunks[j] == p
      modifies this`fd, this`bk, this`fdNext, this`bkNext, this`groups
      ensures Valid() && groups == Unlinked(old(groups), h, j)
    {
      hide State, Flatten, Heads, Unlinked, Ring;
      ghost var gs := groups;
      UnlinkFromList(header, gs, head, fd, bk, fdNext, bkNext, h, j);
      if j > 0 {
        UnlinkLater(header, gs, head, fd, bk, fdNext, bkNext, h, j);
      } else if |gs[h].chunks| > 1 {
        UnlinkFirst(header, gs, head, fd, bk, fdNext, bkNext, h);
      } else {
        UnlinkOnly(header, gs, head, fd, bk, fdNext, bkNext, h);
      }
      if j == 0 { HeadLinksUndo(header, gs, head, fd, bk, fdNext, bkNext, h); }
      var f, b := fd[p], bk[p];
      assert bk[f] == p && fd[b] == p;
      bk := bk[f := b];
      fd := fd[b := f];
      if fdNext[p] != NULL {
        assert bkNext[fdNext[p]] == p && fdNext[bkNext[p]] == p;
        if fdNext[f] == NULL {
          if fdNext[p] == p {
            fdNext, bkNext := fdNext[f := f], bkNext[f := f];
          } else {
            var n, m := fdNext[p], bkNext[p];
            fdNext := fdNext[f := n];
            bkNext := bkNext[f := m];
            bkNext := bkNext[n := f];
            fdNext := fdNext[m := f];
          }
        } else {
          var n, m := fdNext[p], bkNext[p];
          bkNext := bkNext[n := m];
          fdNext := fdNext[m := n];
        }
      }
      groups := Unlinked(gs, h, j);
    }

    /** The scan of a large request through its own bin, over the nextsize ring from the small end: the smallest
        size that fits, and of that size the second chunk where there is one, so that the ring need not be rerouted. */
    method SmallestFit(nb: nat) returns (found: bool, victim: int, ghost h: nat)
      requires Valid() && nb % 2 == 0
      ensures !found <==> forall k :: 0 <= k < |groups| ==> groups[k].size < nb
      ensures found ==>
        && h < |groups| && groups[h].size >= nb && (forall k :: h < k < |groups| ==> groups[k].size < nb)
        && victim == groups[h].chunks[if |groups[h].chunks| > 1 then 1 else 0]
    {
      hide State, Flatten, Heads, Ring, Falling;
      h := 0;
      FullState(header, groups, head, fd, bk, fdNext, bkNext);
      HeaderLinks(header, groups, head, fd, bk, fdNext, bkNext);
      victim := fd[header];
      found := false;
      if victim != header {
        FirstIsLargest(groups, nb);
        HeadLinks(header, groups, head, fd, bk, fdNext, bkNext, 0);
        if head[victim] >= nb {
          found := true;
          victim, h := bkNext[victim], |groups| - 1;
          LastHead(groups);
          HeadLinks(header, groups, head, fd, bk, fdNext, bkNext, h);
          while head[victim] - PREV_INUSE < nb
            invariant h < |groups| && victim == Heads(groups)[h] && victim in head
              && head[victim] == groups[h].size + PREV_INUSE
            invariant forall k :: h < k < |groups| ==> groups[k].size < nb
            decreases h
          {
            StepBack(groups, h);
            HeadLinks(header, groups, head, fd, bk, fdNext, bkNext, h);
            victim, h := bkNext[victim], h - 1;
            HeadLinks(header, groups, head, fd, bk, fdNext, bkNext, h);
          }
          SecondInMemory(header, groups, head, fd, bk, fdNext, bkNext, h);
          if victim != bk[header] && head[victim] == head[fd[victim]] { victim := fd[victim]; }
        }
      }
    }
  }
}
