/** Circular doubly linked lists kept in two link fields, as sequences of addresses. */
module ChunkRing {

  function Succ(r: seq<int>, k: nat): int
    requires k < |r|
  {
    if k + 1 < |r| then r[k + 1] else r[0]
  }

  function Pred(r: seq<int>, k: nat): int
    requires k < |r|
  {
    if k > 0 then r[k - 1] else r[|r| - 1]
  }

  function Times(r: seq<int>, x: int): nat { multiset(r)[x] }

  ghost predicate Distinct(r: seq<int>) {
    forall x :: Times(r, x) <= 1
  }

  ghost predicate Links(next: map<int, int>, prev: map<int, int>, r: seq<int>) {
    forall k {:trigger next[r[k]]} {:trigger prev[r[k]]} {:trigger r[k] in next} {:trigger r[k] in prev} ::
      0 <= k < |r| ==>
      r[k] in next && next[r[k]] == Succ(r, k) && r[k] in prev && prev[r[k]] == Pred(r, k)
  }

  /** next and prev thread r in one cycle, each undoing the other. */
  ghost predicate Ring(next: map<int, int>, prev: map<int, int>, r: seq<int>) {
    Distinct(r) && Links(next, prev, r)
  }

  lemma {:induction false} RingLinksUndo(next: map<int, int>, prev: map<int, int>, r: seq<int>, k: nat)
    requires Ring(next, prev, r) && k < |r|
    ensures r[k] in next && r[k] in prev && next[r[k]] in r && prev[r[k]] in r
    ensures next[r[k]] in prev && prev[next[r[k]]] == r[k]
    ensures prev[r[k]] in next && next[prev[r[k]]] == r[k]
  {
  }

  /** Going round from between a and b: what comes next, and what came before. */
  function After(a: seq<int>, b: seq<int>): int
    requires |a| + |b| > 0
  {
    if b != [] then b[0] else a[0]
  }

  function Before(a: seq<int>, b: seq<int>): int
    requires |a| + |b| > 0
  {
    if a != [] then a[|a| - 1] else b[|b| - 1]
  }

  /** r is q with one more element, at index n. */
  ghost predicate OneMore(q: seq<int>, r: seq<int>, n: nat) {
    && |r| == |q| + 1 && n <= |q|
    && (forall k {:trigger q[k]} {:trigger r[k]} :: 0 <= k < n ==> q[k] == r[k])
    && (forall k {:trigger q[k]} :: n <= k < |q| ==> q[k] == r[k + 1])
    && (forall k {:trigger r[k]} :: n < k < |r| ==> r[k] == q[k - 1])
  }

  lemma {:induction false} OneMoreConcat(a: seq<int>, p: int, b: seq<int>)
    ensures OneMore(a + b, a + [p] + b, |a|) && (a + [p] + b)[|a|] == p
    ensures |a| + |b| > 0 ==>
      After(a, b) == Succ(a + [p] + b, |a|) && Before(a, b) == Pred(a + [p] + b, |a|)
  {
  }

  lemma {:induction false} DistinctAt(r: seq<int>, i: nat)
    requires Distinct(r) && i < |r|
    ensures forall k {:trigger r[k]} :: 0 <= k < |r| && k != i ==> r[k] != r[i]
  {
    forall k | 0 <= k < |r| && k != i ensures r[k] != r[i] {
      TwoPlaces(r, if k < i then k else i, if k < i then i else k);
    }
  }

  lemma {:induction false} TwoPlaces(r: seq<int>, i: nat, j: nat)
    requires Distinct(r) && i < j < |r|
    ensures r[i] != r[j]
  {
    assert Times(r, r[i]) <= 1;
    assert r == r[..i] + [r[i]] + r[i + 1..j] + [r[j]] + r[j + 1..];
  }

  lemma {:induction false} DistinctConcat(a: seq<int>, p: int, b: seq<int>)
    ensures Distinct(a + [p] + b) <==> Distinct(a + b) && p !in a + b
  {
    assert multiset(a + [p] + b) == multiset(a + b) + multiset{p};
    forall x ensures Times(a + [p] + b, x) == Times(a + b, x) + if x == p then 1 else 0 {}
    assert p in a + b <==> Times(a + b, p) >= 1;
    if Distinct(a + [p] + b) {
      forall x ensures Times(a + b, x) <= 1 { assert Times(a + [p] + b, x) <= 1; }
      assert Times(a + [p] + b, p) <= 1;
    }
    if Distinct(a + b) && p !in a + b {
      forall x ensures Times(a + [p] + b, x) <= 1 { assert Times(a + b, x) <= 1; }
    }
  }

  lemma {:induction false} RemoveAt(next: map<int, int>, prev: map<int, int>, q: seq<int>, r: seq<int>, n: nat)
    requires OneMore(q, r, n) && Ring(next, prev, r) && Distinct(q) && |q| > 0
    ensures Ring(next[Pred(r, n) := Succ(r, n)], prev[Succ(r, n) := Pred(r, n)], q)
  {
    DistinctAt(r, if n > 0 then n - 1 else |q|);
    DistinctAt(r, if n < |q| then n + 1 else 0);
  }

  lemma {:induction false} InsertAt(next: map<int, int>, prev: map<int, int>, q: seq<int>, r: seq<int>, n: nat)
    requires OneMore(q, r, n) && Ring(next, prev, q) && Distinct(r) && |q| > 0 && r[n] !in q
    ensures var f, l, x := Succ(r, n), Pred(r, n), r[n];
      && f in prev && prev[f] == l && l in next && next[l] == f
      && Ring(next[x := f][l := x], prev[x := l][f := x], r)
  {
    var i, j := if n < |q| then n else 0, if n > 0 then n - 1 else |q| - 1;
    assert q[i] == Succ(r, n) && q[j] == Pred(r, n);
    DistinctAt(q, i);
    DistinctAt(q, j);
    DistinctAt(r, n);
  }

  /** Taking p out from between a and b. */
  lemma {:induction false} RingRemove(next: map<int, int>, prev: map<int, int>, a: seq<int>, p: int, b: seq<int>)
    requires Ring(next, prev, a + [p] + b) && |a| + |b| > 0
    ensures p in next && next[p] == After(a, b) && p in prev && prev[p] == Before(a, b)
    ensures Ring(next[prev[p] := next[p]], prev[next[p] := prev[p]], a + b)
  {
    OneMoreConcat(a, p, b);
    DistinctConcat(a, p, b);
    assert (a + [p] + b)[|a|] == p;
    RemoveAt(next, prev, a + b, a + [p] + b, |a|);
  }

  /** Putting x in between a and b. */
  lemma {:induction false} RingInsert(next: map<int, int>, prev: map<int, int>, a: seq<int>, x: int, b: seq<int>)
    requires Ring(next, prev, a + b) && |a| + |b| > 0 && x !in a + b
    ensures var f, l := After(a, b), Before(a, b);
      && f in prev && prev[f] == l && l in next && next[l] == f
      && Ring(next[x := f][l := x], prev[x := l][f := x], a + [x] + b)
  {
    OneMoreConcat(a, x, b);
    DistinctConcat(a, x, b);
    InsertAt(next, prev, a + b, a + [x] + b, |a|);
  }

  /** x takes the place of p, in a ring of more than one. */
  lemma {:induction false} RingReplace(next: map<int, int>, prev: map<int, int>, a: seq<int>, p: int, b: seq<int>,
                                       x: int)
    requires Ring(next, prev, a + [p] + b) && |a| + |b| > 0 && x !in a + [p] + b
    ensures var f, l := After(a, b), Before(a, b);
      && p in next && next[p] == f && p in prev && prev[p] == l
      && Ring(next[x := f][l := x], prev[x := l][f := x], a + [x] + b)
  {
    RingRemove(next, prev, a, p, b);
    var f, l := After(a, b), Before(a, b);
    assert x !in a + b;
    RingInsert(next[l := f], prev[f := l], a, x, b);
    assert next[l := f][x := f][l := x] == next[x := f][l := x];
    assert prev[f := l][x := l][f := x] == prev[x := l][f := x];
  }
}
