/** heap-1.c: a segment allocator over an array of block statuses, for any number of blocks. */
module Segments {
  import opened Words

  datatype Status = Free | One | First | Cont | Last

  // ----- The shape of the status array -----

  /** A segment as the design describes it: a free block, a block on its own, or FIRST CONT* LAST. */
  datatype Segment = Gap | Single | Multi(inner: nat)

  function Conts(n: nat): seq<Status> {
    seq(n, _ => Cont)
  }

  function Render(segment: Segment): seq<Status> {
    match segment
    case Gap => [Free]
    case Single => [One]
    case Multi(inner) => [First] + Conts(inner) + [Last]
  }

  function RenderAll(layout: seq<Segment>): seq<Status> {
    if layout == [] then [] else Render(layout[0]) + RenderAll(layout[1..])
  }

  predicate Opens(t: Status) { t == First || t == Cont }

  predicate Continues(t: Status) { t == Cont || t == Last }

  /** What each step of the array says locally: exactly a FIRST or a CONT is followed by a CONT or a LAST. */
  ghost predicate WellFormed(s: seq<Status>) {
    && (forall i {:trigger Continues(s[i])} :: 0 <= i < |s| ==> (Continues(s[i]) <==> i > 0 && Opens(s[i - 1])))
    && (|s| > 0 ==> !Opens(s[|s| - 1]))
  }

  lemma {:induction false} RenderWellFormed(layout: seq<Segment>)
    ensures WellFormed(RenderAll(layout))
    ensures var s := RenderAll(layout); |s| > 0 ==> !Continues(s[0])
  {
    if layout != [] {
      var a, b := Render(layout[0]), RenderAll(layout[1..]);
      RenderWellFormed(layout[1..]);
      WellFormedConcat(a, b);
    }
  }

  lemma {:induction false} WellFormedConcat(a: seq<Status>, b: seq<Status>)
    requires WellFormed(a) && WellFormed(b) && a != []
    ensures WellFormed(a + b)
  {
  }

  /** The end of the segment that b lies in. */
  function EndOf(s: seq<Status>, b: nat): (e: nat)
    requires b < |s|
    ensures b <= e < |s|
    decreases |s| - b
  {
    if Opens(s[b]) && b + 1 < |s| then EndOf(s, b + 1) else b
  }

  function StartOf(s: seq<Status>, b: nat): (f: nat)
    requires b < |s|
    ensures f <= b
  {
    if Continues(s[b]) && b > 0 then StartOf(s, b - 1) else b
  }

  lemma {:induction false} EndOfSegment(s: seq<Status>, b: nat)
    requires WellFormed(s) && b < |s| && Opens(s[b])
    ensures var e := EndOf(s, b);
      b < e && s[e] == Last && forall i :: b < i < e ==> s[i] == Cont
    decreases |s| - b
  {
    assert Continues(s[b + 1]);
    if Opens(s[b + 1]) { EndOfSegment(s, b + 1); }
  }

  lemma {:induction false} StartOfSegment(s: seq<Status>, b: nat)
    requires WellFormed(s) && b < |s| && Continues(s[b])
    ensures var f := StartOf(s, b);
      f < b && s[f] == First && forall i :: f < i < b ==> s[i] == Cont
  {
    if Continues(s[b - 1]) {
      StartOfSegment(s, b - 1);
    }
  }

  /** Every well-formed array is a concatenation of whole segments, and only those are. */
  lemma {:induction false} WellFormedIffSegments(s: seq<Status>)
    ensures WellFormed(s) <==> exists layout :: RenderAll(layout) == s
  {
    if WellFormed(s) { var layout := Parse(s); }
    if layout :| RenderAll(layout) == s { RenderWellFormed(layout); }
  }

  lemma {:induction false} RenderCons(head: Segment, layout: seq<Segment>)
    ensures RenderAll([head] + layout) == Render(head) + RenderAll(layout)
  {
    assert ([head] + layout)[1..] == layout;
  }

  lemma {:induction false} Parse(s: seq<Status>) returns (layout: seq<Segment>)
    requires WellFormed(s)
    ensures RenderAll(layout) == s
    decreases |s|
  {
    if s == [] {
      assert RenderAll([]) == [];
      return [];
    }
    assert !Continues(s[0]);
    hide WellFormed, Render, RenderAll;
    var e, head := FirstSegment(s);
    layout := Parse(s[e + 1..]);
    RenderCons(head, layout);
    layout := [head] + layout;
    assert s == s[..e + 1] + s[e + 1..];
  }

  lemma {:induction false} FirstSegment(s: seq<Status>) returns (e: nat, head: Segment)
    requires WellFormed(s) && s != []
    ensures e < |s| && Render(head) == s[..e + 1] && WellFormed(s[e + 1..])
  {
    assert !Continues(s[0]);
    e := EndOf(s, 0);
    if s[0] == First { EndOfSegment(s, 0); }
    head := if s[0] == Free then Gap else if s[0] == One then Single else Multi(e - 1);
    assert Render(head) == s[..e + 1];
    RestIsWellFormed(s, e);
  }

  lemma {:induction false} RestIsWellFormed(s: seq<Status>, e: nat)
    requires WellFormed(s) && e < |s| && !Opens(s[e])
    ensures WellFormed(s[e + 1..])
  {
    var rest := s[e + 1..];
    forall i | 0 <= i < |rest| ensures Continues(rest[i]) <==> i > 0 && Opens(rest[i - 1]) {
      assert Continues(s[e + 1 + i]) <==> Opens(s[e + i]);
    }
  }

  // ----- Allocation -----

  /** size free blocks in a row from i on. */
  ghost predicate FreeRun(s: seq<Status>, i: nat, size: nat) {
    i + size <= |s| && forall k :: i <= k < i + size ==> s[k] == Free
  }

  /** The segment marked at i..i + size. */
  function Marked(s: seq<Status>, i: nat, size: nat): seq<Status>
    requires size > 0 && i + size <= |s|
  {
    seq(|s|, k requires 0 <= k < |s| =>
      if k < i || k >= i + size then s[k]
      else if size == 1 then One
      else if k == i then First
      else if k == i + size - 1 then Last
      else Cont)
  }

  function Cleared(s: seq<Status>, from: nat, to: nat): seq<Status> {
    seq(|s|, k requires 0 <= k < |s| => if from <= k <= to then Free else s[k])
  }

  lemma {:induction false} MarkedWellFormed(s: seq<Status>, i: nat, size: nat)
    requires WellFormed(s) && size > 0 && FreeRun(s, i, size)
    ensures WellFormed(Marked(s, i, size))
  {
    hide Marked;
    var r := Marked(s, i, size);
    MarkedAt(s, i, size, |s| - 1);
    assert s[|s| - 1] == Free || !Opens(s[|s| - 1]);
    forall k {:trigger Continues(r[k])} | 0 <= k < |r| ensures Continues(r[k]) <==> k > 0 && Opens(r[k - 1]) {
      assert Continues(s[k]) <==> k > 0 && Opens(s[k - 1]);
      MarkedAt(s, i, size, k);
      if k > 0 { MarkedAt(s, i, size, k - 1); }
      if k == i + size { assert s[k - 1] == Free; }
    }
  }

  lemma {:induction false} MarkedAt(s: seq<Status>, i: nat, size: nat, k: nat)
    requires size > 0 && i + size <= |s| && k < |s|
    ensures |Marked(s, i, size)| == |s|
    ensures Marked(s, i, size)[k] ==
      if k < i || k >= i + size then s[k]
      else if size == 1 then One
      else if k == i then First
      else if k == i + size - 1 then Last
      else Cont
  {
  }

  /** Clearing one whole segment leaves whole segments. */
  lemma {:induction false} ClearedWellFormed(s: seq<Status>, b: nat)
    requires WellFormed(s) && b < |s|
    ensures WellFormed(Cleared(s, StartOf(s, b), EndOf(s, b)))
  {
    SegmentEnds(s, b);
    ClearedRange(s, StartOf(s, b), EndOf(s, b));
  }

  lemma {:induction false} ClearedRange(s: seq<Status>, f: nat, e: nat)
    requires WellFormed(s) && f <= e < |s| && (f > 0 ==> !Opens(s[f - 1])) && (e + 1 < |s| ==> !Continues(s[e + 1]))
    ensures WellFormed(Cleared(s, f, e))
  {
    var r := Cleared(s, f, e);
    forall k | 0 <= k < |r| ensures Continues(r[k]) <==> k > 0 && Opens(r[k - 1]) {
      assert Continues(s[k]) <==> k > 0 && Opens(s[k - 1]);
    }
  }

  lemma {:induction false} SegmentEnds(s: seq<Status>, b: nat)
    requires WellFormed(s) && b < |s|
    ensures !Continues(s[StartOf(s, b)]) && !Opens(s[EndOf(s, b)])
    ensures StartOf(s, b) > 0 ==> !Opens(s[StartOf(s, b) - 1])
    ensures EndOf(s, b) + 1 < |s| ==> !Continues(s[EndOf(s, b) + 1])
  {
    assert Continues(s[b]) <==> b > 0 && Opens(s[b - 1]);
    if Continues(s[b]) { StartOfSegment(s, b); }
    if Opens(s[b]) { EndOfSegment(s, b); }
    var f, e := StartOf(s, b), EndOf(s, b);
    assert Continues(s[f]) <==> f > 0 && Opens(s[f - 1]);
    if e + 1 < |s| { assert Continues(s[e + 1]) <==> Opens(s[e]); }
  }

  datatype BlockId = Invalid | BlockId(value: nat)

  /** What block_allocate leaves and returns: the leftmost free run of that size, marked. */
  ghost predicate Allocates(s: seq<Status>, size: nat, r: seq<Status>, id: BlockId) {
    match id
    case Invalid => r == s && (size == 0 || forall i :: !FreeRun(s, i, size))
    case BlockId(i) =>
      size > 0 && FreeRun(s, i, size) && (forall k :: 0 <= k < i ==> !FreeRun(s, k, size)) && r == Marked(s, i, size)
  }

  method BlockAllocate(status: array<Status>, size: nat) returns (id: BlockId)
    requires status.Length < WORD && size < WORD
    modifies status
    ensures Allocates(old(status[..]), size, status[..], id)
  {
    if size <= 0 { return Invalid; }
    ghost var s := status[..];
    var i := 0;
    while i < status.Length
      invariant 0 <= i <= status.Length && status[..] == s
      invariant forall k :: 0 <= k < i ==> !FreeRun(s, k, size)
    {
      if status[i] == Free {
        var j := i;
        var from := i;
        while j < status.Length
          invariant from <= j <= status.Length && i == from && status[..] == s
          invariant forall k :: from <= k < j ==> s[k] == Free
          invariant j < from + size
        {
          if status[j] != Free {
            BlockedRuns(s, from, j, size);
            i := j;
            break;
          }
          if j + 1 == (i + size) % WORD {
            assert j + 1 == i + size;
            if size == 1 {
              status[i] := One;
            } else {
              status[i] := First;
              var c := i + 1;
              while c < j
                invariant i < c <= j
                invariant status[..] ==
                  seq(|s|, k requires 0 <= k < |s| => if k == i then First else if i < k < c then Cont else s[k])
              {
                status[c] := Cont;
                c := c + 1;
              }
              status[j] := Last;
            }
            assert status[..] == Marked(s, i, size);
            return BlockId(i);
          }
          j := j + 1;
        }
      }
      i := i + 1;
    }
    return Invalid;
  }

  /** A used block at j blocks every run that starts at or before it and is not over yet. */
  lemma {:induction false} BlockedRuns(s: seq<Status>, from: nat, j: nat, size: nat)
    requires from <= j < |s| && s[j] != Free && j < from + size
    ensures forall k :: from <= k <= j ==> !FreeRun(s, k, size)
  {
  }

  // ----- Freeing -----

  /** heap_free, in size_t arithmetic: it refuses a range that reaches the last block, and clears nothing when the
      end of the range wraps to before its start. */
  method HeapFree(status: array<Status>, from: nat, size: nat) returns (freed: nat)
    requires from < WORD && size < WORD
    modifies status
    ensures var end := (from + size) % WORD;
      if end >= status.Length then freed == 0 && status[..] == old(status[..])
      else
        && freed == size
        && status[..] == if from < end then Cleared(old(status[..]), from, end - 1) else old(status[..])
  {
    ghost var s := status[..];
    var end := (from + size) % WORD;
    if end >= status.Length { return 0; }
    var i := from;
    while i < end
      invariant from <= i && (i == from || i <= end)
      invariant status[..] == seq(|s|, k requires 0 <= k < |s| => if from <= k < i then Free else s[k])
    {
      status[i] := Free;
      i := i + 1;
    }
    return size;
  }

  lemma {:induction false} InWord(n: nat)
    requires n < WORD
    ensures n % WORD == n
  {
  }

  /** What freeing the segment of block b leaves: that segment alone cleared, unless it is a multi-block one that
      ends at the last block. */
  function SegmentFreed(s: seq<Status>, b: nat): seq<Status>
    requires b < |s|
  {
    if s[b] == Free then s
    else if s[b] == One then s[b := Free]
    else if EndOf(s, b) + 1 >= |s| then s
    else Cleared(s, StartOf(s, b), EndOf(s, b))
  }

  /** block_free_segment_with.  The backward scan stops at the segment's own first block, so the index never
      wraps, and the forward one at its own last block. */
  method BlockFreeSegmentWith(status: array<Status>, id: BlockId)
    requires status.Length < WORD && WellFormed(status[..])
    modifies status
    ensures status[..] ==
      if id.BlockId? && id.value < status.Length then SegmentFreed(old(status[..]), id.value) else old(status[..])
  {
    hide WellFormed, EndOf, StartOf, Cleared;
    if id.Invalid? || id.value >= status.Length || status[id.value] == Free { return; }
    ghost var s := status[..];
    var b := id.value;
    if status[b] == One {
      status[b] := Free;
    } else {
      ScansMeet(s, b);
      var first := b;
      while status[first] != First
        invariant StartOf(s, b) <= first <= b
        decreases first
      {
        first := first - 1;
      }
      var last := b;
      while last < status.Length && status[last] != Last
        invariant b <= last <= EndOf(s, b)
        decreases status.Length - last
      {
        last := last + 1;
      }
      InWord(last + 1);
      var _ := HeapFree(status, first, last - first + 1);
    }
  }

  /** Around a block of a multi-block segment: FIRST only at its start, LAST only at its end. */
  lemma {:induction false} ScansMeet(s: seq<Status>, b: nat)
    requires WellFormed(s) && b < |s| && s[b] != Free && s[b] != One
    ensures s[StartOf(s, b)] == First && forall i :: StartOf(s, b) < i <= b ==> s[i] != First
    ensures s[EndOf(s, b)] == Last && forall i :: b <= i < EndOf(s, b) ==> s[i] != Last
  {
    if Continues(s[b]) { StartOfSegment(s, b); }
    if Opens(s[b]) { EndOfSegment(s, b); }
  }

  /** block_free takes the first block of a segment only; without a value where the source returns none. */
  datatype Freed = NoValue | Freed(count: nat)

  method BlockFree(status: array<Status>, id: BlockId) returns (r: Freed)
    requires status.Length < WORD && WellFormed(status[..])
    modifies status
    ensures var s := old(status[..]);
      if id.Invalid? || id.value >= |s| || s[id.value] == Free then r == NoValue && status[..] == s
      else if s[id.value] == One || s[id.value] == First then
        && status[..] == SegmentFreed(s, id.value)
        && r == Freed(if s[id.value] == One then 1
                      else if EndOf(s, id.value) + 1 >= |s| then 0
                      else EndOf(s, id.value) - id.value + 1)
      else r == Freed(0) && status[..] == s
  {
    hide WellFormed, EndOf, StartOf, Cleared;
    if id.Invalid? || id.value >= status.Length || status[id.value] == Free { return NoValue; }
    ghost var s := status[..];
    var first := id.value;
    if status[first] == One {
      status[first] := Free;
      return Freed(1);
    }
    if status[first] != First { return Freed(0); }
    ScansMeet(s, first);
    var last := first;
    while last < status.Length && status[last] != Last
      invariant first <= last <= EndOf(s, first)
      decreases status.Length - last
    {
      last := last + 1;
    }
    r := Freed(0);
    if last < status.Length {
      InWord(last + 1);
      var n := HeapFree(status, first, last - first + 1);
      r := Freed(n);
    }
  }

  // ----- What holds over runs -----

  lemma {:induction false} SegmentFreedWellFormed(s: seq<Status>, b: nat)
    requires WellFormed(s) && b < |s|
    ensures WellFormed(SegmentFreed(s, b))
  {
    if s[b] == One {
      assert !Continues(s[b]);
      if b + 1 < |s| { assert !Continues(s[b + 1]); }
      ClearedRange(s, b, b);
      assert Cleared(s, b, b) == s[b := Free];
    } else if s[b] != Free && EndOf(s, b) + 1 < |s| {
      ClearedWellFormed(s, b);
    }
  }

  /** Freeing works for exactly the used blocks that are alone or whose segment stops short of the last block;
      then the whole segment is free and every other block is as it was. */
  lemma {:induction false} FreesIff(s: seq<Status>, b: nat)
    requires WellFormed(s) && b < |s| && s[b] != Free
    ensures SegmentFreed(s, b)[b] == Free <==> s[b] == One || EndOf(s, b) != |s| - 1
    ensures SegmentFreed(s, b)[b] == Free ==>
      forall k :: 0 <= k < |s| ==> SegmentFreed(s, b)[k] == if StartOf(s, b) <= k <= EndOf(s, b) then Free else s[k]
  {
  }

  /** Freeing what was just allocated gives back the array, unless the segment has several blocks and ends at the last
      one. */
  lemma {:induction false} FreeUndoesAllocate(s: seq<Status>, size: nat, r: seq<Status>, id: BlockId)
    requires WellFormed(s) && Allocates(s, size, r, id) && id.BlockId?
    ensures SegmentFreed(r, id.value) == s <==> size == 1 || id.value + size < |s|
  {
    var i := id.value;
    MarkedWellFormed(s, i, size);
    if size > 1 {
      ScansMeet(r, i);
      EndOfSegment(r, i);
      assert r[i + size - 1] == Last;
      assert forall k :: i < k < i + size - 1 ==> r[k] == Cont;
      assert StartOf(r, i) == i;
      if i + size < |s| { assert Cleared(r, i, i + size - 1) == s; } else { assert r[i] != s[i]; }
    } else {
      assert r[i := Free] == s;
    }
  }

  /** The heap before its first call. */
  function AllFree(n: nat): seq<Status> { seq(n, _ => Free) }

  lemma {:induction false} AllFreeIsWellFormed(n: nat)
    ensures WellFormed(AllFree(n))
  {
  }

  /** A fresh heap of two blocks or more, allocated whole, is never freed again. */
  lemma {:induction false} WholeHeapStays(n: nat)
    requires n >= 2
    ensures var s, r := AllFree(n), Marked(AllFree(n), 0, n);
      Allocates(s, n, r, BlockId(0)) && forall b :: 0 <= b < n ==> SegmentFreed(r, b) == r && r[b] != Free
  {
    var s, r := AllFree(n), Marked(AllFree(n), 0, n);
    AllFreeIsWellFormed(n);
    MarkedWellFormed(s, 0, n);
    forall b | 0 <= b < n ensures SegmentFreed(r, b) == r && r[b] != Free { EndOfWhole(n, b); }
  }

  lemma {:induction false} EndOfWhole(n: nat, b: nat)
    requires n >= 2 && b < n
    ensures var r := Marked(AllFree(n), 0, n); r[b] != Free && r[b] != One && EndOf(r, b) == n - 1
    decreases n - b
  {
    if b + 1 < n { EndOfWhole(n, b + 1); }
  }

  datatype Call = Allocate(size: nat) | Release(b: nat)

  ghost predicate Step(s: seq<Status>, c: Call, t: seq<Status>) {
    match c
    case Allocate(size) => exists id :: Allocates(s, size, t, id)
    case Release(b) => t == if b < |s| then SegmentFreed(s, b) else s
  }

  ghost predicate Run(s: seq<Status>, calls: seq<Call>, t: seq<Status>)
    decreases |calls|
  {
    if calls == [] then t == s
    else exists u :: Step(s, calls[0], u) && Run(u, calls[1..], t)
  }

  lemma {:induction false} StepWellFormed(s: seq<Status>, c: Call, t: seq<Status>)
    requires WellFormed(s) && Step(s, c, t)
    ensures WellFormed(t) && |t| == |s|
  {
    match c
    case Allocate(size) =>
      var id :| Allocates(s, size, t, id);
      if id.BlockId? { MarkedWellFormed(s, id.value, size); }
    case Release(b) =>
      if b < |s| { SegmentFreedWellFormed(s, b); }
  }

  /** Over every run the array is a concatenation of whole segments. */
  lemma {:induction false} RunIsSegments(s: seq<Status>, calls: seq<Call>, t: seq<Status>)
    requires WellFormed(s) && Run(s, calls, t)
    ensures |t| == |s| && WellFormed(t) && exists layout :: RenderAll(layout) == t
    decreases |calls|
  {
    if calls != [] {
      var u :| Step(s, calls[0], u) && Run(u, calls[1..], t);
      StepWellFormed(s, calls[0], u);
      RunIsSegments(u, calls[1..], t);
    } else {
      WellFormedIffSegments(t);
    }
  }
}
