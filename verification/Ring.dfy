/** ring.h: a circular doubly linked ring of heap nodes, as a double-ended queue. */
module Ring {

  class Node<T> {
    var value: T
    var next: Node?<T>
    var prev: Node?<T>

    /** ring_create, when malloc succeeds: a node linked to itself. */
    constructor (value: T)
      ensures this.value == value && next == this && prev == this
    {
      this.value := value;
      next := this;
      prev := this;
    }
  }

  ghost function ValuesOf<T>(ns: seq<Node<T>>): (s: seq<T>)
    reads ns
    ensures |s| == |ns| && forall i :: 0 <= i < |ns| ==> s[i] == ns[i].value
  {
    seq(|ns|, i requires 0 <= i < |ns| reads ns => ns[i].value)
  }

  lemma ValuesConcat<T>(a: seq<Node<T>>, b: seq<Node<T>>)
    ensures ValuesOf(a + b) == ValuesOf(a) + ValuesOf(b)
  {
  }

  lemma LastApart<T>(a: seq<T>, x: T, b: seq<T>, y: T)
    requires a + [x] == b + [y]
    ensures a == b && x == y
  {
    assert |a + [x]| == |b + [y]|;
    assert a == (a + [x])[..|a|] && b == (b + [y])[..|b|];
    assert x == (a + [x])[|a|] && y == (b + [y])[|b|];
  }

  class Ring<T> {
    /** the caller's pointer: the first node, or null */
    var ring: Node?<T>
    /** the nodes from first to last */
    ghost var nodes: seq<Node<T>>
    /** every node given to free so far, in that order */
    ghost var freed: seq<Node<T>>

    ghost predicate Linked()
      reads this, nodes
    {
      && (forall i {:trigger nodes[i].next} :: 0 <= i < |nodes| ==>
           nodes[i].next == if i + 1 < |nodes| then nodes[i + 1] else nodes[0])
      && (forall i {:trigger nodes[i].prev} :: 0 <= i < |nodes| ==>
           nodes[i].prev == if i > 0 then nodes[i - 1] else nodes[|nodes| - 1])
    }

    ghost predicate Valid()
      reads this, nodes
    {
      && (ring == null <==> nodes == [])
      && (nodes != [] ==> ring == nodes[0])
      && (forall i, j :: 0 <= i < j < |nodes| ==> nodes[i] != nodes[j])
      && (forall n <- nodes :: n !in freed)
      && Linked()
    }

    ghost function Contents(): (s: seq<T>)
      reads this, nodes
      ensures |s| == |nodes|
    {
      ValuesOf(nodes)
    }

    constructor ()
      ensures Valid() && Contents() == [] && freed == []
    {
      ring := null;
      nodes, freed := [], [];
    }

    /** next and prev undo each other on every node of the ring. */
    lemma LinksUndo(n: Node<T>)
      requires Valid() && n in nodes
      ensures n.next in nodes && n.prev in nodes && n.next.prev == n && n.prev.next == n
    {
    }

    method First() returns (v: T)
      requires Valid() && nodes != []
      ensures v == Contents()[0]
    {
      v := ring.value;
    }

    method Last() returns (v: T)
      requires Valid() && nodes != []
      ensures v == Contents()[|Contents()| - 1]
    {
      v := ring.prev.value;
    }

    /** ring_push; `room` is whether malloc finds memory. */
    method Push(value: T, room: bool) returns (item: Node?<T>)
      requires Valid()
      modifies this`ring, this`nodes, nodes
      ensures Valid() && freed == old(freed)
      ensures room ==>
        item != null && fresh(item) && nodes == old(nodes) + [item] && Contents() == old(Contents()) + [value]
      ensures !room ==> item == null && nodes == old(nodes) && Contents() == old(Contents())
      ensures ValuesOf(old(nodes)) == old(Contents()) && (room ==> ValuesOf([item]) == [value])
    {
      if !room { return null; }
      var fresh_ := new Node(value);
      item := fresh_;
      if ring == null {
        ring := fresh_;
        nodes := [fresh_];
        return;
      }
      ghost var was := nodes;
      Link(fresh_);
      ValuesConcat(was, [fresh_]);
    }

    /** The four link writes that put a node between the last and the first. */
    method Link(item: Node<T>)
      requires Valid() && nodes != [] && item !in nodes && item !in freed
      modifies this`nodes, nodes, item
      ensures Valid() && nodes == old(nodes) + [item] && item.value == old(item.value)
      ensures forall n <- old(nodes) :: n.value == old(n.value)
    {
      item.next := ring;
      item.prev := ring.prev;
      ring.prev.next := item;
      ring.prev := item;
      nodes := nodes + [item];
    }

    /** ring_pop */
    method Pop() returns (value: T)
      requires Valid() && nodes != []
      modifies this, nodes
      ensures Valid()
      ensures old(Contents()) == Contents() + [value]
      ensures old(nodes) == nodes + [old(nodes)[|old(nodes)| - 1]]
        && freed == old(freed) + [old(nodes)[|old(nodes)| - 1]]
    {
      ghost var n := |nodes|;
      var item := ring.prev;
      value := item.value;
      if item == ring {
        ring := null;
        freed := freed + [item];
        nodes := [];
        return;
      }
      item.prev.next := ring;
      ring.prev := item.prev;
      freed := freed + [item];
      nodes := nodes[..n - 1];
    }

    /** ring_push_top: a push after the last node is a push before the first once the ring starts there. */
    method PushTop(value: T, room: bool) returns (item: Node?<T>)
      requires Valid()
      modifies this`ring, this`nodes, nodes
      ensures Valid() && freed == old(freed)
      ensures room ==>
        item != null && fresh(item) && nodes == [item] + old(nodes) && Contents() == [value] + old(Contents())
      ensures !room ==> item == null && nodes == old(nodes) && Contents() == old(Contents())
    {
      hide Linked, ValuesOf;
      item := Push(value, room);
      if item == null { return; }
      ValuesConcat([item], old(nodes));
      StartAt(item);
    }

    /** `*ring = item` for the last node: the same cycle, begun one node earlier. */
    method StartAt(item: Node<T>)
      requires Valid() && nodes != [] && item == nodes[|nodes| - 1]
      modifies this`ring, this`nodes
      ensures Valid() && nodes == [item] + old(nodes)[..|old(nodes)| - 1]
    {
      ghost var was := nodes;
      ring := item;
      nodes := [item] + nodes[..|nodes| - 1];
      assert forall i :: 0 <= i < |nodes| ==> nodes[i] == if i > 0 then was[i - 1] else was[|was| - 1];
    }

    /** ring_pop_top: the ring moves on to its second node, and the old first one is popped as the last. */
    method PopTop() returns (value: T)
      requires Valid() && nodes != []
      modifies this, nodes
      ensures Valid()
      ensures old(Contents()) == [value] + Contents()
      ensures nodes == old(nodes)[1..] && freed == old(freed) + [old(nodes)[0]]
    {
      ghost var was, values := nodes, Contents();
      MoveOn();
      ValuesConcat(was[1..], [was[0]]);
      assert [was[0]] + was[1..] == was;
      ValuesConcat([was[0]], was[1..]);
      value := Pop();
      LastApart(values[1..], values[0], Contents(), value);
      LastApart(was[1..], was[0], nodes, was[0]);
    }

    /** `*ring = (*ring)->next`: the same cycle, begun one node later. */
    method MoveOn()
      requires Valid() && nodes != []
      modifies this`ring, this`nodes
      ensures Valid() && nodes == old(nodes)[1..] + [old(nodes)[0]]
    {
      ghost var was := nodes;
      ring := ring.next;
      nodes := nodes[1..] + [nodes[0]];
      assert forall i :: 0 <= i < |nodes| ==> nodes[i] == if i + 1 < |was| then was[i + 1] else was[0];
    }

    /** ring_free: the cycle is cut behind the last node and walked once; every node is released exactly once. */
    method Free()
      requires Valid()
      modifies this, nodes
      ensures Valid() && nodes == [] && freed == old(freed) + old(nodes)
    {
      if ring == null { return; }
      ghost var was := nodes;
      ghost var k := 0;
      ring.prev.next := null;
      while ring != null
        invariant 0 <= k <= |was|
        invariant ring == if k < |was| then was[k] else null
        invariant forall i {:trigger was[i].next} :: k <= i < |was| ==>
            was[i].next == if i + 1 < |was| then was[i + 1] else null
        invariant freed == old(freed) + was[..k]
        decreases |was| - k
      {
        var tmp := ring;
        ring := ring.next;
        assert tmp == was[k] && tmp !in freed by {
          forall i | 0 <= i < k ensures was[..k][i] != tmp {}
        }
        freed := freed + [tmp];
        k := k + 1;
      }
      nodes := [];
    }
  }
}
