/** The double-ended queue of src/deque.ts: a doubly linked list on the heap that stands for a sequence. */
module Deques {
  import opened Wrappers

  class Node<T> {
    var data: T
    var next: Node?<T>
    var prev: Node?<T>

    constructor (data: T)
      ensures this.data == data && next == null && prev == null
    {
      this.data := data;
      next, prev := null, null;
    }
  }

  function Reversed<T>(s: seq<T>): (r: seq<T>)
    ensures |r| == |s| && forall i :: 0 <= i < |s| ==> r[i] == s[|s| - 1 - i]
  {
    if s == [] then [] else [s[|s| - 1]] + Reversed(s[..|s| - 1])
  }

  class Deque<T> {
    var head: Node?<T>
    var tail: Node?<T>
    var size: nat
    var maxSize: nat
    ghost var nodes: seq<Node<T>>
    // the size after each operation since the deque was created or last cleared
    ghost var sizes: seq<nat>

    /** Following next from head, and prev from tail, visits exactly the nodes, forwards and backwards. */
    ghost predicate Valid()
      reads this, nodes
    {
      && size == |nodes|
      && sizes != [] && size == sizes[|sizes| - 1]
      && maxSize in sizes && (forall n :: n in sizes ==> n <= maxSize)
      && (forall i, j :: 0 <= i < j < |nodes| ==> nodes[i] != nodes[j])
      && head == (if nodes == [] then null else nodes[0])
      && tail == (if nodes == [] then null else nodes[|nodes| - 1])
      && forall i {:trigger Linked(i)} :: 0 <= i < |nodes| ==> Linked(i)
    }

    ghost predicate Linked(i: int)
      requires 0 <= i < |nodes|
      reads this, nodes
    {
      && nodes[i].next == (if i + 1 < |nodes| then nodes[i + 1] else null)
      && nodes[i].prev == (if i > 0 then nodes[i - 1] else null)
    }

    lemma IsLinked(i: int)
      requires Valid() && 0 <= i < |nodes|
      ensures Linked(i)
    {
    }

    ghost function Contents(): (s: seq<T>)
      reads this, nodes
      ensures |s| == |nodes| && forall i :: 0 <= i < |s| ==> s[i] == nodes[i].data
    {
      seq(|nodes|, i requires 0 <= i < |nodes| reads this, nodes => nodes[i].data)
    }

    constructor ()
      ensures Valid() && Contents() == [] && maxSize == 0 && nodes == [] && sizes == [0]
    {
      head, tail := null, null;
      size, maxSize := 0, 0;
      nodes, sizes := [], [0];
    }

    method Push(data: T) returns (newSize: nat)
      requires Valid()
      modifies this, nodes
      ensures Valid() && |nodes| == |old(nodes)| + 1
      ensures nodes == old(nodes) + [nodes[|nodes| - 1]] && fresh(nodes[|nodes| - 1])
      ensures Contents() == old(Contents()) + [data]
      ensures newSize == |Contents()| && sizes == old(sizes) + [newSize]
    {
      var node := new Node(data);
      if tail == null {
        head := node;
        tail := node;
      } else {
        node.prev := tail;
        tail.next := node;
        tail := node;
      }
      nodes := nodes + [node];
      newSize := IncrementSize();
      forall i | 0 <= i < |nodes| ensures Linked(i) {
        assert i < |old(nodes)| ==> nodes[i] == old(nodes)[i] && old(Linked(i));
      }
    }

    method Unshift(data: T) returns (newSize: nat)
      requires Valid()
      modifies this, nodes
      ensures Valid() && |nodes| == |old(nodes)| + 1
      ensures nodes == [nodes[0]] + old(nodes) && fresh(nodes[0])
      ensures Contents() == [data] + old(Contents())
      ensures newSize == |Contents()| && sizes == old(sizes) + [newSize]
    {
      var node := new Node(data);
      if head == null {
        head := node;
        tail := node;
      } else {
        node.next := head;
        head.prev := node;
        head := node;
      }
      nodes := [node] + nodes;
      newSize := IncrementSize();
      forall i | 0 <= i < |nodes| ensures Linked(i) {
        if i > 0 {
          assert old(Linked(i - 1));
          assert nodes[i] == old(nodes)[i - 1];
          if i > 1 {
            assert nodes[i - 1] == old(nodes)[i - 2];
          }
        }
      }
    }

    method IncrementSize() returns (newSize: nat)
      requires |nodes| == size + 1
      modifies this`size, this`maxSize, this`sizes
      ensures size == old(size) + 1 == newSize && sizes == old(sizes) + [size]
      ensures maxSize == if size > old(maxSize) then size else old(maxSize)
    {
      size := size + 1;
      if size > maxSize {
        maxSize := size;
      }
      newSize, sizes := size, sizes + [size];
    }

    method Pop() returns (data: Option<T>)
      requires Valid()
      modifies this, nodes
      ensures Valid() && maxSize == old(maxSize) && sizes == old(sizes) + [|Contents()|]
      ensures forall n :: n in nodes ==> n in old(nodes)
      ensures old(Contents()) == [] ==> data == None && Contents() == []
      ensures old(Contents()) != [] ==> var last := |old(Contents())| - 1;
        data == Some(old(Contents())[last]) && Contents() == old(Contents())[..last]
    {
      if head == null {
        sizes := sizes + [0];
        return None;
      }
      assert size in sizes;
      var oldTail := tail;
      assert Linked(|nodes| - 1);
      tail := tail.prev;
      if tail == null {
        head := null;
      } else {
        tail.next := null;
      }
      size, sizes := size - 1, sizes + [size - 1];
      nodes := nodes[..|nodes| - 1];
      forall i | 0 <= i < |nodes| ensures Linked(i) {
        assert nodes[i] == old(nodes)[i] && old(Linked(i));
      }
      return Some(oldTail.data);
    }

    method Shift() returns (data: Option<T>)
      requires Valid()
      modifies this, nodes
      ensures Valid() && maxSize == old(maxSize) && sizes == old(sizes) + [|Contents()|]
      ensures forall n :: n in nodes ==> n in old(nodes)
      ensures old(Contents()) == [] ==> data == None && Contents() == []
      ensures old(Contents()) != [] ==>
        data == Some(old(Contents())[0]) && Contents() == old(Contents())[1..]
    {
      if head == null {
        sizes := sizes + [0];
        return None;
      }
      assert size in sizes;
      var oldHead := head;
      assert Linked(0);
      head := head.next;
      if head == null {
        tail := null;
      } else {
        head.prev := null;
      }
      size, sizes := size - 1, sizes + [size - 1];
      nodes := nodes[1..];
      forall i | 0 <= i < |nodes| ensures Linked(i) {
        assert nodes[i] == old(nodes)[i + 1] && old(Linked(i + 1));
      }
      return Some(oldHead.data);
    }

    method PeekFirst() returns (data: Option<T>)
      requires Valid()
      ensures data == if Contents() == [] then None else Some(Contents()[0])
    {
      if head == null {
        return None;
      }
      return Some(head.data);
    }

    method PeekLast() returns (data: Option<T>)
      requires Valid()
      ensures data == if Contents() == [] then None else Some(Contents()[|Contents()| - 1])
    {
      if tail == null {
        return None;
      }
      return Some(tail.data);
    }

    method Clear()
      modifies this
      ensures Valid() && Contents() == [] && maxSize == 0 && nodes == [] && sizes == [0]
    {
      head, tail := null, null;
      size, maxSize := 0, 0;
      nodes, sizes := [], [0];
    }

    /** The iterator of for (const data of deque). */
    method Iterate() returns (iteration: Iteration<T>)
      requires Valid()
      ensures fresh(iteration) && iteration.Valid() && iteration.deque == this
      ensures !iteration.backwards && iteration.position == 0
    {
      iteration := new Iteration(this, false);
    }

    method Backward() returns (iteration: Iteration<T>)
      requires Valid()
      ensures fresh(iteration) && iteration.Valid() && iteration.deque == this
      ensures iteration.backwards && iteration.position == 0
    {
      iteration := new Iteration(this, true);
    }
  }

  /** An iterator over a deque that does not change meanwhile, from head to tail or from tail to head. */
  class Iteration<T> {
    ghost const deque: Deque<T>
    const backwards: bool
    var node: Node?<T>
    // the number of values yielded
    ghost var position: nat

    ghost predicate Valid()
      reads this, deque, deque.nodes
    {
      && deque.Valid() && position <= |deque.nodes|
      && node == if position == |deque.nodes| then null else deque.nodes[Index(position)]
    }

    ghost function Index(i: int): int
      reads this, deque
    {
      if backwards then |deque.nodes| - 1 - i else i
    }

    /** The values in the order in which they are yielded. */
    ghost function Order(): (s: seq<T>)
      reads this, deque, deque.nodes
      ensures |s| == |deque.nodes| && forall i :: 0 <= i < |s| ==> s[i] == deque.nodes[Index(i)].data
    {
      if backwards then Reversed(deque.Contents()) else deque.Contents()
    }

    constructor (deque: Deque<T>, backwards: bool)
      requires deque.Valid()
      ensures Valid() && this.deque == deque && this.backwards == backwards && position == 0
    {
      this.deque, this.backwards := deque, backwards;
      node := if backwards then deque.tail else deque.head;
      position := 0;
    }

    method Next() returns (data: Option<T>)
      requires Valid()
      modifies this
      ensures Valid() && Order() == old(Order())
      ensures if old(position) == |Order()| then data == None && position == old(position)
              else data == Some(Order()[old(position)]) && position == old(position) + 1
    {
      hide Deque.Valid, Deque.Contents, Order;
      if node == null {
        return None;
      }
      data := Some(node.data);
      deque.IsLinked(Index(position));
      node := if backwards then node.prev else node.next;
      position := position + 1;
    }

    lemma OrderOf()
      ensures Order() == if backwards then Reversed(deque.Contents()) else deque.Contents()
    {
    }

    /** The loop of a caller: it collects the deque's values in order, or in reverse. */
    method Collect() returns (values: seq<T>)
      requires Valid() && position == 0
      modifies this
      ensures values == if backwards then Reversed(deque.Contents()) else deque.Contents()
    {
      hide Order, Deque.Valid, Deque.Contents;
      values := [];
      ghost var all := Order();
      var data := Next();
      while data.Some?
        invariant Valid() && Order() == all && |values| <= |all|
        invariant values == all[..|values|]
        invariant if data == None then |values| == |all| else |values| + 1 == position && data.value == all[|values|]
        decreases |all| - |values|
      {
        values := values + [data.value];
        data := Next();
      }
      OrderOf();
    }
  }
}
