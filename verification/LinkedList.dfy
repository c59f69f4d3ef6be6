/** The intrusive doubly linked list: a head and the nodes linked to it, all in a ring. */
module LinkedLists {

  class Node {
    const marker: bool
    var prev: Node?
    var next: Node?

    constructor (marker: bool)
      ensures this.marker == marker && prev == null && next == null
    {
      this.marker := marker;
      prev, next := null, null;
    }
  }

  class LinkedList {
    const head: Node
    /** What is linked, in order, and every node that may come to be. */
    ghost var elems: seq<Node>
    ghost var nodes: set<Node>

    constructor ()
      ensures Valid() && fresh(this) && fresh(nodes) && elems == [] && nodes == {head}
    {
      head := new Node(true);
      elems := [];
      new;
      head.prev, head.next := head, head;
      nodes := {head};
    }

    /** The ring, with the head at both ends. */
    ghost function At(i: nat): Node
      requires i <= |elems| + 1
      reads this
    {
      if i == 0 || i == |elems| + 1 then head else elems[i - 1]
    }

    ghost predicate Linked(i: nat)
      requires i <= |elems|
      reads this, nodes
    {
      At(i) in nodes && At(i + 1) in nodes && At(i).next == At(i + 1) && At(i + 1).prev == At(i)
    }

    /** Each node is linked to its neighbours, and only what is in the list is linked. */
    ghost predicate Valid()
      reads this, nodes
    {
      && head in nodes && head !in elems
      && (forall n <- elems :: n in nodes)
      && (forall i, j | 0 <= i < j < |elems| :: elems[i] != elems[j])
      && (forall i | 0 <= i <= |elems| :: Linked(i))
      && (forall n <- nodes | n != head && n !in elems :: n.next == null && n.prev == null)
    }

    /** Inserts behind the node at place `i`. */
    method Insert(list: Node, elm: Node, ghost i: nat)
      requires Valid() && i <= |elems| && list == At(i) && elm in nodes && elm != head && elm !in elems
      modifies this`elems, nodes
      ensures Valid() && elems == old(elems)[..i] + [elm] + old(elems)[i..]
    {
      assert Linked(i);
      ghost var after := At(i + 1);
      elm.prev := list;
      elm.next := list.next;
      list.next := elm;
      elm.next.prev := elm;
      elems := elems[..i] + [elm] + elems[i..];
      forall j | 0 <= j <= |elems|
        ensures Linked(j)
      {
        if j < i {
          assert old(Linked(j));
        } else if j > i + 1 {
          assert old(Linked(j - 1));
        }
      }
    }

    method Remove(elm: Node, ghost i: nat)
      requires Valid() && i < |elems| && elm == elems[i]
      modifies this`elems, nodes
      ensures Valid() && elems == old(elems)[..i] + old(elems)[i + 1..]
    {
      assert Linked(i) && Linked(i + 1);
      elm.prev.next := elm.next;
      elm.next.prev := elm.prev;
      elm.next := null;
      elm.prev := null;
      elems := elems[..i] + elems[i + 1..];
      forall j | 0 <= j <= |elems|
        ensures Linked(j)
      {
        if j < i {
          assert old(Linked(j)) && At(j) == old(At(j)) && At(j + 1) == old(At(j + 1));
        } else if j > i {
          assert old(Linked(j + 1)) && At(j) == old(At(j + 1)) && At(j + 1) == old(At(j + 2));
        } else {
          assert At(j) == old(At(j)) && At(j + 1) == old(At(j + 2));
        }
      }
    }

    method IsEmpty() returns (empty: bool)
      requires Valid()
      ensures empty <==> elems == []
    {
      assert Linked(0);
      empty := head.next == head;
    }

    method Length() returns (count: nat)
      requires Valid()
      ensures count == |elems|
    {
      count := 0;
      assert Linked(0);
      var e := head.next;
      while e != head
        invariant count <= |elems| && e == At(count + 1)
        decreases |elems| - count
      {
        assert Linked(count + 1);
        e := e.next;
        count := count + 1;
      }
    }
  }
}
