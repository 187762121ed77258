/** kernel/lib/intrusivelinkedlist.h: a doubly linked list whose links lie in the elements. */
module IntrusiveList {

  class Node<T> {
    var prev: Node?<T>
    var next: Node?<T>
    const data: T

    constructor (data: T)
      ensures this.data == data && prev == null && next == null
    {
      this.data, prev, next := data, null, null;
    }
  }

  ghost predicate Distinct<T>(nodes: seq<Node<T>>) {
    forall i, j :: 0 <= i < j < |nodes| ==> nodes[i] != nodes[j]
  }

  /** The elements of a sequence of nodes. */
  function Data<T>(nodes: seq<Node<T>>): (d: seq<T>)
    ensures |d| == |nodes| && forall i :: 0 <= i < |nodes| ==> d[i] == nodes[i].data
  {
    if nodes == [] then [] else [nodes[0].data] + Data(nodes[1..])
  }

  function Insert<T>(s: seq<T>, i: nat, x: T): (r: seq<T>)
    requires i <= |s|
    ensures |r| == |s| + 1
  {
    s[..i] + [x] + s[i..]
  }

  lemma InsertAt<T>(s: seq<T>, i: nat, x: T)
    requires i <= |s|
    ensures Insert(s, i, x)[i] == x
    ensures forall k :: 0 <= k < i ==> Insert(s, i, x)[k] == s[k]
    ensures forall k :: i < k <= |s| ==> Insert(s, i, x)[k] == s[k - 1]
  {
  }

  class List<T> {
    var head: Node?<T>
    var tail: Node?<T>
    ghost var nodes: seq<Node<T>>

    constructor ()
      ensures Valid() && nodes == []
    {
      head, tail, nodes := null, null, [];
    }

    ghost predicate Valid()
      reads this, nodes
    {
      && Distinct(nodes)
      && head == (if nodes == [] then null else nodes[0])
      && tail == (if nodes == [] then null else nodes[|nodes| - 1])
      && forall i :: 0 <= i < |nodes| ==> LinkedAt(nodes, i)
    }

    /** Node i points to its neighbours in the sequence. */
    static ghost predicate LinkedAt(nodes: seq<Node<T>>, i: nat)
      requires i < |nodes|
      reads nodes
    {
      && nodes[i].prev == (if i == 0 then null else nodes[i - 1])
      && nodes[i].next == (if i + 1 == |nodes| then null else nodes[i + 1])
    }

    /** The first node whose element passes the filter. */
    method Find(filter: T -> bool) returns (found: Node?<T>, ghost at: nat)
      requires Valid()
      ensures at <= |nodes| && (forall i :: 0 <= i < at ==> !filter(nodes[i].data))
      ensures found == null ==> at == |nodes|
      ensures found != null ==> at < |nodes| && found == nodes[at] && filter(found.data)
    {
      found := head;
      at := 0;
      while found != null
        invariant at <= |nodes| && found == (if at == |nodes| then null else nodes[at])
        invariant forall i :: 0 <= i < at ==> !filter(nodes[i].data)
        decreases |nodes| - at
      {
        if filter(found.data) {
          return;
        }
        assert LinkedAt(nodes, at);
        found := found.next;
        at := at + 1;
      }
    }

    method Add(node: Node<T>)
      requires Valid() && node !in nodes
      modifies this, nodes, node
      ensures Valid() && nodes == [node] + old(nodes)
    {
      ghost var was := nodes;
      node.prev := null;
      node.next := head;
      if head != null {
        head.prev := node;
      }
      head := node;
      if tail == null {
        tail := head;
      }
      nodes := [node] + nodes;
      forall k | 0 <= k < |nodes|
        ensures LinkedAt(nodes, k)
      {
        if k > 0 {
          assert nodes[k] == was[k - 1] && old(LinkedAt(was, k - 1));
        }
      }
    }

    method Append(node: Node<T>)
      requires Valid() && node !in nodes
      modifies this, nodes, node
      ensures Valid() && nodes == old(nodes) + [node]
    {
      if head == null {
        Add(node);
        return;
      }
      ghost var was := nodes;
      node.next := null;
      node.prev := tail;
      tail.next := node;
      tail := node;
      nodes := nodes + [node];
      forall k | 0 <= k < |nodes|
        ensures LinkedAt(nodes, k)
      {
        if k < |was| {
          assert nodes[k] == was[k] && old(LinkedAt(was, k));
        }
      }
    }

    method AppendBefore(node: Node<T>, before: Node<T>, ghost i: nat)
      requires Valid() && node !in nodes && i < |nodes| && nodes[i] == before
      modifies this, nodes, node
      ensures Valid() && nodes == Insert(old(nodes), i, node)
    {
      assert LinkedAt(nodes, i);
      if before.prev == null {
        assert Insert(nodes, 0, node) == [node] + nodes;
        Add(node);
        return;
      }
      ghost var was := nodes;
      assert LinkedAt(was, i) && LinkedAt(was, i - 1);
      node.prev := before.prev;
      node.prev.next := node;
      node.next := before;
      before.prev := node;
      nodes := Insert(nodes, i, node);
      InsertAt(was, i, node);
      forall k | 0 <= k < |nodes|
        ensures LinkedAt(nodes, k)
      {
        if k < i - 1 {
          assert old(LinkedAt(was, k));
        } else if k > i {
          assert old(LinkedAt(was, k - 1));
        }
      }
    }

    method Remove(node: Node<T>, ghost i: nat)
      requires Valid() && i < |nodes| && nodes[i] == node
      modifies this, nodes
      ensures Valid() && nodes == old(nodes[..i] + nodes[i + 1..])
    {
      ghost var was := nodes;
      assert LinkedAt(was, i);
      if i > 0 {
        assert LinkedAt(was, i - 1);
      }
      if i + 1 < |was| {
        assert LinkedAt(was, i + 1);
      }
      if node.prev == null {
        head := node.next;
        if head == null {
          tail := null;
        } else {
          head.prev := null;
        }
      } else if node.next == null {
        tail := node.prev;
        tail.next := null;
      } else {
        node.prev.next := node.next;
        node.next.prev := node.prev;
      }
      nodes := nodes[..i] + nodes[i + 1..];
      forall k | 0 <= k < |nodes|
        ensures LinkedAt(nodes, k)
      {
        assert nodes[k] == if k < i then was[k] else was[k + 1];
        if k < i {
          assert old(LinkedAt(was, k));
        } else {
          assert old(LinkedAt(was, k + 1));
        }
      }
    }

    method Pop() returns (node: Node?<T>)
      requires Valid()
      modifies this, nodes
      ensures Valid() && old(nodes) == (if node == null then [] else [node] + nodes)
    {
      node := head;
      if node != null {
        Remove(node, 0);
      }
    }
  }
}
