/** The kernel's intrusive doubly linked lists: a node carries its own links and the list it is on. */
module Lists {
  class Node {
    var next: Node?
    var prev: Node?
    var list: List?
    var priority: int

    constructor ()
      ensures list == null
    {
      next, prev, list, priority := null, null, null, 0;
    }
  }

  class List {
    var head: Node?
    var tail: Node?
    var size: int

    /** The nodes on the list, from head to tail. */
    ghost var nodes: seq<Node>

    ghost predicate Valid()
      reads this, nodes
    {
      && (forall i, j :: 0 <= i < j < |nodes| ==> nodes[i] != nodes[j])
      && head == (if nodes == [] then null else nodes[0])
      && tail == (if nodes == [] then null else nodes[|nodes| - 1])
      && (forall i {:trigger nodes[i].list} :: 0 <= i < |nodes| ==> nodes[i].list == this)
      && (forall i {:trigger nodes[i].next} ::
            0 <= i < |nodes| ==> nodes[i].next == if i + 1 < |nodes| then nodes[i + 1] else null)
      && (forall i {:trigger nodes[i].prev} ::
            0 <= i < |nodes| ==> nodes[i].prev == if i > 0 then nodes[i - 1] else null)
    }

    constructor ()
      ensures Valid() && nodes == [] && size == 0
    {
      head, tail, size := null, null, 0;
      nodes := [];
    }

    /** list_push_head */
    method PushHead(node: Node)
      requires Valid() && node !in nodes
      modifies this, node, nodes
      ensures Valid() && nodes == [node] + old(nodes) && size == old(size) + 1
    {
      node.next := head;
      node.prev := null;
      node.priority := 0;
      if head != null {
        head.prev := node;
      }
      head := node;
      if tail == null {
        tail := node;
      }
      node.list := this;
      size := size + 1;
      nodes := [node] + nodes;
    }

    /** list_push_tail */
    method PushTail(node: Node)
      requires Valid() && node !in nodes
      modifies this, node, nodes
      ensures Valid() && nodes == old(nodes) + [node] && size == old(size) + 1
    {
      node.prev := tail;
      node.next := null;
      node.priority := 0;
      if tail != null {
        tail.next := node;
      }
      tail := node;
      if head == null {
        head := node;
      }
      node.list := this;
      size := size + 1;
      nodes := nodes + [node];
    }

    /** list_pop_head */
    method PopHead() returns (result: Node?)
      requires Valid()
      modifies this, nodes
      ensures Valid()
      ensures old(nodes) == [] ==> result == null && nodes == [] && size == old(size)
      ensures old(nodes) != [] ==>
                && result == old(nodes)[0] && nodes == old(nodes)[1..] && size == old(size) - 1
                && result.list == null && result.next == null && result.prev == null
    {
      result := head;
      if result != null {
        head := result.next;
        if head != null {
          head.prev := null;
        }
        if head == null {
          tail := null;
        }
        result.next, result.prev := null, null;
        result.list := null;
        size := size - 1;
        nodes := nodes[1..];
      }
    }

    /** list_pop_tail */
    method PopTail() returns (result: Node?)
      requires Valid()
      modifies this, nodes
      ensures Valid()
      ensures old(nodes) == [] ==> result == null && nodes == [] && size == old(size)
      ensures old(nodes) != [] ==>
                && result == old(nodes)[|old(nodes)| - 1] && nodes == old(nodes)[..|old(nodes)| - 1]
                   && size == old(size) - 1
                && result.list == null && result.next == null && result.prev == null
    {
      result := tail;
      if result != null {
        tail := result.prev;
        if tail != null {
          tail.next := null;
        }
        if tail == null {
          head := null;
        }
        result.next, result.prev := null, null;
        result.list := null;
        size := size - 1;
        nodes := nodes[..|nodes| - 1];
      }
    }

    /** The place of a node on this list. */
    ghost function IndexOf(node: Node): (i: nat)
      requires node in nodes
      reads this
      ensures i < |nodes| && nodes[i] == node
    {
      var i :| 0 <= i < |nodes| && nodes[i] == node; i
    }

    /** list_remove: a node on no list is left alone. From the middle of a list the count is
        decremented through the node's list pointer after that was cleared, so the list keeps its
        old size: the size is right exactly when the node was the first or the last. */
    method Remove(node: Node)
      requires Valid() && (node in nodes || node.list == null)
      modifies this, nodes
      ensures Valid() && node.list == null
      ensures node !in old(nodes) ==> nodes == old(nodes) && size == old(size)
      ensures node in old(nodes) ==>
                && node.next == null && node.prev == null
                && nodes == old(nodes[..IndexOf(node)] + nodes[IndexOf(node) + 1..])
                && size == old(size) - (if node == old(head) || node == old(tail) then 1 else 0)
    {
      if node.list == null { return; }
      ghost var i := IndexOf(node);
      if head == node {
        var result := PopHead();
        return;
      }
      if tail == node {
        var result := PopTail();
        return;
      }
      Unlink(node, i);
    }

    /** The rest of list_remove, for node i in the middle. */
    method Unlink(node: Node, ghost i: nat)
      requires Valid() && 0 < i < |nodes| - 1 && node == nodes[i]
      modifies this`nodes, nodes
      ensures Valid() && node.list == null && node.next == null && node.prev == null
      ensures nodes == old(nodes[..i] + nodes[i + 1..])
    {
      assert nodes[i - 1].next == node && nodes[i + 1].prev == node && nodes[i].next != null && nodes[i].prev != null;
      node.next.prev := node.prev;
      node.prev.next := node.next;
      node.next, node.prev := null, null;
      node.list := null;
      // the count goes down nowhere: there is no list to find it through
      ghost var before := nodes;
      nodes := before[..i] + before[i + 1..];
      forall j | 0 <= j < |nodes|
        ensures nodes[j].list == this
        ensures nodes[j].next == if j + 1 < |nodes| then nodes[j + 1] else null
        ensures nodes[j].prev == if j > 0 then nodes[j - 1] else null
      {
        var k := if j < i then j else j + 1;
        assert nodes[j] == before[k] && before[k] != node;
        assert old(before[k].list) == this;
        assert old(before[k].next) == if k + 1 < |before| then before[k + 1] else null;
        assert old(before[k].prev) == if k > 0 then before[k - 1] else null;
      }
    }
  }

  /** A list whose count is wrong: the middle one of three nodes has been removed. */
  method MiddleRemoved() returns (list: List)
    ensures list.Valid() && |list.nodes| == 2 && list.size == 3
  {
    list := new List();
    var first := new Node();
    var middle := new Node();
    var last := new Node();
    list.PushTail(first);
    list.PushTail(middle);
    list.PushTail(last);
    assert list.nodes == [first, middle, last];
    list.Remove(middle);
  }
}
