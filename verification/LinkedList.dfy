// The doubly linked list and its iterator (hw1/LinkedList.c).
module LinkedLists {
  import opened Wrappers
  import opened BubbleSort
  import Tables

  class Node<T> {
    var payload: T
    var next: Node?<T>
    var prev: Node?<T>

    constructor (payload: T)
      ensures this.payload == payload && next == null && prev == null
    {
      this.payload := payload;
      next, prev := null, null;
    }
  }

  // The links between neighbours i - 1 and i agree, both ways; the first node
  // has no predecessor and the last one no successor.
  ghost predicate LinkAt<T>(nodes: seq<Node<T>>, i: nat)
    requires i <= |nodes|
    reads nodes
  {
    (i > 0 ==> nodes[i - 1].next == if i < |nodes| then nodes[i] else null) &&
    (i < |nodes| ==> nodes[i].prev == if i > 0 then nodes[i - 1] else null)
  }

  class LinkedList<T(!new)> {
    var numElements: nat
    var head: Node?<T>
    var tail: Node?<T>
    ghost var nodes: seq<Node<T>>

    // next and prev are mutually inverse along the nodes, which are distinct;
    // head, tail and the count agree with them.
    ghost predicate Valid()
      reads this, nodes
    {
      numElements == |nodes| &&
      head == (if nodes == [] then null else nodes[0]) &&
      tail == (if nodes == [] then null else nodes[|nodes| - 1]) &&
      (forall i, j :: 0 <= i < j < |nodes| ==> nodes[i] != nodes[j]) &&
      (forall i :: 0 <= i <= |nodes| ==> LinkAt(nodes, i))
    }

    // The payloads from head to tail.
    ghost function Contents(): (s: seq<T>)
      reads this, nodes
      ensures |s| == |nodes| && forall i :: 0 <= i < |s| ==> s[i] == nodes[i].payload
    {
      seq(|nodes|, i requires 0 <= i < |nodes| reads this, nodes => nodes[i].payload)
    }

    constructor ()
      ensures Valid() && nodes == [] && Contents() == []
    {
      numElements := 0;
      head, tail := null, null;
      nodes := [];
    }

    method Push(payload: T) returns (ghost added: Node<T>)
      requires Valid()
      modifies this, nodes
      ensures Valid() && fresh(added) && nodes == [added] + old(nodes)
      ensures Contents() == [payload] + old(Contents())
    {
      var ln := new Node(payload);
      added := ln;
      if numElements == 0 {
        head, tail := ln, ln;
      } else {
        ln.next := head;
        head.prev := ln;
        head := ln;
      }
      numElements := numElements + 1;
      nodes := [ln] + nodes;
      LinksAfterPush(old(nodes), ln);
    }

    // A new node in front of linked nodes.
    twostate lemma LinksAfterPush(ns: seq<Node<T>>, new ln: Node<T>)
      requires forall i :: 0 <= i <= |ns| ==> old(LinkAt(ns, i))
      requires ln !in ns && ln.prev == null && ln.next == if ns == [] then null else ns[0]
      requires forall i :: 0 <= i < |ns| ==> ns[i].next == old(ns[i].next)
      requires forall i :: 0 <= i < |ns| ==> ns[i].prev == if i == 0 then ln else old(ns[i].prev)
      ensures forall i :: 0 <= i <= |ns| + 1 ==> LinkAt([ln] + ns, i)
    {
      forall i | 0 <= i <= |ns| + 1 ensures LinkAt([ln] + ns, i) {
        assert i > 0 ==> old(LinkAt(ns, i - 1));
      }
    }

    method Pop() returns (r: Option<T>)
      requires Valid()
      modifies this, nodes
      ensures Valid()
      ensures r == None <==> old(nodes) == []
      ensures old(nodes) == [] ==> nodes == [] && Contents() == []
      ensures old(nodes) != [] ==> r == Some(old(Contents()[0]))
      ensures old(nodes) != [] ==> nodes == old(nodes)[1..] && Contents() == old(Contents())[1..]
    {
      if head == null {
        return None;
      }
      var currentNode := head;
      r := Some(currentNode.payload);
      head := currentNode.next;
      if numElements == 1 {
        head, tail := null, null;
      } else {
        assert LinkAt(nodes, 1);
        head.prev := null;
      }
      numElements := numElements - 1;
      nodes := nodes[1..];
      forall i | 0 <= i <= |nodes| ensures LinkAt(nodes, i) {
        assert old(LinkAt(nodes, i + 1));
      }
    }

    method Append(payload: T) returns (ghost added: Node<T>)
      requires Valid()
      modifies this, nodes
      ensures Valid() && fresh(added) && nodes == old(nodes) + [added]
      ensures Contents() == old(Contents()) + [payload]
    {
      var newNode := new Node(payload);
      added := newNode;
      if head == null {
        head, tail := newNode, newNode;
      } else {
        var currentNode := tail;
        currentNode.next := newNode;
        newNode.prev := currentNode;
        tail := newNode;
      }
      numElements := numElements + 1;
      nodes := nodes + [newNode];
      forall i | 0 <= i <= |nodes| ensures LinkAt(nodes, i) {
        assert i < |nodes| ==> old(LinkAt(nodes, i));
      }
    }

    method Slice() returns (r: Option<T>)
      requires Valid()
      modifies this, nodes
      ensures Valid()
      ensures r == None <==> old(nodes) == []
      ensures old(nodes) == [] ==> nodes == [] && Contents() == []
      ensures old(nodes) != [] ==> r == Some(old(Contents()[|nodes| - 1]))
      ensures old(nodes) != [] ==>
                nodes == old(nodes)[..|old(nodes)| - 1] && Contents() == old(Contents())[..|old(nodes)| - 1]
    {
      if head == null {
        return None;
      }
      if head == tail {
        r := Some(head.payload);
        head, tail := null, null;
        numElements := 0;
      } else {
        var currentNode := tail;
        r := Some(currentNode.payload);
        var secondToLast := tail.prev;
        assert LinkAt(nodes, |nodes| - 1);
        tail := secondToLast;
        secondToLast.next := null;
        numElements := numElements - 1;
      }
      nodes := nodes[..|nodes| - 1];
      forall i | 0 <= i <= |nodes| ensures LinkAt(nodes, i) {
        assert old(LinkAt(nodes, i));
      }
    }

    // Swaps the payloads of node k and its successor.
    method SwapWithNext(ghost k: nat, curnode: Node<T>)
      requires Valid() && k + 1 < |nodes| && curnode == nodes[k]
      modifies nodes`payload
      ensures Valid() && Contents() == SwapAt(old(Contents()), k)
    {
      assert LinkAt(nodes, k + 1);
      var tmp := curnode.payload;
      curnode.payload := curnode.next.payload;
      curnode.next.payload := tmp;
      assert forall i :: 0 <= i < |nodes| && i != k && i != k + 1 ==> nodes[i] != nodes[k] && nodes[i] != nodes[k + 1];
      forall i | 0 <= i <= |nodes| ensures LinkAt(nodes, i) {
        assert old(LinkAt(nodes, i));
      }
    }

    // One sweep of bubble sort from head to tail.
    method Pass(ascending: bool, cmp: (T, T) -> int) returns (swapped: bool)
      requires Valid() && Ranks(cmp) && numElements > 0
      modifies nodes`payload
      ensures Valid() && Stable(cmp, old(Contents()), Contents())
      ensures swapped ==> Inversions(cmp, ascending, Contents()) < Inversions(cmp, ascending, old(Contents()))
      ensures !swapped ==> Contents() == old(Contents()) && PassClean(cmp, ascending, Contents(), |nodes| - 1)
    {
      hide Ranks, Inversions, OutOfOrder, Stable, PassClean, LinkAt, Valid, SwapAt, Contents;
      swapped := false;
      Counted();
      Links(0);
      var curnode := head;
      ghost var k := 0;
      StableRefl(cmp, Contents());
      NothingChecked(cmp, ascending, Contents());
      while curnode.next != null
        invariant Valid() && 0 <= k < |nodes| && curnode == nodes[k]
        invariant Stable(cmp, old(Contents()), Contents())
        invariant Inversions(cmp, ascending, Contents()) + (if swapped then 1
                  else 0) <= Inversions(cmp, ascending, old(Contents()))
        invariant !swapped ==> Contents() == old(Contents()) && PassClean(cmp, ascending, Contents(), k)
        decreases |nodes| - k
      {
        Links(k);
        var compareResult := cmp(curnode.payload, curnode.next.payload);
        if ascending {
          compareResult := -compareResult;
        }
        PassResult(cmp, ascending, Contents(), k, compareResult);
        if compareResult < 0 {
          SwapRemovesInversion(cmp, ascending, Contents(), k);
          SwapIsStable(cmp, ascending, Contents(), k);
          StableTrans(cmp, old(Contents()), Contents(), SwapAt(Contents(), k));
          SwapWithNext(k, curnode);
          swapped := true;
        }
        Links(k);
        curnode := curnode.next;
        k := k + 1;
      }
      Links(k);
    }

    lemma Counted()
      requires Valid()
      ensures numElements == |nodes|
    {
    }

    lemma Links(k: nat)
      requires Valid() && k < |nodes|
      ensures head == nodes[0] && numElements == |nodes|
      ensures nodes[k].next == if k + 1 < |nodes| then nodes[k + 1] else null
    {
      assert LinkAt(nodes, k + 1);
    }

    // Bubble sort.  Only payloads move: nodes and links stay as they are.
    method Sort(ascending: bool, cmp: (T, T) -> int)
      requires Valid() && Ranks(cmp)
      modifies nodes`payload
      ensures Valid() && Sorted(cmp, ascending, Contents()) && Stable(cmp, old(Contents()), Contents())
      ensures multiset(Contents()) == multiset(old(Contents()))
      ensures forall i, j :: 0 <= i < j < |Contents()| ==>
                var r := cmp(Contents()[i], Contents()[j]); if ascending then r <= 0 else r >= 0
    {
      hide Ranks, Inversions, OutOfOrder, Stable, PassClean, LinkAt, Sorted;
      ShortIsSorted(cmp, ascending, Contents());
      StableRefl(cmp, Contents());
      if numElements < 2 {
        return;
      }
      var swapped := true;
      while swapped
        invariant Valid() && Stable(cmp, old(Contents()), Contents())
        invariant !swapped ==> PassClean(cmp, ascending, Contents(), |nodes| - 1)
        decreases Inversions(cmp, ascending, Contents()), swapped
      {
        ghost var before := Contents();
        swapped := Pass(ascending, cmp);
        StableTrans(cmp, old(Contents()), before, Contents());
      }
      CleanIsSorted(cmp, ascending, Contents());
      SortedInOrder(cmp, ascending, old(Contents()), Contents());
    }

    // Drops the only node.
    method Clear()
      requires Valid() && |nodes| == 1
      modifies this
      ensures Valid() && nodes == [] && Contents() == []
    {
      head, tail := null, null;
      numElements := 0;
      nodes := [];
    }

    // Unlinks a node that is neither head nor tail.
    method Splice(ghost k: nat, curr: Node<T>)
      requires Valid() && 0 < k < |nodes| - 1 && curr == nodes[k]
      modifies this, nodes
      ensures Valid() && nodes == Tables.Delete(old(nodes), k) && nodes[k] == old(nodes)[k + 1]
      ensures Contents() == Tables.Delete(old(Contents()), k)
    {
      assert LinkAt(nodes, k) && LinkAt(nodes, k + 1);
      var prev, next := curr.prev, curr.next;
      prev.next := next;
      next.prev := prev;
      numElements := numElements - 1;
      nodes := Tables.Delete(nodes, k);
      forall i | 0 <= i <= |nodes| ensures LinkAt(nodes, i) {
        assert old(LinkAt(nodes, i) && LinkAt(nodes, i + 1));
      }
    }
  }

  lemma NothingChecked<T>(cmp: (T, T) -> int, ascending: bool, s: seq<T>)
    ensures PassClean(cmp, ascending, s, 0)
  {
  }

  // The first k neighbours of a pass were in order.
  ghost predicate PassClean<T>(cmp: (T, T) -> int, ascending: bool, s: seq<T>, k: int) {
    forall j :: 0 <= j < k && j + 1 < |s| ==> !OutOfOrder(cmp, ascending, s[j], s[j + 1])
  }

  lemma PassResult<T>(cmp: (T, T) -> int, ascending: bool, s: seq<T>, k: nat, r: int)
    requires k + 1 < |s| && r == if ascending then -cmp(s[k], s[k + 1]) else cmp(s[k], s[k + 1])
    ensures r < 0 <==> OutOfOrder(cmp, ascending, s[k], s[k + 1])
    ensures PassClean(cmp, ascending, s, k) && r >= 0 ==> PassClean(cmp, ascending, s, k + 1)
  {
  }

  lemma CleanIsSorted<T(!new)>(cmp: (T, T) -> int, ascending: bool, s: seq<T>)
    requires Ranks(cmp) && PassClean(cmp, ascending, s, |s| - 1)
    ensures Sorted(cmp, ascending, s)
  {
    forall i, j | 0 <= i < j < |s| ensures !OutOfOrder(cmp, ascending, s[i], s[j]) {
      NeighboursSorted(cmp, ascending, s, i, j);
    }
  }

  lemma ShortIsSorted<T(!new)>(cmp: (T, T) -> int, ascending: bool, s: seq<T>)
    ensures |s| < 2 ==> Sorted(cmp, ascending, s)
  {
  }

  lemma SortedInOrder<T(!new)>(cmp: (T, T) -> int, ascending: bool, before: seq<T>, s: seq<T>)
    requires Sorted(cmp, ascending, s) && Stable(cmp, before, s)
    ensures multiset(s) == multiset(before)
    ensures forall i, j :: 0 <= i < j < |s| ==> if ascending then cmp(s[i], s[j]) <= 0 else cmp(s[i], s[j]) >= 0
  {
  }

  lemma StableRefl<T(!new)>(cmp: (T, T) -> int, s: seq<T>)
    ensures Stable(cmp, s, s)
  {
  }

  lemma StableTrans<T(!new)>(cmp: (T, T) -> int, a: seq<T>, b: seq<T>, c: seq<T>)
    requires Stable(cmp, a, b) && Stable(cmp, b, c)
    ensures Stable(cmp, a, c)
  {
  }

  class LLIterator<T(!new)> {
    const list: LinkedList<T>
    var node: Node?<T>
    ghost var idx: nat

    // The iterator stands at position idx of the list; past the end when node is null.
    ghost predicate Valid()
      reads this, list, list.nodes
    {
      list.Valid() && idx <= |list.nodes| && node == if idx < |list.nodes| then list.nodes[idx] else null
    }

    constructor (list: LinkedList<T>)
      requires list.Valid()
      ensures this.list == list && Valid() && idx == 0
    {
      this.list := list;
      node := list.head;
      idx := 0;
    }

    method IsValid() returns (b: bool)
      requires Valid()
      ensures b <==> idx < |list.nodes|
    {
      b := node != null;
    }

    method Next() returns (more: bool)
      requires Valid() && idx < |list.nodes|
      modifies this
      ensures Valid() && idx == old(idx) + 1
      ensures more <==> idx < |list.nodes|
    {
      assert LinkAt(list.nodes, idx + 1);
      node := node.next;
      idx := idx + 1;
      more := node != null;
    }

    method Get() returns (payload: T)
      requires Valid() && idx < |list.nodes|
      ensures payload == list.Contents()[idx]
    {
      payload := node.payload;
    }

    // Stores through the payload pointer.
    method Set(payload: T)
      requires Valid() && idx < |list.nodes|
      modifies list.nodes
      ensures Valid() && list.Contents() == old(list.Contents())[idx := payload]
      ensures forall i :: 0 <= i < |list.nodes| ==>
                list.nodes[i].next == old(list.nodes[i].next) && list.nodes[i].prev == old(list.nodes[i].prev)
    {
      node.payload := payload;
      forall i | 0 <= i <= |list.nodes| ensures LinkAt(list.nodes, i) {
        assert old(LinkAt(list.nodes, i));
      }
      assert forall i :: 0 <= i < |list.nodes| && i != idx ==> list.nodes[i] != list.nodes[idx];
    }

    method Rewind()
      requires list.Valid()
      modifies this
      ensures Valid() && idx == 0
    {
      node := list.head;
      idx := 0;
    }

    // Removes the element at the iterator.  The iterator moves to the
    // successor, to the predecessor if the tail was removed, and to nowhere if
    // the list is now empty; the result tells whether anything is left.
    method Remove() returns (more: bool)
      requires Valid() && idx < |list.nodes|
      modifies this, list, list.nodes
      ensures Valid() && more == (list.nodes != [])
      ensures list.nodes == Tables.Delete(old(list.nodes), old(idx))
      ensures list.Contents() == Tables.Delete(old(list.Contents()), old(idx))
      ensures idx == if 0 < old(idx) == |old(list.nodes)| - 1 then old(idx) - 1 else old(idx)
    {
      hide Tables.Delete;
      AtEnds();
      if list.numElements == 1 {
        DeleteEnds(list.nodes);
        DeleteEnds(list.Contents());
        list.Clear();
        node := null;
        return false;
      } else if node == list.head {
        RemoveHead();
      } else if node == list.tail {
        RemoveTail();
      } else {
        var next := node.next;
        list.Splice(idx, node);
        node := next;
      }
      more := true;
    }

    method RemoveHead()
      requires Valid() && idx == 0 && |list.nodes| > 1
      modifies this, list, list.nodes
      ensures Valid() && idx == 0
      ensures list.nodes == Tables.Delete(old(list.nodes), 0)
      ensures list.Contents() == Tables.Delete(old(list.Contents()), 0)
    {
      hide Tables.Delete;
      DeleteEnds(list.nodes);
      DeleteEnds(list.Contents());
      var temp := list.Pop();
      node := list.head;
    }

    method RemoveTail()
      requires Valid() && idx == |list.nodes| - 1 > 0
      modifies this, list, list.nodes
      ensures Valid() && idx == old(idx) - 1
      ensures list.nodes == Tables.Delete(old(list.nodes), old(idx))
      ensures list.Contents() == Tables.Delete(old(list.Contents()), old(idx))
    {
      hide Tables.Delete;
      DeleteEnds(list.nodes);
      DeleteEnds(list.Contents());
      var temp := list.Slice();
      node := list.tail;
      idx := idx - 1;
    }

    lemma AtEnds()
      requires Valid() && idx < |list.nodes|
      ensures node == list.head <==> idx == 0
      ensures node == list.tail <==> idx == |list.nodes| - 1
      ensures 0 < idx < |list.nodes| - 1 ==> node.next == list.nodes[idx + 1]
    {
      assert LinkAt(list.nodes, idx + 1);
    }
  }

  lemma DeleteEnds<T>(s: seq<T>)
    requires |s| > 0
    ensures Tables.Delete(s, 0) == s[1..] && Tables.Delete(s, |s| - 1) == s[..|s| - 1]
  {
  }
}
