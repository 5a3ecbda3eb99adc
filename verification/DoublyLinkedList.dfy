/** lib/dplist.c: the doubly linked list, with its pointers. */
module DoublyLinkedList {
  import opened ListSpec
  import opened Memory
  import opened Records

  class Node<T> {
    var prev: Node?<T>
    var next: Node?<T>
    var element: T

    constructor (element: T)
      ensures this.element == element && prev == null && next == null
    {
      this.element := element;
      prev, next := null, null;
    }
  }

  class DpList<T> {
    var head: Node?<T>
    ghost var nodes: seq<Node<T>>
    ghost var contents: seq<T>

    constructor (ghost heap: Heap)
      modifies heap
      ensures Valid() && contents == [] && nodes == []
      ensures this !in old(heap.live) && heap.live == old(heap.live) + {this}
    {
      head := null;
      nodes, contents := [], [];
      new;
      heap.Malloc(this);
    }

    /** The chain from head visits each node once; prev and next are mutually inverse; head has no prev. */
    ghost predicate Valid()
      reads this, nodes
    {
      && |nodes| == |contents|
      && Distinct(nodes)
      && head == (if nodes == [] then null else nodes[0])
      && (forall i {:trigger nodes[i].element} :: 0 <= i < |nodes| ==> nodes[i].element == contents[i])
      && (forall i {:trigger nodes[i].prev} :: 0 <= i < |nodes| ==>
            nodes[i].prev == if i == 0 then null else nodes[i - 1])
      && (forall i {:trigger nodes[i].next} :: 0 <= i < |nodes| ==>
            nodes[i].next == if i == |nodes| - 1 then null else nodes[i + 1])
    }

    /** Nothing of the list has been released. */
    ghost predicate Live(heap: Heap)
      reads this, heap
    {
      Footprint() <= heap.live
    }

    ghost function Footprint(): set<object>
      reads this
    {
      {this} + Elements(nodes)
    }
  }

  /** Followed from head, next visits the nodes in order, each once, and ends in null; prev undoes each step of next. */
  lemma DoublyLinked<T>(list: DpList<T>)
    requires list.Valid()
    ensures list.head == null <==> list.contents == []
    ensures list.head != null ==> list.head.prev == null && list.nodes != [] && list.head == list.nodes[0]
    ensures forall n :: n in list.nodes && n.next != null ==> n.next in list.nodes && n.next.prev == n
    ensures forall n :: n in list.nodes && n.prev != null ==> n.prev in list.nodes && n.prev.next == n
    ensures forall i :: 0 <= i < |list.nodes| - 1 ==> list.nodes[i].next == list.nodes[i + 1]
    ensures list.nodes != [] ==> list.nodes[|list.nodes| - 1].next == null
    ensures forall i, j :: 0 <= i < j < |list.nodes| ==> list.nodes[i] != list.nodes[j]
    ensures |list.nodes| == |list.contents|
    ensures forall i :: 0 <= i < |list.nodes| ==> list.nodes[i].element == list.contents[i]
  {
  }

  method Size<T>(list: DpList?<T>) returns (n: int)
    requires list != null ==> list.Valid()
    ensures n == if list == null then -1 else |list.contents|
  {
    if list == null {
      return -1;
    }
    if list.head == null {
      return 0;
    }
    n := 1;
    var current: Node<T> := list.head;
    while current.next != null
      invariant 1 <= n <= |list.nodes| && current == list.nodes[n - 1]
      decreases |list.nodes| - n
    {
      n := n + 1;
      current := current.next;
    }
  }

  method GetReferenceAtIndex<T>(list: DpList?<T>, index: int) returns (r: Node?<T>)
    requires list != null ==> list.Valid()
    ensures r == if list == null || list.nodes == [] then null
                 else list.nodes[Clamp(index, |list.nodes| - 1)]
  {
    if list == null {
      return null;
    }
    var length := Size(list);
    if length == 0 {
      return null;
    }
    if index <= 0 {
      return list.head;
    }
    var last := if length <= index then length - 1 else index;
    r := list.head;
    var i := 0;
    while i <= last - 1
      invariant 0 <= i <= last && r == list.nodes[i]
    {
      r := r.next;
      i := i + 1;
    }
  }

  method GetElementAtIndex<T>(list: DpList?<T>, index: int) returns (r: Option<T>)
    requires list != null ==> list.Valid()
    ensures r == if list == null || list.contents == [] then None
                 else Some(list.contents[Clamp(index, |list.contents| - 1)])
  {
    if list == null {
      return None;
    }
    var length := Size(list);
    if length == 0 {
      return None;
    }
    var reference := GetReferenceAtIndex(list, index);
    return Some(reference.element);
  }

  method GetElementAtReference<T>(list: DpList?<T>, reference: Node?<T>) returns (r: Option<T>)
    requires list != null ==> list.Valid()
    ensures r == if list == null || reference == null then None
                 else Lookup<Node<T>, T>(Cells(list.nodes, list.contents), reference)
  {
    if list == null || reference == null {
      return None;
    }
    var length := Size(list);
    ghost var cells := Cells(list.nodes, list.contents);
    if length == 0 {
      assert cells == [];
      return None;
    }
    assert cells[0..] == cells;
    r := None;
    var current := list.head;
    var i := 0;
    while i <= length - 1
      invariant 0 <= i <= length && r == None
      invariant current == if i < length then list.nodes[i] else null
      invariant Lookup<Node<T>, T>(cells, reference) == Lookup<Node<T>, T>(cells[i..], reference)
    {
      assert cells[i..][1..] == cells[i + 1..];
      if current == reference {
        r := Some(current.element);
        break;
      }
      current := current.next;
      i := i + 1;
    }
    if i == length {
      assert cells[i..] == [];
    }
  }

  /** The case index <= 0: the new node becomes the head. */
  method LinkFirst<T>(list: DpList<T>, node: Node<T>)
    requires list.Valid() && node !in list.nodes && list.nodes != []
    modifies list, Elements(list.nodes)`prev, node`prev, node`next
    ensures list.Valid()
    ensures list.nodes == [node] + old(list.nodes)
    ensures list.contents == [node.element] + old(list.contents)
  {
    node.prev := null;
    node.next := list.head;
    list.head.prev := node;
    list.head := node;
    list.nodes := [node] + list.nodes;
    list.contents := [node.element] + list.contents;
  }

  /** The case of an inner position: the new node goes just before `at`. */
  method LinkBefore<T>(list: DpList<T>, at: Node<T>, node: Node<T>, ghost k: nat)
    requires list.Valid() && node !in list.nodes
    requires 0 < k < |list.nodes| && at == list.nodes[k]
    modifies list`nodes, list`contents, at`prev, Elements(list.nodes)`next, node`prev, node`next
    ensures list.Valid()
    ensures list.nodes == InsertAt(old(list.nodes), k, node)
    ensures list.contents == InsertAt(old(list.contents), k, node.element)
  {
    node.prev := at.prev;
    node.next := at;
    at.prev.next := node;
    at.prev := node;
    list.nodes := InsertAt(list.nodes, k, node);
    list.contents := InsertAt(list.contents, k, node.element);
  }

  /** The case beyond the end: the new node goes after the last one. */
  method LinkLast<T>(list: DpList<T>, last: Node<T>, node: Node<T>)
    requires list.Valid() && node !in list.nodes
    requires list.nodes != [] && last == list.nodes[|list.nodes| - 1]
    modifies list`nodes, list`contents, last`next, node`prev, node`next
    ensures list.Valid()
    ensures list.nodes == old(list.nodes) + [node]
    ensures list.contents == old(list.contents) + [node.element]
  {
    node.next := null;
    node.prev := last;
    last.next := node;
    list.nodes := list.nodes + [node];
    list.contents := list.contents + [node.element];
  }

  /** The linking of dpl_insert_at_index: one of its four cases. */
  method Link<T>(list: DpList<T>, listNode: Node<T>, index: int)
    requires list.Valid() && listNode !in list.nodes
    modifies list, Elements(list.nodes)`prev, Elements(list.nodes)`next, listNode`prev, listNode`next
    ensures list.Valid()
    ensures list.nodes == InsertAt(old(list.nodes), index, listNode)
    ensures list.contents == InsertAt(old(list.contents), index, listNode.element)
  {
    if list.head == null {
      listNode.prev, listNode.next := null, null;
      list.head := listNode;
      list.nodes, list.contents := [listNode], [listNode.element];
    } else if index <= 0 {
      LinkFirst(list, listNode);
    } else {
      var refAtIndex := GetReferenceAtIndex(list, index);
      assert refAtIndex != null;
      var length := Size(list);
      if index < length {
        LinkBefore(list, refAtIndex, listNode, index);
      } else {
        assert refAtIndex.next == null;
        LinkLast(list, refAtIndex, listNode);
      }
    }
  }

  /** dpl_insert_at_index on a list, with the element to link in hand. */
  method Insert<T>(list: DpList<T>, element: T, index: int, ghost heap: Heap)
    returns (ghost node: Node<T>)
    requires list.Valid() && list.Live(heap)
    modifies list, list.nodes, heap
    ensures list.Valid() && list.Live(heap)
    ensures fresh(node) && node !in old(heap.live) && heap.live == old(heap.live) + {node}
    ensures list.nodes == InsertAt(old(list.nodes), index, node)
    ensures list.contents == InsertAt(old(list.contents), index, element)
  {
    var listNode := new Node(element);
    heap.Malloc(listNode);
    InsertElements(list.nodes, index, listNode);
    Link(list, listNode, index);
    node := listNode;
  }

  /** dpl_insert_at_index, which lets a NULL list pass. An element_copy callback runs before it. */
  method InsertAtIndex<T>(list: DpList?<T>, element: T, index: int, ghost heap: Heap)
    returns (r: DpList?<T>)
    requires list != null ==> list.Valid() && list.Live(heap)
    modifies if list == null then {} else {list, heap} + Elements(list.nodes)
    ensures r == list
    ensures list != null ==>
              && list.Valid() && list.Live(heap)
              && list.contents == InsertAt(old(list.contents), index, element)
              && exists node: Node<T> ::
                   && fresh(node) && heap.live == old(heap.live) + {node}
                   && Cells(list.nodes, list.contents)
                      == Apply(old(Cells(list.nodes, list.contents)), Inserting(index, Cell(node, element)))
  {
    if list == null {
      return null;
    }
    ghost var nodes, contents := list.nodes, list.contents;
    ghost var node := Insert(list, element, index, heap);
    CellsInsert(nodes, contents, index, node, element);
    return list;
  }

  /** The relinking of dpl_remove_at_index: the neighbours of the removed node meet, nothing else moves. */
  method Relink<T>(list: DpList<T>, toRemove: Node<T>, at: nat)
    requires list.Valid() && at < |list.nodes| && toRemove == list.nodes[at]
    modifies list`head
    modifies Elements(list.nodes)`prev, Elements(list.nodes)`next
    ensures list.head == if at > 0 then old(list.head) else if |list.nodes| == 1 then null else list.nodes[1]
    ensures forall i {:trigger list.nodes[i].prev} :: 0 <= i < |list.nodes| && i != at ==>
              list.nodes[i].prev == if i == 0 || (at == 0 && i == 1) then null
                                    else if i == at + 1 then list.nodes[i - 2] else list.nodes[i - 1]
    ensures forall i {:trigger list.nodes[i].next} :: 0 <= i < |list.nodes| && i != at ==>
              list.nodes[i].next == if i == |list.nodes| - 1 || (at == |list.nodes| - 1 && i == at - 1) then null
                                    else if i == at - 1 then list.nodes[i + 2] else list.nodes[i + 1]
  {
    var prevNode := toRemove.prev;
    var nextNode := toRemove.next;
    if prevNode != null {
      prevNode.next := nextNode;
    }
    if nextNode != null {
      nextNode.prev := prevNode;
    }
    if at == 0 {
      list.head := nextNode;
    }
  }

  /** The list without the node at `at`, which is released. */
  method Unlink<T>(list: DpList<T>, toRemove: Node<T>, at: nat, ghost heap: Heap)
    requires list.Valid() && list.Live(heap) && at < |list.nodes| && toRemove == list.nodes[at]
    modifies list, heap
    modifies Elements(list.nodes)`prev, Elements(list.nodes)`next
    ensures list.Valid() && list.Live(heap)
    ensures list.nodes == RemoveAt(old(list.nodes), at)
    ensures list.contents == RemoveAt(old(list.contents), at)
    ensures heap.live == old(heap.live) - {toRemove}
  {
    RemoveElements(list.nodes, at);
    Relink(list, toRemove, at);
    heap.Free(toRemove);
    list.nodes, list.contents := RemoveAt(list.nodes, at), RemoveAt(list.contents, at);
  }

  /** dpl_remove_at_index on a list that is not empty; the element goes to the element_free callback. */
  method Remove<T>(list: DpList<T>, index: int, ghost heap: Heap) returns (removed: T)
    requires list.Valid() && list.Live(heap) && list.nodes != []
    modifies list, list.nodes, heap
    ensures list.Valid() && list.Live(heap)
    ensures list.nodes == RemoveAt(old(list.nodes), index)
    ensures list.contents == RemoveAt(old(list.contents), index)
    ensures removed == old(list.contents[Clamp(index, |list.nodes| - 1)])
    ensures heap.live == old(heap.live - {list.nodes[Clamp(index, |list.nodes| - 1)]})
  {
    var length := Size(list);
    var at := index;
    if at < 0 {
      at := 0;
    }
    if at >= length {
      at := length - 1;
    }
    var toRemove: Node<T> := GetReferenceAtIndex(list, at);
    removed := toRemove.element;
    Unlink(list, toRemove, at, heap);
  }

  /** dpl_remove_at_index, which lets a NULL list and an empty list pass. */
  method RemoveAtIndex<T>(list: DpList?<T>, index: int, ghost heap: Heap)
    returns (r: DpList?<T>, removed: Option<T>)
    requires list != null ==> list.Valid() && list.Live(heap)
    modifies if list == null then {} else {list, heap} + Elements(list.nodes)
    ensures r == list
    ensures list == null || old(list.nodes) == [] ==> removed == None
    ensures list != null && old(list.nodes) == [] ==> unchanged(list) && unchanged(heap)
    ensures list != null && old(list.nodes) != [] ==>
              var k := Clamp(index, |old(list.nodes)| - 1);
              && list.Valid() && list.Live(heap)
              && removed == Some(old(list.contents)[k])
              && list.contents == RemoveAt(old(list.contents), index)
              && heap.live == old(heap.live) - {old(list.nodes)[k]}
              && Cells(list.nodes, list.contents)
                 == Apply(old(Cells(list.nodes, list.contents)), Removing(index))
  {
    if list == null {
      return null, None;
    }
    var length := Size(list);
    if length == 0 {
      return list, None;
    }
    CellsRemove(list.nodes, list.contents, index);
    var element := Remove(list, index, heap);
    return list, Some(element);
  }
}
