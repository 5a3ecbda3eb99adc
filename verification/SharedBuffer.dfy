/**
 sbuffer.c with its pointers: the linked queue, and each mutex-held segment as a method that is
 proved to do on the chain of nodes what the function of module Handoff does on the queue.
 */
module SharedBuffer {
  import opened Handoff
  import opened ListSpec
  import opened Memory
  import opened Records

  class SNode {
    var next: SNode?
    var isProcessed: bool
    const data: Reading

    constructor (data: Reading)
      ensures this.data == data && !isProcessed && next == null
    {
      this.data := data;
      isProcessed, next := false, null;
    }
  }

  datatype Status = SBUFFER_SUCCESS | SBUFFER_FAILURE

  class SBuffer {
    var head: SNode?
    var tail: SNode?
    var condition: int
    ghost var nodes: seq<SNode>

    /** sbuffer_init */
    constructor (ghost heap: Heap)
      modifies heap
      ensures Valid() && State() == Shared([], EMPTY)
      ensures this !in old(heap.live) && heap.live == old(heap.live) + {this} && nodes == []
    {
      head, tail, condition := null, null, EMPTY;
      nodes := [];
      new;
      heap.Malloc(this);
    }

    /** head is null iff tail is; the chain from head visits each node once and ends in tail. */
    ghost predicate Valid()
      reads this, nodes
    {
      && Distinct(nodes)
      && (nodes == [] ==> head == null && tail == null)
      && (nodes != [] ==> head == nodes[0] && tail == nodes[|nodes| - 1])
      && (forall i {:trigger nodes[i].next} :: 0 <= i < |nodes| ==>
            nodes[i].next == if i == |nodes| - 1 then null else nodes[i + 1])
    }

    ghost predicate Live(heap: Heap)
      reads this, heap
    {
      Footprint() <= heap.live
    }

    ghost function Footprint(): set<object>
      reads this
    {
      {this} + Elements(nodes)
    }

    ghost function Queue(): (q: seq<Slot>)
      reads this, nodes
      ensures |q| == |nodes|
    {
      seq(|nodes|, i requires 0 <= i < |nodes| reads this, nodes => Slot(nodes[i].data, nodes[i].isProcessed))
    }

    ghost function State(): Shared
      reads this, nodes
    {
      Shared(Queue(), condition)
    }

    method NewNode(d: Reading, ghost heap: Heap) returns (node: SNode)
      modifies heap
      ensures fresh(node) && node.data == d && !node.isProcessed && node.next == null
      ensures node !in old(heap.live) && heap.live == old(heap.live) + {node}
    {
      node := new SNode(d);
      heap.Malloc(node);
    }

    method Link(node: SNode)
      requires Valid() && node !in nodes && !node.isProcessed && node.next == null
      modifies this, nodes
      ensures Valid() && nodes == old(nodes) + [node]
      ensures State() == Insert(old(State()), node.data)
    {
      if tail == null {
        head, tail := node, node;
        condition := PEEKERS_TURN;
      } else {
        tail.next := node;
        tail := tail.next;
      }
      nodes := nodes + [node];
    }

    /** sbuffer_remove from its entry to the end of the first mutex-held segment. */
    method RemoveEnter(ghost heap: Heap) returns (point: Point, signal: bool)
      requires Valid() && Live(heap)
      modifies this, heap
      ensures Valid() && Live(heap)
      ensures Outcome(point, State(), signal) == Handoff.RemoveEnter(old(State()))
      ensures nodes == if point.Got? then old(nodes)[1..] else old(nodes)
      ensures heap.live == if point.Got? then old(heap.live) - {old(nodes)[0]} else old(heap.live)
    {
      if head == null {
        condition := EMPTY;
        return Test(ForData), false;
      }
      point, signal := RemoveWithData(heap);
    }

    /** sbuffer_remove from the end of its first wait. */
    method RemoveWithData(ghost heap: Heap) returns (point: Point, signal: bool)
      requires Valid() && Live(heap) && nodes != []
      modifies this, heap
      ensures Valid() && Live(heap)
      ensures Outcome(point, State(), signal) == Handoff.RemoveWithData(old(State()))
      ensures nodes == if point.Got? then old(nodes)[1..] else old(nodes)
      ensures heap.live == if point.Got? then old(heap.live) - {old(nodes)[0]} else old(heap.live)
    {
      if head.data.id == END_MARKER && head.isProcessed == false {
        return TailWrite(PEEKERS_TURN), false;
      }
      if head.isProcessed == false {
        condition := PEEKERS_TURN;
        return Test(ForTurn), true;
      }
      point, signal := RemoveInTurn(heap);
    }

    /** sbuffer_remove from the end of its second wait. */
    method RemoveInTurn(ghost heap: Heap) returns (point: Point, signal: bool)
      requires Valid() && Live(heap) && nodes != []
      modifies this, heap
      ensures Valid() && Live(heap)
      ensures Outcome(point, State(), signal) == Handoff.RemoveInTurn(old(State()))
      ensures nodes == if point.Got? then old(nodes)[1..] else old(nodes)
      ensures heap.live == if point.Got? then old(heap.live) - {old(nodes)[0]} else old(heap.live)
    {
      if head.data.id == END_MARKER {
        return TailWrite(REMOVERS_TURN), false;
      }
      var data := head.data;
      var dummy: SNode := head;
      RemoveElements(nodes, 0);
      if head == tail {
        head, tail := null, null;
      } else {
        head := head.next;
      }
      heap.Free(dummy);
      nodes := nodes[1..];
      return Got(data), false;
    }

    /** sbuffer_peek from its entry to the end of the first mutex-held segment. */
    method PeekEnter() returns (point: Point, signal: bool)
      requires Valid()
      modifies this`condition, nodes
      ensures Valid()
      ensures Outcome(point, State(), signal) == Handoff.PeekEnter(old(State()))
    {
      if head == null {
        condition := EMPTY;
        return Test(ForData), false;
      }
      point, signal := PeekWithData();
    }

    /** sbuffer_peek from the end of its first wait. */
    method PeekWithData() returns (point: Point, signal: bool)
      requires Valid() && nodes != []
      modifies this`condition, nodes
      ensures Valid()
      ensures Outcome(point, State(), signal) == Handoff.PeekWithData(old(State()))
    {
      if head.data.id == END_MARKER {
        return TailWrite(REMOVERS_TURN), false;
      }
      if head.isProcessed == true {
        condition := REMOVERS_TURN;
        return Test(ForTurn), false;
      }
      point, signal := PeekInTurn();
    }

    /** sbuffer_peek from the end of its second wait. */
    method PeekInTurn() returns (point: Point, signal: bool)
      requires Valid() && nodes != []
      modifies this`condition, nodes
      ensures Valid()
      ensures Outcome(point, State(), signal) == Handoff.PeekInTurn(old(State()))
    {
      if head.data.id == END_MARKER {
        return TailWrite(REMOVERS_TURN), false;
      }
      var data := head.data;
      head.isProcessed := true;
      condition := REMOVERS_TURN;
      assert Queue() == [Slot(data, true)] + old(Queue())[1..];
      return Got(data), true;
    }
  }

  /** The chain: head is null iff tail is; followed from head, next visits each node once and ends in tail. */
  lemma Chained(buffer: SBuffer)
    requires buffer.Valid()
    ensures buffer.head == null <==> buffer.tail == null
    ensures buffer.head == null <==> buffer.State().queue == []
    ensures buffer.head != null ==>
              && buffer.nodes != [] && buffer.head == buffer.nodes[0]
              && buffer.tail == buffer.nodes[|buffer.nodes| - 1] && buffer.tail.next == null
    ensures forall i :: 0 <= i < |buffer.nodes| - 1 ==> buffer.nodes[i].next == buffer.nodes[i + 1]
    ensures forall i, j :: 0 <= i < j < |buffer.nodes| ==> buffer.nodes[i] != buffer.nodes[j]
    ensures |buffer.State().queue| == |buffer.nodes| && buffer.State().condition == buffer.condition
    ensures forall i :: 0 <= i < |buffer.nodes| ==>
              buffer.State().queue[i] == Slot(buffer.nodes[i].data, buffer.nodes[i].isProcessed)
  {
  }

  /** sbuffer_insert; its segment always ends in a broadcast. */
  method InsertReading(buffer: SBuffer?, d: Reading, ghost heap: Heap) returns (status: Status)
    requires buffer != null ==> buffer.Valid() && buffer.Live(heap)
    modifies if buffer == null then {} else buffer.Footprint() + {heap}
    ensures status == if buffer == null then SBUFFER_FAILURE else SBUFFER_SUCCESS
    ensures buffer != null ==>
              && buffer.Valid() && buffer.Live(heap)
              && buffer.State() == Insert(old(buffer.State()), d)
              && exists node: SNode ::
                   && fresh(node) && node !in old(heap.live) && heap.live == old(heap.live) + {node}
                   && buffer.nodes == old(buffer.nodes) + [node]
  {
    if buffer == null {
      return SBUFFER_FAILURE;
    }
    var node := buffer.NewNode(d, heap);
    buffer.Link(node);
    return SBUFFER_SUCCESS;
  }

  /** sbuffer_free releases the nodes still queued, each once, and the buffer. */
  method FreeBuffer(buffer: SBuffer?, ghost heap: Heap) returns (status: Status)
    requires buffer != null ==> buffer.Valid() && buffer.Live(heap)
    modifies if buffer == null then {} else {buffer, heap}
    ensures status == if buffer == null then SBUFFER_FAILURE else SBUFFER_SUCCESS
    ensures buffer != null ==> heap.live == old(heap.live - buffer.Footprint())
  {
    if buffer == null {
      return SBUFFER_FAILURE;
    }
    ghost var nodes, i := buffer.nodes, 0;
    while buffer.head != null
      invariant 0 <= i <= |nodes| && buffer.head == if i < |nodes| then nodes[i] else null
      invariant heap.live == old(heap.live) - Elements(nodes[..i])
      invariant buffer.nodes == nodes && forall k :: 0 <= k < |nodes| ==> nodes[k].next == old(nodes[k].next)
      decreases |nodes| - i
    {
      var dummy: SNode := buffer.head;
      buffer.head := buffer.head.next;
      assert nodes[..i + 1] == nodes[..i] + [nodes[i]];
      assert Elements(nodes[..i + 1]) == Elements(nodes[..i]) + {nodes[i]};
      assert nodes[i] in Elements(nodes) && nodes[i] !in Elements(nodes[..i]);
      heap.Free(dummy);
      i := i + 1;
    }
    assert nodes[..i] == nodes;
    heap.Free(buffer);
    return SBUFFER_SUCCESS;
  }
}
