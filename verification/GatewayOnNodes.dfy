/**
 The gateway with the shared buffer as a chain of nodes: whatever the threads do in whatever order,
 the pointer code of sbuffer.c does to the chain what the steps of module Gateway do to the queue.
 */
module GatewayOnNodes {
  import opened Gateway
  import opened GatewayInvariant
  import opened GatewayProgress
  import opened Handoff
  import opened Memory
  import opened Records
  import opened SharedBuffer
  import opened Windows

  /** The state of the gateway, with the queue and `condition` of the buffer. The field `threads.shared` is not used. */
  ghost function Now(threads: State, buffer: SBuffer): State
    reads buffer, buffer.nodes
  {
    threads.(shared := buffer.State())
  }

  /** A step of the peeker. A null head dereferenced after a wait ends the process. */
  method PeekerOnNodes(threads: State, buffer: SBuffer) returns (t: State)
    requires buffer.Valid() && CanRun(Now(threads, buffer), threads.peeker)
    modifies buffer`condition, buffer.nodes
    ensures buffer.Valid() && Now(t, buffer) == PeekerStep(old(Now(threads, buffer)))
  {
    match threads.peeker
    case Start =>
      var point, signal := buffer.PeekEnter();
      t := PeekerMoves(threads, Outcome(point, threads.shared, signal));
    case Test(w) =>
      t := threads.(peeker := if buffer.condition == PeekerWaitsOn(w) then Sleep(w) else Past(w));
    case Past(w) =>
      if buffer.head == null {
        return threads.(peeker := Fault(w));
      }
      var point, signal;
      if w == ForData {
        point, signal := buffer.PeekWithData();
      } else {
        point, signal := buffer.PeekInTurn();
      }
      t := PeekerMoves(threads, Outcome(point, threads.shared, signal));
    case TailWrite(v) =>
      buffer.condition := v;
      t := threads.(peeker := TailSignal);
    case _ =>
      t := PeekerStep(threads);
  }

  /** A step of the remover; it releases the node it pops. */
  method RemoverOnNodes(threads: State, buffer: SBuffer, ghost heap: Heap) returns (t: State)
    requires buffer.Valid() && buffer.Live(heap) && CanRun(Now(threads, buffer), threads.remover)
    modifies buffer, heap
    ensures buffer.Valid() && buffer.Live(heap) && Now(t, buffer) == RemoverStep(old(Now(threads, buffer)))
    ensures buffer.Footprint() <= old(buffer.Footprint())
    ensures heap.live - buffer.Footprint() == old(heap.live - buffer.Footprint())
  {
    match threads.remover
    case Start =>
      var point, signal := buffer.RemoveEnter(heap);
      t := RemoverMoves(threads, Outcome(point, threads.shared, signal));
    case Test(w) =>
      t := threads.(remover := if buffer.condition == RemoverWaitsOn(w) then Sleep(w) else Past(w));
    case Past(w) =>
      if buffer.head == null {
        return threads.(remover := Fault(w));
      }
      var point, signal;
      if w == ForData {
        point, signal := buffer.RemoveWithData(heap);
      } else {
        point, signal := buffer.RemoveInTurn(heap);
      }
      t := RemoverMoves(threads, Outcome(point, threads.shared, signal));
    case TailWrite(v) =>
      buffer.condition := v;
      t := threads.(remover := TailSignal);
    case _ =>
      t := RemoverStep(threads);
  }

  /** sbuffer_insert by a client thread or the connection manager, with its broadcast. */
  method InsertOnNodes(threads: State, d: Reading, from: int, buffer: SBuffer, ghost heap: Heap) returns (t: State)
    requires buffer.Valid() && buffer.Live(heap)
    modifies buffer.Footprint(), heap
    ensures buffer.Valid() && buffer.Live(heap)
    ensures Now(t, buffer) == InsertStep(old(Now(threads, buffer)), d, from)
    ensures fresh(buffer.Footprint() - old(buffer.Footprint()))
    ensures heap.live - buffer.Footprint() == old(heap.live - buffer.Footprint())
  {
    var status := InsertReading(buffer, d, heap);
    t := InsertStep(threads, d, from);
  }

  /** One step of any thread. */
  method StepOnNodes(cfg: Config, threads: State, step: Step, buffer: SBuffer, ghost heap: Heap) returns (t: State)
    requires buffer.Valid() && buffer.Live(heap) && Enabled(cfg, Now(threads, buffer), step)
    modifies buffer.Footprint(), heap
    ensures buffer.Valid() && buffer.Live(heap)
    ensures Now(t, buffer) == Apply(cfg, old(Now(threads, buffer)), step)
    ensures fresh(buffer.Footprint() - old(buffer.Footprint()))
    ensures heap.live - buffer.Footprint() == old(heap.live - buffer.Footprint())
  {
    match step
    case ClientInserts(c) =>
      var client := threads.clients[c];
      t := InsertOnNodes(threads, client.pending[0], c, buffer, heap);
      t := t.(clients := threads.clients[c := client.(pending := client.pending[1..])]);
    case Mark =>
      t := InsertOnNodes(threads, cfg.marker, -1, buffer, heap);
      t := t.(conns := Ended);
    case PeekerRuns =>
      t := PeekerOnNodes(threads, buffer);
    case RemoverRuns =>
      t := RemoverOnNodes(threads, buffer, heap);
    case _ =>
      t := Apply(cfg, threads, step);
  }
}
