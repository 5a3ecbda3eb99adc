/**
 The whole gateway on its pointers: the buffer as a chain of nodes and the data manager's list of lists,
 side by side in one heap, driven by any run of the threads.
 */
module GatewayProgram {
  import opened DataManager
  import opened DoublyLinkedList
  import opened Gateway
  import opened GatewayInvariant
  import opened GatewayOnNodes
  import opened GatewayProgress
  import opened Handoff
  import opened Memory
  import opened Records
  import opened SharedBuffer
  import opened Windows

  /** Both structures are sound and live, and share no block. */
  ghost predicate Sound(buffer: SBuffer, list: DpList<SensorMap>, heap: Heap)
    reads buffer, buffer.nodes, heap, list, list.nodes, list.contents
    reads set m: SensorMap, o: object | m in list.contents && o in m.Repr :: o
  {
    && buffer.Valid() && buffer.Live(heap)
    && TableValid(list, heap)
    && buffer.Footprint() !! Blocks(list)
  }

  ghost function AllBlocks(buffer: SBuffer, list: DpList<SensorMap>): set<object>
    reads buffer, list, list.contents
  {
    buffer.Footprint() + Blocks(list)
  }

  /** The state of the gateway, with the queue of the buffer and the table of the list. */
  ghost function Held(threads: State, buffer: SBuffer, list: DpList<SensorMap>): State
    reads buffer, buffer.nodes, list, list.contents
  {
    Now(threads, buffer).(table := TableOf(list.contents))
  }

  // ----- one step leaves the other structure alone -----

  method StepBesideMaps(cfg: Config, threads: State, step: Step, buffer: SBuffer, ghost maps: seq<SensorMap>,
                        ghost heap: Heap) returns (t: State)
    requires buffer.Valid() && buffer.Live(heap) && Enabled(cfg, Now(threads, buffer), step)
    requires AllValid(maps) && forall m :: m in maps ==> m.Repr !! buffer.Footprint() && heap !in m.Repr
    modifies buffer.Footprint(), heap
    ensures buffer.Valid() && buffer.Live(heap)
    ensures Now(t, buffer) == Apply(cfg, old(Now(threads, buffer)), step)
    ensures fresh(buffer.Footprint() - old(buffer.Footprint()))
    ensures heap.live - buffer.Footprint() == old(heap.live - buffer.Footprint())
    ensures AllValid(maps) && Footprints(maps) == old(Footprints(maps)) && TableOf(maps) == old(TableOf(maps))
  {
    forall m | m in maps
      ensures m in m.Repr
    {
      assert m.Valid();
    }
    t := StepOnNodes(cfg, threads, step, buffer, heap);
    forall m | m in maps
      ensures m.Valid() && unchanged(m)
    {
      assert old(m.Valid());
    }
  }

  method StepBesideTable(cfg: Config, threads: State, step: Step, buffer: SBuffer, ghost list: DpList<SensorMap>,
                         ghost heap: Heap) returns (t: State)
    requires Sound(buffer, list, heap) && Enabled(cfg, Now(threads, buffer), step)
    modifies buffer.Footprint(), heap
    ensures Sound(buffer, list, heap) && Now(t, buffer) == Apply(cfg, old(Now(threads, buffer)), step)
    ensures Blocks(list) == old(Blocks(list)) && TableOf(list.contents) == old(TableOf(list.contents))
    ensures fresh(buffer.Footprint() - old(buffer.Footprint()))
    ensures heap.live - buffer.Footprint() == old(heap.live - buffer.Footprint())
  {
    ghost var maps, blocks := list.contents, Blocks(list);
    OwnsEach(maps);
    forall m | m in maps
      ensures m.Repr !! buffer.Footprint() && heap !in m.Repr
    {
      assert m.Repr <= Owned(maps);
    }
    assert forall n :: n in list.nodes ==> n in list.Footprint();
    t := StepBesideMaps(cfg, threads, step, buffer, maps, heap);
    assert blocks <= old(heap.live - buffer.Footprint());
  }

  method HandleBesideBuffer(list: DpList<SensorMap>, d: Reading, now: int, ghost buffer: SBuffer, ghost heap: Heap)
    returns (events: seq<Event>)
    requires Sound(buffer, list, heap)
    modifies Owned(list.contents), heap
    ensures Sound(buffer, list, heap) && unchanged(buffer) && buffer.State() == old(buffer.State())
    ensures (TableOf(list.contents), events) == Handle(old(TableOf(list.contents)), d)
    ensures fresh(Blocks(list) - old(Blocks(list)))
    ensures heap.live - Blocks(list) == old(heap.live - Blocks(list))
  {
    assert forall n :: n in buffer.nodes ==> n in buffer.Footprint();
    events := HandleReading(list, d, now, heap);
    assert buffer.Footprint() <= old(heap.live - Blocks(list));
  }

  // ----- runs -----

  /** Only the data manager at work touches its table. */
  lemma TableApart(cfg: Config, s: State, step: Step, table: Table)
    requires Enabled(cfg, s, step) && !(step.PeekerRuns? && s.peeker.Got?)
    ensures Enabled(cfg, s.(table := table), step)
    ensures Apply(cfg, s.(table := table), step) == Apply(cfg, s, step).(table := table)
  {
  }

  lemma RestUnchanged(live0: set<object>, live1: set<object>, a0: set<object>, a1: set<object>, b: set<object>)
    requires live1 - a1 == live0 - a0
    ensures live1 - (a1 + b) == live0 - (a0 + b) && live1 - (b + a1) == live0 - (b + a0)
    ensures (a1 + b) - (a0 + b) <= a1 - a0 && (b + a1) - (b + a0) <= a1 - a0
  {
    assert live1 - (a1 + b) == (live1 - a1) - b && live0 - (a0 + b) == (live0 - a0) - b;
    assert a1 + b == b + a1 && a0 + b == b + a0;
  }

  lemma HandlingIs(cfg: Config, s: State, d: Reading)
    requires s.peeker == Got(d) && Enabled(cfg, s, PeekerRuns)
    ensures var (table, events) := Handle(s.table, d);
            Apply(cfg, s, PeekerRuns)
            == s.(peeker := Start, table := table, log := s.log + events, handled := s.handled + [d])
  {
  }

  /** The data manager handles the reading it was handed. */
  method HandleStep(cfg: Config, threads: State, now: int,
                    buffer: SBuffer, list: DpList<SensorMap>, ghost heap: Heap) returns (t: State)
    requires Sound(buffer, list, heap) && Enabled(cfg, Held(threads, buffer, list), PeekerRuns)
    requires threads.peeker.Got?
    modifies AllBlocks(buffer, list), heap
    ensures Sound(buffer, list, heap)
    ensures Held(t, buffer, list) == Apply(cfg, old(Held(threads, buffer, list)), PeekerRuns)
    ensures fresh(AllBlocks(buffer, list) - old(AllBlocks(buffer, list)))
    ensures heap.live - AllBlocks(buffer, list) == old(heap.live - AllBlocks(buffer, list))
  {
    ghost var live, nodes, blocks := heap.live, buffer.Footprint(), Blocks(list);
    var d := threads.peeker.data;
    HandlingIs(cfg, Held(threads, buffer, list), d);
    var events := HandleBesideBuffer(list, d, now, buffer, heap);
    RestUnchanged(live, heap.live, blocks, Blocks(list), nodes);
    t := threads.(peeker := Start, log := threads.log + events, handled := threads.handled + [d]);
  }

  /** Any other step. */
  method OtherStep(cfg: Config, threads: State, step: Step,
                   buffer: SBuffer, ghost list: DpList<SensorMap>, ghost heap: Heap) returns (t: State)
    requires Sound(buffer, list, heap) && Enabled(cfg, Held(threads, buffer, list), step)
    requires !(step.PeekerRuns? && threads.peeker.Got?)
    modifies AllBlocks(buffer, list), heap
    ensures Sound(buffer, list, heap)
    ensures Held(t, buffer, list) == Apply(cfg, old(Held(threads, buffer, list)), step)
    ensures fresh(AllBlocks(buffer, list) - old(AllBlocks(buffer, list)))
    ensures heap.live - AllBlocks(buffer, list) == old(heap.live - AllBlocks(buffer, list))
  {
    ghost var s, table := Now(threads, buffer), TableOf(list.contents);
    TableApart(cfg, s.(table := table), step, threads.table);
    assert s.(table := table).(table := threads.table) == s;
    TableApart(cfg, s, step, table);
    ghost var live, nodes, blocks := heap.live, buffer.Footprint(), Blocks(list);
    t := StepBesideTable(cfg, threads, step, buffer, list, heap);
    RestUnchanged(live, heap.live, nodes, buffer.Footprint(), blocks);
  }

  /** One step of any thread, on the pointers. */
  method RunStep(cfg: Config, threads: State, step: Step, now: int,
                 buffer: SBuffer, list: DpList<SensorMap>, ghost heap: Heap) returns (t: State)
    requires Sound(buffer, list, heap) && Enabled(cfg, Held(threads, buffer, list), step)
    modifies AllBlocks(buffer, list), heap
    ensures Sound(buffer, list, heap)
    ensures Held(t, buffer, list) == Apply(cfg, old(Held(threads, buffer, list)), step)
    ensures fresh(AllBlocks(buffer, list) - old(AllBlocks(buffer, list)))
    ensures heap.live - AllBlocks(buffer, list) == old(heap.live - AllBlocks(buffer, list))
  {
    if step.PeekerRuns? && threads.peeker.Got? {
      t := HandleStep(cfg, threads, now, buffer, list, heap);
    } else {
      t := OtherStep(cfg, threads, step, buffer, list, heap);
    }
  }

  lemma RunsOn(cfg: Config, s: State, steps: seq<Step>, i: nat)
    requires i < |steps| && Executes(cfg, s, steps[i..])
    ensures Enabled(cfg, s, steps[i]) && Executes(cfg, Apply(cfg, s, steps[i]), steps[i + 1..])
    ensures After(cfg, s, steps[i..]) == After(cfg, Apply(cfg, s, steps[i]), steps[i + 1..])
  {
    assert steps[i..][1..] == steps[i + 1..];
  }

  /** A whole run, on the pointers. */
  method RunSteps(cfg: Config, threads: State, steps: seq<Step>, now: int,
                  buffer: SBuffer, list: DpList<SensorMap>, ghost heap: Heap) returns (t: State)
    requires Sound(buffer, list, heap) && Executes(cfg, Held(threads, buffer, list), steps)
    modifies AllBlocks(buffer, list), heap
    ensures Sound(buffer, list, heap)
    ensures Held(t, buffer, list) == After(cfg, old(Held(threads, buffer, list)), steps)
    ensures fresh(AllBlocks(buffer, list) - old(AllBlocks(buffer, list)))
    ensures heap.live - AllBlocks(buffer, list) == old(heap.live - AllBlocks(buffer, list))
  {
    t := threads;
    var i := 0;
    ghost var s := Held(t, buffer, list);
    ghost var rest, end := heap.live - AllBlocks(buffer, list), After(cfg, s, steps);
    while i < |steps|
      invariant 0 <= i <= |steps| && Sound(buffer, list, heap)
      invariant s == Held(t, buffer, list) && Executes(cfg, s, steps[i..])
      invariant After(cfg, s, steps[i..]) == end
      invariant fresh(AllBlocks(buffer, list) - old(AllBlocks(buffer, list)))
      invariant heap.live - AllBlocks(buffer, list) == rest
    {
      RunsOn(cfg, s, steps, i);
      t := RunStep(cfg, t, steps[i], now, buffer, list, heap);
      s := Apply(cfg, s, steps[i]);
      i := i + 1;
    }
  }

  /** What main does at the end: datamgr_free, and sbuffer_free once all threads have been joined. */
  method FreeAll(buffer: SBuffer, list: DpList<SensorMap>, ghost heap: Heap)
    requires Sound(buffer, list, heap)
    modifies AllBlocks(buffer, list), heap
    ensures heap.live == old(heap.live - AllBlocks(buffer, list))
  {
    ghost var nodes := buffer.Footprint();
    DatamgrFree(list, heap);
    assert nodes <= heap.live;
    var status := FreeBuffer(buffer, heap);
  }

  /** sbuffer_init, and the list of datamgr_init. */
  method Create(cfg: Config, now: int, ghost heap: Heap) returns (buffer: SBuffer, list: DpList<SensorMap>)
    modifies heap
    ensures Sound(buffer, list, heap) && Held(Init(cfg), buffer, list) == Init(cfg)
    ensures fresh(AllBlocks(buffer, list)) && heap.live - AllBlocks(buffer, list) == old(heap.live)
  {
    buffer := new SBuffer(heap);
    list := MakeTable(cfg.mappings, now, heap);
  }

  lemma FinishedRunDelivers(cfg: Config, steps: seq<Step>, t: State)
    requires ValidConfig(cfg) && Executes(cfg, Init(cfg), steps)
    requires var s := After(cfg, Init(cfg), steps);
             Finished(s) && t == s.(shared := t.shared, table := t.table)
    ensures t.handled == t.rows && t.log == SpecLog(cfg.mappings, t.rows) && |t.origin| == |t.rows| + 1
    ensures forall c :: 0 <= c < |cfg.streams| ==> From(t.rows, t.origin[..|t.rows|], c) == cfg.streams[c]
  {
    StoppedRunDelivers(cfg, After(cfg, Init(cfg), steps));
  }

  /** A run, and the end of the program if both consumers have come to their end. */
  method RunToEnd(cfg: Config, steps: seq<Step>, now: int, buffer: SBuffer, list: DpList<SensorMap>, ghost heap: Heap)
    returns (t: State)
    requires Sound(buffer, list, heap)
    requires Held(Init(cfg), buffer, list) == Init(cfg) && Executes(cfg, Init(cfg), steps)
    modifies AllBlocks(buffer, list), heap
    ensures t == After(cfg, Init(cfg), steps).(shared := t.shared, table := t.table)
    ensures Finished(t) ==> heap.live == old(heap.live - AllBlocks(buffer, list))
  {
    t := RunSteps(cfg, Init(cfg), steps, now, buffer, list, heap);
    if t.peeker == Done && t.remover == Done {
      FreeAll(buffer, list, heap);
    }
  }

  /**
   The program, from the creation of the buffer and the list over any run of the threads. Once both consumers
   have come to their end everything is released: no block is left behind, and none is released twice.
   */
  method Program(cfg: Config, steps: seq<Step>, now: int, ghost heap: Heap) returns (t: State)
    requires ValidConfig(cfg) && Executes(cfg, Init(cfg), steps)
    modifies heap
    ensures t == After(cfg, Init(cfg), steps).(shared := t.shared, table := t.table)
    ensures t.peeker == Done && t.remover == Done ==>
              && heap.live == old(heap.live)
              && t.handled == t.rows && t.log == SpecLog(cfg.mappings, t.rows) && |t.origin| == |t.rows| + 1
              && forall c :: 0 <= c < |cfg.streams| ==> From(t.rows, t.origin[..|t.rows|], c) == cfg.streams[c]
  {
    var buffer, list := Create(cfg, now, heap);
    t := RunToEnd(cfg, steps, now, buffer, list, heap);
    if Finished(t) {
      FinishedRunDelivers(cfg, steps, t);
    }
  }
}
