/**
 datamgr.c: the data manager's list of sensor maps, each with its own list of readings.
 The pointer structure is proved to hold the table of module Windows and to own every block
 it allocates exactly once.
 */
module DataManager {
  import opened DoublyLinkedList
  import opened ListSpec
  import opened Memory
  import opened Records
  import opened Windows

  /** A sensor_data_t block made by sensor_data_copy; it is never written again. */
  class ReadingBlock {
    const data: Reading

    constructor (data: Reading, ghost heap: Heap)
      modifies heap
      ensures this.data == data
      ensures this !in old(heap.live) && heap.live == old(heap.live) + {this}
    {
      this.data := data;
      new;
      heap.Malloc(this);
    }
  }

  ghost function ReadingsOf(blocks: seq<ReadingBlock>): (r: seq<Reading>)
    ensures |r| == |blocks|
  {
    seq(|blocks|, i requires 0 <= i < |blocks| => blocks[i].data)
  }

  lemma ReadingsInsert(blocks: seq<ReadingBlock>, index: int, block: ReadingBlock)
    ensures ReadingsOf(InsertAt(blocks, index, block)) == InsertAt(ReadingsOf(blocks), index, block.data)
  {
  }

  lemma ReprExchange(live0: set<object>, repr0: set<object>, live1: set<object>, repr1: set<object>,
                     live2: set<object>, repr2: set<object>)
    requires repr1 <= repr0 <= live0 && live1 == live0 - (repr0 - repr1)
    requires repr1 <= repr2 && live2 == live1 + (repr2 - repr1) && (repr2 - repr1) !! live0
    ensures live2 == live0 - repr0 + repr2
    ensures repr2 - repr0 <= repr2 - repr1
  {
  }

  /** A sensor_map_t block made by sensor_map_copy. */
  class SensorMap {
    const sensorId: Word16
    const roomId: Word16
    const readings: DpList<ReadingBlock>
    var lastModified: int
    ghost var Repr: set<object>
    ghost var window: seq<Reading>

    constructor (sensorId: Word16, roomId: Word16, readings: DpList<ReadingBlock>, now: int, ghost heap: Heap)
      requires readings.Valid() && readings.contents == []
      modifies heap
      ensures this.sensorId == sensorId && this.roomId == roomId && this.readings == readings
      ensures Valid() && window == [] && Repr == {this, readings}
      ensures this !in old(heap.live) && heap.live == old(heap.live) + {this}
    {
      this.sensorId, this.roomId, this.readings, this.lastModified := sensorId, roomId, readings, now;
      Repr, window := {this, readings}, [];
      new;
      heap.Malloc(this);
    }

    /** Every block this map owns: itself, its list, the list's nodes and the readings. */
    ghost predicate Valid()
      reads this, Repr
    {
      && this in Repr && readings in Repr && Elements(readings.nodes) <= Repr
      && Repr == {this, readings} + Elements(readings.nodes) + Elements(readings.contents)
      && readings.Valid()
      && Distinct(readings.contents)
      && |readings.contents| <= RUN_AVG_LENGTH
      && window == ReadingsOf(readings.contents)
    }

    method DropOldest(ghost heap: Heap)
      requires Valid() && Repr <= heap.live && readings.contents != []
      modifies this, readings, readings.nodes, heap
      ensures Valid() && window == RemoveAt(old(window), 0)
      ensures Repr <= old(Repr) && readings.nodes == RemoveAt(old(readings.nodes), 0)
      ensures heap.live == old(heap.live) - (old(Repr) - Repr)
    {
      RemoveElements(readings.contents, 0);
      RemoveElements(readings.nodes, 0);
      ghost var node := readings.nodes[0];
      var oldest := Remove(readings, 0, heap);
      heap.Free(oldest);
      Repr := Repr - {node, oldest};
      window := RemoveAt(window, 0);
    }

    method Append(d: Reading, ghost heap: Heap)
      requires Valid() && Repr <= heap.live && |readings.contents| < RUN_AVG_LENGTH
      modifies this, readings, readings.nodes, heap
      ensures Valid() && window == InsertAt(old(window), RUN_AVG_LENGTH - 1, d)
      ensures old(Repr) <= Repr && fresh(Repr - old(Repr))
      ensures heap.live == old(heap.live) + (Repr - old(Repr))
    {
      ghost var nodes, blocks := readings.nodes, readings.contents;
      var copy := new ReadingBlock(d, heap);
      ghost var node := Insert(readings, copy, RUN_AVG_LENGTH - 1, heap);
      InsertElements(nodes, RUN_AVG_LENGTH - 1, node);
      InsertElements(blocks, RUN_AVG_LENGTH - 1, copy);
      ReadingsInsert(blocks, RUN_AVG_LENGTH - 1, copy);
      Repr := Repr + {node, copy};
      window := InsertAt(window, RUN_AVG_LENGTH - 1, d);
    }

    /** insert_data_point, for the map that was found. */
    method Record(d: Reading, now: int, ghost heap: Heap)
      requires Valid() && Repr <= heap.live
      modifies Repr, heap
      ensures Valid()
      ensures window == Push(old(window), d)
      ensures fresh(Repr - old(Repr))
      ensures heap.live == old(heap.live) - old(Repr) + Repr
    {
      var size := Size(readings);
      if size == RUN_AVG_LENGTH {
        DropOldest(heap);
      }
      ghost var kept, live := Repr, heap.live;
      Append(d, heap);
      ReprExchange(old(heap.live), old(Repr), live, kept, heap.live, Repr);
      lastModified := now;
    }
  }

  // ----- the list of maps -----

  ghost function Union(footprints: seq<set<object>>): set<object>
  {
    set f, o | f in footprints && o in f :: o
  }

  ghost predicate Apart(footprints: seq<set<object>>)
  {
    forall i, j :: 0 <= i < j < |footprints| ==> footprints[i] !! footprints[j]
  }

  /** One footprint may exchange some of its blocks for blocks nobody owns. */
  lemma ExchangeFootprint(footprints: seq<set<object>>, k: nat, f: set<object>)
    requires k < |footprints| && Apart(footprints)
    requires (f - footprints[k]) !! Union(footprints)
    ensures Apart(footprints[k := f])
    ensures Union(footprints[k := f]) == Union(footprints) - footprints[k] + f
  {
    var after := footprints[k := f];
    forall i | 0 <= i < |footprints|
      ensures footprints[i] <= Union(footprints) && after[i] <= Union(after)
    {
      assert footprints[i] in footprints && after[i] in after;
    }
    forall i, j | 0 <= i < j < |after|
      ensures after[i] !! after[j]
    {
      assert footprints[i] !! footprints[j];
    }
    forall o | o in Union(footprints) - footprints[k] + f
      ensures o in Union(after)
    {
      if o !in f {
        var g :| g in footprints && o in g;
        var i :| 0 <= i < |footprints| && footprints[i] == g;
        assert i != k && o in after[i];
      }
    }
    forall o | o in Union(after)
      ensures o in Union(footprints) - footprints[k] + f
    {
      var g :| g in after && o in g;
      var i :| 0 <= i < |after| && after[i] == g;
      if i != k {
        assert footprints[i] !! footprints[k];
      }
    }
  }

  lemma AppendFootprint(footprints: seq<set<object>>, f: set<object>)
    requires Apart(footprints) && f !! Union(footprints)
    ensures Apart(footprints + [f])
    ensures Union(footprints + [f]) == Union(footprints) + f
  {
  }

  lemma DropFootprint(footprints: seq<set<object>>, k: nat)
    requires Apart(footprints) && k == |footprints| - 1
    ensures Apart(footprints[..k]) && footprints[k] !! Union(footprints[..k])
    ensures Union(footprints) == Union(footprints[..k]) + footprints[k]
  {
  }

  ghost function Footprints(maps: seq<SensorMap>): (fs: seq<set<object>>)
    reads maps
    ensures |fs| == |maps|
  {
    seq(|maps|, i requires 0 <= i < |maps| reads maps => maps[i].Repr)
  }

  /** Every block owned by the maps of the list. */
  ghost function Owned(maps: seq<SensorMap>): set<object>
    reads maps
  {
    Union(Footprints(maps))
  }

  lemma OwnsEach(maps: seq<SensorMap>)
    ensures forall m :: m in maps ==> m.Repr <= Owned(maps)
  {
    forall m | m in maps
      ensures m.Repr <= Owned(maps)
    {
      var i :| 0 <= i < |maps| && maps[i] == m;
      assert Footprints(maps)[i] in Footprints(maps);
    }
  }

  ghost predicate AllValid(maps: seq<SensorMap>)
    reads maps, set m: SensorMap, o: object | m in maps && o in m.Repr :: o
  {
    forall m :: m in maps ==> m.Valid()
  }

  /** The list, its maps and their readings share no block, and all of them are live. */
  ghost predicate TableValid(list: DpList<SensorMap>, heap: Heap)
    reads list, list.nodes, heap, list.contents
    reads set m: SensorMap, o: object | m in list.contents && o in m.Repr :: o
  {
    && list.Valid() && list.Live(heap)
    && AllValid(list.contents)
    && Apart(Footprints(list.contents))
    && Owned(list.contents) <= heap.live && heap !in Owned(list.contents)
    && list.Footprint() !! Owned(list.contents)
  }

  /** Every block of the structure. */
  ghost function Blocks(list: DpList<SensorMap>): set<object>
    reads list, list.contents
  {
    list.Footprint() + Owned(list.contents)
  }

  lemma ReprIs(m: SensorMap, o: object)
    requires m.Valid()
    ensures o in m.Repr <==> o == m || o == m.readings || o in m.readings.nodes || o in m.readings.contents
  {
  }

  lemma OwnedIs(maps: seq<SensorMap>, o: object)
    ensures o in Owned(maps) <==> exists m :: m in maps && o in m.Repr
  {
    OwnsEach(maps);
    if o in Owned(maps) {
      var f :| f in Footprints(maps) && o in f;
      var i :| 0 <= i < |maps| && Footprints(maps)[i] == f;
      assert maps[i] in maps;
    }
  }

  /** Two maps share no block: no list, no node and no reading. */
  lemma MapsAreDisjoint(list: DpList<SensorMap>, heap: Heap, i: nat, j: nat, o: object)
    requires TableValid(list, heap) && i < j < |list.contents|
    ensures var a, b := list.contents[i], list.contents[j];
            !(&& (o == a || o == a.readings || o in a.readings.nodes || o in a.readings.contents)
              && (o == b || o == b.readings || o in b.readings.nodes || o in b.readings.contents))
  {
    var a, b := list.contents[i], list.contents[j];
    assert Footprints(list.contents)[i] !! Footprints(list.contents)[j];
    ReprIs(a, o);
    ReprIs(b, o);
  }

  /** A block belongs to the structure if it is the list, one of its nodes, a map, or one of a map's; and then it is live. */
  lemma BlocksAre(list: DpList<SensorMap>, heap: Heap, o: object)
    requires TableValid(list, heap)
    ensures o in Blocks(list) <==>
            || o == list || o in list.nodes
            || exists m :: m in list.contents
                 && (o == m || o == m.readings || o in m.readings.nodes || o in m.readings.contents)
    ensures o in Blocks(list) ==> o in heap.live
  {
    OwnedIs(list.contents, o);
    forall m | m in list.contents
      ensures o in m.Repr <==> o == m || o == m.readings || o in m.readings.nodes || o in m.readings.contents
    {
      ReprIs(m, o);
    }
  }

  /** A map never holds a reading or a node twice. */
  lemma ReadingsAreDistinct(list: DpList<SensorMap>, heap: Heap, m: SensorMap)
    requires TableValid(list, heap) && m in list.contents
    ensures forall j, k :: 0 <= j < k < |m.readings.contents| ==> m.readings.contents[j] != m.readings.contents[k]
    ensures forall j, k :: 0 <= j < k < |m.readings.nodes| ==> m.readings.nodes[j] != m.readings.nodes[k]
  {
    assert m.Valid();
  }

  /** What the table says is what the maps and their lists hold. */
  lemma TableIsHeld(list: DpList<SensorMap>, heap: Heap, i: nat)
    requires TableValid(list, heap) && i < |list.contents|
    ensures |TableOf(list.contents)| == |list.contents|
    ensures var m, e := list.contents[i], TableOf(list.contents)[i];
            && e.sensor == m.sensorId && e.room == m.roomId
            && |e.window| == |m.readings.contents|
            && forall j :: 0 <= j < |e.window| ==> e.window[j] == m.readings.contents[j].data
  {
    assert list.contents[i].Valid();
  }

  ghost function EntryOf(m: SensorMap): Entry
    reads m
  {
    Entry(m.sensorId, m.roomId, m.window)
  }

  /** The table held by the list. */
  ghost function TableOf(maps: seq<SensorMap>): (t: Table)
    reads maps
    ensures |t| == |maps|
  {
    seq(|maps|, i requires 0 <= i < |maps| reads maps => EntryOf(maps[i]))
  }

  /** The loop of calculate_average_sensor, up to the map it does not skip. */
  method FindFull(list: DpList<SensorMap>, id: Word16) returns (entry: SensorMap?)
    requires list.Valid() && AllValid(list.contents)
    ensures entry == null ==> Alerts(TableOf(list.contents), id) == []
    ensures entry != null ==>
              && entry in list.contents && |entry.window| == RUN_AVG_LENGTH
              && Alerts(TableOf(list.contents), id) == Judge(id, Mean(entry.window))
  {
    ghost var t := TableOf(list.contents);
    assert t[0..] == t;
    entry := null;
    var i := 0;
    var size := Size(list);
    while i < size
      invariant 0 <= i <= |t| && size == |t| && entry == null
      invariant Alerts(t, id) == Alerts(t[i..], id)
      decreases size - i
    {
      AlertsFrom(t, id, i);
      var found := GetElementAtIndex(list, i);
      assert t[i] == EntryOf(found.value) && found.value in list.contents;
      var length := Size(found.value.readings);
      if found.value.sensorId == id && length == RUN_AVG_LENGTH {
        entry := found.value;
        break;
      }
      i := i + 1;
    }
  }

  /** calculate_average_sensor */
  method CalculateAverage(list: DpList<SensorMap>, id: Word16) returns (events: seq<Event>)
    requires list.Valid() && AllValid(list.contents)
    ensures events == Alerts(TableOf(list.contents), id)
  {
    var entry := FindFull(list, id);
    if entry == null {
      return [];
    }
    var average := Average(entry);
    events := Report(id, average);
  }

  /** The two tests at the end of calculate_average_sensor. */
  method Report(id: Word16, average: real) returns (events: seq<Event>)
    ensures average > 20.0 ==> events == [TooHot(id, average)]
    ensures average < 10.0 ==> events == [TooCold(id, average)]
    ensures 10.0 <= average <= 20.0 ==> events == []
  {
    events := [];
    if average > SET_MAX_TEMP {
      events := events + [TooHot(id, average)];
    }
    if average < SET_MIN_TEMP {
      events := events + [TooCold(id, average)];
    }
  }

  /** The averaging loop of calculate_average_sensor. */
  method Average(entry: SensorMap) returns (average: real)
    requires entry.Valid() && |entry.readings.contents| == RUN_AVG_LENGTH
    ensures average == Mean(entry.window)
  {
    average := 0.0;
    ghost var window := entry.window;
    for j := 0 to RUN_AVG_LENGTH
      invariant average == Sum(window[..j])
    {
      assert window[..j + 1][..j] == window[..j];
      var block := GetElementAtIndex(entry.readings, j);
      average := average + block.value.data.value;
    }
    assert window[..RUN_AVG_LENGTH] == window;
    average := average / 5.0;
  }

  /** Storing one reading in a map does not touch maps that share no block with it. */
  method RecordApart(ghost others: seq<SensorMap>, entry: SensorMap, d: Reading, now: int, ghost heap: Heap)
    requires entry.Valid() && entry.Repr <= heap.live
    requires AllValid(others) && forall m :: m in others ==> m.Repr !! entry.Repr && heap !in m.Repr
    modifies entry.Repr, heap
    ensures entry.Valid() && AllValid(others) && unchanged(others)
    ensures entry.window == Push(old(entry.window), d)
    ensures fresh(entry.Repr - old(entry.Repr))
    ensures heap.live == old(heap.live) - old(entry.Repr) + entry.Repr
  {
    assert forall m :: m in others ==> m in m.Repr;
    entry.Record(d, now, heap);
    forall m | m in others
      ensures m.Valid()
    {
      assert old(m.Valid()) && m.Repr == old(m.Repr);
    }
  }

  ghost function Others(maps: seq<SensorMap>, k: nat): (others: seq<SensorMap>)
    requires k < |maps|
    ensures |others| == |maps| - 1
    ensures forall i :: 0 <= i < |maps| && i != k ==> maps[i] == others[if i < k then i else i - 1]
    ensures forall m :: m in others ==> exists i :: 0 <= i < |maps| && i != k && maps[i] == m
  {
    maps[..k] + maps[k + 1..]
  }

  lemma OthersApart(maps: seq<SensorMap>, k: nat, heap: Heap)
    requires k < |maps| && Apart(Footprints(maps)) && heap !in Owned(maps)
    ensures forall m :: m in Others(maps, k) ==> m in maps && m.Repr !! maps[k].Repr && heap !in m.Repr
  {
    OwnsEach(maps);
    forall i | 0 <= i < |maps| && i != k
      ensures maps[i].Repr !! maps[k].Repr && heap !in maps[i].Repr
    {
      assert Footprints(maps)[i] !! Footprints(maps)[k] && maps[i] in maps;
      assert maps[i].Repr <= Owned(maps);
    }
  }

  /** Storing one reading in the map at index k leaves every other map as it was. */
  method RecordOne(ghost maps: seq<SensorMap>, ghost k: nat, entry: SensorMap, d: Reading, now: int, ghost heap: Heap)
    requires k < |maps| && entry == maps[k]
    requires AllValid(maps) && Apart(Footprints(maps)) && heap !in Owned(maps)
    requires entry.Repr <= heap.live
    modifies entry.Repr, heap
    ensures AllValid(maps)
    ensures Footprints(maps) == old(Footprints(maps))[k := entry.Repr]
    ensures TableOf(maps) == old(TableOf(maps))[k := EntryOf(entry)]
    ensures entry.window == Push(old(entry.window), d)
    ensures fresh(entry.Repr - old(entry.Repr))
    ensures heap.live == old(heap.live) - old(entry.Repr) + entry.Repr
  {
    ghost var footprints, table, others := Footprints(maps), TableOf(maps), Others(maps, k);
    OthersApart(maps, k, heap);
    RecordApart(others, entry, d, now, heap);
    forall i | 0 <= i < |maps| && i != k
      ensures maps[i].Repr == footprints[i] && EntryOf(maps[i]) == table[i]
    {
      assert maps[i] == others[if i < k then i else i - 1];
    }
    assert forall i :: 0 <= i < |maps| && i != k ==> maps[i] in others;
  }

  /** Nor does it change the list. */
  method RecordBeside(list: DpList<SensorMap>, ghost k: nat, entry: SensorMap, d: Reading, now: int, ghost heap: Heap)
    requires list.Valid() && k < |list.contents| && entry == list.contents[k]
    requires AllValid(list.contents) && Apart(Footprints(list.contents)) && heap !in Owned(list.contents)
    requires entry.Repr <= heap.live && entry.Repr !! list.Footprint()
    modifies entry.Repr, heap
    ensures list.Valid() && unchanged(list) && AllValid(list.contents)
    ensures Footprints(list.contents) == old(Footprints(list.contents))[k := entry.Repr]
    ensures TableOf(list.contents) == old(TableOf(list.contents))[k := EntryOf(entry)]
    ensures entry.window == Push(old(entry.window), d)
    ensures fresh(entry.Repr - old(entry.Repr))
    ensures heap.live == old(heap.live) - old(entry.Repr) + entry.Repr
  {
    assert forall n :: n in list.nodes ==> n in list.Footprint();
    RecordOne(list.contents, k, entry, d, now, heap);
  }

  lemma ExchangeLive(outer: set<object>, owned: set<object>, f: set<object>, g: set<object>, live: set<object>)
    requires outer !! owned && f <= owned && outer + owned <= live && (g - f) !! live
    ensures outer !! owned - f + g
    ensures outer + (owned - f + g) <= live - f + g
  {
  }

  /** The table after the map at index k has exchanged blocks of its own for new ones. */
  lemma TableAfterExchange(list: DpList<SensorMap>, k: nat, footprints: seq<set<object>>, live: set<object>, heap: Heap)
    requires list.Valid() && AllValid(list.contents)
    requires k < |footprints| == |list.contents| && Apart(footprints)
    requires Footprints(list.contents) == footprints[k := list.contents[k].Repr]
    requires list.Footprint() !! Union(footprints) && list.Footprint() + Union(footprints) <= live
    requires (list.contents[k].Repr - footprints[k]) !! live && heap !in Union(footprints) + list.contents[k].Repr
    requires heap.live == live - footprints[k] + list.contents[k].Repr
    ensures TableValid(list, heap)
    ensures Owned(list.contents) == Union(footprints) - footprints[k] + list.contents[k].Repr
    ensures heap.live == live - Union(footprints) + Owned(list.contents)
  {
    ghost var f := list.contents[k].Repr;
    assert footprints[k] in footprints;
    ExchangeFootprint(footprints, k, f);
    ExchangeLive(list.Footprint(), Union(footprints), footprints[k], f, live);
  }

  /** Storing one reading in the map at index k keeps the table sound. */
  method RecordAt(list: DpList<SensorMap>, ghost k: nat, entry: SensorMap, d: Reading, now: int, ghost heap: Heap)
    requires TableValid(list, heap) && k < |list.contents| && entry == list.contents[k]
    modifies entry.Repr, heap
    ensures TableValid(list, heap)
    ensures unchanged(list)
    ensures TableOf(list.contents)
         == old(TableOf(list.contents))[k := EntryOf(entry).(window := Push(old(entry.window), d))]
    ensures fresh(Owned(list.contents) - old(Owned(list.contents)))
    ensures heap.live == old(heap.live) - old(Owned(list.contents)) + Owned(list.contents)
  {
    ghost var maps, live := list.contents, heap.live;
    ghost var footprints := Footprints(maps);
    OwnsEach(maps);
    assert entry.Repr <= Owned(maps);
    RecordBeside(list, k, entry, d, now, heap);
    TableAfterExchange(list, k, footprints, live, heap);
  }

  /** The search loop of insert_data_point; it stops at the first map of the sensor. */
  method FindMap(list: DpList<SensorMap>, id: Word16) returns (entry: SensorMap?)
    requires list.Valid()
    ensures var k := FirstIndex(TableOf(list.contents), id);
            entry == if k < |list.contents| then list.contents[k] else null
  {
    var i := 0;
    entry := null;
    var size := Size(list);
    while i < size
      invariant 0 <= i <= size && entry == null
      invariant forall j :: 0 <= j < i ==> list.contents[j].sensorId != id
      decreases size - i
    {
      var found := GetElementAtIndex(list, i);
      if found.value.sensorId == id {
        entry := found.value;
        break;
      }
      i := i + 1;
    }
    FirstIndexIs(TableOf(list.contents), id, i);
  }

  /** insert_data_point */
  method InsertDataPoint(list: DpList<SensorMap>, d: Reading, now: int, ghost heap: Heap) returns (events: seq<Event>)
    requires TableValid(list, heap)
    modifies Owned(list.contents), heap
    ensures TableValid(list, heap) && unchanged(list)
    ensures (TableOf(list.contents), events) == Store(old(TableOf(list.contents)), d)
    ensures fresh(Owned(list.contents) - old(Owned(list.contents)))
    ensures heap.live == old(heap.live) - old(Owned(list.contents)) + Owned(list.contents)
  {
    ghost var k := FirstIndex(TableOf(list.contents), d.id);
    var entry := FindMap(list, d.id);
    if entry == null {
      return [UnknownSensor(d.id)];
    }
    OwnsEach(list.contents);
    RecordAt(list, k, entry, d, now, heap);
    return [];
  }

  /** The map made for one line of the map file; its list of readings is empty. */
  method MakeMap(mapping: Mapping, now: int, ghost heap: Heap) returns (copy: SensorMap)
    modifies heap
    ensures copy.Valid() && EntryOf(copy) == Entry(mapping.sensor, mapping.room, [])
    ensures fresh(copy.Repr) && copy.Repr !! old(heap.live) && heap.live == old(heap.live) + copy.Repr
  {
    var readings := new DpList<ReadingBlock>(heap);
    copy := new SensorMap(mapping.sensor, mapping.room, readings, now, heap);
  }

  /** dpl_insert_at_index at the index that is the size of the list. */
  method InsertLast(list: DpList<SensorMap>, copy: SensorMap, ghost heap: Heap)
    requires list.Valid() && list.Live(heap)
    modifies list, list.nodes, heap
    ensures list.Valid() && list.contents == old(list.contents) + [copy]
    ensures old(list.Footprint()) <= list.Footprint()
    ensures fresh(list.Footprint() - old(list.Footprint()))
    ensures heap.live == old(heap.live) + list.Footprint()
  {
    ghost var nodes := list.nodes;
    var size := Size(list);
    ghost var node := Insert(list, copy, size, heap);
    assert list.nodes == nodes + [node];
  }

  /** Linking a map at the end of the list changes no map. */
  method LinkMap(list: DpList<SensorMap>, copy: SensorMap, ghost heap: Heap)
    requires list.Valid() && list.Live(heap)
    requires AllValid(list.contents) && copy.Valid()
    requires forall m :: m in list.contents + [copy] ==> m.Repr !! list.Footprint() && heap !in m.Repr
    modifies list, list.nodes, heap
    ensures list.Valid() && list.contents == old(list.contents) + [copy]
    ensures forall m :: m in list.contents ==> m.Valid() && unchanged(m)
    ensures old(list.Footprint()) <= list.Footprint()
    ensures fresh(list.Footprint() - old(list.Footprint()))
    ensures heap.live == old(heap.live) + list.Footprint()
  {
    ghost var maps := list.contents;
    assert forall m :: m in maps + [copy] ==> m in m.Repr;
    InsertLast(list, copy, heap);
    forall m | m in maps + [copy]
      ensures m.Valid() && unchanged(m)
    {
      assert old(m.Valid());
    }
  }

  /** So the table grows by one entry, and the footprints by one. */
  method LinkEntry(list: DpList<SensorMap>, copy: SensorMap, ghost heap: Heap)
    requires list.Valid() && list.Live(heap)
    requires AllValid(list.contents) && copy.Valid()
    requires forall m :: m in list.contents + [copy] ==> m.Repr !! list.Footprint() && heap !in m.Repr
    modifies list, list.nodes, heap
    ensures list.Valid() && AllValid(list.contents)
    ensures Footprints(list.contents) == old(Footprints(list.contents)) + [old(copy.Repr)]
    ensures TableOf(list.contents) == old(TableOf(list.contents)) + [old(EntryOf(copy))]
    ensures old(list.Footprint()) <= list.Footprint()
    ensures fresh(list.Footprint() - old(list.Footprint()))
    ensures heap.live == old(heap.live) + list.Footprint()
  {
    ghost var maps, table := list.contents, TableOf(list.contents);
    LinkMap(list, copy, heap);
    forall i | 0 <= i < |maps|
      ensures maps[i].Repr == old(maps[i].Repr) && EntryOf(maps[i]) == table[i]
    {
      assert list.contents[i] == maps[i];
    }
    assert list.contents[|maps|] == copy;
  }

  /** The table after a map has been linked at the end of its list. */
  lemma TableAfterAppend(list: DpList<SensorMap>, footprints: seq<set<object>>, f: set<object>,
                         was: set<object>, live: set<object>, heap: Heap)
    requires list.Valid() && AllValid(list.contents) && Footprints(list.contents) == footprints + [f]
    requires Apart(footprints) && f !! Union(footprints) && was !! Union(footprints) + f
    requires Union(footprints) + f <= live && heap !in Union(footprints) + f
    requires was <= list.Footprint() && (list.Footprint() - was) !! live
    requires heap.live == live + list.Footprint()
    ensures TableValid(list, heap)
    ensures Blocks(list) == was + Union(footprints) + f + (list.Footprint() - was)
    ensures heap.live == live + Blocks(list)
  {
    AppendFootprint(footprints, f);
  }

  /** Linking a new map at the end of the list keeps the table sound. */
  method AppendMap(list: DpList<SensorMap>, copy: SensorMap, ghost heap: Heap)
    requires TableValid(list, heap)
    requires copy.Valid() && copy.Repr <= heap.live && heap !in copy.Repr
    requires copy.Repr !! list.Footprint() && copy.Repr !! Owned(list.contents)
    modifies list, list.nodes, heap
    ensures TableValid(list, heap)
    ensures TableOf(list.contents) == old(TableOf(list.contents)) + [old(EntryOf(copy))]
    ensures Blocks(list) == old(Blocks(list)) + old(copy.Repr) + (list.Footprint() - old(list.Footprint()))
    ensures fresh(list.Footprint() - old(list.Footprint()))
    ensures heap.live == old(heap.live) + Blocks(list)
  {
    ghost var maps, footprints, f := list.contents, Footprints(list.contents), copy.Repr;
    ghost var was, live := list.Footprint(), heap.live;
    OwnsEach(maps);
    forall m | m in maps + [copy]
      ensures m.Repr !! was && heap !in m.Repr
    {
      assert m == copy || m.Repr <= Owned(maps);
    }
    LinkEntry(list, copy, heap);
    TableAfterAppend(list, footprints, f, was, live, heap);
  }

  /** insert_mappings; without a map file the list stays as it is. */
  method InsertMappings(list: DpList<SensorMap>, file: Option<seq<Mapping>>, now: int, ghost heap: Heap)
    returns (events: seq<Event>)
    requires TableValid(list, heap)
    modifies Blocks(list), heap
    ensures TableValid(list, heap)
    ensures TableOf(list.contents) == old(TableOf(list.contents)) + if file.Some? then NewTable(file.value) else []
    ensures events == if file.Some? then [] else [NoMapFile]
    ensures old(Blocks(list)) <= Blocks(list) && fresh(Blocks(list) - old(Blocks(list)))
    ensures heap.live == old(heap.live) + Blocks(list)
  {
    if file.None? {
      return [NoMapFile];
    }
    ghost var table := TableOf(list.contents);
    var i := 0;
    while i < |file.value|
      invariant 0 <= i <= |file.value| && TableValid(list, heap)
      invariant TableOf(list.contents) == table + NewTable(file.value[..i])
      invariant old(Blocks(list)) <= Blocks(list) && fresh(Blocks(list) - old(Blocks(list)))
      invariant heap.live == old(heap.live) + Blocks(list)
    {
      NewTableGrows(file.value, i);
      InsertMapping(list, file.value[i], now, heap);
      i := i + 1;
    }
    assert file.value[..i] == file.value;
    return [];
  }

  /** Making a map changes no other map. */
  method MakeMapBeside(ghost maps: seq<SensorMap>, mapping: Mapping, now: int, ghost heap: Heap)
    returns (copy: SensorMap)
    requires AllValid(maps) && forall m :: m in maps ==> heap !in m.Repr
    modifies heap
    ensures AllValid(maps) && Footprints(maps) == old(Footprints(maps)) && TableOf(maps) == old(TableOf(maps))
    ensures copy.Valid() && EntryOf(copy) == Entry(mapping.sensor, mapping.room, [])
    ensures fresh(copy.Repr) && copy.Repr !! old(heap.live) && heap.live == old(heap.live) + copy.Repr
  {
    forall m | m in maps
      ensures m in m.Repr
    {
      assert m.Valid();
    }
    copy := MakeMap(mapping, now, heap);
  }

  /** A map made next to a sound table shares no block with it. */
  method MakeMapApart(list: DpList<SensorMap>, mapping: Mapping, now: int, ghost heap: Heap) returns (copy: SensorMap)
    requires TableValid(list, heap)
    modifies heap
    ensures TableValid(list, heap)
    ensures TableOf(list.contents) == old(TableOf(list.contents)) && Blocks(list) == old(Blocks(list))
    ensures copy.Valid() && EntryOf(copy) == Entry(mapping.sensor, mapping.room, [])
    ensures fresh(copy.Repr) && copy.Repr !! Blocks(list) && heap !in copy.Repr
    ensures heap.live == old(heap.live) + copy.Repr
  {
    ghost var maps := list.contents;
    OwnsEach(maps);
    forall m | m in maps
      ensures heap !in m.Repr
    {
      assert m.Repr <= Owned(maps);
    }
    copy := MakeMapBeside(maps, mapping, now, heap);
  }

  /** One turn of the loop of insert_mappings. */
  method InsertMapping(list: DpList<SensorMap>, mapping: Mapping, now: int, ghost heap: Heap)
    requires TableValid(list, heap)
    modifies Blocks(list), heap
    ensures TableValid(list, heap)
    ensures TableOf(list.contents) == old(TableOf(list.contents)) + [Entry(mapping.sensor, mapping.room, [])]
    ensures old(Blocks(list)) <= Blocks(list) && fresh(Blocks(list) - old(Blocks(list)))
    ensures heap.live == old(heap.live) + Blocks(list)
  {
    ghost var blocks, was := Blocks(list), list.Footprint();
    var copy := MakeMapApart(list, mapping, now, heap);
    ghost var own := copy.Repr;
    AppendMap(list, copy, heap);
    assert Blocks(list) - blocks <= own + (list.Footprint() - was);
  }

  // ----- releasing -----

  ghost function ReadingBlocks(list: DpList<ReadingBlock>): set<object>
    reads list
  {
    list.Footprint() + Elements(list.contents)
  }

  /** Each node and each reading of the list is live, and occurs in it once. */
  ghost predicate Releasable(list: DpList<ReadingBlock>, heap: Heap)
    reads list, list.nodes, heap
  {
    && list.Valid() && Distinct(list.contents)
    && list.Footprint() !! Elements(list.contents)
    && ReadingBlocks(list) <= heap.live
  }

  /** One turn of dpl_free: dpl_remove_at_index, with sensor_data_free as the element_free callback. */
  method FreeReadingAt(list: DpList<ReadingBlock>, index: int, ghost heap: Heap)
    requires Releasable(list, heap) && 0 <= index == |list.contents| - 1
    modifies ReadingBlocks(list), heap
    ensures Releasable(list, heap) && |list.contents| == index
    ensures ReadingBlocks(list) <= old(ReadingBlocks(list))
    ensures heap.live - ReadingBlocks(list) == old(heap.live - ReadingBlocks(list))
  {
    RemoveElements(list.nodes, index);
    RemoveElements(list.contents, index);
    var block := Remove(list, index, heap);
    heap.Free(block);
  }

  /** dpl_free with sensor_data_free: the readings and nodes from last to first, then the list. */
  method FreeReadings(list: DpList<ReadingBlock>, ghost heap: Heap)
    requires Releasable(list, heap)
    modifies ReadingBlocks(list), heap
    ensures heap.live == old(heap.live - ReadingBlocks(list))
  {
    var length := Size(list);
    if length == 0 {
      heap.Free(list);
      return;
    }
    var index := length - 1;
    while index >= 0
      invariant -1 <= index < length && |list.contents| == index + 1
      invariant Releasable(list, heap)
      invariant ReadingBlocks(list) <= old(ReadingBlocks(list))
      invariant heap.live - ReadingBlocks(list) == old(heap.live - ReadingBlocks(list))
    {
      FreeReadingAt(list, index, heap);
      index := index - 1;
    }
    assert ReadingBlocks(list) == {list};
    heap.Free(list);
  }

  /** sensor_map_free */
  method FreeMap(entry: SensorMap, ghost heap: Heap)
    requires entry.Valid() && entry.Repr <= heap.live
    modifies entry.Repr, heap
    ensures heap.live == old(heap.live - entry.Repr)
  {
    assert entry !in ReadingBlocks(entry.readings);
    FreeReadings(entry.readings, heap);
    heap.Free(entry);
  }

  /** Unlinking the last map changes no map. */
  method UnlinkMap(list: DpList<SensorMap>, index: int, ghost heap: Heap) returns (entry: SensorMap)
    requires list.Valid() && list.Live(heap) && 0 <= index == |list.contents| - 1
    requires AllValid(list.contents)
    requires forall m :: m in list.contents ==> m.Repr !! list.Footprint() && heap !in m.Repr
    modifies list, list.nodes, heap
    ensures list.Valid() && list.Live(heap)
    ensures entry == old(list.contents)[index] && entry.Repr == old(entry.Repr)
    ensures list.contents == old(list.contents)[..index] && AllValid(old(list.contents))
    ensures Footprints(list.contents) == old(Footprints(list.contents))[..index]
    ensures old(list.Footprint()) == list.Footprint() + {old(list.nodes)[index]}
    ensures heap.live == old(heap.live) - {old(list.nodes)[index]}
  {
    ghost var maps := list.contents;
    RemoveElements(list.nodes, index);
    assert forall m :: m in maps ==> m in m.Repr;
    entry := Remove(list, index, heap);
    assert list.contents == maps[..index];
  }

  /** Releasing a map changes no other map. */
  method FreeOther(ghost maps: seq<SensorMap>, entry: SensorMap, ghost heap: Heap)
    requires AllValid(maps) && entry.Valid() && entry.Repr <= heap.live
    requires forall m :: m in maps ==> m.Repr !! entry.Repr && heap !in m.Repr
    modifies entry.Repr, heap
    ensures AllValid(maps) && unchanged(maps)
    ensures heap.live == old(heap.live - entry.Repr)
  {
    assert forall m :: m in maps ==> m in m.Repr;
    FreeMap(entry, heap);
    forall m | m in maps
      ensures m.Valid()
    {
      assert old(m.Valid()) && m.Repr == old(m.Repr);
    }
  }

  /** Releasing a map that is no longer in the list changes nothing of the list. */
  method FreeUnlinked(list: DpList<SensorMap>, entry: SensorMap, ghost heap: Heap)
    requires TableValid(list, heap)
    requires entry.Valid() && entry.Repr <= heap.live && heap !in entry.Repr
    requires entry.Repr !! list.Footprint() && entry.Repr !! Owned(list.contents)
    modifies entry.Repr, heap
    ensures TableValid(list, heap) && unchanged(list) && unchanged(list.contents)
    ensures heap.live == old(heap.live - entry.Repr)
  {
    ghost var maps := list.contents;
    OwnsEach(maps);
    forall m | m in maps
      ensures m.Repr !! entry.Repr && heap !in m.Repr
    {
      assert m.Repr <= Owned(maps);
    }
    assert list !in entry.Repr && forall i :: 0 <= i < |list.nodes| ==> list.nodes[i] !in entry.Repr by {
      assert forall n :: n in list.nodes ==> n in Elements(list.nodes);
    }
    FreeOther(maps, entry, heap);
    assert Footprints(maps) == old(Footprints(maps));
  }

  /** One turn of dpl_free: dpl_remove_at_index, with sensor_map_free as the element_free callback. */
  method FreeMapAt(list: DpList<SensorMap>, index: int, ghost heap: Heap)
    requires TableValid(list, heap) && 0 <= index == |list.contents| - 1
    modifies Blocks(list), heap
    ensures TableValid(list, heap) && |list.contents| == index
    ensures Blocks(list) <= old(Blocks(list))
    ensures heap.live - Blocks(list) == old(heap.live - Blocks(list))
  {
    OwnsEach(list.contents);
    DropFootprint(Footprints(list.contents), index);
    ghost var f, node := list.contents[index].Repr, list.nodes[index];
    var entry := UnlinkMap(list, index, heap);
    assert Blocks(list) + f + {node} == old(Blocks(list));
    FreeUnlinked(list, entry, heap);
  }

  /** datamgr_free: dpl_free with sensor_map_free, from the last map to the first, then the list. */
  method DatamgrFree(list: DpList<SensorMap>, ghost heap: Heap)
    requires TableValid(list, heap)
    modifies Blocks(list), heap
    ensures heap.live == old(heap.live - Blocks(list))
  {
    var length := Size(list);
    if length > 0 {
      var index := length - 1;
      while index >= 0
        invariant -1 <= index < length && |list.contents| == index + 1
        invariant TableValid(list, heap)
        invariant Blocks(list) <= old(Blocks(list))
        invariant heap.live - Blocks(list) == old(heap.live - Blocks(list))
      {
        FreeMapAt(list, index, heap);
        index := index - 1;
      }
    }
    assert Blocks(list) == {list};
    heap.Free(list);
  }

  // ----- the thread -----

  /** One turn of the loop in datamgr_init. */
  method HandleReading(list: DpList<SensorMap>, d: Reading, now: int, ghost heap: Heap) returns (events: seq<Event>)
    requires TableValid(list, heap)
    modifies Owned(list.contents), heap
    ensures TableValid(list, heap)
    ensures (TableOf(list.contents), events) == Handle(old(TableOf(list.contents)), d)
    ensures fresh(Owned(list.contents) - old(Owned(list.contents))) && unchanged(list)
    ensures heap.live - Blocks(list) == old(heap.live - Blocks(list))
  {
    var unknown := InsertDataPoint(list, d, now, heap);
    ghost var owned := Owned(list.contents);
    var alerts := CalculateAverage(list, d.id);
    events := unknown + alerts + [Parsed(d.id)];
  }

  /** The loop of datamgr_init, over the readings its sbuffer_peek calls return. */
  method HandleReadings(list: DpList<SensorMap>, stream: seq<Reading>, now: int, ghost heap: Heap)
    returns (log: seq<Event>)
    requires TableValid(list, heap)
    modifies Owned(list.contents), heap
    ensures TableValid(list, heap)
    ensures log == HandleAll(old(TableOf(list.contents)), stream).1
    ensures fresh(Blocks(list) - old(Blocks(list)))
    ensures heap.live - Blocks(list) == old(heap.live - Blocks(list))
  {
    ghost var t0 := TableOf(list.contents);
    log := [];
    var i := 0;
    while i < |stream|
      invariant 0 <= i <= |stream| && TableValid(list, heap)
      invariant TableOf(list.contents) == HandleAll(t0, stream[..i]).0
      invariant log == HandleAll(t0, stream[..i]).1
      invariant fresh(Owned(list.contents) - old(Owned(list.contents))) && unchanged(list)
      invariant heap.live - Blocks(list) == old(heap.live - Blocks(list))
    {
      HandleOneMore(t0, stream, i);
      var events := HandleReading(list, stream[i], now, heap);
      log := log + events;
      i := i + 1;
    }
    assert stream[..i] == stream;
  }

  /** The list of datamgr_init before its loop. */
  method MakeTable(mappings: seq<Mapping>, now: int, ghost heap: Heap) returns (list: DpList<SensorMap>)
    modifies heap
    ensures TableValid(list, heap) && TableOf(list.contents) == NewTable(mappings)
    ensures fresh(Blocks(list)) && heap.live == old(heap.live) + Blocks(list) && Blocks(list) !! old(heap.live)
  {
    list := new DpList<SensorMap>(heap);
    assert Footprints(list.contents) == [] && TableOf(list.contents) == [];
    assert Blocks(list) == {list};
    var none := InsertMappings(list, Some(mappings), now, heap);
    forall o | o in Blocks(list)
      ensures o !in old(heap.live)
    {
    }
  }

  /**
   datamgr_init, with the map file's lines and with the readings its sbuffer_peek calls return:
   it logs what the history of readings demands, and leaves no block behind.
   */
  method DatamgrInit(mappings: seq<Mapping>, stream: seq<Reading>, now: int, ghost heap: Heap) returns (log: seq<Event>)
    modifies heap
    ensures log == SpecLog(mappings, stream)
    ensures heap.live == old(heap.live)
  {
    var list := MakeTable(mappings, now, heap);
    log := HandleReadings(list, stream, now, heap);
    HandleAllSummarizes(mappings, stream);
    DatamgrFree(list, heap);
  }
}
