/**
 What the data manager computes (datamgr.c), on values: a table of moving windows, and the
 proof that the table is a summary of the whole stream of readings.
 */
module Windows {
  import opened ListSpec
  import opened Records

  const RUN_AVG_LENGTH := 5
  const SET_MAX_TEMP: real := 20.0
  const SET_MIN_TEMP: real := 10.0

  /** The messages the data manager sends to the log process. */
  datatype Event =
    | NoMapFile
    | UnknownSensor(id: Word16)
    | TooHot(id: Word16, average: real)
    | TooCold(id: Word16, average: real)
    | Parsed(id: Word16)

  datatype Entry = Entry(sensor: Word16, room: Word16, window: seq<Reading>)

  type Table = seq<Entry>

  // ----- the table, as the loops of datamgr.c compute it -----

  function NewTable(mappings: seq<Mapping>): (t: Table)
    ensures |t| == |mappings|
  {
    seq(|mappings|, i requires 0 <= i < |mappings| => Entry(mappings[i].sensor, mappings[i].room, []))
  }

  lemma {:induction false} NewTableGrows(mappings: seq<Mapping>, i: nat)
    requires i < |mappings|
    ensures NewTable(mappings[..i + 1]) == NewTable(mappings[..i]) + [Entry(mappings[i].sensor, mappings[i].room, [])]
  {
  }

  function FirstIndex(t: Table, id: Word16): (k: nat)
    ensures k <= |t|
    ensures k < |t| ==> t[k].sensor == id
    ensures forall i :: 0 <= i < k ==> t[i].sensor != id
  {
    if t == [] || t[0].sensor == id then 0 else 1 + FirstIndex(t[1..], id)
  }

  lemma {:induction false} FirstIndexIs(t: Table, id: Word16, i: nat)
    requires i <= |t| && (i < |t| ==> t[i].sensor == id)
    requires forall j :: 0 <= j < i ==> t[j].sensor != id
    ensures FirstIndex(t, id) == i
  {
  }

  /** The index a reading is inserted at is past the end of any shorter window, so it is clamped. */
  function Push(window: seq<Reading>, d: Reading): seq<Reading>
  {
    var room := if |window| == RUN_AVG_LENGTH then RemoveAt(window, 0) else window;
    InsertAt(room, RUN_AVG_LENGTH - 1, d)
  }

  /** A full window loses its oldest reading, a shorter one only grows. */
  lemma {:induction false} PushIs(window: seq<Reading>, d: Reading)
    ensures |window| == 5 ==> Push(window, d) == window[1..] + [d]
    ensures |window| < 5 ==> Push(window, d) == window + [d]
  {
  }

  function Store(t: Table, d: Reading): (Table, seq<Event>)
  {
    var k := FirstIndex(t, d.id);
    if k == |t| then (t, [UnknownSensor(d.id)])
    else (t[k := t[k].(window := Push(t[k].window, d))], [])
  }

  function Sum(window: seq<Reading>): real
  {
    if window == [] then 0.0
    else Sum(window[..|window| - 1]) + window[|window| - 1].value
  }

  function Mean(window: seq<Reading>): real
    requires |window| == RUN_AVG_LENGTH
  {
    Sum(window) / 5.0
  }

  function Judge(id: Word16, average: real): seq<Event>
  {
    (if average > SET_MAX_TEMP then [TooHot(id, average)] else [])
    + if average < SET_MIN_TEMP then [TooCold(id, average)] else []
  }

  /** Entries of other sensors, and entries whose window is not full, are skipped; the next one decides. */
  function Alerts(t: Table, id: Word16): seq<Event>
  {
    if t == [] then []
    else if t[0].sensor != id || |t[0].window| != RUN_AVG_LENGTH then Alerts(t[1..], id)
    else Judge(id, Mean(t[0].window))
  }

  /** One turn of the loop in datamgr_init. */
  function Handle(t: Table, d: Reading): (Table, seq<Event>)
  {
    var (stored, unknown) := Store(t, d);
    (stored, unknown + Alerts(stored, d.id) + [Parsed(d.id)])
  }

  function HandleAll(t: Table, stream: seq<Reading>): (Table, seq<Event>)
  {
    if stream == [] then (t, [])
    else
      var (before, log) := HandleAll(t, stream[..|stream| - 1]);
      var (after, events) := Handle(before, stream[|stream| - 1]);
      (after, log + events)
  }

  lemma {:induction false} HandleOneMore(t: Table, stream: seq<Reading>, i: nat)
    requires i < |stream|
    ensures HandleAll(t, stream[..i + 1])
         == var (before, log) := HandleAll(t, stream[..i]);
            var (after, events) := Handle(before, stream[i]);
            (after, log + events)
  {
    assert stream[..i + 1][..i] == stream[..i];
  }

  // ----- the same, defined by the history of readings only -----

  function OfSensor(stream: seq<Reading>, id: Word16): seq<Reading>
  {
    if stream == [] then []
    else OfSensor(stream[..|stream| - 1], id)
         + if stream[|stream| - 1].id == id then [stream[|stream| - 1]] else []
  }

  function LastFive(readings: seq<Reading>): (r: seq<Reading>)
    ensures |r| == if |readings| < 5 then |readings| else 5
  {
    if |readings| <= RUN_AVG_LENGTH then readings else readings[|readings| - RUN_AVG_LENGTH..]
  }

  lemma {:induction false} LastFiveIs(readings: seq<Reading>, j: nat)
    requires j < |LastFive(readings)|
    ensures LastFive(readings)[j] == readings[|readings| - |LastFive(readings)| + j]
  {
  }

  /** p lists the positions at which the readings of a sensor stand in a stream, in order. */
  ghost predicate Positions(stream: seq<Reading>, id: Word16, p: seq<nat>)
  {
    && (forall j, k :: 0 <= j < k < |p| ==> p[j] < p[k])
    && (forall j :: 0 <= j < |p| ==> p[j] < |stream| && stream[p[j]].id == id)
    && (forall q :: 0 <= q < |stream| && stream[q].id == id ==> q in p)
  }

  lemma {:induction false} PositionsExist(stream: seq<Reading>, id: Word16) returns (p: seq<nat>)
    ensures Positions(stream, id, p)
    decreases |stream|
  {
    if stream == [] {
      return [];
    }
    var n := |stream| - 1;
    p := PositionsExist(stream[..n], id);
    if stream[n].id == id {
      p := p + [n];
    }
  }

  lemma {:induction false} LastIsLargest(p: seq<nat>, k: nat)
    requires k < |p| && forall i, j :: 0 <= i < j < |p| ==> p[i] < p[j]
    ensures p[k] <= p[|p| - 1]
  {
  }

  lemma {:induction false} PositionsShorter(stream: seq<Reading>, id: Word16, p: seq<nat>)
    requires Positions(stream, id, p) && stream != []
    ensures var n := |stream| - 1;
            if stream[n].id == id
            then p != [] && p[|p| - 1] == n && Positions(stream[..n], id, p[..|p| - 1])
            else Positions(stream[..n], id, p)
  {
    var n := |stream| - 1;
    if stream[n].id == id {
      var k :| 0 <= k < |p| && p[k] == n;
      LastIsLargest(p, k);
      var q := p[..|p| - 1];
      forall i | 0 <= i < n && stream[..n][i].id == id
        ensures i in q
      {
        var j :| 0 <= j < |p| && p[j] == i;
        assert q[j] == i;
      }
    }
  }

  lemma {:induction false} PositionInside(stream: seq<Reading>, id: Word16, p: seq<nat>, j: nat)
    requires Positions(stream, id, p) && j < |p|
    ensures p[j] < |stream| && stream[p[j]].id == id
  {
  }

  /** These readings are the ones at these positions. */
  ghost predicate StandAt(own: seq<Reading>, stream: seq<Reading>, p: seq<nat>)
  {
    |own| == |p| && forall j :: 0 <= j < |p| ==> p[j] < |stream| && own[j] == stream[p[j]]
  }

  lemma {:induction false} StandAtOneMore(own: seq<Reading>, stream: seq<Reading>, p: seq<nat>)
    requires stream != [] && p != [] && p[|p| - 1] == |stream| - 1
    requires StandAt(own, stream[..|stream| - 1], p[..|p| - 1])
    ensures StandAt(own + [stream[|stream| - 1]], stream, p)
  {
  }

  lemma {:induction false} StandAtLonger(own: seq<Reading>, stream: seq<Reading>, p: seq<nat>, n: nat)
    requires n <= |stream| && StandAt(own, stream[..n], p)
    ensures StandAt(own, stream, p)
  {
  }

  /** The readings of a sensor are those at its positions, in order. */
  lemma {:induction false} OfSensorIs(stream: seq<Reading>, id: Word16, p: seq<nat>)
    requires Positions(stream, id, p)
    ensures StandAt(OfSensor(stream, id), stream, p)
    decreases |stream|
  {
    if p != [] {
      PositionInside(stream, id, p, 0);
    }
    if stream != [] {
      var n := |stream| - 1;
      var own := OfSensor(stream[..n], id);
      PositionsShorter(stream, id, p);
      if stream[n].id == id {
        OfSensorIs(stream[..n], id, p[..|p| - 1]);
        StandAtOneMore(own, stream, p);
      } else {
        OfSensorIs(stream[..n], id, p);
        StandAtLonger(own, stream, p, n);
        assert OfSensor(stream, id) == own + [] == own;
      }
    }
  }

  predicate Mapped(mappings: seq<Mapping>, id: Word16)
  {
    exists i :: 0 <= i < |mappings| && mappings[i].sensor == id
  }

  /** What must be logged for the last reading of a stream. */
  function SpecEvents(mappings: seq<Mapping>, stream: seq<Reading>): seq<Event>
    requires stream != []
  {
    var id := stream[|stream| - 1].id;
    var own := OfSensor(stream, id);
    (if !Mapped(mappings, id) then [UnknownSensor(id)]
     else if |own| < RUN_AVG_LENGTH then []
     else Judge(id, Mean(LastFive(own))))
    + [Parsed(id)]
  }

  function SpecLog(mappings: seq<Mapping>, stream: seq<Reading>): seq<Event>
  {
    if stream == [] then []
    else SpecLog(mappings, stream[..|stream| - 1]) + SpecEvents(mappings, stream)
  }

  // ----- the table is the window of the history -----

  /** Each sensor's first entry holds its last five readings; a duplicate entry stays empty. */
  ghost predicate Summarizes(t: Table, mappings: seq<Mapping>, stream: seq<Reading>)
  {
    && |t| == |mappings|
    && (forall i :: 0 <= i < |t| ==> t[i].sensor == mappings[i].sensor && t[i].room == mappings[i].room)
    && (forall i :: 0 <= i < |t| ==>
          t[i].window == if FirstIndex(t, t[i].sensor) == i then LastFive(OfSensor(stream, t[i].sensor)) else [])
  }

  lemma {:induction false} FirstIndexBySensors(t: Table, u: Table, id: Word16)
    requires |t| == |u|
    requires forall i :: 0 <= i < |t| ==> t[i].sensor == u[i].sensor
    ensures FirstIndex(t, id) == FirstIndex(u, id)
  {
  }

  lemma {:induction false} FirstIndexIsMapped(t: Table, mappings: seq<Mapping>, id: Word16)
    requires |t| == |mappings|
    requires forall i :: 0 <= i < |t| ==> t[i].sensor == mappings[i].sensor
    ensures FirstIndex(t, id) < |t| <==> Mapped(mappings, id)
  {
  }

  lemma {:induction false} PushKeepsLastFive(own: seq<Reading>, d: Reading)
    ensures Push(LastFive(own), d) == LastFive(own + [d])
  {
  }

  lemma {:induction false} StoreWindow(t: Table, mappings: seq<Mapping>, stream: seq<Reading>, d: Reading, i: nat)
    requires Summarizes(t, mappings, stream) && i < |t|
    ensures var u := Store(t, d).0;
            && u[i].sensor == t[i].sensor && u[i].room == t[i].room
            && u[i].window == if FirstIndex(t, t[i].sensor) == i
                              then LastFive(OfSensor(stream + [d], t[i].sensor)) else []
  {
    assert (stream + [d])[..|stream|] == stream;
    var own := OfSensor(stream, t[i].sensor);
    if i == FirstIndex(t, d.id) {
      assert OfSensor(stream + [d], d.id) == own + [d];
      PushKeepsLastFive(own, d);
    } else if t[i].sensor != d.id {
      assert OfSensor(stream + [d], t[i].sensor) == own;
    }
  }

  lemma {:induction false} StoreSummarizes(t: Table, mappings: seq<Mapping>, stream: seq<Reading>, d: Reading)
    requires Summarizes(t, mappings, stream)
    ensures Summarizes(Store(t, d).0, mappings, stream + [d])
    ensures Store(t, d).1 == if Mapped(mappings, d.id) then [] else [UnknownSensor(d.id)]
  {
    var u := Store(t, d).0;
    FirstIndexIsMapped(t, mappings, d.id);
    forall i | 0 <= i < |u|
      ensures u[i].sensor == mappings[i].sensor && u[i].room == mappings[i].room
      ensures u[i].window == if FirstIndex(t, t[i].sensor) == i
                             then LastFive(OfSensor(stream + [d], t[i].sensor)) else []
    {
      StoreWindow(t, mappings, stream, d, i);
    }
    forall i | 0 <= i < |u|
      ensures FirstIndex(u, u[i].sensor) == FirstIndex(t, t[i].sensor)
    {
      FirstIndexBySensors(t, u, u[i].sensor);
    }
  }

  lemma {:induction false} AlertsFrom(t: Table, id: Word16, i: nat)
    requires i < |t|
    ensures Alerts(t[i..], id) == if t[i].sensor != id || |t[i].window| != RUN_AVG_LENGTH
                                  then Alerts(t[i + 1..], id) else Judge(id, Mean(t[i].window))
  {
  }

  /** An entry that is skipped by the scan for alerts never hides a full window behind it. */
  lemma {:induction false} AlertsSkip(t: Table, id: Word16, n: nat)
    requires n <= |t|
    requires forall i :: 0 <= i < n ==> t[i].sensor != id || |t[i].window| != RUN_AVG_LENGTH
    ensures Alerts(t, id) == Alerts(t[n..], id)
  {
    if n > 0 {
      AlertsSkip(t[1..], id, n - 1);
      assert t[1..][n - 1..] == t[n..];
    } else {
      assert t[0..] == t;
    }
  }

  lemma {:induction false} AlertsOfSummary(t: Table, mappings: seq<Mapping>, stream: seq<Reading>, id: Word16)
    requires Summarizes(t, mappings, stream)
    ensures Alerts(t, id)
         == var own := OfSensor(stream, id);
            if !Mapped(mappings, id) || |own| < RUN_AVG_LENGTH then [] else Judge(id, Mean(LastFive(own)))
  {
    var own := OfSensor(stream, id);
    var k := FirstIndex(t, id);
    FirstIndexIsMapped(t, mappings, id);
    if k == |t| || |own| < RUN_AVG_LENGTH {
      AlertsSkip(t, id, |t|);
    } else {
      AlertsSkip(t, id, k);
      assert t[k..][0] == t[k];
    }
  }

  lemma {:induction false} HandleSummarizes(t: Table, mappings: seq<Mapping>, past: seq<Reading>, d: Reading)
    requires Summarizes(t, mappings, past)
    ensures Summarizes(Handle(t, d).0, mappings, past + [d])
    ensures Handle(t, d).1 == SpecEvents(mappings, past + [d])
  {
    var stream := past + [d];
    assert stream[|stream| - 1] == d;
    StoreSummarizes(t, mappings, past, d);
    AlertsOfSummary(Store(t, d).0, mappings, stream, d.id);
  }

  /** The sliding window refines the history, after any stream. */
  lemma {:induction false} HandleAllSummarizes(mappings: seq<Mapping>, stream: seq<Reading>)
    ensures Summarizes(HandleAll(NewTable(mappings), stream).0, mappings, stream)
    ensures HandleAll(NewTable(mappings), stream).1 == SpecLog(mappings, stream)
  {
    if stream != [] {
      var past, d := stream[..|stream| - 1], stream[|stream| - 1];
      HandleAllSummarizes(mappings, past);
      assert past + [d] == stream;
      var (before, log) := HandleAll(NewTable(mappings), past);
      HandleSummarizes(before, mappings, past, d);
      assert HandleAll(NewTable(mappings), stream) == (Handle(before, d).0, log + Handle(before, d).1);
    }
  }

  lemma {:induction false} SumOfFive(window: seq<Reading>)
    requires |window| == 5
    ensures Mean(window)
         == (window[0].value + window[1].value + window[2].value + window[3].value + window[4].value) / 5.0
  {
    var w := window;
    assert w[..4][..3] == w[..3] && w[..3][..2] == w[..2] && w[..2][..1] == w[..1] && w[..1][..0] == [];
    assert Sum(w) == Sum(w[..4]) + w[4].value;
    assert Sum(w[..4]) == Sum(w[..3]) + w[3].value;
    assert Sum(w[..3]) == Sum(w[..2]) + w[2].value;
    assert Sum(w[..2]) == Sum(w[..1]) + w[1].value;
    assert Sum(w[..1]) == w[0].value;
  }

  /** Too hot is above 20 degrees, too cold is below 10. */
  lemma {:induction false} JudgeIs(id: Word16, average: real)
    ensures average > 20.0 ==> Judge(id, average) == [TooHot(id, average)]
    ensures average < 10.0 ==> Judge(id, average) == [TooCold(id, average)]
    ensures 10.0 <= average <= 20.0 ==> Judge(id, average) == []
    ensures Judge(id, average) + [Parsed(id)]
         == if average > 20.0 then [TooHot(id, average), Parsed(id)]
            else if average < 10.0 then [TooCold(id, average), Parsed(id)]
            else [Parsed(id)]
  {
  }

  lemma {:induction false} WindowOfHistory(stream: seq<Reading>, id: Word16, p: seq<nat>, j: nat)
    requires Positions(stream, id, p)
    ensures var w := LastFive(OfSensor(stream, id));
            && |w| == (if |p| < 5 then |p| else 5)
            && (j < |w| ==> p[|p| - |w| + j] < |stream| && w[j] == stream[p[|p| - |w| + j]])
  {
    OfSensorIs(stream, id, p);
    var w := LastFive(OfSensor(stream, id));
    if j < |w| {
      LastFiveIs(OfSensor(stream, id), j);
      PositionInside(stream, id, p, |p| - |w| + j);
    }
  }

  lemma {:induction false} WindowOfFirst(t: Table, mappings: seq<Mapping>, stream: seq<Reading>, i: nat)
    requires i < |mappings| && Summarizes(t, mappings, stream)
    requires forall k :: 0 <= k < i ==> mappings[k].sensor != mappings[i].sensor
    ensures t[i].window == LastFive(OfSensor(stream, mappings[i].sensor))
  {
    FirstIndexIs(t, t[i].sensor, i);
  }

  lemma {:induction false} WindowOfDuplicate(t: Table, mappings: seq<Mapping>, stream: seq<Reading>, i: nat, k: nat)
    requires k < i < |mappings| && Summarizes(t, mappings, stream) && mappings[k].sensor == mappings[i].sensor
    ensures t[i].window == []
  {
    assert t[k].sensor == t[i].sensor;
  }

  /**
   What the windows hold after any stream: the first map of a sensor holds its last five readings, or as many as
   there are, oldest first; a further map of the same sensor stays empty.
   */
  lemma {:induction false} WindowsAreExact(mappings: seq<Mapping>, stream: seq<Reading>, t: Table,
                                           i: nat, p: seq<nat>, j: nat)
    requires t == HandleAll(NewTable(mappings), stream).0
    requires i < |mappings| && Positions(stream, mappings[i].sensor, p)
    ensures |t| == |mappings| && t[i].sensor == mappings[i].sensor && t[i].room == mappings[i].room
    ensures (exists k :: 0 <= k < i && mappings[k].sensor == mappings[i].sensor) ==> t[i].window == []
    ensures (forall k :: 0 <= k < i ==> mappings[k].sensor != mappings[i].sensor) ==>
              var w := t[i].window;
              && |w| == (if |p| < 5 then |p| else 5)
              && (j < |w| ==> p[|p| - |w| + j] < |stream| && w[j] == stream[p[|p| - |w| + j]])
  {
    HandleAllSummarizes(mappings, stream);
    if k :| 0 <= k < i && mappings[k].sensor == mappings[i].sensor {
      WindowOfDuplicate(t, mappings, stream, i, k);
    } else {
      WindowOfFirst(t, mappings, stream, i);
      WindowOfHistory(stream, mappings[i].sensor, p, j);
    }
  }

  lemma {:induction false} MeanOfWindow(stream: seq<Reading>, id: Word16, p: seq<nat>)
    requires Positions(stream, id, p) && |p| >= 5
    ensures |OfSensor(stream, id)| == |p|
    ensures forall j :: 0 <= j < |p| ==> p[j] < |stream|
    ensures var n := |p|;
            Mean(LastFive(OfSensor(stream, id)))
            == (stream[p[n - 5]].value + stream[p[n - 4]].value + stream[p[n - 3]].value
                + stream[p[n - 2]].value + stream[p[n - 1]].value) / 5.0
  {
    OfSensorIs(stream, id, p);
    WindowOfHistory(stream, id, p, 0);
    WindowOfHistory(stream, id, p, 1);
    WindowOfHistory(stream, id, p, 2);
    WindowOfHistory(stream, id, p, 3);
    WindowOfHistory(stream, id, p, 4);
    SumOfFive(LastFive(OfSensor(stream, id)));
  }

  lemma {:induction false} EventsOfLast(mappings: seq<Mapping>, stream: seq<Reading>, p: seq<nat>)
    requires stream != [] && Positions(stream, stream[|stream| - 1].id, p)
    ensures var id, events := stream[|stream| - 1].id, SpecEvents(mappings, stream);
            if !Mapped(mappings, id) then events == [UnknownSensor(id), Parsed(id)]
            else if |p| < 5 then events == [Parsed(id)]
            else
              && |OfSensor(stream, id)| >= 5
              && events == Judge(id, Mean(LastFive(OfSensor(stream, id)))) + [Parsed(id)]
  {
    OfSensorIs(stream, stream[|stream| - 1].id, p);
  }

  /**
   Alerts are exact: what is logged for the reading d after any stream, in order. An unknown sensor is
   reported; a known one is reported too hot or too cold if it has sent five readings and their mean demands it.
   */
  lemma {:induction false} AlertsAreExact(mappings: seq<Mapping>, past: seq<Reading>, d: Reading, p: seq<nat>)
    requires Positions(past + [d], d.id, p)
    ensures var events := Handle(HandleAll(NewTable(mappings), past).0, d).1;
            if forall i :: 0 <= i < |mappings| ==> mappings[i].sensor != d.id
            then events == [UnknownSensor(d.id), Parsed(d.id)]
            else if |p| < 5 then events == [Parsed(d.id)]
            else
              var n, s := |p|, past + [d];
              && (forall j :: 0 <= j < n ==> p[j] < |s|)
              && var mean := (s[p[n - 5]].value + s[p[n - 4]].value + s[p[n - 3]].value
                              + s[p[n - 2]].value + s[p[n - 1]].value) / 5.0;
                 if mean > 20.0 then events == [TooHot(d.id, mean), Parsed(d.id)]
                 else if mean < 10.0 then events == [TooCold(d.id, mean), Parsed(d.id)]
                 else events == [Parsed(d.id)]
  {
    var stream := past + [d];
    assert stream[|stream| - 1] == d;
    HandleAllSummarizes(mappings, past);
    HandleSummarizes(HandleAll(NewTable(mappings), past).0, mappings, past, d);
    EventsOfLast(mappings, stream, p);
    if |p| >= 5 {
      MeanOfWindow(stream, d.id, p);
      JudgeIs(d.id, Mean(LastFive(OfSensor(stream, d.id))));
    }
  }

  /** The log of a stream is what is logged for each of its readings, one after the other. */
  lemma {:induction false} LogIsInOrder(mappings: seq<Mapping>, past: seq<Reading>, d: Reading)
    ensures SpecLog(mappings, []) == []
    ensures SpecLog(mappings, past + [d])
         == SpecLog(mappings, past) + Handle(HandleAll(NewTable(mappings), past).0, d).1
  {
    HandleAllSummarizes(mappings, past);
    HandleSummarizes(HandleAll(NewTable(mappings), past).0, mappings, past, d);
    assert (past + [d])[..|past|] == past;
  }
}
