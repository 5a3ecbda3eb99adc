/** Two runs that show where the two exceptions of the progress and safety results are real. */
module GatewayWitnesses {
  import opened Gateway
  import opened GatewayInvariant
  import opened GatewayProgress
  import opened Handoff
  import opened Records

  /** One connection that sends one reading. */
  function OneReading(d: Reading, marker: Reading): Config
  {
    Config([[d]], marker, [])
  }

  ghost predicate Looks(s: State, queue: seq<Slot>, condition: int, peeker: Point, remover: Point)
  {
    s.shared == Shared(queue, condition) && s.peeker == peeker && s.remover == remover
  }

  /** The connection is made and the reading inserted. */
  lemma ReadingArrives(d: Reading, marker: Reading) returns (s: State)
    requires d.id != END_MARKER && marker.id == END_MARKER
    ensures ReachableAsked(OneReading(d, marker), s)
    ensures Looks(s, [Slot(d, false)], PEEKERS_TURN, Start, Start)
    ensures s.conns == Joining(1) && s.clients == [Client([], false)]
  {
    var cfg := OneReading(d, marker);
    s := Init(cfg);
    assert Executes(cfg, s, []) && After(cfg, s, []) == s && Asked([]);
    assert s.clients == [Client([d], false)] && [d][1..] == [];
    s := NextAsked(cfg, s, Accept);
    s := NextAsked(cfg, s, ClientInserts(0));
  }

  /** The reading is peeked. */
  lemma ReadingPeeked(d: Reading, marker: Reading) returns (s: State)
    requires d.id != END_MARKER && marker.id == END_MARKER
    ensures ReachableAsked(OneReading(d, marker), s)
    ensures Looks(s, [Slot(d, true)], REMOVERS_TURN, Got(d), Start)
    ensures s.conns == Joining(1) && s.clients == [Client([], false)]
  {
    var cfg := OneReading(d, marker);
    s := ReadingArrives(d, marker);
    s := NextAsked(cfg, s, PeekerRuns);
    assert s.shared.queue == [Slot(d, true)];
  }

  /** The peeker, back in peek, sleeps until the remover takes the reading. */
  lemma PeekerSleeps(d: Reading, marker: Reading) returns (s: State)
    requires d.id != END_MARKER && marker.id == END_MARKER
    ensures ReachableAsked(OneReading(d, marker), s)
    ensures Looks(s, [Slot(d, true)], REMOVERS_TURN, Asleep(ForTurn), Start)
    ensures s.conns == Joining(1) && s.clients == [Client([], false)]
  {
    var cfg := OneReading(d, marker);
    s := ReadingPeeked(d, marker);
    s := NextAsked(cfg, s, PeekerRuns);
    s := NextAsked(cfg, s, PeekerRuns);
    assert Looks(s, [Slot(d, true)], REMOVERS_TURN, Test(ForTurn), Start);
    s := NextAsked(cfg, s, PeekerRuns);
    s := NextAsked(cfg, s, PeekerRuns);
  }

  /** The marker is inserted, and its broadcast wakes the peeker. */
  lemma MarkerArrives(d: Reading, marker: Reading) returns (s: State)
    requires d.id != END_MARKER && marker.id == END_MARKER
    ensures ReachableAsked(OneReading(d, marker), s)
    ensures Looks(s, [Slot(d, true), Slot(marker, false)], REMOVERS_TURN, Woken(ForTurn), Start)
  {
    var cfg := OneReading(d, marker);
    s := PeekerSleeps(d, marker);
    s := NextAsked(cfg, s, ClientReturns(0));
    s := NextAsked(cfg, s, Join);
    s := NextAsked(cfg, s, Mark);
  }

  /** The remover takes the reading, meets the marker and releases the mutex; the peeker tests `condition`. */
  lemma RemoverLeaves(d: Reading, marker: Reading) returns (s: State)
    requires d.id != END_MARKER && marker.id == END_MARKER
    ensures ReachableAsked(OneReading(d, marker), s)
    ensures Looks(s, [Slot(marker, false)], REMOVERS_TURN, Sleep(ForTurn), TailWrite(PEEKERS_TURN))
  {
    var cfg := OneReading(d, marker);
    s := MarkerArrives(d, marker);
    s := NextAsked(cfg, s, RemoverRuns);
    assert Looks(s, [Slot(marker, false)], REMOVERS_TURN, Woken(ForTurn), Got(d));
    s := NextAsked(cfg, s, RemoverRuns);
    s := NextAsked(cfg, s, RemoverRuns);
    assert Looks(s, [Slot(marker, false)], REMOVERS_TURN, Woken(ForTurn), TailWrite(PEEKERS_TURN));
    s := NextAsked(cfg, s, PeekerRuns);
    s := NextAsked(cfg, s, PeekerRuns);
  }

  /**
   The wake-up can be lost: the peeker has tested `condition` and found it still 2, the remover writes 1 and
   signals, and only then the peeker waits. Nothing can happen any more, and the data manager never ends.
   */
  lemma WakeUpCanBeLost(d: Reading, marker: Reading) returns (s: State)
    requires d.id != END_MARKER && marker.id == END_MARKER
    ensures ValidConfig(OneReading(d, marker)) && ReachableAsked(OneReading(d, marker), s)
    ensures Stopped(OneReading(d, marker), s) && !Finished(s) && s.peeker == Asleep(ForTurn)
  {
    var cfg := OneReading(d, marker);
    s := RemoverLeaves(d, marker);
    s := NextAsked(cfg, s, RemoverRuns);
    s := NextAsked(cfg, s, RemoverRuns);
    assert Looks(s, [Slot(marker, false)], PEEKERS_TURN, Sleep(ForTurn), Done);
    s := NextAsked(cfg, s, PeekerRuns);
    WhereRunsStop(cfg, s);
  }

  /** The remover empties the queue and waits for data, while the peeker sleeps. */
  lemma QueueEmpties(d: Reading, marker: Reading) returns (s: State)
    requires d.id != END_MARKER && marker.id == END_MARKER
    ensures ReachableAsked(OneReading(d, marker), s)
    ensures Looks(s, [], EMPTY, Asleep(ForTurn), Asleep(ForData))
  {
    var cfg := OneReading(d, marker);
    s := PeekerSleeps(d, marker);
    s := NextAsked(cfg, s, RemoverRuns);
    assert Looks(s, [], REMOVERS_TURN, Asleep(ForTurn), Got(d));
    s := NextAsked(cfg, s, RemoverRuns);
    s := NextAsked(cfg, s, RemoverRuns);
    assert Looks(s, [], EMPTY, Asleep(ForTurn), Test(ForData));
    s := NextAsked(cfg, s, RemoverRuns);
    s := NextAsked(cfg, s, RemoverRuns);
  }

  /**
   With a wait that returns unasked, peek can dereference a null head: the remover has emptied the queue and
   set `condition` to 0, so the peeker that waited for it to leave 2 goes on.
   */
  lemma UnaskedWakeUpCanCrash(d: Reading, marker: Reading) returns (s: State)
    requires d.id != END_MARKER && marker.id == END_MARKER
    ensures ValidConfig(OneReading(d, marker)) && Reachable(OneReading(d, marker), s)
    ensures s.peeker == Fault(ForTurn)
  {
    var cfg := OneReading(d, marker);
    s := QueueEmpties(d, marker);
    ReachableAskedInv(cfg, s);
    s := Next(cfg, s, PeekerWakesUnasked);
    s := Next(cfg, s, PeekerRuns);
    s := Next(cfg, s, PeekerRuns);
    assert Looks(s, [], EMPTY, Past(ForTurn), Asleep(ForData));
    s := Next(cfg, s, PeekerRuns);
  }
}
