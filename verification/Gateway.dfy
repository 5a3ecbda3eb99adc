/**
 The running gateway: the connection manager and its client threads, the data manager and the
 sensor db, as one step machine around the shared buffer.

 A step of a consumer touches `condition`, the only variable written without the mutex, at most once;
 everything else it touches is protected by the mutex, which it holds. So no interleaving of the
 threads is missing, up to commuting steps.
 */
module Gateway {
  import opened Handoff
  import opened Records
  import opened Windows

  /** What a run is given: one finite stream of records per connection, the marker, the map file. */
  datatype Config = Config(streams: seq<seq<Reading>>, marker: Reading, mappings: seq<Mapping>)

  /** Sensors do not use the id that marks the end; main accepts a positive number of connections. */
  ghost predicate ValidConfig(cfg: Config)
  {
    && cfg.streams != []
    && cfg.marker.id == END_MARKER
    && forall c, i :: 0 <= c < |cfg.streams| && 0 <= i < |cfg.streams[c]| ==> cfg.streams[c][i].id != END_MARKER
  }

  /** connmgr_init: accepting connections, joining threads from the last to the first, marker inserted. */
  datatype Connections = Accepting(accepted: nat) | Joining(left: nat) | Ended

  /** One client thread: the records it has yet to insert, and whether it has returned. */
  datatype Client = Client(pending: seq<Reading>, returned: bool)

  datatype State = State(
    shared: Shared,
    peeker: Point,
    remover: Point,
    conns: Connections,
    clients: seq<Client>,
    table: Table,
    log: seq<Event>,
    rows: seq<Reading>,
    // histories: every record inserted, and the client it came from (-1 for the marker);
    // every reading returned by peek, processed by the data manager, and removed
    inserted: seq<Reading>,
    origin: seq<int>,
    peeked: seq<Reading>,
    handled: seq<Reading>,
    removed: seq<Reading>)

  function Init(cfg: Config): State
  {
    State(Shared([], EMPTY), Start, Start, Accepting(0),
          seq(|cfg.streams|, c requires 0 <= c < |cfg.streams| => Client(cfg.streams[c], false)),
          NewTable(cfg.mappings), [], [], [], [], [], [], [])
  }

  datatype Step =
    | Accept
    | ClientInserts(c: nat)
    | ClientReturns(c: nat)
    | Join
    | Mark
    | PeekerRuns
    | RemoverRuns
    | PeekerWakesUnasked
    | RemoverWakesUnasked

  predicate Spurious(step: Step)
  {
    step.PeekerWakesUnasked? || step.RemoverWakesUnasked?
  }

  predicate MutexFree(s: State)
  {
    !HoldsMutex(s.peeker) && !HoldsMutex(s.remover)
  }

  /** pthread_cond_signal or _broadcast, as one waiter sees it. */
  function Wake(p: Point): Point
  {
    if p.Asleep? then Woken(p.wait) else p
  }

  /** A null head dereferenced ends the process. */
  predicate Crashed(s: State)
  {
    s.peeker.Fault? || s.remover.Fault?
  }

  predicate CanRun(s: State, p: Point)
  {
    match p
    case Start => MutexFree(s)
    case Woken(_) => MutexFree(s)
    case Asleep(_) => false
    case Done => false
    case Fault(_) => false
    case _ => true
  }

  predicate Enabled(cfg: Config, s: State, step: Step)
  {
    !Crashed(s) &&
    match step
    case Accept => s.conns.Accepting?
    case ClientInserts(c) =>
      c < |s.clients| && !s.clients[c].returned && s.clients[c].pending != []
      && (s.conns.Accepting? ==> c < s.conns.accepted) && MutexFree(s)
    case ClientReturns(c) =>
      c < |s.clients| && !s.clients[c].returned && s.clients[c].pending == []
      && (s.conns.Accepting? ==> c < s.conns.accepted)
    case Join => s.conns.Joining? && 0 < s.conns.left <= |s.clients| && s.clients[s.conns.left - 1].returned
    case Mark => s.conns == Joining(0) && MutexFree(s)
    case PeekerRuns => CanRun(s, s.peeker)
    case RemoverRuns => CanRun(s, s.remover)
    case PeekerWakesUnasked => s.peeker.Asleep?
    case RemoverWakesUnasked => s.remover.Asleep?
  }

  function InsertStep(s: State, d: Reading, from: int): State
  {
    s.(shared := Insert(s.shared, d), peeker := Wake(s.peeker), remover := Wake(s.remover),
       inserted := s.inserted + [d], origin := s.origin + [from])
  }

  /** The end of a mutex-held segment of the peeker. */
  function PeekerMoves(s: State, o: Outcome): State
  {
    s.(peeker := o.point, shared := o.shared,
       remover := if o.signal then Wake(s.remover) else s.remover,
       peeked := if o.point.Got? then s.peeked + [o.point.data] else s.peeked)
  }

  function RemoverMoves(s: State, o: Outcome): State
  {
    s.(remover := o.point, shared := o.shared,
       peeker := if o.signal then Wake(s.peeker) else s.peeker,
       removed := if o.point.Got? then s.removed + [o.point.data] else s.removed)
  }

  /** sbuffer_peek, called in the loop of datamgr_init. */
  function PeekerStep(s: State): State
  {
    match s.peeker
    case Start => PeekerMoves(s, PeekEnter(s.shared))
    case Test(w) => s.(peeker := if s.shared.condition == PeekerWaitsOn(w) then Sleep(w) else Past(w))
    case Sleep(w) => s.(peeker := Asleep(w))
    case Woken(w) => s.(peeker := Test(w))
    case Past(w) => PeekerMoves(s, if w == ForData then PeekWithData(s.shared) else PeekInTurn(s.shared))
    case TailWrite(v) => s.(peeker := TailSignal, shared := s.shared.(condition := v))
    case TailSignal => s.(peeker := Done, remover := Wake(s.remover))
    case Got(d) =>
      var (table, events) := Handle(s.table, d);
      s.(peeker := Start, table := table, log := s.log + events, handled := s.handled + [d])
    case _ => s
  }

  /** sbuffer_remove, called in the loop of sensor_db_runner. */
  function RemoverStep(s: State): State
  {
    match s.remover
    case Start => RemoverMoves(s, RemoveEnter(s.shared))
    case Test(w) => s.(remover := if s.shared.condition == RemoverWaitsOn(w) then Sleep(w) else Past(w))
    case Sleep(w) => s.(remover := Asleep(w))
    case Woken(w) => s.(remover := Test(w))
    case Past(w) => RemoverMoves(s, if w == ForData then RemoveWithData(s.shared) else RemoveInTurn(s.shared))
    case TailWrite(v) => s.(remover := TailSignal, shared := s.shared.(condition := v))
    case TailSignal => s.(remover := Done, peeker := Wake(s.peeker))
    case Got(d) => s.(remover := Start, rows := s.rows + [d])
    case _ => s
  }

  function Apply(cfg: Config, s: State, step: Step): State
    requires Enabled(cfg, s, step)
  {
    match step
    case Accept =>
      var n := s.conns.accepted + 1;
      s.(conns := if n < |s.clients| then Accepting(n) else Joining(n))
    case ClientInserts(c) =>
      var client := s.clients[c];
      InsertStep(s, client.pending[0], c).(clients := s.clients[c := client.(pending := client.pending[1..])])
    case ClientReturns(c) => s.(clients := s.clients[c := s.clients[c].(returned := true)])
    case Join => s.(conns := Joining(s.conns.left - 1))
    case Mark => InsertStep(s, cfg.marker, -1).(conns := Ended)
    case PeekerRuns => PeekerStep(s)
    case RemoverRuns => RemoverStep(s)
    case PeekerWakesUnasked => s.(peeker := Woken(s.peeker.wait))
    case RemoverWakesUnasked => s.(remover := Woken(s.remover.wait))
  }

  // ----- runs -----

  ghost predicate Executes(cfg: Config, s: State, steps: seq<Step>)
    decreases |steps|
  {
    steps == [] || (Enabled(cfg, s, steps[0]) && Executes(cfg, Apply(cfg, s, steps[0]), steps[1..]))
  }

  ghost function After(cfg: Config, s: State, steps: seq<Step>): State
    requires Executes(cfg, s, steps)
    decreases |steps|
  {
    if steps == [] then s else After(cfg, Apply(cfg, s, steps[0]), steps[1..])
  }

  /** No wait of the run returns without a signal or broadcast. */
  ghost predicate Asked(steps: seq<Step>)
  {
    forall i :: 0 <= i < |steps| ==> !Spurious(steps[i])
  }

  ghost predicate Reachable(cfg: Config, s: State)
  {
    exists steps :: Executes(cfg, Init(cfg), steps) && After(cfg, Init(cfg), steps) == s
  }

  ghost predicate ReachableAsked(cfg: Config, s: State)
  {
    exists steps :: Executes(cfg, Init(cfg), steps) && Asked(steps) && After(cfg, Init(cfg), steps) == s
  }

  /** Nothing can happen any more, unless a wait returns unasked. */
  ghost predicate Stopped(cfg: Config, s: State)
  {
    forall step :: Enabled(cfg, s, step) ==> Spurious(step)
  }

  lemma Next(cfg: Config, s: State, step: Step) returns (t: State)
    requires Reachable(cfg, s) && Enabled(cfg, s, step)
    ensures t == Apply(cfg, s, step) && Reachable(cfg, t)
  {
    t := Apply(cfg, s, step);
    var steps :| Executes(cfg, Init(cfg), steps) && After(cfg, Init(cfg), steps) == s;
    Snoc(cfg, Init(cfg), steps, step);
  }

  lemma NextAsked(cfg: Config, s: State, step: Step) returns (t: State)
    requires ReachableAsked(cfg, s) && Enabled(cfg, s, step) && !Spurious(step)
    ensures t == Apply(cfg, s, step) && ReachableAsked(cfg, t)
  {
    t := Apply(cfg, s, step);
    var steps :| Executes(cfg, Init(cfg), steps) && Asked(steps) && After(cfg, Init(cfg), steps) == s;
    Snoc(cfg, Init(cfg), steps, step);
    assert Asked(steps + [step]);
  }

  lemma {:induction false} Snoc(cfg: Config, s: State, steps: seq<Step>, step: Step)
    requires Executes(cfg, s, steps) && Enabled(cfg, After(cfg, s, steps), step)
    ensures Executes(cfg, s, steps + [step])
    ensures After(cfg, s, steps + [step]) == Apply(cfg, After(cfg, s, steps), step)
    decreases |steps|
  {
    if steps == [] {
      assert [step][1..] == [] && steps + [step] == [step];
    } else {
      assert (steps + [step])[1..] == steps[1..] + [step];
      Snoc(cfg, Apply(cfg, s, steps[0]), steps[1..], step);
    }
  }
}
