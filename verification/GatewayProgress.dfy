/**
 How runs of the gateway end: every run is finite, and a run that can go no further has finished,
 unless the remover's last wake-up was lost or a wait that returned unasked led to a crash.
 */
module GatewayProgress {
  import opened Gateway
  import opened GatewayInvariant
  import opened Handoff
  import opened Records
  import opened Windows

  // ----- every run is finite -----

  function PeekerRank(p: Point): nat
  {
    match p
    case Got(_) => 20
    case Start => 19
    case Woken(w) => if w == ForData then 18 else 14
    case Test(w) => if w == ForData then 17 else 13
    case Sleep(w) => if w == ForData then 16 else 12
    case Asleep(w) => if w == ForData then 15 else 11
    case Past(w) => if w == ForData then 16 else 12
    case TailWrite(_) => 10
    case TailSignal => 9
    case _ => 0
  }

  function RemoverRank(r: Point): nat
  {
    match r
    case Got(_) => 31
    case Start => 30
    case Woken(w) => if w == ForData then 29 else 14
    case Test(w) => if w == ForData then 28 else 13
    case Sleep(w) => if w == ForData then 27 else 12
    case Asleep(w) => if w == ForData then 26 else 11
    case Past(w) => if w == ForData then 27 else 12
    case TailWrite(_) => 10
    case TailSignal => 9
    case _ => 0
  }

  /** A record still to be inserted costs 90 steps: at most 80 once it is queued, and 40 once it is peeked. */
  function Load(clients: seq<Client>): nat
  {
    if clients == [] then 0
    else 90 * |clients[0].pending| + (if clients[0].returned then 0 else 1) + Load(clients[1..])
  }

  function ConnectionLoad(conns: Connections, n: nat): int
  {
    match conns
    case Accepting(accepted) => 2 * n + 1 - accepted + 90
    case Joining(left) => left + 90
    case Ended => 0
  }

  function Measure(s: State): int
  {
    Load(s.clients) + ConnectionLoad(s.conns, |s.clients|)
    + 80 * |s.shared.queue| - (if s.shared.queue != [] && s.shared.queue[0].processed then 40 else 0)
    + PeekerRank(s.peeker) + RemoverRank(s.remover)
  }

  lemma MeasureIsNatural(cfg: Config, s: State)
    requires Inv(cfg, s)
    ensures Measure(s) >= 0
  {
  }

  lemma {:induction false} LoadUpdate(clients: seq<Client>, c: nat, client: Client)
    requires c < |clients|
    ensures Load(clients[c := client]) - Load(clients)
         == 90 * (|client.pending| - |clients[c].pending|)
            + (if client.returned then 0 else 1) - (if clients[c].returned then 0 else 1)
  {
    var after := clients[c := client];
    if c == 0 {
      assert after[1..] == clients[1..];
    } else {
      assert after[1..] == clients[1..][c - 1 := client];
      LoadUpdate(clients[1..], c - 1, client);
    }
  }

  lemma InsertCosts(s: State, d: Reading, from: int)
    ensures var t := InsertStep(s, d, from);
            && PeekerRank(t.peeker) <= PeekerRank(s.peeker) + 3
            && RemoverRank(t.remover) <= RemoverRank(s.remover) + 3
            && |t.shared.queue| == |s.shared.queue| + 1
            && (s.shared.queue != [] ==> t.shared.queue[0] == s.shared.queue[0])
            && (s.shared.queue == [] ==> !t.shared.queue[0].processed)
  {
  }

  lemma ClientInsertCosts(cfg: Config, s: State, c: nat)
    requires Enabled(cfg, s, ClientInserts(c))
    ensures Measure(Apply(cfg, s, ClientInserts(c))) + 1 <= Measure(s)
  {
    InsertCosts(s, s.clients[c].pending[0], c);
    LoadUpdate(s.clients, c, s.clients[c].(pending := s.clients[c].pending[1..]));
  }

  lemma ThreadCosts(cfg: Config, s: State, step: Step)
    requires Producers(cfg, s) && Enabled(cfg, s, step)
    requires step.Accept? || step.ClientReturns? || step.Join?
    ensures Measure(Apply(cfg, s, step)) + 1 <= Measure(s)
  {
    if step.ClientReturns? {
      LoadUpdate(s.clients, step.c, s.clients[step.c].(returned := true));
    }
  }

  lemma UnaskedCosts(cfg: Config, s: State, step: Step)
    requires Enabled(cfg, s, step) && Spurious(step)
    ensures Measure(Apply(cfg, s, step)) <= Measure(s) + 3
  {
  }

  lemma MarkCosts(cfg: Config, s: State)
    requires Enabled(cfg, s, Mark)
    ensures Measure(Apply(cfg, s, Mark)) + 1 <= Measure(s)
  {
    InsertCosts(s, cfg.marker, -1);
  }

  /** Every step costs at least one; a wait that returns unasked can give at most three back. */
  lemma StepCosts(cfg: Config, s: State, step: Step)
    requires Inv(cfg, s) && Enabled(cfg, s, step)
    ensures Measure(Apply(cfg, s, step)) + 1 <= Measure(s) + if Spurious(step) then 4 else 0
  {
    match step
    case ClientInserts(c) => ClientInsertCosts(cfg, s, c);
    case Mark => MarkCosts(cfg, s);
    case PeekerRuns => PeekerCosts(s);
    case RemoverRuns => RemoverCosts(s);
    case PeekerWakesUnasked => UnaskedCosts(cfg, s, step);
    case RemoverWakesUnasked => UnaskedCosts(cfg, s, step);
    case _ => ThreadCosts(cfg, s, step);
  }

  lemma PeekerCosts(s: State)
    requires Control(s) && CanRun(s, s.peeker)
    ensures Measure(PeekerStep(s)) + 1 <= Measure(s)
  {
  }

  lemma RemoverCosts(s: State)
    requires Control(s) && CanRun(s, s.remover)
    ensures Measure(RemoverStep(s)) + 1 <= Measure(s)
  {
  }

  function Unasked(steps: seq<Step>): nat
  {
    if steps == [] then 0 else (if Spurious(steps[0]) then 1 else 0) + Unasked(steps[1..])
  }

  lemma {:induction false} UnaskedIs(steps: seq<Step>)
    ensures Unasked(steps) == multiset(steps)[PeekerWakesUnasked] + multiset(steps)[RemoverWakesUnasked]
    decreases |steps|
  {
    if steps != [] {
      UnaskedIs(steps[1..]);
      assert steps == [steps[0]] + steps[1..];
    }
  }

  lemma {:induction false} RunCosts(cfg: Config, s: State, steps: seq<Step>)
    requires ValidConfig(cfg) && Inv(cfg, s) && Executes(cfg, s, steps)
    ensures |steps| + Measure(After(cfg, s, steps)) <= Measure(s) + 4 * Unasked(steps)
    decreases |steps|
  {
    if steps != [] {
      StepInv(cfg, s, steps[0]);
      StepCosts(cfg, s, steps[0]);
      RunCosts(cfg, Apply(cfg, s, steps[0]), steps[1..]);
    }
  }

  function Total(streams: seq<seq<Reading>>): nat
  {
    if streams == [] then 0 else |streams[0]| + Total(streams[1..])
  }

  /** The number of records, stream by stream. */
  lemma {:induction false} TotalIs(streams: seq<seq<Reading>>, stream: seq<Reading>)
    ensures Total([]) == 0 && Total(streams + [stream]) == Total(streams) + |stream|
    decreases |streams|
  {
    if streams == [] {
      assert streams + [stream] == [stream];
    } else {
      assert (streams + [stream])[1..] == streams[1..] + [stream];
      TotalIs(streams[1..], stream);
    }
  }

  lemma {:induction false} InitialLoad(streams: seq<seq<Reading>>, clients: seq<Client>)
    requires |clients| == |streams|
    requires forall c :: 0 <= c < |clients| ==> clients[c] == Client(streams[c], false)
    ensures Load(clients) == 90 * Total(streams) + |streams|
  {
    if streams != [] {
      InitialLoad(streams[1..], clients[1..]);
    }
  }

  /** Every run is finite: its length is bounded by the number of records, connections and unasked wake-ups. */
  lemma RunsAreFinite(cfg: Config, steps: seq<Step>)
    requires ValidConfig(cfg) && Executes(cfg, Init(cfg), steps)
    ensures |steps| <= 90 * Total(cfg.streams) + 3 * |cfg.streams| + 140
                       + 4 * (multiset(steps)[PeekerWakesUnasked] + multiset(steps)[RemoverWakesUnasked])
  {
    InitInv(cfg);
    RunInv(cfg, Init(cfg), steps);
    RunCosts(cfg, Init(cfg), steps);
    MeasureIsNatural(cfg, After(cfg, Init(cfg), steps));
    UnaskedIs(steps);
    InitialLoad(cfg.streams, Init(cfg).clients);
  }

  // ----- where a run can stop -----

  /** Both consumers have returned SBUFFER_NO_DATA. */
  ghost predicate Finished(s: State)
  {
    s.peeker == Done && s.remover == Done
  }

  /** The remover is done, and the peeker sleeps, or is about to, with nobody left to wake it. */
  ghost predicate Stranded(s: State)
  {
    s.remover == Done && (s.peeker == Sleep(ForTurn) || s.peeker == Asleep(ForTurn))
  }

  predicate OfProducers(step: Step)
  {
    step.Accept? || step.ClientInserts? || step.ClientReturns? || step.Join? || step.Mark?
  }

  lemma ProducerCanRun(cfg: Config, s: State)
    requires Inv(cfg, s) && !Crashed(s) && MutexFree(s) && !s.conns.Ended?
    ensures exists step :: Enabled(cfg, s, step) && OfProducers(step)
  {
    match s.conns
    case Accepting(n) => assert Enabled(cfg, s, Accept);
    case Joining(left) =>
      if left == 0 {
        assert Enabled(cfg, s, Mark);
      } else if s.clients[left - 1].returned {
        assert Enabled(cfg, s, Join);
      } else if s.clients[left - 1].pending == [] {
        assert Enabled(cfg, s, ClientReturns(left - 1));
      } else {
        assert Enabled(cfg, s, ClientInserts(left - 1));
      }
  }

  /** While anything is queued and a consumer is not done, a consumer can run, unless the peeker is stranded. */
  lemma NoStuckConsumers(cfg: Config, s: State)
    requires ValidConfig(cfg) && Reachable(cfg, s) && !Crashed(s)
    requires s.shared.queue != [] && !Finished(s) && !Stranded(s)
    ensures Enabled(cfg, s, PeekerRuns) || Enabled(cfg, s, RemoverRuns)
  {
    ReachableInv(cfg, s);
  }

  lemma RemoverEndsLast(s: State)
    requires Control(s) && s.remover == Done
    ensures s.conns.Ended?
  {
  }

  /** Where both consumers can never run again, no producer can either. */
  lemma NothingLeft(cfg: Config, s: State, step: Step)
    requires Producers(cfg, s) && s.conns.Ended? && s.remover == Done && Enabled(cfg, s, step) && !Spurious(step)
    ensures step.PeekerRuns?
  {
  }

  lemma StopsOnlyThere(cfg: Config, s: State)
    requires Inv(cfg, s) && !Crashed(s) && Stopped(cfg, s)
    ensures Finished(s) || (Stranded(s) && s.peeker == Asleep(ForTurn))
  {
    assert !Enabled(cfg, s, PeekerRuns) && !Enabled(cfg, s, RemoverRuns);
    if !s.conns.Ended? {
      ProducerCanRun(cfg, s);
    }
  }

  /** The states with nothing left to happen: a crash, both consumers done, or the peeker asleep for good. */
  lemma WhereRunsStop(cfg: Config, s: State)
    requires ValidConfig(cfg) && Reachable(cfg, s)
    ensures Stopped(cfg, s) <==> Crashed(s) || Finished(s) || (Stranded(s) && s.peeker == Asleep(ForTurn))
  {
    ReachableInv(cfg, s);
    if Stopped(cfg, s) {
      if !Crashed(s) {
        StopsOnlyThere(cfg, s);
      }
    } else {
      var step :| Enabled(cfg, s, step) && !Spurious(step);
      if s.remover == Done {
        RemoverEndsLast(s);
        NothingLeft(cfg, s, step);
      }
    }
  }

  // ----- the lost wake-up -----

  /** The remover signals after the peeker has decided to wait for its turn and before it waits. */
  ghost predicate LosesWakeUp(s: State, step: Step)
  {
    step.RemoverRuns? && s.remover == TailSignal && s.peeker == Sleep(ForTurn)
  }

  /** The wake-up is lost, and no unasked return of the peeker's wait makes up for it later. */
  ghost predicate RunLosesWakeUp(cfg: Config, s: State, steps: seq<Step>)
    requires Executes(cfg, s, steps)
    decreases |steps|
  {
    && steps != []
    && (|| (LosesWakeUp(s, steps[0]) && PeekerWakesUnasked !in steps[1..])
        || RunLosesWakeUp(cfg, Apply(cfg, s, steps[0]), steps[1..]))
  }

  lemma StrandedByPeeker(s: State)
    requires Control(s) && CanRun(s, s.peeker)
    ensures Stranded(PeekerStep(s)) <==> Stranded(s)
  {
  }

  lemma StrandedByRemover(s: State)
    requires Control(s) && CanRun(s, s.remover)
    ensures Stranded(RemoverStep(s)) <==> LosesWakeUp(s, RemoverRuns)
    ensures !Stranded(s)
  {
  }

  lemma StrandedByProducer(cfg: Config, s: State, step: Step)
    requires Control(s) && Producers(cfg, s) && Enabled(cfg, s, step) && OfProducers(step)
    ensures Stranded(Apply(cfg, s, step)) <==> Stranded(s)
  {
    if s.remover == Done {
      RemoverEndsLast(s);
      NothingLeft(cfg, s, step);
    }
  }

  lemma StrandedByStep(cfg: Config, s: State, step: Step)
    requires Inv(cfg, s) && Enabled(cfg, s, step)
    ensures Stranded(Apply(cfg, s, step)) <==> (Stranded(s) && !step.PeekerWakesUnasked?) || LosesWakeUp(s, step)
  {
    match step
    case PeekerRuns => StrandedByPeeker(s);
    case RemoverRuns => StrandedByRemover(s);
    case PeekerWakesUnasked =>
    case RemoverWakesUnasked =>
    case _ => StrandedByProducer(cfg, s, step);
  }

  lemma StrandedFirst(s: bool, t: bool, loses: bool, step: Step, rest: seq<Step>)
    requires t <==> (s && !step.PeekerWakesUnasked?) || loses
    requires loses ==> step.RemoverRuns?
    ensures t && PeekerWakesUnasked !in rest
            <==> (s && PeekerWakesUnasked !in [step] + rest) || (loses && PeekerWakesUnasked !in rest)
  {
  }

  lemma {:induction false} StrandedByRun(cfg: Config, s: State, steps: seq<Step>)
    requires ValidConfig(cfg) && Inv(cfg, s) && Executes(cfg, s, steps)
    ensures Stranded(After(cfg, s, steps))
            <==> (Stranded(s) && PeekerWakesUnasked !in steps) || RunLosesWakeUp(cfg, s, steps)
    decreases |steps|
  {
    if steps != [] {
      var step, rest := steps[0], steps[1..];
      var t := Apply(cfg, s, step);
      StepInv(cfg, s, step);
      StrandedByStep(cfg, s, step);
      StrandedFirst(Stranded(s), Stranded(t), LosesWakeUp(s, step), step, rest);
      assert steps == [step] + rest;
      StrandedByRun(cfg, t, rest);
    }
  }

  // ----- a run that crashes -----

  /** The peeker, holding the mutex, is on its way to a head that is not there. */
  ghost predicate Doomed(s: State)
  {
    && s.shared.queue == []
    && (s.peeker == Past(ForTurn) || (s.peeker == Test(ForTurn) && s.shared.condition != REMOVERS_TURN))
  }

  lemma DoomedStays(cfg: Config, s: State, step: Step)
    requires Control(s) && Doomed(s) && Enabled(cfg, s, step)
    ensures Doomed(Apply(cfg, s, step)) || Crashed(Apply(cfg, s, step))
  {
  }

  /** At some moment peek goes past its test towards the head of an empty queue. */
  ghost predicate RunDooms(cfg: Config, s: State, steps: seq<Step>)
    requires Executes(cfg, s, steps)
    decreases |steps|
  {
    Doomed(s) || (steps != [] && RunDooms(cfg, Apply(cfg, s, steps[0]), steps[1..]))
  }

  lemma OnlyDoomedCrashes(cfg: Config, s: State, step: Step)
    requires Control(s) && !Doomed(s) && Enabled(cfg, s, step)
    ensures !Crashed(Apply(cfg, s, step))
  {
  }

  lemma {:induction false} DoomedRunCrashes(cfg: Config, s: State, steps: seq<Step>)
    requires ValidConfig(cfg) && Inv(cfg, s) && (Doomed(s) || Crashed(s)) && Executes(cfg, s, steps)
    requires Stopped(cfg, After(cfg, s, steps))
    ensures Crashed(After(cfg, s, steps))
    decreases |steps|
  {
    if steps != [] {
      StepInv(cfg, s, steps[0]);
      DoomedStays(cfg, s, steps[0]);
      DoomedRunCrashes(cfg, Apply(cfg, s, steps[0]), steps[1..]);
    } else if !Crashed(s) {
      assert Enabled(cfg, s, PeekerRuns);
    }
  }

  /** A run that can go no further has crashed if and only if it was doomed at some moment. */
  lemma {:induction false} CrashesIfDoomed(cfg: Config, s: State, steps: seq<Step>)
    requires ValidConfig(cfg) && Inv(cfg, s) && !Crashed(s) && Executes(cfg, s, steps)
    requires Stopped(cfg, After(cfg, s, steps))
    ensures Crashed(After(cfg, s, steps)) <==> RunDooms(cfg, s, steps)
    decreases |steps|
  {
    if Doomed(s) {
      DoomedRunCrashes(cfg, s, steps);
    } else if steps != [] {
      StepInv(cfg, s, steps[0]);
      OnlyDoomedCrashes(cfg, s, steps[0]);
      CrashesIfDoomed(cfg, Apply(cfg, s, steps[0]), steps[1..]);
    }
  }

  /**
   A run that can go no further has finished if and only if it was not doomed and did not lose the
   remover's wake-up. A run without a harmful step is not doomed.
   */
  lemma FinishesUnlessWakeUpLost(cfg: Config, steps: seq<Step>)
    requires ValidConfig(cfg) && Executes(cfg, Init(cfg), steps)
    requires Stopped(cfg, After(cfg, Init(cfg), steps))
    ensures var s := After(cfg, Init(cfg), steps);
            && (Finished(s) <==> !RunDooms(cfg, Init(cfg), steps) && !RunLosesWakeUp(cfg, Init(cfg), steps))
            && (Crashed(s) <==> RunDooms(cfg, Init(cfg), steps))
            && (Harmless(cfg, Init(cfg), steps) ==> !RunDooms(cfg, Init(cfg), steps))
  {
    var s := After(cfg, Init(cfg), steps);
    InitInv(cfg);
    assert Reachable(cfg, s);
    WhereRunsStop(cfg, s);
    StrandedByRun(cfg, Init(cfg), steps);
    CrashesIfDoomed(cfg, Init(cfg), steps);
    RunInv(cfg, Init(cfg), steps);
    if Harmless(cfg, Init(cfg), steps) {
      RunAsked(cfg, Init(cfg), steps);
    }
  }

  /** The grain at which the peeker's test and the wait that follows it are one step. */
  ghost predicate TestsAndWaitsAtOnce(cfg: Config, s: State, steps: seq<Step>)
    requires Executes(cfg, s, steps)
    decreases |steps|
  {
    steps != [] ==>
      && (s.peeker == Sleep(ForTurn) ==> steps[0].PeekerRuns?)
      && TestsAndWaitsAtOnce(cfg, Apply(cfg, s, steps[0]), steps[1..])
  }

  lemma {:induction false} NothingLostAtOnce(cfg: Config, s: State, steps: seq<Step>)
    requires Executes(cfg, s, steps) && TestsAndWaitsAtOnce(cfg, s, steps)
    ensures !RunLosesWakeUp(cfg, s, steps)
    decreases |steps|
  {
    if steps != [] {
      NothingLostAtOnce(cfg, Apply(cfg, s, steps[0]), steps[1..]);
    }
  }

  /** At that grain, every run that can go no further has finished if and only if it was not doomed. */
  lemma FinishesAtOnce(cfg: Config, steps: seq<Step>)
    requires ValidConfig(cfg) && Executes(cfg, Init(cfg), steps)
    requires Stopped(cfg, After(cfg, Init(cfg), steps))
    requires TestsAndWaitsAtOnce(cfg, Init(cfg), steps)
    ensures Finished(After(cfg, Init(cfg), steps)) <==> !RunDooms(cfg, Init(cfg), steps)
    ensures Harmless(cfg, Init(cfg), steps) ==> Finished(After(cfg, Init(cfg), steps))
  {
    FinishesUnlessWakeUpLost(cfg, steps);
    NothingLostAtOnce(cfg, Init(cfg), steps);
  }

  lemma OneNodeIsLeft(s: State)
    requires Control(s) && s.remover == Done
    ensures s.conns.Ended? && |s.shared.queue| == 1 && !s.shared.queue[0].processed
  {
    assert HeadEnds(s.shared);
  }

  lemma OnlyTheMarkerIsLeft(cfg: Config, s: State)
    requires Inv(cfg, s) && s.remover == Done && !s.peeker.Got?
    ensures s.conns.Ended? && s.inserted == s.rows + [cfg.marker] && s.shared.queue == [Slot(cfg.marker, false)]
    ensures s.handled == s.peeked == s.removed == s.rows
  {
    var q, n := s.shared.queue, |s.inserted| - 1;
    OneNodeIsLeft(s);
    assert QueueData(q) == [q[0].data];
    assert s.inserted[n] == cfg.marker && s.inserted[n] == q[0].data;
  }

  lemma EveryClientIsDelivered(cfg: Config, s: State, c: nat)
    requires Inv(cfg, s) && s.conns.Ended? && s.inserted == s.rows + [cfg.marker] && c < |cfg.streams|
    ensures |s.origin| == |s.rows| + 1
    ensures From(s.rows, s.origin[..|s.rows|], c) == cfg.streams[c]
  {
  }

  /**
   Finished or stranded, whatever waits returned unasked, a run has delivered everything: the rows are all the clients'
   records, each client's in its order, the data manager has handled the same rows, its log is what those
   rows demand, and only the marker is left in the buffer.
   */
  lemma StoppedRunDelivers(cfg: Config, s: State)
    requires ValidConfig(cfg) && Reachable(cfg, s) && !Crashed(s)
    requires Finished(s) || Stopped(cfg, s)
    ensures s.inserted == s.rows + [cfg.marker] && s.shared.queue == [Slot(cfg.marker, false)]
    ensures s.handled == s.peeked == s.removed == s.rows
    ensures s.log == SpecLog(cfg.mappings, s.rows)
    ensures |s.origin| == |s.rows| + 1
    ensures forall c :: 0 <= c < |cfg.streams| ==> From(s.rows, s.origin[..|s.rows|], c) == cfg.streams[c]
  {
    ReachableInv(cfg, s);
    if !Finished(s) {
      StopsOnlyThere(cfg, s);
    }
    OnlyTheMarkerIsLeft(cfg, s);
    HandleAllSummarizes(cfg.mappings, s.handled);
    EveryClientIsDelivered(cfg, s, 0);
    forall c | 0 <= c < |cfg.streams|
      ensures From(s.rows, s.origin[..|s.rows|], c) == cfg.streams[c]
    {
      EveryClientIsDelivered(cfg, s, c);
    }
  }

  // ----- runs that can be completed -----

  lemma {:induction false} DoomedNeverFinishes(cfg: Config, s: State, steps: seq<Step>)
    requires ValidConfig(cfg) && Inv(cfg, s) && (Doomed(s) || Crashed(s)) && Executes(cfg, s, steps)
    ensures !Finished(After(cfg, s, steps))
    decreases |steps|
  {
    if steps != [] {
      StepInv(cfg, s, steps[0]);
      DoomedStays(cfg, s, steps[0]);
      DoomedNeverFinishes(cfg, Apply(cfg, s, steps[0]), steps[1..]);
    }
  }

  ghost predicate CanGoOn(cfg: Config, s: State)
  {
    Inv(cfg, s) && !Stranded(s) && !Doomed(s) && !Crashed(s)
  }

  lemma ExecutesCons(cfg: Config, s: State, step: Step, rest: seq<Step>)
    requires Enabled(cfg, s, step) && Executes(cfg, Apply(cfg, s, step), rest)
    ensures Executes(cfg, s, [step] + rest)
    ensures After(cfg, s, [step] + rest) == After(cfg, Apply(cfg, s, step), rest)
  {
    assert ([step] + rest)[1..] == rest;
  }

  lemma SafeStep(cfg: Config, s: State) returns (step: Step)
    requires ValidConfig(cfg) && Inv(cfg, s) && AskedInv(s) && !Stranded(s) && !Finished(s)
    ensures Enabled(cfg, s, step) && !Spurious(step) && !LosesWakeUp(s, step)
  {
    if CanRun(s, s.peeker) {
      return PeekerRuns;
    }
    if CanRun(s, s.remover) {
      return RemoverRuns;
    }
    if !s.conns.Ended? {
      ProducerCanRun(cfg, s);
      step :| Enabled(cfg, s, step) && OfProducers(step);
    } else {
      assert false;
    }
  }

  lemma WokenByNobody(cfg: Config, s: State, step: Step)
    requires Enabled(cfg, s, step) && OfProducers(step) && !s.peeker.Asleep?
    ensures Apply(cfg, s, step).peeker == s.peeker && !Crashed(Apply(cfg, s, step))
  {
  }

  lemma NotDoomedWhenAsked(s: State)
    requires Control(s) && AskedInv(s)
    ensures !Doomed(s) && !Crashed(s)
  {
  }

  lemma WokenStaysWoken(s: State)
    requires Control(s) && s.peeker == Woken(ForTurn) && CanRun(s, s.remover)
    ensures RemoverStep(s).peeker == s.peeker && !Crashed(RemoverStep(s))
  {
    RemoverKeepsControl(s);
  }

  /** A peeker woken too early comes to no harm if it is kept from running until there is a node for it. */
  lemma StepAround(cfg: Config, s: State) returns (step: Step)
    requires ValidConfig(cfg) && CanGoOn(cfg, s) && s.peeker == Woken(ForTurn) && !Unseen(s.shared)
    ensures Enabled(cfg, s, step) && !Spurious(step) && !LosesWakeUp(s, step)
    ensures !Doomed(Apply(cfg, s, step)) && !Crashed(Apply(cfg, s, step))
  {
    if MutexFree(s) {
      ProducerCanRun(cfg, s);
      step :| Enabled(cfg, s, step) && OfProducers(step);
      WokenByNobody(cfg, s, step);
    } else {
      step := RemoverRuns;
      WokenStaysWoken(s);
    }
  }

  lemma StepAhead(cfg: Config, s: State) returns (step: Step)
    requires ValidConfig(cfg) && CanGoOn(cfg, s) && !(s.peeker == Woken(ForTurn) && !Unseen(s.shared))
    requires !Finished(s)
    ensures Enabled(cfg, s, step) && !Spurious(step) && !LosesWakeUp(s, step)
    ensures !Doomed(Apply(cfg, s, step)) && !Crashed(Apply(cfg, s, step))
  {
    step := SafeStep(cfg, s);
    StepAsked(cfg, s, step);
    StepInv(cfg, s, step);
    NotDoomedWhenAsked(Apply(cfg, s, step));
  }

  /** Unless the run has finished, some step leads on without losing a wake-up. */
  lemma StepOn(cfg: Config, s: State) returns (step: Step)
    requires ValidConfig(cfg) && CanGoOn(cfg, s) && !Finished(s)
    ensures Enabled(cfg, s, step) && !Spurious(step)
    ensures CanGoOn(cfg, Apply(cfg, s, step)) && Measure(Apply(cfg, s, step)) < Measure(s)
  {
    if s.peeker == Woken(ForTurn) && !Unseen(s.shared) {
      step := StepAround(cfg, s);
    } else {
      step := StepAhead(cfg, s);
    }
    StepInv(cfg, s, step);
    StepCosts(cfg, s, step);
    StrandedByStep(cfg, s, step);
  }

  lemma {:induction false} CanStillFinish(cfg: Config, s: State) returns (steps: seq<Step>)
    requires ValidConfig(cfg) && CanGoOn(cfg, s)
    ensures Executes(cfg, s, steps) && Asked(steps) && Finished(After(cfg, s, steps))
    decreases Measure(s)
  {
    if Finished(s) {
      return [];
    }
    MeasureIsNatural(cfg, s);
    var step := StepOn(cfg, s);
    var rest := CanStillFinish(cfg, Apply(cfg, s, step));
    ExecutesCons(cfg, s, step, rest);
    steps := [step] + rest;
  }

  /**
   Every reachable state, whatever waits returned unasked before, can be run to completion by asked
   steps if and only if the peeker is neither stranded nor doomed. Without unasked returns it is never doomed.
   */
  lemma CompletionStaysPossible(cfg: Config, s: State)
    requires ValidConfig(cfg) && Reachable(cfg, s)
    ensures (exists steps :: Executes(cfg, s, steps) && Asked(steps) && Finished(After(cfg, s, steps)))
            <==> !Stranded(s) && !Doomed(s) && !Crashed(s)
    ensures ReachableAsked(cfg, s) ==> !Doomed(s) && !Crashed(s)
  {
    ReachableInv(cfg, s);
    if ReachableAsked(cfg, s) {
      ReachableAskedInv(cfg, s);
    }
    if CanGoOn(cfg, s) {
      var steps := CanStillFinish(cfg, s);
    } else {
      forall steps | Executes(cfg, s, steps) && Asked(steps)
        ensures !Finished(After(cfg, s, steps))
      {
        if Stranded(s) {
          StrandedByRun(cfg, s, steps);
        } else {
          DoomedNeverFinishes(cfg, s, steps);
        }
      }
    }
  }

  // ----- waits that return unasked -----

  predicate AboutToCrash(s: State)
  {
    s.shared.queue == [] && s.shared.condition != REMOVERS_TURN && MutexFree(s)
  }

  lemma CrashNow(cfg: Config, s: State) returns (steps: seq<Step>)
    requires !Crashed(s)
    requires Doomed(s) || (s.peeker == Woken(ForTurn) && AboutToCrash(s))
    ensures Executes(cfg, s, steps) && Asked(steps) && Crashed(After(cfg, s, steps))
    decreases PeekerRank(s.peeker)
  {
    var t := Apply(cfg, s, PeekerRuns);
    if s.peeker == Past(ForTurn) {
      assert Executes(cfg, t, []);
      ExecutesCons(cfg, s, PeekerRuns, []);
      return [PeekerRuns];
    }
    var rest := CrashNow(cfg, t);
    ExecutesCons(cfg, s, PeekerRuns, rest);
    return [PeekerRuns] + rest;
  }

  /** Until the queue is empty and `condition` is no longer 2, the remover can go on. */
  lemma RemoverGoesOn(s: State)
    requires Control(s) && s.peeker == Woken(ForTurn) && !Unseen(s.shared) && !AboutToCrash(s)
    ensures CanRun(s, s.remover) && !Crashed(s)
    ensures RemoverStep(s).peeker == Woken(ForTurn) && !Unseen(RemoverStep(s).shared)
  {
  }

  lemma TowardsCrash(cfg: Config, s: State)
    requires ValidConfig(cfg) && Inv(cfg, s)
    requires s.peeker == Woken(ForTurn) && !Unseen(s.shared) && !AboutToCrash(s)
    ensures Enabled(cfg, s, RemoverRuns)
    ensures var t := Apply(cfg, s, RemoverRuns);
            Inv(cfg, t) && t.peeker == Woken(ForTurn) && !Unseen(t.shared) && Measure(t) < Measure(s)
  {
    RemoverGoesOn(s);
    StepInv(cfg, s, RemoverRuns);
    RemoverCosts(s);
  }

  /** A peeker woken while every queued node has been peeked goes on once the remover has left the queue empty. */
  lemma {:induction false} CrashFollows(cfg: Config, s: State) returns (steps: seq<Step>)
    requires ValidConfig(cfg) && Inv(cfg, s) && s.peeker == Woken(ForTurn) && !Unseen(s.shared)
    ensures Executes(cfg, s, steps) && Asked(steps) && Crashed(After(cfg, s, steps))
    decreases Measure(s)
  {
    MeasureIsNatural(cfg, s);
    if AboutToCrash(s) {
      steps := CrashNow(cfg, s);
    } else {
      TowardsCrash(cfg, s);
      var rest := CrashFollows(cfg, Apply(cfg, s, RemoverRuns));
      ExecutesCons(cfg, s, RemoverRuns, rest);
      steps := [RemoverRuns] + rest;
    }
  }

  lemma CrashFromDanger(cfg: Config, s: State) returns (steps: seq<Step>)
    requires ValidConfig(cfg) && Inv(cfg, s) && !AskedInv(s)
    ensures Executes(cfg, s, steps) && Asked(steps) && Crashed(After(cfg, s, steps))
  {
    if Crashed(s) {
      return [];
    } else if s.peeker == Woken(ForTurn) {
      steps := CrashFollows(cfg, s);
    } else {
      steps := CrashNow(cfg, s);
    }
  }

  /**
   From a reachable state, whatever waits returned unasked before, asked steps can lead to a null head
   dereferenced if AskedInv does not hold; if it holds, no steps do, unless one of them is harmful.
   */
  lemma CrashStaysPossible(cfg: Config, s: State)
    requires ValidConfig(cfg) && Reachable(cfg, s)
    ensures !AskedInv(s) ==> exists steps :: Executes(cfg, s, steps) && Asked(steps) && Crashed(After(cfg, s, steps))
    ensures AskedInv(s) ==>
              forall steps :: Executes(cfg, s, steps) && Harmless(cfg, s, steps) ==> !Crashed(After(cfg, s, steps))
  {
    ReachableInv(cfg, s);
    if AskedInv(s) {
      forall steps | Executes(cfg, s, steps) && Harmless(cfg, s, steps)
        ensures !Crashed(After(cfg, s, steps))
      {
        RunInv(cfg, s, steps);
        RunAsked(cfg, s, steps);
      }
    } else {
      var steps := CrashFromDanger(cfg, s);
    }
  }

  /**
   Exactly when it matters that a wait for the peeker's turn returns unasked, whatever happened before: asked
   steps can lead from there to a crash if every queued node has been peeked; if not, nothing does
   but a further return of that kind.
   */
  lemma UnaskedWakeUpCrashes(cfg: Config, s: State)
    requires ValidConfig(cfg) && Reachable(cfg, s) && !Crashed(s) && s.peeker == Asleep(ForTurn)
    ensures Enabled(cfg, s, PeekerWakesUnasked)
    ensures var t := Apply(cfg, s, PeekerWakesUnasked);
            && (Harmful(s, PeekerWakesUnasked) ==>
                  exists steps :: Executes(cfg, t, steps) && Asked(steps) && Crashed(After(cfg, t, steps)))
            && (!Harmful(s, PeekerWakesUnasked) ==>
                  forall steps :: Executes(cfg, t, steps) && Harmless(cfg, t, steps) ==> !Crashed(After(cfg, t, steps)))
  {
    var t := Next(cfg, s, PeekerWakesUnasked);
    CrashStaysPossible(cfg, t);
  }
}
