/** What every step of the gateway keeps. */
module GatewayInvariant {
  import opened Gateway
  import opened Handoff
  import opened Records
  import opened Windows

  // ----- the queue and condition -----

  ghost predicate QueueInv(sh: Shared, ended: bool)
  {
    var q := sh.queue;
    && EMPTY <= sh.condition <= REMOVERS_TURN
    && (q != [] ==> sh.condition != EMPTY)
    && (forall i :: 1 <= i < |q| ==> !q[i].processed)
    && (forall i :: 0 <= i < |q| && q[i].data.id == END_MARKER ==> ended && i == |q| - 1 && !q[i].processed)
    && (ended ==> q != [] && q[|q| - 1].data.id == END_MARKER)
  }

  ghost predicate HeadIs(sh: Shared, processed: bool)
  {
    sh.queue != [] && sh.queue[0].processed == processed
  }

  ghost predicate HeadEnds(sh: Shared)
  {
    sh.queue != [] && sh.queue[0].data.id == END_MARKER
  }

  /** Some queued node has not been peeked; only the head can have been, so the last one tells. */
  ghost predicate Unseen(sh: Shared)
  {
    sh.queue != [] && !sh.queue[|sh.queue| - 1].processed
  }

  // ----- the two consumers -----

  ghost predicate RemoverInv(r: Point, sh: Shared)
  {
    match r
    case Start => true
    case Got(_) => true
    case Test(ForData) => sh.queue == [] ==> sh.condition == EMPTY
    case Woken(ForData) => sh.queue == [] ==> sh.condition == EMPTY
    case Sleep(ForData) => sh.queue == [] && sh.condition == EMPTY
    case Asleep(ForData) => sh.queue == [] && sh.condition == EMPTY
    case Past(ForData) => sh.queue != []
    case Test(ForTurn) => RemoverMayWait(sh)
    case Woken(ForTurn) => RemoverMayWait(sh)
    case Sleep(ForTurn) => RemoverMayWait(sh) && HeadIs(sh, false)
    case Asleep(ForTurn) => RemoverMayWait(sh) && HeadIs(sh, false)
    case Past(ForTurn) => RemoverMayWait(sh) && HeadIs(sh, true)
    case TailWrite(v) => HeadEnds(sh) && v == PEEKERS_TURN
    case TailSignal => HeadEnds(sh)
    case Done => HeadEnds(sh)
    case Fault(_) => false
  }

  /** Between its signal to the peeker and the end of its second wait. */
  ghost predicate RemoverMayWait(sh: Shared)
  {
    && sh.queue != [] && !HeadEnds(sh)
    && sh.condition == if sh.queue[0].processed then REMOVERS_TURN else PEEKERS_TURN
  }

  ghost predicate PeekerInv(p: Point, sh: Shared)
  {
    match p
    case Start => true
    case Got(_) => true
    case Test(ForData) => !HeadIs(sh, true) && (sh.queue == [] ==> sh.condition == EMPTY)
    case Woken(ForData) => !HeadIs(sh, true) && (sh.queue == [] ==> sh.condition == EMPTY)
    case Sleep(ForData) => sh.queue == [] && sh.condition == EMPTY
    case Asleep(ForData) => sh.queue == [] && sh.condition == EMPTY
    case Past(ForData) => HeadIs(sh, false)
    case Past(ForTurn) => !HeadIs(sh, true)
    case Fault(w) => w == ForTurn
    case TailWrite(v) => HeadEnds(sh) && v == REMOVERS_TURN
    case TailSignal => HeadEnds(sh)
    case Done => HeadEnds(sh)
    case _ => HeadIs(sh, true) ==> sh.condition == REMOVERS_TURN
  }

  ghost predicate InWait(p: Point, w: Wait)
  {
    (p.Test? || p.Sleep? || p.Asleep? || p.Woken?) && p.wait == w
  }

  ghost predicate PairInv(p: Point, r: Point, sh: Shared)
  {
    && !(HoldsMutex(p) && HoldsMutex(r))
    // the remover never waits for a peeker that sleeps
    && (InWait(r, ForTurn) && HeadIs(sh, false) ==> p != Sleep(ForTurn) && p != Asleep(ForTurn))
    // the remover's last write is never undone while the peeker waits
    && ((r.TailSignal? || r == Done) && InWait(p, ForTurn) ==> sh.condition == PEEKERS_TURN)
  }

  ghost predicate Control(s: State)
  {
    && QueueInv(s.shared, s.conns.Ended?)
    && PeekerInv(s.peeker, s.shared)
    && RemoverInv(s.remover, s.shared)
    && PairInv(s.peeker, s.remover, s.shared)
  }

  /** The peeker's wait for its turn returns although no node is there for it. */
  ghost predicate Harmful(s: State, step: Step)
  {
    step.PeekerWakesUnasked? && s.peeker == Asleep(ForTurn) && !Unseen(s.shared)
  }

  /** What every step keeps but a harmful one. */
  ghost predicate AskedInv(s: State)
  {
    && (s.peeker == Woken(ForTurn) ==> Unseen(s.shared))
    && (s.peeker == Test(ForTurn) ==> Unseen(s.shared) || s.shared.condition == REMOVERS_TURN)
    && (s.peeker == Past(ForTurn) ==> s.shared.queue != [])
    && !s.peeker.Fault?
  }

  lemma PeekerKeepsControl(s: State)
    requires Control(s) && !Crashed(s) && CanRun(s, s.peeker)
    ensures Control(PeekerStep(s))
  {
  }

  lemma RemoverKeepsControl(s: State)
    requires Control(s) && !Crashed(s) && CanRun(s, s.remover)
    ensures Control(RemoverStep(s))
  {
  }

  lemma InsertKeepsControl(s: State, d: Reading, from: int, s': State)
    requires Control(s) && MutexFree(s) && !s.conns.Ended?
    requires s'.shared == InsertStep(s, d, from).shared
    requires s'.peeker == Wake(s.peeker) && s'.remover == Wake(s.remover)
    requires s'.conns.Ended? <==> d.id == END_MARKER
    ensures Control(s')
  {
  }

  lemma PeekerKeepsAsked(s: State)
    requires Control(s) && AskedInv(s) && CanRun(s, s.peeker)
    ensures AskedInv(PeekerStep(s))
  {
  }

  lemma RemoverKeepsAsked(s: State)
    requires Control(s) && AskedInv(s) && CanRun(s, s.remover)
    ensures AskedInv(RemoverStep(s))
  {
  }

  // ----- the producers -----

  /** The threads from `left` on have been joined; a thread that was joined, or returned, has nothing left. */
  ghost predicate Producers(cfg: Config, s: State)
  {
    && |s.clients| == |cfg.streams|
    && (match s.conns
        case Accepting(n) => n < |s.clients|
        case Joining(left) => left <= |s.clients| && forall c :: left <= c < |s.clients| ==> s.clients[c].returned
        case Ended => forall c :: 0 <= c < |s.clients| ==> s.clients[c].returned)
    && (forall c :: 0 <= c < |s.clients| && s.clients[c].returned ==> s.clients[c].pending == [])
  }

  /** The records of `records` that came from client c, in order. */
  ghost function From(records: seq<Reading>, origin: seq<int>, c: int): seq<Reading>
    requires |records| == |origin|
  {
    if records == [] then []
    else
      var n := |records| - 1;
      From(records[..n], origin[..n], c) + if origin[n] == c then [records[n]] else []
  }

  /** Each record inserted is the next one of its client. */
  ghost predicate Interleaved(cfg: Config, s: State)
  {
    && |s.origin| == |s.inserted|
    && |s.clients| == |cfg.streams|
    && forall c :: 0 <= c < |s.clients| ==> From(s.inserted, s.origin, c) + s.clients[c].pending == cfg.streams[c]
  }

  /** The marker, and only the marker, comes last. */
  ghost predicate MarkerLast(cfg: Config, s: State)
  {
    && |s.origin| == |s.inserted|
    && (forall i :: 0 <= i < |s.origin| ==>
          if s.conns.Ended? && i == |s.origin| - 1 then s.origin[i] == -1 && s.inserted[i] == cfg.marker
          else 0 <= s.origin[i] < |s.clients| && s.inserted[i].id != END_MARKER)
    && (s.conns.Ended? ==> s.inserted != [])
  }

  lemma FromOneMore(records: seq<Reading>, origin: seq<int>, c: int, d: Reading, from: int)
    requires |records| == |origin|
    ensures From(records + [d], origin + [from], c) == From(records, origin, c) + if from == c then [d] else []
    ensures From([], [], c) == []
  {
  }

  lemma ClientInsertKeeps(cfg: Config, s: State, c: nat)
    requires ValidConfig(cfg) && Producers(cfg, s) && Interleaved(cfg, s) && MarkerLast(cfg, s)
    requires Enabled(cfg, s, ClientInserts(c))
    ensures var t := Apply(cfg, s, ClientInserts(c));
            Producers(cfg, t) && Interleaved(cfg, t) && MarkerLast(cfg, t)
    ensures s.clients[c].pending[0].id != END_MARKER && !s.conns.Ended?
  {
    var d := s.clients[c].pending[0];
    assert d == cfg.streams[c][|From(s.inserted, s.origin, c)|];
    var t := Apply(cfg, s, ClientInserts(c));
    forall k | 0 <= k < |t.clients|
      ensures From(t.inserted, t.origin, k) + t.clients[k].pending == cfg.streams[k]
    {
      FromOneMore(s.inserted, s.origin, k, d, c);
    }
  }

  lemma MarkKeeps(cfg: Config, s: State)
    requires ValidConfig(cfg) && Producers(cfg, s) && Interleaved(cfg, s) && MarkerLast(cfg, s)
    requires Enabled(cfg, s, Mark)
    ensures var t := Apply(cfg, s, Mark);
            Producers(cfg, t) && Interleaved(cfg, t) && MarkerLast(cfg, t)
  {
  }

  // ----- the histories -----

  ghost function QueueData(q: seq<Slot>): (r: seq<Reading>)
    ensures |r| == |q|
  {
    seq(|q|, i requires 0 <= i < |q| => q[i].data)
  }

  ghost function InHand(p: Point): seq<Reading>
  {
    if p.Got? then [p.data] else []
  }

  /** Exactly once, in order, to both consumers. */
  ghost predicate Fifo(s: State)
  {
    && s.inserted == s.removed + QueueData(s.shared.queue)
    && s.peeked == s.removed + if HeadIs(s.shared, true) then [s.shared.queue[0].data] else []
  }

  /** What the data manager and the sensor db made of what they were handed. */
  ghost predicate Consumed(cfg: Config, s: State)
  {
    && s.peeked == s.handled + InHand(s.peeker)
    && s.removed == s.rows + InHand(s.remover)
    && (s.table, s.log) == HandleAll(NewTable(cfg.mappings), s.handled)
  }

  lemma PeekerKeepsFifo(s: State)
    requires Control(s) && Fifo(s) && CanRun(s, s.peeker)
    ensures Fifo(PeekerStep(s))
  {
  }

  lemma PeekerKeepsConsumed(cfg: Config, s: State)
    requires Control(s) && Consumed(cfg, s) && CanRun(s, s.peeker)
    ensures Consumed(cfg, PeekerStep(s))
  {
    if s.peeker.Got? {
      assert PeekerStep(s).handled[..|s.handled|] == s.handled;
    }
  }

  lemma PeekerKeepsHistories(cfg: Config, s: State)
    requires Control(s) && Fifo(s) && Consumed(cfg, s) && CanRun(s, s.peeker)
    ensures Fifo(PeekerStep(s)) && Consumed(cfg, PeekerStep(s))
  {
    PeekerKeepsFifo(s);
    PeekerKeepsConsumed(cfg, s);
  }

  lemma RemoverKeepsFifo(s: State)
    requires Control(s) && Fifo(s) && CanRun(s, s.remover)
    ensures Fifo(RemoverStep(s))
  {
    var t, q := RemoverStep(s), s.shared.queue;
    if t.remover.Got? {
      assert HeadIs(s.shared, true) && t.removed == s.removed + [q[0].data] && t.shared.queue == q[1..];
      assert QueueData(q) == [q[0].data] + QueueData(q[1..]);
    } else {
      assert t.removed == s.removed && t.shared.queue == q;
    }
  }

  lemma RemoverKeepsConsumed(cfg: Config, s: State)
    requires Control(s) && Consumed(cfg, s) && CanRun(s, s.remover)
    ensures Consumed(cfg, RemoverStep(s))
  {
    var t := RemoverStep(s);
    assert t.handled == s.handled && t.table == s.table && t.log == s.log;
    assert t.peeked == s.peeked && InHand(t.peeker) == InHand(s.peeker);
  }

  lemma RemoverKeepsHistories(cfg: Config, s: State)
    requires Control(s) && Fifo(s) && Consumed(cfg, s) && CanRun(s, s.remover)
    ensures Fifo(RemoverStep(s)) && Consumed(cfg, RemoverStep(s))
  {
    RemoverKeepsFifo(s);
    RemoverKeepsConsumed(cfg, s);
  }

  lemma InsertKeepsFifo(s: State, d: Reading, from: int)
    requires Fifo(s)
    ensures Fifo(InsertStep(s, d, from))
  {
    assert QueueData(InsertStep(s, d, from).shared.queue) == QueueData(s.shared.queue) + [d];
  }

  lemma InsertKeepsHistories(cfg: Config, s: State, d: Reading, from: int)
    requires Fifo(s) && Consumed(cfg, s)
    ensures Fifo(InsertStep(s, d, from)) && Consumed(cfg, InsertStep(s, d, from))
  {
    InsertKeepsFifo(s, d, from);
  }

  // ----- all of it, over whole runs -----

  ghost predicate Inv(cfg: Config, s: State)
  {
    && Control(s)
    && Producers(cfg, s) && Interleaved(cfg, s) && MarkerLast(cfg, s)
    && Fifo(s) && Consumed(cfg, s)
  }

  lemma InitInv(cfg: Config)
    requires ValidConfig(cfg)
    ensures Inv(cfg, Init(cfg)) && AskedInv(Init(cfg))
  {
  }

  lemma SameControl(s: State, t: State)
    requires Control(s) && t.shared == s.shared && t.peeker == s.peeker && t.remover == s.remover
    requires t.conns.Ended? <==> s.conns.Ended?
    ensures Control(t)
  {
  }

  lemma StepControl(cfg: Config, s: State, step: Step)
    requires ValidConfig(cfg) && Inv(cfg, s) && Enabled(cfg, s, step)
    ensures Control(Apply(cfg, s, step))
  {
    match step
    case ClientInserts(c) =>
      ClientInsertKeeps(cfg, s, c);
      InsertKeepsControl(s, s.clients[c].pending[0], c, Apply(cfg, s, step));
    case Mark => InsertKeepsControl(s, cfg.marker, -1, Apply(cfg, s, step));
    case PeekerRuns => PeekerKeepsControl(s);
    case RemoverRuns => RemoverKeepsControl(s);
    case PeekerWakesUnasked =>
    case RemoverWakesUnasked =>
    case _ => SameControl(s, Apply(cfg, s, step));
  }

  lemma ThreadsKeep(cfg: Config, s: State, step: Step)
    requires Producers(cfg, s) && Interleaved(cfg, s) && MarkerLast(cfg, s) && Enabled(cfg, s, step)
    requires step.Accept? || step.ClientReturns? || step.Join?
    ensures var t := Apply(cfg, s, step);
            Producers(cfg, t) && Interleaved(cfg, t) && MarkerLast(cfg, t)
  {
  }

  lemma ConsumersInsertNothing(cfg: Config, s: State, t: State)
    requires Producers(cfg, s) && Interleaved(cfg, s) && MarkerLast(cfg, s)
    requires t.clients == s.clients && t.conns == s.conns && t.inserted == s.inserted && t.origin == s.origin
    ensures Producers(cfg, t) && Interleaved(cfg, t) && MarkerLast(cfg, t)
  {
  }

  lemma StepProducers(cfg: Config, s: State, step: Step)
    requires ValidConfig(cfg) && Inv(cfg, s) && Enabled(cfg, s, step)
    ensures var t := Apply(cfg, s, step);
            Producers(cfg, t) && Interleaved(cfg, t) && MarkerLast(cfg, t)
  {
    match step
    case ClientInserts(c) => ClientInsertKeeps(cfg, s, c);
    case Mark => MarkKeeps(cfg, s);
    case Accept => ThreadsKeep(cfg, s, step);
    case ClientReturns(_) => ThreadsKeep(cfg, s, step);
    case Join => ThreadsKeep(cfg, s, step);
    case _ => ConsumersInsertNothing(cfg, s, Apply(cfg, s, step));
  }

  lemma StepHistories(cfg: Config, s: State, step: Step)
    requires Inv(cfg, s) && Enabled(cfg, s, step)
    ensures Fifo(Apply(cfg, s, step)) && Consumed(cfg, Apply(cfg, s, step))
  {
    match step
    case ClientInserts(c) => InsertKeepsHistories(cfg, s, s.clients[c].pending[0], c);
    case Mark => InsertKeepsHistories(cfg, s, cfg.marker, -1);
    case PeekerRuns => PeekerKeepsHistories(cfg, s);
    case RemoverRuns => RemoverKeepsHistories(cfg, s);
    case _ =>
  }

  lemma StepInv(cfg: Config, s: State, step: Step)
    requires ValidConfig(cfg) && Inv(cfg, s) && Enabled(cfg, s, step)
    ensures Inv(cfg, Apply(cfg, s, step))
  {
    StepControl(cfg, s, step);
    StepProducers(cfg, s, step);
    StepHistories(cfg, s, step);
  }

  lemma StepAsked(cfg: Config, s: State, step: Step)
    requires Inv(cfg, s) && AskedInv(s) && Enabled(cfg, s, step) && !Harmful(s, step)
    ensures AskedInv(Apply(cfg, s, step))
  {
    match step
    case PeekerRuns => PeekerKeepsAsked(s);
    case RemoverRuns => RemoverKeepsAsked(s);
    case _ =>
  }

  lemma {:induction false} RunInv(cfg: Config, s: State, steps: seq<Step>)
    requires ValidConfig(cfg) && Inv(cfg, s) && Executes(cfg, s, steps)
    ensures Inv(cfg, After(cfg, s, steps))
    decreases |steps|
  {
    if steps != [] {
      StepInv(cfg, s, steps[0]);
      RunInv(cfg, Apply(cfg, s, steps[0]), steps[1..]);
    }
  }

  ghost predicate Harmless(cfg: Config, s: State, steps: seq<Step>)
    requires Executes(cfg, s, steps)
    decreases |steps|
  {
    steps != [] ==> !Harmful(s, steps[0]) && Harmless(cfg, Apply(cfg, s, steps[0]), steps[1..])
  }

  lemma {:induction false} AskedIsHarmless(cfg: Config, s: State, steps: seq<Step>)
    requires Executes(cfg, s, steps) && Asked(steps)
    ensures Harmless(cfg, s, steps)
    decreases |steps|
  {
    if steps != [] {
      AskedIsHarmless(cfg, Apply(cfg, s, steps[0]), steps[1..]);
    }
  }

  lemma {:induction false} RunAsked(cfg: Config, s: State, steps: seq<Step>)
    requires ValidConfig(cfg) && Inv(cfg, s) && AskedInv(s) && Executes(cfg, s, steps) && Harmless(cfg, s, steps)
    ensures AskedInv(After(cfg, s, steps))
    decreases |steps|
  {
    if steps != [] {
      StepInv(cfg, s, steps[0]);
      StepAsked(cfg, s, steps[0]);
      RunAsked(cfg, Apply(cfg, s, steps[0]), steps[1..]);
    }
  }

  lemma ReachableInv(cfg: Config, s: State)
    requires ValidConfig(cfg) && Reachable(cfg, s)
    ensures Inv(cfg, s)
  {
    var steps :| Executes(cfg, Init(cfg), steps) && After(cfg, Init(cfg), steps) == s;
    InitInv(cfg);
    RunInv(cfg, Init(cfg), steps);
  }

  lemma ReachableAskedInv(cfg: Config, s: State)
    requires ValidConfig(cfg) && ReachableAsked(cfg, s)
    ensures Inv(cfg, s) && AskedInv(s) && Reachable(cfg, s)
  {
    var steps :| Executes(cfg, Init(cfg), steps) && Asked(steps) && After(cfg, Init(cfg), steps) == s;
    InitInv(cfg);
    RunInv(cfg, Init(cfg), steps);
    AskedIsHarmless(cfg, Init(cfg), steps);
    RunAsked(cfg, Init(cfg), steps);
  }
}
