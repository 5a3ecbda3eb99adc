/** What holds in every reachable state of the gateway, and at every step from it. */
module GatewaySafety {
  import opened Gateway
  import opened GatewayInvariant
  import opened Handoff
  import opened Records
  import opened Windows

  /** Exactly once and in order to both consumers: the two histories are prefixes, at most one apart. */
  lemma ExactlyOnceInOrder(cfg: Config, s: State)
    requires ValidConfig(cfg) && Reachable(cfg, s)
    ensures s.inserted == s.removed + QueueData(s.shared.queue)
    ensures s.removed <= s.peeked <= s.inserted
    ensures |s.peeked| == |s.removed| + if HeadIs(s.shared, true) then 1 else 0
    ensures s.rows <= s.removed && |s.removed| <= |s.rows| + 1
    ensures s.handled <= s.peeked && |s.peeked| <= |s.handled| + 1
  {
    ReachableInv(cfg, s);
  }

  /**
   The reading that peek returns is the first one inserted that was not peeked before, so peek returns
   no node twice and skips none; it is not the end marker.
   */
  lemma PeekHandsOutTheNext(cfg: Config, s: State)
    requires ValidConfig(cfg) && Reachable(cfg, s) && Enabled(cfg, s, PeekerRuns)
    ensures var t := Apply(cfg, s, PeekerRuns);
            if t.peeker.Got?
            then |s.peeked| < |s.inserted| && t.peeker.data == s.inserted[|s.peeked|]
                 && t.peeker.data.id != 0 && t.peeked == s.peeked + [t.peeker.data]
            else t.peeked == s.peeked
  {
    ReachableInv(cfg, s);
    PeekerKeepsControl(s);
    PeekerKeepsFifo(s);
    var t := Apply(cfg, s, PeekerRuns);
    if t.peeker.Got? {
      assert t.shared.queue != [] && QueueData(t.shared.queue)[0] == t.peeker.data;
    }
  }

  /**
   The reading that remove returns is the first one not removed before; it has been peeked already,
   and it is not the end marker, so remove's second test for the end of the stream never succeeds.
   */
  lemma RemoveTakesOnlyPeeked(cfg: Config, s: State)
    requires ValidConfig(cfg) && Reachable(cfg, s) && Enabled(cfg, s, RemoverRuns)
    ensures var t := Apply(cfg, s, RemoverRuns);
            && (if t.remover.Got?
                then |s.removed| < |s.peeked| && t.remover.data == s.peeked[|s.removed|]
                     && t.remover.data.id != 0 && t.removed == s.removed + [t.remover.data]
                else t.removed == s.removed)
            && t.remover != TailWrite(REMOVERS_TURN)
  {
    ReachableInv(cfg, s);
    RemoverKeepsControl(s);
    RemoverKeepsFifo(s);
  }

  /** Only the head is ever marked as processed, and the end marker never is. */
  lemma OnlyTheHeadIsMarked(cfg: Config, s: State, i: nat)
    requires ValidConfig(cfg) && Reachable(cfg, s)
    requires i < |s.shared.queue| && s.shared.queue[i].processed
    ensures i == 0 && s.shared.queue[i].data.id != 0
  {
    ReachableInv(cfg, s);
  }

  lemma HeadsAreThere(s: State)
    requires Control(s)
    ensures s.remover.Past? || s.peeker == Past(ForData) ==> s.shared.queue != []
    ensures !s.remover.Fault? && s.peeker != Fault(ForData)
    ensures AskedInv(s) ==> (s.peeker == Past(ForTurn) ==> HeadIs(s.shared, false)) && !Crashed(s)
  {
  }

  /**
   No null head is dereferenced by remove, nor by peek after its wait for data, even when waits return
   unasked: wherever the code reads head->data after a wait, the queue is not empty.
   */
  lemma NoNullHead(cfg: Config, s: State)
    requires ValidConfig(cfg) && Reachable(cfg, s)
    ensures s.remover.Past? || s.peeker == Past(ForData) ==> s.shared.queue != []
    ensures !s.remover.Fault? && s.peeker != Fault(ForData)
  {
    ReachableInv(cfg, s);
    HeadsAreThere(s);
  }

  /** Nor by peek after its wait for its turn, unless that wait returned unasked while every queued node was peeked. */
  lemma NoNullHeadWithoutHarm(cfg: Config, steps: seq<Step>)
    requires ValidConfig(cfg) && Executes(cfg, Init(cfg), steps) && Harmless(cfg, Init(cfg), steps)
    ensures var s := After(cfg, Init(cfg), steps);
            (s.peeker == Past(ForTurn) ==> HeadIs(s.shared, false)) && !Crashed(s)
  {
    InitInv(cfg);
    RunInv(cfg, Init(cfg), steps);
    RunAsked(cfg, Init(cfg), steps);
    HeadsAreThere(After(cfg, Init(cfg), steps));
  }

  /** In particular, no null head is dereferenced as long as no wait returned unasked. */
  lemma NoNullHeadWhenAsked(cfg: Config, s: State)
    requires ValidConfig(cfg) && ReachableAsked(cfg, s)
    ensures s.peeker == Past(ForTurn) ==> HeadIs(s.shared, false)
    ensures !Crashed(s)
  {
    ReachableAskedInv(cfg, s);
    HeadsAreThere(s);
  }

  /** At every moment the data manager's log is what the readings it has handled demand. */
  lemma LogIsExact(cfg: Config, s: State)
    requires ValidConfig(cfg) && Reachable(cfg, s)
    ensures s.log == SpecLog(cfg.mappings, s.handled)
    ensures Summarizes(s.table, cfg.mappings, s.handled)
  {
    ReachableInv(cfg, s);
    HandleAllSummarizes(cfg.mappings, s.handled);
  }

  lemma HistoriesNest(cfg: Config, s: State)
    requires Fifo(s) && Consumed(cfg, s) && s.remover.Got?
    ensures s.rows + [s.remover.data] <= s.peeked && |s.peeked| <= |s.rows| + 2
    ensures s.handled <= s.peeked && |s.peeked| <= |s.handled| + 1
  {
  }

  lemma LagOf(rows: seq<Reading>, d: Reading, peeked: seq<Reading>, handled: seq<Reading>)
    requires rows + [d] <= peeked && |peeked| <= |rows| + 2
    requires handled <= peeked && |peeked| <= |handled| + 1
    ensures peeked[|rows|] == d && rows <= handled
  {
    assert rows == peeked[..|rows|] && handled == peeked[..|handled|];
  }

  lemma LagNow(cfg: Config, s: State)
    requires ValidConfig(cfg) && Reachable(cfg, s) && s.remover.Got?
    ensures |s.rows| < |s.peeked| <= |s.rows| + 2 && s.peeked[|s.rows|] == s.remover.data
    ensures s.rows <= s.handled
  {
    ReachableInv(cfg, s);
    HistoriesNest(cfg, s);
    LagOf(s.rows, s.remover.data, s.peeked, s.handled);
  }

  lemma RowIsWritten(cfg: Config, s: State)
    requires s.remover.Got? && Enabled(cfg, s, RemoverRuns)
    ensures Apply(cfg, s, RemoverRuns).rows == s.rows + [s.remover.data]
  {
  }

  /**
   When the sensor db writes row i, the data manager has been handed reading i, has finished with every
   reading before it, and is at most one reading further.
   */
  lemma BoundedLag(cfg: Config, s: State)
    requires ValidConfig(cfg) && Reachable(cfg, s)
    requires s.remover.Got? && Enabled(cfg, s, RemoverRuns)
    ensures Apply(cfg, s, RemoverRuns).rows == s.rows + [s.remover.data]
    ensures |s.rows| < |s.peeked| <= |s.rows| + 2 && s.peeked[|s.rows|] == s.remover.data
    ensures s.rows <= s.handled && s.log == SpecLog(cfg.mappings, s.handled)
  {
    RowIsWritten(cfg, s);
    LogIsExact(cfg, s);
    LagNow(cfg, s);
  }

  lemma {:induction false} FromPrefix(records: seq<Reading>, origin: seq<int>, c: int, n: nat)
    requires |records| == |origin| && n <= |records|
    ensures From(records[..n], origin[..n], c) <= From(records, origin, c)
    decreases |records|
  {
    var m := |records| - 1;
    if n <= m {
      FromPrefix(records[..m], origin[..m], c, n);
      assert records[..m][..n] == records[..n] && origin[..m][..n] == origin[..n];
    } else {
      assert records[..n] == records && origin[..n] == origin;
    }
  }

  /** The records inserted are an interleaving of what the clients have sent so far, and so are the rows. */
  lemma ClientOrderKept(cfg: Config, s: State, c: nat)
    requires ValidConfig(cfg) && Reachable(cfg, s) && c < |cfg.streams|
    ensures |s.origin| == |s.inserted| && s.rows <= s.inserted
    ensures From(s.rows, s.origin[..|s.rows|], c) <= From(s.inserted, s.origin, c) <= cfg.streams[c]
  {
    ReachableInv(cfg, s);
    assert From(s.inserted, s.origin, c) + s.clients[c].pending == cfg.streams[c];
    assert s.rows <= s.removed <= s.inserted;
    assert s.rows == s.inserted[..|s.rows|];
    FromPrefix(s.inserted, s.origin, c, |s.rows|);
  }

  /** The end marker is inserted once, by the connection manager, and no record is inserted after it. */
  lemma MarkerIsLast(cfg: Config, s: State, step: Step)
    requires ValidConfig(cfg) && Reachable(cfg, s) && Enabled(cfg, s, step)
    ensures s.conns.Ended? ==> Apply(cfg, s, step).inserted == s.inserted
    ensures forall i :: 0 <= i < |s.inserted| ==>
              (s.inserted[i].id == 0 <==> s.conns.Ended? && i == |s.inserted| - 1)
  {
    ReachableInv(cfg, s);
    if step.ClientInserts? {
      ClientInsertKeeps(cfg, s, step.c);
    }
  }
}
