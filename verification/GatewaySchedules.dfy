/** Which runs the gateway has: no thread waits for anything but what the source makes it wait for. */
module GatewaySchedules {
  import opened Gateway
  import opened GatewayInvariant
  import opened GatewayProgress
  import opened Handoff
  import opened Records

  // ----- who can run -----

  /** A consumer can run at any time, unless it sleeps, has ended, or has yet to get a mutex that the other one holds. */
  lemma ConsumersRunFreely(cfg: Config, s: State)
    requires ValidConfig(cfg) && Reachable(cfg, s) && !Crashed(s)
    ensures Enabled(cfg, s, PeekerRuns) <==>
            && !s.peeker.Asleep? && s.peeker != Done
            && (s.peeker.Start? || s.peeker.Woken? ==> !s.remover.Test? && !s.remover.Sleep? && !s.remover.Past?)
    ensures Enabled(cfg, s, RemoverRuns) <==>
            && !s.remover.Asleep? && s.remover != Done
            && (s.remover.Start? || s.remover.Woken? ==> !s.peeker.Test? && !s.peeker.Sleep? && !s.peeker.Past?)
    ensures Enabled(cfg, s, PeekerWakesUnasked) <==> s.peeker.Asleep?
    ensures Enabled(cfg, s, RemoverWakesUnasked) <==> s.remover.Asleep?
  {
    ReachableInv(cfg, s);
  }

  /**
   Whatever has happened, any client that is connected and has a record left may be the next to insert, once no
   consumer holds the mutex; its record goes to the end of the queue and wakes whoever sleeps.
   */
  lemma AnyClientMayBeNext(cfg: Config, s: State, c: nat) returns (t: State)
    requires ValidConfig(cfg) && Reachable(cfg, s) && !Crashed(s)
    requires !s.peeker.Test? && !s.peeker.Sleep? && !s.peeker.Past?
    requires !s.remover.Test? && !s.remover.Sleep? && !s.remover.Past?
    requires c < |s.clients| && s.clients[c].pending != [] && (s.conns.Accepting? ==> c < s.conns.accepted)
    ensures Reachable(cfg, t)
    ensures var d := s.clients[c].pending[0];
            && t.inserted == s.inserted + [d] && t.origin == s.origin + [c]
            && t.shared.queue == s.shared.queue + [Slot(d, false)]
            && t.shared.condition == (if s.shared.queue == [] then 1 else s.shared.condition)
            && t.peeker == (if s.peeker.Asleep? then Woken(s.peeker.wait) else s.peeker)
            && t.remover == (if s.remover.Asleep? then Woken(s.remover.wait) else s.remover)
            && t.clients == s.clients[c := s.clients[c].(pending := s.clients[c].pending[1..])]
            && t.conns == s.conns && t.rows == s.rows && t.log == s.log
  {
    ReachableInv(cfg, s);
    t := Next(cfg, s, ClientInserts(c));
  }

  /** Nothing that was logged, written, inserted or handed over is ever taken back. */
  lemma HistoriesOnlyGrow(cfg: Config, s: State, step: Step)
    requires Enabled(cfg, s, step)
    ensures var t := Apply(cfg, s, step);
            && s.rows <= t.rows && s.log <= t.log
            && s.inserted <= t.inserted && s.origin <= t.origin
            && s.peeked <= t.peeked && s.handled <= t.handled && s.removed <= t.removed
  {
  }

  // ----- connections -----

  ghost function Accepted(s: State): int
  {
    match s.conns
    case Accepting(n) => n
    case _ => |s.clients|
  }

  ghost function Joined(s: State): int
  {
    match s.conns
    case Accepting(_) => 0
    case Joining(left) => |s.clients| - left
    case Ended => |s.clients|
  }

  lemma ConnectionStep(cfg: Config, s: State, step: Step)
    requires Producers(cfg, s) && Enabled(cfg, s, step)
    ensures Accepted(Apply(cfg, s, step)) == Accepted(s) + if step.Accept? then 1 else 0
    ensures Joined(Apply(cfg, s, step)) == Joined(s) + if step.Join? then 1 else 0
  {
  }

  lemma {:induction false} ConnectionRun(cfg: Config, s: State, steps: seq<Step>)
    requires ValidConfig(cfg) && Inv(cfg, s) && Executes(cfg, s, steps)
    ensures Accepted(After(cfg, s, steps)) == Accepted(s) + multiset(steps)[Accept]
    ensures Joined(After(cfg, s, steps)) == Joined(s) + multiset(steps)[Join]
    decreases |steps|
  {
    if steps != [] {
      ConnectionStep(cfg, s, steps[0]);
      StepInv(cfg, s, steps[0]);
      ConnectionRun(cfg, Apply(cfg, s, steps[0]), steps[1..]);
      assert steps == [steps[0]] + steps[1..];
    }
  }

  lemma ConnectionsAre(cfg: Config, s: State)
    requires Inv(cfg, s) && !Crashed(s)
    ensures Enabled(cfg, s, Accept) <==> Accepted(s) < |cfg.streams|
    ensures Enabled(cfg, s, Join) <==>
            && Accepted(s) == |cfg.streams| && Joined(s) < |cfg.streams| == |s.clients|
            && s.clients[|cfg.streams| - 1 - Joined(s)].returned
    ensures Enabled(cfg, s, Mark) <==> Joined(s) == |cfg.streams| && !s.conns.Ended? && MutexFree(s)
    ensures forall c: nat :: Enabled(cfg, s, ClientReturns(c)) <==>
              c < Accepted(s) <= |s.clients| && s.clients[c].pending == [] && !s.clients[c].returned
    ensures forall c: nat :: Enabled(cfg, s, ClientInserts(c)) <==>
              c < Accepted(s) <= |s.clients| && s.clients[c].pending != [] && MutexFree(s)
  {
  }

  /**
   What the connection manager and the client threads can do after any run. All connections are accepted before
   any thread is joined; a thread is joined after it has returned, the last one first; the marker follows the last
   join, once. A client can insert and return as soon as its own connection has been accepted.
   */
  lemma ConnectionsInOrder(cfg: Config, steps: seq<Step>, c: nat)
    requires ValidConfig(cfg) && Executes(cfg, Init(cfg), steps) && !Crashed(After(cfg, Init(cfg), steps))
    ensures var s, n := After(cfg, Init(cfg), steps), |cfg.streams|;
            var accepts, joins := multiset(steps)[Accept], multiset(steps)[Join];
            && |s.clients| == n
            && (Enabled(cfg, s, Accept) <==> accepts < n)
            && (Enabled(cfg, s, Join) <==>
                  accepts == n && joins < n && s.clients[n - 1 - joins].returned)
            && (Enabled(cfg, s, Mark) <==> joins == n && !s.conns.Ended? && MutexFree(s))
            && (joins > 0 ==> accepts == n)
            && (Enabled(cfg, s, ClientReturns(c)) <==>
                  c < n && c < accepts && s.clients[c].pending == [] && !s.clients[c].returned)
            && (Enabled(cfg, s, ClientInserts(c)) <==>
                  c < n && c < accepts && s.clients[c].pending != [] && MutexFree(s))
  {
    InitInv(cfg);
    ConnectionRun(cfg, Init(cfg), steps);
    RunInv(cfg, Init(cfg), steps);
    ConnectionsAre(cfg, After(cfg, Init(cfg), steps));
  }

  // ----- every order of the clients occurs -----

  ghost predicate NobodyConsumes(s: State)
  {
    s.peeker == Start && s.remover == Start
  }

  lemma {:induction false} AcceptUpTo(cfg: Config, k: nat) returns (s: State)
    requires ValidConfig(cfg) && k <= |cfg.streams|
    ensures ReachableAsked(cfg, s)
    ensures s == Init(cfg).(conns := if k < |cfg.streams| then Accepting(k) else Joining(k))
    decreases k
  {
    if k == 0 {
      s := Init(cfg);
      assert Executes(cfg, s, []) && After(cfg, s, []) == s && Asked([]);
    } else {
      s := AcceptUpTo(cfg, k - 1);
      s := NextAsked(cfg, s, Accept);
    }
  }

  /** An order in which the records of all clients can go in. */
  ghost predicate OrderOf(cfg: Config, order: seq<int>)
  {
    && (forall i :: 0 <= i < |order| ==> 0 <= order[i] < |cfg.streams|)
    && forall c :: 0 <= c < |cfg.streams| ==> multiset(order)[c] == |cfg.streams[c]|
  }

  ghost predicate InsertedInOrder(cfg: Config, order: seq<int>, k: nat, s: State)
    requires k <= |order|
  {
    && NobodyConsumes(s) && s.conns == Joining(|cfg.streams|) && s.origin == order[..k]
    && |s.clients| == |cfg.streams|
    && forall c :: 0 <= c < |s.clients| ==>
         !s.clients[c].returned && |s.clients[c].pending| + multiset(order[..k])[c] == |cfg.streams[c]|
  }

  lemma NextInOrder(order: seq<int>, k: nat)
    requires 0 < k <= |order|
    ensures multiset(order[..k]) == multiset(order[..k - 1]) + multiset{order[k - 1]}
    ensures multiset(order[..k]) <= multiset(order)
  {
    assert order[..k] == order[..k - 1] + [order[k - 1]];
    assert order == order[..k] + order[k..];
  }

  lemma InsertNext(cfg: Config, order: seq<int>, k: nat, s: State)
    requires OrderOf(cfg, order) && 0 < k <= |order| && InsertedInOrder(cfg, order, k - 1, s)
    ensures Enabled(cfg, s, ClientInserts(order[k - 1]))
    ensures InsertedInOrder(cfg, order, k, Apply(cfg, s, ClientInserts(order[k - 1])))
  {
    NextInOrder(order, k);
    assert multiset(order[..k])[order[k - 1]] <= multiset(order)[order[k - 1]];
  }

  lemma {:induction false} InsertUpTo(cfg: Config, order: seq<int>, k: nat) returns (s: State)
    requires ValidConfig(cfg) && OrderOf(cfg, order) && k <= |order|
    ensures ReachableAsked(cfg, s) && InsertedInOrder(cfg, order, k, s)
    decreases k
  {
    if k == 0 {
      s := AcceptUpTo(cfg, |cfg.streams|);
    } else {
      var before := InsertUpTo(cfg, order, k - 1);
      InsertNext(cfg, order, k, before);
      s := NextAsked(cfg, before, ClientInserts(order[k - 1]));
    }
  }

  ghost predicate AllIn(cfg: Config, origin: seq<int>, s: State)
  {
    && NobodyConsumes(s) && s.origin == origin && |s.clients| == |cfg.streams|
    && forall c :: 0 <= c < |s.clients| ==> s.clients[c].pending == []
  }

  lemma {:induction false} ReturnUpTo(cfg: Config, order: seq<int>, k: nat) returns (s: State)
    requires ValidConfig(cfg) && OrderOf(cfg, order) && k <= |cfg.streams|
    ensures ReachableAsked(cfg, s) && AllIn(cfg, order, s) && s.conns == Joining(|cfg.streams|)
    ensures forall c :: 0 <= c < |s.clients| ==> (s.clients[c].returned <==> c < k)
    decreases k
  {
    if k == 0 {
      s := InsertUpTo(cfg, order, |order|);
      assert order[..|order|] == order;
    } else {
      s := ReturnUpTo(cfg, order, k - 1);
      s := NextAsked(cfg, s, ClientReturns(k - 1));
    }
  }

  lemma {:induction false} JoinDownTo(cfg: Config, order: seq<int>, k: nat) returns (s: State)
    requires ValidConfig(cfg) && OrderOf(cfg, order) && k <= |cfg.streams|
    ensures ReachableAsked(cfg, s) && AllIn(cfg, order, s) && s.conns == Joining(k)
    ensures forall c :: 0 <= c < |s.clients| ==> s.clients[c].returned
    decreases |cfg.streams| - k
  {
    if k == |cfg.streams| {
      s := ReturnUpTo(cfg, order, k);
    } else {
      s := JoinDownTo(cfg, order, k + 1);
      s := NextAsked(cfg, s, Join);
    }
  }

  /** A run that goes on after the marker inserts nothing more. */
  lemma {:induction false} GoOn(cfg: Config, s: State, steps: seq<Step>)
    requires ValidConfig(cfg) && ReachableAsked(cfg, s) && s.conns.Ended?
    requires Executes(cfg, s, steps) && Asked(steps)
    ensures ReachableAsked(cfg, After(cfg, s, steps)) && After(cfg, s, steps).origin == s.origin
    decreases |steps|
  {
    if steps != [] {
      ReachableAskedInv(cfg, s);
      var t := NextAsked(cfg, s, steps[0]);
      GoOn(cfg, t, steps[1..]);
    }
  }

  /** In whatever order the clients' records are to go in, some run of the gateway takes them in that order, and finishes. */
  lemma AnyOrderOccurs(cfg: Config, order: seq<int>) returns (steps: seq<Step>)
    requires cfg.streams != [] && cfg.marker.id == 0
    requires forall c, i :: 0 <= c < |cfg.streams| && 0 <= i < |cfg.streams[c]| ==> cfg.streams[c][i].id != 0
    requires forall i :: 0 <= i < |order| ==> 0 <= order[i] < |cfg.streams|
    requires forall c :: 0 <= c < |cfg.streams| ==> multiset(order)[c] == |cfg.streams[c]|
    ensures Executes(cfg, Init(cfg), steps) && Asked(steps)
    ensures var s := After(cfg, Init(cfg), steps);
            s.peeker == Done && s.remover == Done && s.origin == order + [-1]
  {
    assert ValidConfig(cfg) && OrderOf(cfg, order);
    var s := JoinDownTo(cfg, order, 0);
    s := NextAsked(cfg, s, Mark);
    ReachableAskedInv(cfg, s);
    CompletionStaysPossible(cfg, s);
    var rest :| Executes(cfg, s, rest) && Asked(rest) && Finished(After(cfg, s, rest));
    GoOn(cfg, s, rest);
    var t := After(cfg, s, rest);
    steps :| Executes(cfg, Init(cfg), steps) && Asked(steps) && After(cfg, Init(cfg), steps) == t;
  }
}
