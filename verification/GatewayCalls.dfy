/**
 The calls of sbuffer_peek and sbuffer_remove as their callers see them when nothing comes in between,
 and what `condition` tells at any moment.
 */
module GatewayCalls {
  import opened Gateway
  import opened GatewayInvariant
  import opened Handoff
  import opened Records

  /** The state after three steps of the peeker alone. */
  ghost function Peeks3(s: State): State
  {
    PeekerStep(PeekerStep(PeekerStep(s)))
  }

  ghost function Removes3(s: State): State
  {
    RemoverStep(RemoverStep(RemoverStep(s)))
  }

  /**
   A call of peek: on an empty buffer it waits for data; at the end of the stream it returns for good; a head
   that was peeked before makes it wait for the remover; any other head is marked and returned.
   */
  lemma PeekCall(s: State)
    requires s.peeker == Start
    ensures var q, woken := s.shared.queue, if s.remover.Asleep? then Woken(s.remover.wait) else s.remover;
            if q == [] then
              Peeks3(s) == s.(peeker := Asleep(ForData), shared := Shared([], 0))
            else if q[0].data.id == 0 then
              Peeks3(s) == s.(peeker := Done, shared := Shared(q, 2), remover := woken)
            else if q[0].processed then
              Peeks3(s) == s.(peeker := Asleep(ForTurn), shared := Shared(q, 2))
            else
              PeekerStep(s) == s.(peeker := Got(q[0].data), shared := Shared([Slot(q[0].data, true)] + q[1..], 2),
                                remover := woken, peeked := s.peeked + [q[0].data])
  {
  }

  /** A peek that is woken looks at `condition` first, and at the head only if it has changed. */
  lemma PeekWoken(s: State)
    requires s.peeker.Woken?
    ensures var q, w, woken := s.shared.queue, s.peeker.wait, if s.remover.Asleep? then Woken(s.remover.wait) else s.remover;
            if s.shared.condition == (if w == ForData then 0 else 2) then
              Peeks3(s) == s.(peeker := Asleep(w))
            else if q == [] then
              Peeks3(s) == s.(peeker := Fault(w))
            else if q[0].data.id == 0 then
              Peeks3(PeekerStep(PeekerStep(s))) == s.(peeker := Done, shared := Shared(q, 2), remover := woken)
            else if w == ForData && q[0].processed then
              Peeks3(PeekerStep(PeekerStep(s))) == s.(peeker := Asleep(ForTurn), shared := Shared(q, 2))
            else
              Peeks3(s) == s.(peeker := Got(q[0].data), shared := Shared([Slot(q[0].data, true)] + q[1..], 2),
                                remover := woken, peeked := s.peeked + [q[0].data])
  {
    var t := PeekerStep(PeekerStep(s));
    if s.shared.condition != PeekerWaitsOn(s.peeker.wait) {
      assert t == s.(peeker := Past(s.peeker.wait));
    }
  }

  /**
   A call of remove: on an empty buffer it waits for data; at the end of the stream it returns for good; a head
   that was not peeked yet makes it call the peeker and wait; any other head is popped and returned.
   */
  lemma RemoveCall(s: State)
    requires s.remover == Start
    ensures var q, woken := s.shared.queue, if s.peeker.Asleep? then Woken(s.peeker.wait) else s.peeker;
            if q == [] then
              Removes3(s) == s.(remover := Asleep(ForData), shared := Shared([], 0))
            else if q[0].data.id == 0 then
              Removes3(s) == s.(remover := Done, shared := Shared(q, if q[0].processed then 2 else 1), peeker := woken)
            else if !q[0].processed then
              Removes3(s) == s.(remover := Asleep(ForTurn), shared := Shared(q, 1), peeker := woken)
            else
              RemoverStep(s) == s.(remover := Got(q[0].data), shared := Shared(q[1..], s.shared.condition),
                                  removed := s.removed + [q[0].data])
  {
  }

  /** A remove that is woken looks at `condition` first, and at the head only if it has changed. */
  lemma RemoveWoken(s: State)
    requires s.remover.Woken?
    ensures var q, w, woken := s.shared.queue, s.remover.wait, if s.peeker.Asleep? then Woken(s.peeker.wait) else s.peeker;
            if s.shared.condition == (if w == ForData then 0 else 1) then
              Removes3(s) == s.(remover := Asleep(w))
            else if q == [] then
              Removes3(s) == s.(remover := Fault(w))
            else if q[0].data.id == 0 then
              Removes3(RemoverStep(RemoverStep(s))) == s.(remover := Done, peeker := woken,
                                  shared := Shared(q, if w == ForData && !q[0].processed then 1 else 2))
            else if w == ForData && !q[0].processed then
              Removes3(RemoverStep(RemoverStep(s))) == s.(remover := Asleep(ForTurn), shared := Shared(q, 1), peeker := woken)
            else
              Removes3(s) == s.(remover := Got(q[0].data), shared := Shared(q[1..], s.shared.condition),
                                  removed := s.removed + [q[0].data])
  {
    var t := RemoverStep(RemoverStep(s));
    if s.shared.condition != RemoverWaitsOn(s.remover.wait) {
      assert t == s.(remover := Past(s.remover.wait));
    }
  }

  lemma ControlTells(s: State)
    requires Control(s)
    ensures 0 <= s.shared.condition <= 2
    ensures s.shared.queue != [] ==> s.shared.condition != 0
    ensures s.peeker == Asleep(ForData) || s.remover == Asleep(ForData) ==>
              s.shared.queue == [] && s.shared.condition == 0
    ensures s.remover == Asleep(ForTurn) ==>
              && s.shared.queue != [] && !s.shared.queue[0].processed && s.shared.queue[0].data.id != 0
              && s.shared.condition == 1
    ensures s.peeker == Asleep(ForTurn) && s.shared.queue != [] && s.shared.queue[0].processed ==>
              s.shared.condition == 2
  {
  }

  /** What a sleeping consumer waits for, and what `condition` is meanwhile. */
  lemma ConditionTells(cfg: Config, s: State)
    requires ValidConfig(cfg) && Reachable(cfg, s)
    ensures 0 <= s.shared.condition <= 2
    ensures s.shared.queue != [] ==> s.shared.condition != 0
    ensures s.peeker == Asleep(ForData) || s.remover == Asleep(ForData) ==>
              s.shared.queue == [] && s.shared.condition == 0
    ensures s.remover == Asleep(ForTurn) ==>
              && s.shared.queue != [] && !s.shared.queue[0].processed && s.shared.queue[0].data.id != 0
              && s.shared.condition == 1
    ensures s.peeker == Asleep(ForTurn) && s.shared.queue != [] && s.shared.queue[0].processed ==>
              s.shared.condition == 2
  {
    ReachableInv(cfg, s);
    ControlTells(s);
  }
}
