/**
 The mutex-held segments of sbuffer.c as functions of the shared state, and the program points of
 the two consumers. A consumer keeps the mutex from one point to the next unless the point says
 otherwise. No segment touches `condition` more than once.
 */
module Handoff {
  import opened Records

  datatype Slot = Slot(data: Reading, processed: bool)

  /** The queue from head to tail, and the global `condition`. */
  datatype Shared = Shared(queue: seq<Slot>, condition: int)

  const EMPTY := 0
  const PEEKERS_TURN := 1
  const REMOVERS_TURN := 2

  /** Which of a call's two waits a program point belongs to. */
  datatype Wait = ForData | ForTurn

  /**
   Where a consumer stands. At(Test) it holds the mutex and is about to test `condition`; at Sleep it
   holds the mutex, has read a value that makes it wait, and is about to wait; Asleep and Woken are
   inside pthread_cond_wait, without the mutex; at Past it holds the mutex and has left the loop.
   TailWrite and TailSignal are the two accesses made after the mutex is released at the end of the
   stream. Got is back in the caller with a reading. Fault is a null head dereferenced.
   */
  datatype Point =
    | Start
    | Test(wait: Wait)
    | Sleep(wait: Wait)
    | Asleep(wait: Wait)
    | Woken(wait: Wait)
    | Past(wait: Wait)
    | TailWrite(value: int)
    | TailSignal
    | Got(data: Reading)
    | Done
    | Fault(wait: Wait)

  /** The result of a segment: the next point, the shared state, and whether it signalled. */
  datatype Outcome = Outcome(point: Point, shared: Shared, signal: bool)

  predicate HoldsMutex(p: Point)
  {
    p.Test? || p.Sleep? || p.Past?
  }

  // ----- sbuffer_insert -----

  function Insert(sh: Shared, d: Reading): Shared
  {
    Shared(sh.queue + [Slot(d, false)], if sh.queue == [] then PEEKERS_TURN else sh.condition)
  }

  // ----- sbuffer_remove -----

  function RemoveEnter(sh: Shared): Outcome
  {
    if sh.queue == [] then Outcome(Test(ForData), sh.(condition := EMPTY), false)
    else RemoveWithData(sh)
  }

  function RemoveWithData(sh: Shared): Outcome
  {
    if sh.queue == [] then Outcome(Fault(ForData), sh, false)
    else if sh.queue[0].data.id == END_MARKER && !sh.queue[0].processed then
      Outcome(TailWrite(PEEKERS_TURN), sh, false)
    else if !sh.queue[0].processed then
      Outcome(Test(ForTurn), sh.(condition := PEEKERS_TURN), true)
    else RemoveInTurn(sh)
  }

  function RemoveInTurn(sh: Shared): Outcome
  {
    if sh.queue == [] then Outcome(Fault(ForTurn), sh, false)
    else if sh.queue[0].data.id == END_MARKER then Outcome(TailWrite(REMOVERS_TURN), sh, false)
    else Outcome(Got(sh.queue[0].data), sh.(queue := sh.queue[1..]), false)
  }

  // ----- sbuffer_peek -----

  function PeekEnter(sh: Shared): Outcome
  {
    if sh.queue == [] then Outcome(Test(ForData), sh.(condition := EMPTY), false)
    else PeekWithData(sh)
  }

  function PeekWithData(sh: Shared): Outcome
  {
    if sh.queue == [] then Outcome(Fault(ForData), sh, false)
    else if sh.queue[0].data.id == END_MARKER then Outcome(TailWrite(REMOVERS_TURN), sh, false)
    else if sh.queue[0].processed then Outcome(Test(ForTurn), sh.(condition := REMOVERS_TURN), false)
    else PeekInTurn(sh)
  }

  function PeekInTurn(sh: Shared): Outcome
  {
    if sh.queue == [] then Outcome(Fault(ForTurn), sh, false)
    else if sh.queue[0].data.id == END_MARKER then Outcome(TailWrite(REMOVERS_TURN), sh, false)
    else
      var head := sh.queue[0];
      Outcome(Got(head.data), Shared([head.(processed := true)] + sh.queue[1..], REMOVERS_TURN), true)
  }

  // ----- the wait loops -----

  /** The value of `condition` for which a consumer keeps waiting. */
  function RemoverWaitsOn(w: Wait): int
  {
    if w == ForData then EMPTY else PEEKERS_TURN
  }

  function PeekerWaitsOn(w: Wait): int
  {
    if w == ForData then EMPTY else REMOVERS_TURN
  }
}
