/**
 * What is known of the order of one queue, whatever has happened to it.  Since it was last empty a queue has gone
 * through a run of `Scheduler`, perhaps with its base reset by a move; or a move was followed by other steps, which
 * kept the order; or one of those steps has lost it.
 */
module QueueHistory {
  import opened Scheduler

  /** `moved` tells that the base was reset since the last choice. */
  datatype History = Sound(start: Queue, ops: seq<Op>, moved: bool) | Ordered | Lost

  ghost predicate Tells(h: History, q: Queue)
  {
    && WellFormed(q) && Wrapped(q)
    && (h.Sound? ==>
        && h.start.items == map[] && 0 <= h.start.base < CYCLE_WRAP && Legal(h.start, h.ops)
        && q == if h.moved then Moved(Run(h.start, h.ops)) else Run(h.start, h.ops))
    && (h.Ordered? ==> StrictTotalOrder(q))
  }

  /** The history after one more step. */
  ghost function Logged(h: History, q: Queue, op: Op): History
    requires WellFormed(q) && Possible(q, op)
  {
    var next := Apply(q, op);
    if next.items == map[] then Sound(next, [], false)
    else if h.Lost? then Lost
    else if h.Sound? && !h.moved then (if op.ResetBase? then h.(moved := true) else h.(ops := h.ops + [op]))
    else if h.Sound? && op.Remove? then h.(ops := h.ops + [op])
    else if h.Sound? && op.Choose? then Sound(h.start, h.ops + [op], false)
    else if h.Sound? && op.ResetBase? then h
    else if StepNear(q, op) then Ordered
    else Lost
  }

  /** One step of a queue and its history. */
  ghost predicate Goes(h: History, q: Queue, op: Op, h': History, q': Queue)
  {
    WellFormed(q) && Possible(q, op) && q' == Apply(q, op) && h' == Logged(h, q, op)
  }

  lemma RunSound(h: History, q: Queue)
    requires Tells(h, q) && h.Sound?
    ensures WellFormed(Run(h.start, h.ops)) && VLegal(h.start, h.ops)
    ensures Related(Run(h.start, h.ops), VRun(h.start, h.ops)) && VInvariant(VRun(h.start, h.ops))
  {
    hide Related, VInvariant, Legal, VLegal, Run, VRun, StrictTotalOrder;
    EmptyRelated(h.start);
    RunsAgree(h.start, h.start, h.ops);
    VInvariantWellFormed(VRun(h.start, h.ops));
    RelatedWellFormed(Run(h.start, h.ops), VRun(h.start, h.ops));
  }

  /** The order in a queue that is not lost is strict and total. */
  lemma HistoryOrder(h: History, q: Queue)
    requires Tells(h, q) && !h.Lost?
    ensures StrictTotalOrder(q)
  {
    hide StrictTotalOrder, IsTop, VIsTop, Legal, VLegal, Run, VRun, WellFormed;
    if h.Sound? { SoundOrder(h, q); }
  }

  /** In a queue that has gone through a run, the top is first in unbounded time. */
  lemma SoundOrder(h: History, q: Queue)
    requires Tells(h, q) && h.Sound?
    ensures StrictTotalOrder(q) && VLegal(h.start, h.ops)
    ensures forall id :: IsTop(q, id) <==> VIsTop(VRun(h.start, h.ops), id)
  {
    hide Related, VInvariant, Legal, VLegal, Run, VRun, Less, VLess;
    RunSound(h, q);
    var r, v := Run(h.start, h.ops), VRun(h.start, h.ops);
    TotalOrder(r, v);
    assert q.items == r.items;
    forall id ensures IsTop(q, id) <==> VIsTop(v, id) {
      TopAgrees(r, v, id);
      assert IsTop(q, id) == IsTop(r, id);
    }
  }

  lemma LogStep(h: History, q: Queue, op: Op)
    requires Tells(h, q) && Possible(q, op) && (op.Choose? && h.Sound? ==> IsTop(q, op.id))
    ensures Tells(Logged(h, q, op), Apply(q, op))
  {
    hide Legal, Run, WellFormed, Less, Apply, StrictTotalOrder, StepNear;
    ApplyWellFormed(q, op);
    if Apply(q, op).items == map[] {
      EmptyTells(Apply(q, op));
    } else if h.Ordered? {
      StepOrder(q, op);
    } else if h.Sound? && h.moved {
      LogMoved(h, q, op);
    } else if h.Sound? && !op.ResetBase? {
      RunSound(h, q);
      RunFurther(h.start, h.ops, op);
    } else if h.Sound? {
      ResetMoves(q);
    }
  }

  lemma ResetMoves(q: Queue)
    requires WellFormed(q)
    ensures Apply(q, ResetBase) == Moved(q)
  {
  }

  lemma EmptyTells(q: Queue)
    requires WellFormed(q) && Wrapped(q) && q.items == map[]
    ensures Tells(Sound(q, [], false), q)
  {
  }

  lemma LogMoved(h: History, q: Queue, op: Op)
    requires Tells(h, q) && Possible(q, op) && h.Sound? && h.moved && (op.Choose? ==> IsTop(q, op.id))
    requires Apply(q, op).items != map[]
    ensures Tells(Logged(h, q, op), Apply(q, op))
  {
    hide Legal, Run, WellFormed, Less, StrictTotalOrder, StepNear;
    ApplyWellFormed(q, op);
    RunSound(h, q);
    var r := Run(h.start, h.ops);
    if op.Remove? || op.Choose? {
      if op.Choose? { assert IsTop(r, op.id); }
      RunFurther(h.start, h.ops, op);
    } else if !op.ResetBase? {
      HistoryOrder(h, q);
      StepOrder(q, op);
    }
  }

  /** Only a step that does lose the order makes the history a lost one. */
  lemma LostExactly(h: History, q: Queue, op: Op)
    requires Tells(h, q) && !h.Lost? && Possible(q, op) && (op.Choose? && h.Sound? ==> IsTop(q, op.id))
    ensures Logged(h, q, op).Lost? <==> !StrictTotalOrder(Apply(q, op))
  {
    hide Tells, Logged, StrictTotalOrder, Apply, StepNear, Possible;
    TellsWellFormed(h, q);
    LogStep(h, q, op);
    HistoryOrder(h, q);
    StepOrder(q, op);
    if Logged(h, q, op).Lost? {
      LostFar(h, q, op);
    } else {
      HistoryOrder(Logged(h, q, op), Apply(q, op));
    }
  }

  lemma TellsWellFormed(h: History, q: Queue)
    requires Tells(h, q)
    ensures WellFormed(q) && Wrapped(q)
  {
  }

  lemma LostFar(h: History, q: Queue, op: Op)
    requires WellFormed(q) && Possible(q, op) && !h.Lost? && Logged(h, q, op).Lost?
    ensures !StepNear(q, op)
  {
  }

  /** A queue that has lost its order gets it back when it is empty; one that was never moved keeps it. */
  lemma LogTrouble(h: History, q: Queue, op: Op)
    requires WellFormed(q) && Possible(q, op)
    ensures h.Sound? && !h.moved && (op.ResetBase? ==> q.items == map[]) ==>
              Logged(h, q, op).Sound? && !Logged(h, q, op).moved
    ensures h.Lost? ==> (Logged(h, q, op).Lost? <==> Apply(q, op).items != map[])
  {
    if op.ResetBase? { ResetMoves(q); }
  }

  /** The choice of the machine whose virtual times never wrap. */
  ghost predicate FirstInTime(h: History, id: Id)
  {
    h.Sound? ==> VLegal(h.start, h.ops) && VIsTop(VRun(h.start, h.ops), id)
  }
}
