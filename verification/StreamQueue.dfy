/**
 * The queue of one stream as lib/nghttp2_stream.c keeps it: the heap of lib/nghttp2_pq.c ordered by
 * stream_less on fields that change while an entry is outside the heap.  It makes the choices of the
 * scheduler with unbounded virtual times, and is a heap as long as stream_less is an order.
 */
module StreamQueue {
  import opened Scheduler
  import opened PriorityQueue
  import opened QueueHistory

  /** stream_less on the queued streams. */
  function LessOn(items: map<Id, Child>): Order
  {
    (a: Entry, b: Entry) => a in items && b in items && Less(items[a], items[b])
  }

  lemma WeakOrder(q: Queue)
    requires StrictTotalOrder(q)
    ensures StrictWeakOrder(LessOn(q.items), q.items.Keys)
  {
    hide Less;
  }

  lemma ToldOrder(h: History, q: Queue)
    requires Tells(h, q) && !h.Lost?
    ensures StrictWeakOrder(LessOn(q.items), q.items.Keys)
  {
    hide StrictTotalOrder, StrictWeakOrder, Tells;
    HistoryOrder(h, q);
    WeakOrder(q);
  }

  class ObQueue {
    const pq: Pq
    var items: map<Id, Child>
    var base: int
    var nextOrder: nat
    /** How the queue has come about since it was last empty. */
    ghost var hist: History

    function View(): Queue
      reads this
    {
      Queue(base, nextOrder, items)
    }

    ghost predicate Valid()
      reads this, pq
    {
      && pq.Linked() && pq.index.Keys == items.Keys && pq.less == LessOn(items)
      && Tells(hist, View()) && (!hist.Lost? ==> pq.Valid())
    }

    constructor ()
      ensures Valid() && View() == EMPTY_QUEUE && hist == Sound(EMPTY_QUEUE, [], false) && fresh(pq)
    {
      pq := new Pq(LessOn(map[]));
      items, base, nextOrder := map[], 0, 0;
      hist := Sound(EMPTY_QUEUE, [], false);
      new;
      EmptyTells(EMPTY_QUEUE);
    }

    /** The entry `id` has got its new fields outside the heap; now it is pushed. */
    method PushEntry(id: Id, ghost op: Op, ghost was: Queue)
      requires Tells(hist, was) && Possible(was, op) && !op.Choose? && !op.ResetBase?
      requires pq.Linked() && id in items && pq.index.Keys == items.Keys - {id} && pq.less == LessOn(was.items)
      requires !hist.Lost? ==> pq.Valid()
      requires forall j :: j in items && j != id ==> j in was.items && items[j] == was.items[j]
      requires WellFormed(was) && View() == Apply(was, op)
      modifies this`hist, pq
      ensures Valid() && Goes(old(hist), was, op, hist, View())
    {
      hide StrictTotalOrder, Tells, Logged, Apply, StrictWeakOrder, Heap, Less, WellFormed, Possible;
      LogStep(hist, was, op);
      LogTrouble(hist, was, op);
      hist := Logged(hist, was, op);
      if !hist.Lost? { ToldOrder(hist, View()); }
      pq.Reorder(LessOn(items));
      assert pq.index.Keys + {id} == items.Keys;
      pq.Push(id);
    }

    /** One level of stream_obq_push. */
    method Push(id: Id, c: Child)
      requires Valid() && id !in items && ValidChild(c)
      modifies this`items, this`nextOrder, this`hist, pq
      ensures Valid() && Goes(old(hist), old(View()), Op.Push(id, c), hist, View())
    {
      hide StrictWeakOrder, Heap, Tells, Logged;
      ghost var was := View();
      items := items[id := NextCycle(c, base).(order := nextOrder)];
      nextOrder := nextOrder + 1;
      TellsWellFormed(hist, was);
      hide WellFormed;
      PushEntry(id, Op.Push(id, c), was);
    }

    /** nghttp2_pq_remove of a queued stream. */
    method Remove(id: Id)
      requires Valid() && id in items
      modifies this`items, this`hist, pq
      ensures Valid() && Goes(old(hist), old(View()), Op.Remove(id), hist, View())
    {
      hide Less, StrictWeakOrder, Heap, Tells, Logged, WellFormed;
      ghost var was := View();
      TellsWellFormed(hist, was);
      LogStep(hist, was, Op.Remove(id));
      LogTrouble(hist, was, Op.Remove(id));
      pq.Remove(id);
      items := items - {id};
      hist := Logged(hist, was, Op.Remove(id));
      pq.Reorder(LessOn(items));
      if items == map[] { pq.NothingQueued(); }
    }

    /**
     * nghttp2_stream_next_outbound_item at one level: the top of the heap becomes the new base.  It is first in the
     * order as long as there is one, and first in unbounded time if the queue has gone through a run.
     */
    method Next() returns (found: bool, id: Id)
      requires Valid()
      modifies this`base, this`hist
      ensures found <==> items != map[]
      ensures found && !old(hist).Lost? ==> IsTop(old(View()), id)
      ensures found ==> FirstInTime(old(hist), id)
      ensures found ==> Goes(old(hist), old(View()), Choose(id), hist, View())
      ensures Valid() && (!found ==> View() == old(View()) && hist == old(hist))
    {
      hide WellFormed, Less, VLess, StrictTotalOrder, StrictWeakOrder, Heap, Tells, Logged, VIsTop, VLegal, VRun;
      found, id := pq.Top();
      if !found { return; }
      ghost var was := View();
      TellsWellFormed(hist, was);
      if !hist.Lost? { TopIsTop(was, pq.less, id); }
      if hist.Sound? { SoundOrder(hist, was); }
      LogStep(hist, was, Choose(id));
      LogTrouble(hist, was, Choose(id));
      hist := Logged(hist, was, Choose(id));
      base := items[id].cycle;
    }

    /**
     * stream_obq_remove takes the stream off the queue of its parent and resets the base of its own queue, which
     * need not be empty.  The heap stays one.
     */
    method ResetBase()
      requires Valid()
      modifies this`base, this`hist
      ensures Valid() && Goes(old(hist), old(View()), Op.ResetBase, hist, View())
      ensures !old(hist).Lost? ==> !hist.Lost? && pq.Valid()
    {
      hide StrictWeakOrder, Heap, Tells, Logged, WellFormed, StrictTotalOrder;
      ghost var was := View();
      TellsWellFormed(hist, was);
      LogStep(hist, was, Op.ResetBase);
      LogTrouble(hist, was, Op.ResetBase);
      if !hist.Lost? {
        HistoryOrder(hist, was);
        ResetKeeps(hist, was);
      }
      base := 0;
      hist := Logged(hist, was, Op.ResetBase);
      if items == map[] { pq.NothingQueued(); }
    }

    /** One level of nghttp2_stream_reschedule, `length` bytes having been written. */
    method Reschedule(id: Id, length: nat)
      requires Valid() && id in items && length <= MAX_FRAME_SIZE
      modifies this`items, this`nextOrder, this`hist, pq
      ensures Valid() && Goes(old(hist), old(View()), Op.Reschedule(id, length), hist, View())
    {
      hide NextCycle, StrictWeakOrder, Heap, Tells, Logged;
      ghost var was := View();
      TellsWellFormed(hist, was);
      ValidItem(was, id);
      hide WellFormed;
      pq.Remove(id);
      items := items[id := NextCycle(items[id].(lastWrite := length), base).(order := nextOrder)];
      nextOrder := nextOrder + 1;
      PushEntry(id, Op.Reschedule(id, length), was);
    }

    /** nghttp2_stream_change_weight of a queued stream. */
    method ChangeWeight(id: Id, weight: nat)
      requires Valid() && id in items && 1 <= weight <= MAX_WEIGHT
      modifies this`items, this`hist, pq
      ensures Valid() && Goes(old(hist), old(View()), Op.ChangeWeight(id, weight), hist, View())
    {
      hide Reweigh, StrictWeakOrder, Heap, Tells, Logged;
      ghost var was := View();
      TellsWellFormed(hist, was);
      ValidItem(was, id);
      hide WellFormed;
      if items[id].weight == weight {
        LogStep(hist, was, Op.ChangeWeight(id, weight));
        LogTrouble(hist, was, Op.ChangeWeight(id, weight));
        hist := Logged(hist, was, Op.ChangeWeight(id, weight));
        return;
      }
      pq.Remove(id);
      items := items[id := Reweigh(items[id], weight, base)];
      PushEntry(id, Op.ChangeWeight(id, weight), was);
    }
  }

  lemma ValidItem(q: Queue, id: Id)
    requires WellFormed(q) && id in q.items
    ensures ValidChild(q.items[id])
  {
  }

  lemma ResetKeeps(h: History, q: Queue)
    requires WellFormed(q) && !h.Lost?
    ensures !Logged(h, q, ResetBase).Lost?
  {
  }

  lemma TopIsTop(q: Queue, less: Order, id: Id)
    requires less == LessOn(q.items) && id in q.items && forall y :: y in q.items ==> !less(y, id)
    ensures IsTop(q, id)
  {
    forall j | j in q.items ensures !Less(q.items[j], q.items[id]) { assert !less(j, id); }
  }
}
