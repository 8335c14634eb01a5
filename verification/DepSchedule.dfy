/**
 * The scheduling fields of all streams of a tree (lib/nghttp2_stream.c): every stream carries its own virtual time
 * and the base of the queue of its children.  Whatever happens to the tree, each queue goes through steps of the
 * single queue of `Scheduler`, and has the history that these give it; only a stream that is moved together with
 * queued children may lose the order in its queue.
 */
module DepSchedule {
  import opened Bytes
  import opened DepLinks
  import opened DepQueues
  import opened DepWeights
  import opened QueueHistory
  import S = Scheduler

  /** last_writelen, pending_penalty, cycle, seq, descendant_last_cycle and descendant_next_seq of a stream. */
  datatype Fields = Fields(lastWrite: nat, penalty: nat, cycle: int, order: nat, base: int, next: nat)

  const NEW_FIELDS := Fields(0, 0, 0, 0, 0, 0)

  type Sched = map<Id, Fields>

  function AsChild(w: int, x: Fields): S.Child
    requires w >= 0
  {
    S.Child(w, x.lastWrite, x.penalty, x.cycle, x.order)
  }

  /** Every stream has its fields, within their ranges, and the streams in a queue are queued. */
  ghost predicate Fielded(f: Flags, weight: WeightMap, sc: Sched)
  {
    && sc.Keys == weight.Keys == f.obq.Keys
    && (forall c :: c in weight ==> 1 <= weight[c] <= S.MAX_WEIGHT)
    && (forall c :: c in sc ==> InRange(sc[c]))
    && (forall n :: n in f.obq ==> f.obq[n] <= f.queued)
    && f.queued <= sc.Keys
  }

  predicate InRange(x: Fields) { x.lastWrite <= S.MAX_FRAME_SIZE && x.penalty < S.MAX_WEIGHT }

  /** No stream is in two queues. */
  ghost predicate Single(f: Flags)
  {
    forall n, m :: n in f.obq && m in f.obq && n != m ==> f.obq[n] !! f.obq[m]
  }

  /** The queue of stream `n`. */
  ghost function QueueOf(f: Flags, weight: WeightMap, sc: Sched, n: Id): S.Queue
    requires Fielded(f, weight, sc) && n in sc
  {
    S.Queue(sc[n].base, sc[n].next, map c | c in f.obq[n] :: AsChild(weight[c], sc[c]))
  }

  ghost function Views(f: Flags, weight: WeightMap, sc: Sched): map<Id, S.Queue>
    requires Fielded(f, weight, sc)
  {
    map n | n in sc :: QueueOf(f, weight, sc, n)
  }

  // ---- the invariant ------------------------------------------------------------------

  type Histories = map<Id, History>

  ghost predicate AllTell(hist: Histories, qs: map<Id, S.Queue>)
  {
    hist.Keys == qs.Keys && forall n :: n in qs ==> Tells(hist[n], qs[n])
  }

  ghost predicate Scheduled(f: Flags, weight: WeightMap, sc: Sched, hist: Histories)
  {
    Fielded(f, weight, sc) && Single(f) && AllTell(hist, Views(f, weight, sc))
  }

  /** The queues whose base has been reset while they were not empty. */
  ghost function Troubled(hist: Histories): set<Id>
  {
    set n | n in hist && !(hist[n].Sound? && !hist[n].moved)
  }

  /** One step of the queue of `d`. */
  ghost predicate May(hist: Histories, qs: map<Id, S.Queue>, d: Id, op: S.Op)
  {
    && d in hist && d in qs && S.WellFormed(qs[d]) && S.Possible(qs[d], op)
    && (op.Choose? && hist[d].Sound? ==> S.IsTop(qs[d], op.id))
  }

  ghost function LogAt(hist: Histories, qs: map<Id, S.Queue>, d: Id, op: S.Op): Histories
    requires May(hist, qs, d, op)
  {
    hist[d := Logged(hist[d], qs[d], op)]
  }

  ghost function ApplyAt(hist: Histories, qs: map<Id, S.Queue>, d: Id, op: S.Op): map<Id, S.Queue>
    requires May(hist, qs, d, op)
  {
    qs[d := S.Apply(qs[d], op)]
  }

  /** Only an empty queue can get back an order that was lost. */
  ghost predicate Regained(hist: Histories, hist': Histories, obq: map<Id, set<Id>>)
  {
    hist'.Keys == hist.Keys && forall n :: n in hist && hist[n].Lost? && !hist'[n].Lost? ==> n in obq && obq[n] == {}
  }

  lemma RegainedAt(hist: Histories, qs: map<Id, S.Queue>, d: Id, op: S.Op, obq: map<Id, set<Id>>)
    requires May(hist, qs, d, op) && d in obq && obq[d] == S.Apply(qs[d], op).items.Keys
    ensures Regained(hist, LogAt(hist, qs, d, op), obq)
  {
    hide S.Apply, S.Possible, S.IsTop, S.WellFormed, Logged;
    LogTrouble(hist[d], qs[d], op);
  }

  lemma StepAt(hist: Histories, qs: map<Id, S.Queue>, d: Id, op: S.Op)
    requires AllTell(hist, qs) && May(hist, qs, d, op)
    ensures AllTell(LogAt(hist, qs, d, op), ApplyAt(hist, qs, d, op))
    ensures Troubled(LogAt(hist, qs, d, op))
            <= Troubled(hist) + (if op.ResetBase? && qs[d].items != map[] then {d} else {})
  {
    hide Tells, Logged, S.Apply, S.Possible, S.IsTop, S.WellFormed;
    LogStep(hist[d], qs[d], op);
    LogTrouble(hist[d], qs[d], op);
  }

  lemma QueueTold(f: Flags, w: WeightMap, sc: Sched, hist: Histories, d: Id)
    requires Scheduled(f, w, sc, hist) && d in sc
    ensures d in hist && d in Views(f, w, sc) && Views(f, w, sc)[d] == QueueOf(f, w, sc, d)
    ensures Tells(hist[d], QueueOf(f, w, sc, d)) && S.WellFormed(QueueOf(f, w, sc, d))
  {
  }

  // ---- the steps of the source --------------------------------------------------------------

  lemma SameQueue(f: Flags, w: WeightMap, sc: Sched, f': Flags, w': WeightMap, sc': Sched, n: Id)
    requires Fielded(f, w, sc) && Fielded(f', w', sc') && n in sc && n in sc' && f'.obq[n] == f.obq[n]
    requires sc'[n].base == sc[n].base && sc'[n].next == sc[n].next
    requires forall c :: c in f.obq[n] ==> AsChild(w'[c], sc'[c]) == AsChild(w[c], sc[c])
    ensures QueueOf(f', w', sc', n) == QueueOf(f, w, sc, n)
  {
  }

  /** Only stream `s` and the queue of `d`, where it may be, have changed. */
  lemma SameViews(f: Flags, w: WeightMap, sc: Sched, f': Flags, w': WeightMap, sc': Sched, d: Id, s: Id, q: S.Queue)
    requires Fielded(f, w, sc) && Fielded(f', w', sc') && sc'.Keys == sc.Keys && d in sc
    requires forall n :: n in sc && n != d ==>
               f'.obq[n] == f.obq[n] && s !in f.obq[n] && sc'[n].base == sc[n].base && sc'[n].next == sc[n].next
    requires forall c :: c in sc && c != s ==> AsChild(w'[c], sc'[c]) == AsChild(w[c], sc[c])
    requires QueueOf(f', w', sc', d) == q
    ensures Views(f', w', sc') == Views(f, w, sc)[d := q]
  {
    hide QueueOf;
    forall n | n in sc && n != d ensures QueueOf(f', w', sc', n) == QueueOf(f, w, sc, n) {
      SameQueue(f, w, sc, f', w', sc', n);
    }
  }

  /** stream_next_cycle and the new seq. */
  function Charged(w: int, x: Fields, base: int, order: nat): Fields
    requires w > 0
  {
    var c := S.NextCycle(AsChild(w, x), base);
    x.(cycle := c.cycle, penalty := c.penalty, order := order)
  }

  /** One level of stream_obq_push. */
  function Pushed(sc: Sched, weight: WeightMap, d: Id, s: Id): Sched
    requires d in sc && s in sc && s in weight && weight[s] > 0
  {
    sc[s := Charged(weight[s], sc[s], sc[d].base, sc[d].next)][d := sc[d].(next := sc[d].next + 1)]
  }

  lemma PushFielded(f: Flags, w: WeightMap, sc: Sched, d: Id, s: Id)
    requires Fielded(f, w, sc) && d in sc && s in sc && d != s && s !in f.queued
    ensures Fielded(Enqueue(f, d, s), w, Pushed(sc, w, d, s))
    ensures forall n :: n in f.obq ==> s !in f.obq[n]
  {
    hide S.NextCycle;
    ChargedRange(w[s], sc[s], sc[d].base, sc[d].next);
  }

  lemma ChargedRange(w: int, x: Fields, base: int, order: nat)
    requires 1 <= w <= S.MAX_WEIGHT && InRange(x)
    ensures InRange(Charged(w, x, base, order))
  {
  }

  lemma EnqueueSingle(f: Flags, d: Id, s: Id)
    requires Single(f) && d in f.obq && forall n :: n in f.obq ==> s !in f.obq[n]
    ensures Single(Enqueue(f, d, s))
  {
  }

  lemma PushedQueue(f: Flags, w: WeightMap, sc: Sched, d: Id, s: Id)
    requires Fielded(f, w, sc) && d in sc && s in sc && d != s && s !in f.queued
    requires Fielded(Enqueue(f, d, s), w, Pushed(sc, w, d, s)) && S.WellFormed(QueueOf(f, w, sc, d))
    ensures S.Possible(QueueOf(f, w, sc, d), S.Push(s, AsChild(w[s], sc[s])))
    ensures QueueOf(Enqueue(f, d, s), w, Pushed(sc, w, d, s), d)
            == S.Apply(QueueOf(f, w, sc, d), S.Push(s, AsChild(w[s], sc[s])))
  {
    hide S.NextCycle, S.WellFormed;
    var q, q' := QueueOf(f, w, sc, d), QueueOf(Enqueue(f, d, s), w, Pushed(sc, w, d, s), d);
    var r := S.Apply(q, S.Push(s, AsChild(w[s], sc[s])));
    ChargedChild(w[s], sc[s], sc[d].base, sc[d].next);
    assert q'.items.Keys == r.items.Keys;
    assert q'.items == r.items;
  }

  lemma ChargedChild(w: int, x: Fields, base: int, order: nat)
    requires w > 0
    ensures AsChild(w, Charged(w, x, base, order)) == S.NextCycle(AsChild(w, x), base).(order := order)
  {
  }

  lemma PushStep(f: Flags, w: WeightMap, sc: Sched, hist: Histories, d: Id, s: Id) returns (hist': Histories)
    requires Scheduled(f, w, sc, hist) && d in sc && s in sc && d != s && s !in f.queued
    ensures Scheduled(Enqueue(f, d, s), w, Pushed(sc, w, d, s), hist') && Troubled(hist') <= Troubled(hist)
    ensures Regained(hist, hist', Enqueue(f, d, s).obq)
  {
    hide QueueOf, Tells, AllTell, Views, LogAt, S.Possible, S.WellFormed, S.Apply, Troubled, Single, Fielded, Charged;
    FieldedKeys(f, w, sc);
    PushFielded(f, w, sc, d, s);
    EnqueueSingle(f, d, s);
    QueueTold(f, w, sc, hist, d);
    PushedQueue(f, w, sc, d, s);
    ChargedKeeps(w[s], sc[s], sc[d].base, sc[d].next);
    var op := S.Push(s, AsChild(w[s], sc[s]));
    SameViews(f, w, sc, Enqueue(f, d, s), w, Pushed(sc, w, d, s), d, s, S.Apply(QueueOf(f, w, sc, d), op));
    StepAt(hist, Views(f, w, sc), d, op);
    QueueItems(Enqueue(f, d, s), w, Pushed(sc, w, d, s), d);
    RegainedAt(hist, Views(f, w, sc), d, op, Enqueue(f, d, s).obq);
    hist' := LogAt(hist, Views(f, w, sc), d, op);
  }

  lemma DequeueSingle(f: Flags, d: Id, s: Id)
    requires Single(f) && d in f.obq && s in f.obq[d]
    ensures Single(Dequeue(f, d, s))
    ensures forall n :: n in f.obq && n != d ==> s !in f.obq[n] && Dequeue(f, d, s).obq[n] == f.obq[n]
    ensures forall n :: n in f.obq ==> s !in Dequeue(f, d, s).obq[n]
  {
  }

  lemma DequeueFielded(f: Flags, w: WeightMap, sc: Sched, d: Id, s: Id, x: int)
    requires Fielded(f, w, sc) && Single(f) && d in f.obq && s in f.obq[d] && 1 <= x <= S.MAX_WEIGHT
    ensures Fielded(Dequeue(f, d, s), w[s := x], sc) && s in sc
  {
    DequeueSingle(f, d, s);
    hide Single;
  }

  /** nghttp2_pq_remove, for a stream whose weight has just become `x`. */
  lemma TakeStep(f: Flags, w: WeightMap, sc: Sched, hist: Histories, d: Id, s: Id, x: int) returns (hist': Histories)
    requires Scheduled(f, w, sc, hist) && d in f.obq && s in f.obq[d] && 1 <= x <= S.MAX_WEIGHT
    ensures Scheduled(Dequeue(f, d, s), w[s := x], sc, hist') && Troubled(hist') <= Troubled(hist)
    ensures Regained(hist, hist', Dequeue(f, d, s).obq)
  {
    hide Tells, AllTell, Views, LogAt, S.WellFormed, Troubled, Single;
    DequeueSingle(f, d, s);
    DequeueFielded(f, w, sc, d, s, x);
    QueueTold(f, w, sc, hist, d);
    var q, op := QueueOf(f, w, sc, d), S.Remove(s);
    assert QueueOf(Dequeue(f, d, s), w[s := x], sc, d).items == q.items - {s};
    hide QueueOf;
    SameViews(f, w, sc, Dequeue(f, d, s), w[s := x], sc, d, s, S.Apply(q, op));
    StepAt(hist, Views(f, w, sc), d, op);
    QueueItems(Dequeue(f, d, s), w[s := x], sc, d);
    RegainedAt(hist, Views(f, w, sc), d, op, Dequeue(f, d, s).obq);
    hist' := LogAt(hist, Views(f, w, sc), d, op);
  }

  /** What stream_obq_remove does to the fields of a stream it takes off a queue. */
  function Pulled(sc: Sched, s: Id): Sched
    requires s in sc
  {
    sc[s := sc[s].(cycle := 0, penalty := 0, lastWrite := 0, base := 0)]
  }

  /**
   * A stream taken off a queue is like a new one but for its numbering: when it is queued again, under whatever parent
   * and with whatever weight, it enters at the base and owes nothing for what it wrote before.
   */
  lemma BackAtBase(sc: Sched, w: WeightMap, d: Id, s: Id)
    requires s in sc && d in sc && d != s && s in w && w[s] > 0 && 0 <= sc[d].base < S.CYCLE_WRAP
    ensures Pulled(sc, s)[s] == NEW_FIELDS.(order := sc[s].order, next := sc[s].next)
    ensures var n := Pushed(Pulled(sc, s), w, d, s)[s];
            n.cycle == sc[d].base && n.penalty == 0 && n.lastWrite == 0 && n.order == sc[d].next
  {
    assert 0 / w[s] == 0 && 0 % w[s] == 0;
  }

  lemma ResetStep(f: Flags, w: WeightMap, sc: Sched, hist: Histories, s: Id) returns (hist': Histories)
    requires Scheduled(f, w, sc, hist) && s in sc && forall n :: n in f.obq ==> s !in f.obq[n]
    ensures Scheduled(f, w, Pulled(sc, s), hist') && Regained(hist, hist', f.obq)
    ensures Troubled(hist') <= Troubled(hist) + (if f.obq[s] != {} then {s} else {})
  {
    hide Tells, AllTell, Views, LogAt, S.WellFormed, Troubled, Single;
    assert Fielded(f, w, Pulled(sc, s));
    QueueTold(f, w, sc, hist, s);
    var q, op := QueueOf(f, w, sc, s), S.ResetBase;
    assert QueueOf(f, w, Pulled(sc, s), s).items == q.items;
    assert f.obq[s] == {} ==> q.items == map[];
    hide QueueOf;
    SameViews(f, w, sc, f, w, Pulled(sc, s), s, s, S.Apply(q, op));
    StepAt(hist, Views(f, w, sc), s, op);
    QueueItems(f, w, Pulled(sc, s), s);
    RegainedAt(hist, Views(f, w, sc), s, op, f.obq);
    hist' := LogAt(hist, Views(f, w, sc), s, op);
  }

  /** One level of stream_obq_remove. */
  lemma PullStep(f: Flags, w: WeightMap, sc: Sched, hist: Histories, d: Id, s: Id) returns (hist': Histories)
    requires Scheduled(f, w, sc, hist) && d in f.obq && s in f.obq[d] && s in sc && d != s
    ensures Scheduled(Dequeue(f, d, s), w, Pulled(sc, s), hist') && Regained(hist, hist', Dequeue(f, d, s).obq)
    ensures Troubled(hist') <= Troubled(hist) + (if f.obq[s] != {} then {s} else {})
  {
    hide Scheduled, Fielded, Troubled, Single, Regained, Pulled;
    PullFacts(f, w, sc, hist, d, s);
    var h := TakeStep(f, w, sc, hist, d, s, w[s]);
    assert w[s := w[s]] == w;
    hist' := ResetStep(Dequeue(f, d, s), w, sc, h, s);
    RegainedTwice(hist, h, hist', Dequeue(f, d, s).obq);
  }

  lemma PullFacts(f: Flags, w: WeightMap, sc: Sched, hist: Histories, d: Id, s: Id)
    requires Scheduled(f, w, sc, hist) && d in f.obq && s in f.obq[d] && s in sc
    ensures s in w && 1 <= w[s] <= S.MAX_WEIGHT && s in f.obq
    ensures forall n :: n in f.obq ==> s !in Dequeue(f, d, s).obq[n]
  {
    hide AllTell;
    FieldedWeight(f, w, sc, s);
    DequeueSingle(f, d, s);
  }

  lemma RegainedTwice(hist: Histories, h: Histories, hist': Histories, obq: map<Id, set<Id>>)
    requires Regained(hist, h, obq) && Regained(h, hist', obq)
    ensures Regained(hist, hist', obq)
  {
  }

  lemma FieldedWeight(f: Flags, w: WeightMap, sc: Sched, s: Id)
    requires Fielded(f, w, sc) && s in sc
    ensures s in w && 1 <= w[s] <= S.MAX_WEIGHT && InRange(sc[s]) && s in f.obq
  {
  }

  /** The weight of a stream outside all queues may be set freely. */
  lemma WeightFree(f: Flags, w: WeightMap, sc: Sched, hist: Histories, s: Id, x: int)
    requires Scheduled(f, w, sc, hist) && s in sc && s !in f.queued && 1 <= x <= S.MAX_WEIGHT
    ensures Scheduled(f, w[s := x], sc, hist)
  {
    hide AllTell, Single;
    assert Fielded(f, w[s := x], sc);
    SameViews(f, w, sc, f, w[s := x], sc, s, s, QueueOf(f, w[s := x], sc, s));
    SameQueue(f, w, sc, f, w[s := x], sc, s);
    assert Views(f, w[s := x], sc) == Views(f, w, sc);
  }

  lemma RechargedFielded(f: Flags, w: WeightMap, sc: Sched, d: Id, s: Id, before: nat)
    requires d in sc && s in sc && d != s && sc[s].lastWrite <= S.MAX_FRAME_SIZE
    requires Fielded(f, w, sc[s := sc[s].(lastWrite := before)])
    ensures s in w && w[s] > 0 && Fielded(f, w, Pushed(sc, w, d, s))
  {
    hide S.NextCycle;
    var sc0 := sc[s := sc[s].(lastWrite := before)];
    assert InRange(sc0[s]) && InRange(sc0[d]);
    ChargedRange(w[s], sc[s], sc[d].base, sc[d].next);
    forall c | c in sc && c != s && c != d ensures InRange(Pushed(sc, w, d, s)[c]) { assert InRange(sc0[c]); }
  }

  lemma RechargedQueue(f: Flags, w: WeightMap, sc: Sched, d: Id, s: Id, before: nat)
    requires d in sc && s in sc && d != s && d in f.obq && s in f.obq[d] && s in w && w[s] > 0
    requires Fielded(f, w, sc[s := sc[s].(lastWrite := before)]) && Fielded(f, w, Pushed(sc, w, d, s))
    requires var q := QueueOf(f, w, sc[s := sc[s].(lastWrite := before)], d);
             S.WellFormed(q) && S.Possible(q, S.Reschedule(s, sc[s].lastWrite))
    ensures QueueOf(f, w, Pushed(sc, w, d, s), d)
            == S.Apply(QueueOf(f, w, sc[s := sc[s].(lastWrite := before)], d), S.Reschedule(s, sc[s].lastWrite))
  {
    hide S.NextCycle, S.WellFormed, Fielded;
    var q := QueueOf(f, w, sc[s := sc[s].(lastWrite := before)], d);
    ChargedChild(w[s], sc[s], sc[d].base, sc[d].next);
    assert q.items[s].(lastWrite := sc[s].lastWrite) == AsChild(w[s], sc[s]);
    assert QueueOf(f, w, Pushed(sc, w, d, s), d).items == S.Apply(q, S.Reschedule(s, sc[s].lastWrite)).items;
  }

  /** One level of nghttp2_stream_reschedule, after `s` has got its new last_writelen. */
  lemma RescheduleStep(f: Flags, w: WeightMap, sc: Sched, hist: Histories, d: Id, s: Id, before: nat)
    returns (hist': Histories)
    requires d in f.obq && s in f.obq[d] && d != s && s in sc && d in sc && sc[s].lastWrite <= S.MAX_FRAME_SIZE
    requires Scheduled(f, w, sc[s := sc[s].(lastWrite := before)], hist)
    ensures s in w && w[s] > 0
    ensures Scheduled(f, w, Pushed(sc, w, d, s), hist') && Troubled(hist') <= Troubled(hist)
    ensures Regained(hist, hist', f.obq)
  {
    hide Tells, AllTell, Views, LogAt, S.WellFormed, Troubled, S.Apply, QueueOf, Single, Charged, Fielded;
    RechargedFielded(f, w, sc, d, s, before);
    var sc0, sc1 := sc[s := sc[s].(lastWrite := before)], Pushed(sc, w, d, s);
    DequeueSingle(f, d, s);
    QueueTold(f, w, sc0, hist, d);
    QueueItems(f, w, sc0, d);
    RechargedQueue(f, w, sc, d, s, before);
    var q, op := QueueOf(f, w, sc0, d), S.Reschedule(s, sc[s].lastWrite);
    ChargedKeeps(w[s], sc[s], sc[d].base, sc[d].next);
    FieldedKeys(f, w, sc0);
    SameViews(f, w, sc0, f, w, sc1, d, s, S.Apply(q, op));
    StepAt(hist, Views(f, w, sc0), d, op);
    QueueItems(f, w, sc1, d);
    RegainedAt(hist, Views(f, w, sc0), d, op, f.obq);
    hist' := LogAt(hist, Views(f, w, sc0), d, op);
  }

  lemma FieldedKeys(f: Flags, w: WeightMap, sc: Sched)
    requires Fielded(f, w, sc)
    ensures sc.Keys == w.Keys == f.obq.Keys
    ensures forall c :: c in w ==> 1 <= w[c] <= S.MAX_WEIGHT
    ensures forall n :: n in f.obq ==> f.obq[n] <= sc.Keys
  {
  }

  lemma QueueItems(f: Flags, w: WeightMap, sc: Sched, d: Id)
    requires Fielded(f, w, sc) && d in sc
    ensures d in f.obq && QueueOf(f, w, sc, d).items.Keys == f.obq[d] <= w.Keys
    ensures forall c :: c in f.obq[d] ==> c in sc && w[c] >= 0 && QueueOf(f, w, sc, d).items[c] == AsChild(w[c], sc[c])
  {
  }

  lemma ChargedKeeps(w: int, x: Fields, base: int, order: nat)
    requires w > 0
    ensures Charged(w, x, base, order).base == x.base && Charged(w, x, base, order).next == x.next
  {
  }

  /** nghttp2_stream_change_weight of a queued stream. */
  function Reweighed(sc: Sched, weight: WeightMap, d: Id, s: Id, x: int): Sched
    requires d in sc && s in sc && s in weight && weight[s] > 0 && x > 0
  {
    var c := S.Reweigh(AsChild(weight[s], sc[s]), x, sc[d].base);
    sc[s := sc[s].(cycle := c.cycle, penalty := c.penalty)]
  }

  lemma ReweighedFielded(f: Flags, w: WeightMap, sc: Sched, d: Id, s: Id, x: int)
    requires Fielded(f, w, sc) && d in sc && s in sc && 1 <= x <= S.MAX_WEIGHT
    ensures Fielded(f, w[s := x], Reweighed(sc, w, d, s, x))
  {
    hide S.Reweigh;
    ReweighFields(AsChild(w[s], sc[s]), x, sc[d].base);
  }

  lemma ReweighedQueue(f: Flags, w: WeightMap, sc: Sched, d: Id, s: Id, x: int)
    requires d in sc && s in sc && d != s && d in f.obq && s in f.obq[d] && s in w && 0 < w[s] != x
    requires 1 <= x <= S.MAX_WEIGHT && S.ValidChild(AsChild(w[s], sc[s]))
    requires Fielded(f, w, sc) && Fielded(f, w[s := x], Reweighed(sc, w, d, s, x))
    requires var q := QueueOf(f, w, sc, d); S.WellFormed(q) && S.Possible(q, S.ChangeWeight(s, x))
    ensures QueueOf(f, w[s := x], Reweighed(sc, w, d, s, x), d) == S.Apply(QueueOf(f, w, sc, d), S.ChangeWeight(s, x))
  {
    hide S.Reweigh, S.WellFormed, Fielded;
    ReweighFields(AsChild(w[s], sc[s]), x, sc[d].base);
    assert QueueOf(f, w[s := x], Reweighed(sc, w, d, s, x), d).items
        == S.Apply(QueueOf(f, w, sc, d), S.ChangeWeight(s, x)).items;
  }

  lemma ReweighStep(f: Flags, w: WeightMap, sc: Sched, hist: Histories, d: Id, s: Id, x: int)
    returns (hist': Histories)
    requires Scheduled(f, w, sc, hist) && d in f.obq && s in f.obq[d] && d != s && s in sc && d in sc
    requires 1 <= x <= S.MAX_WEIGHT && s in w && w[s] != x
    ensures w[s] > 0
    ensures Scheduled(f, w[s := x], Reweighed(sc, w, d, s, x), hist') && Troubled(hist') <= Troubled(hist)
    ensures Regained(hist, hist', f.obq)
  {
    hide Tells, AllTell, Views, LogAt, S.WellFormed, Troubled, S.Apply, QueueOf, Single, S.Reweigh, Fielded;
    FieldedKeys(f, w, sc);
    FieldedWeight(f, w, sc, s);
    ReweighedFielded(f, w, sc, d, s, x);
    DequeueSingle(f, d, s);
    QueueTold(f, w, sc, hist, d);
    QueueItems(f, w, sc, d);
    ReweighedQueue(f, w, sc, d, s, x);
    var q, op := QueueOf(f, w, sc, d), S.ChangeWeight(s, x);
    SameViews(f, w, sc, f, w[s := x], Reweighed(sc, w, d, s, x), d, s, S.Apply(q, op));
    StepAt(hist, Views(f, w, sc), d, op);
    QueueItems(f, w[s := x], Reweighed(sc, w, d, s, x), d);
    RegainedAt(hist, Views(f, w, sc), d, op, f.obq);
    hist' := LogAt(hist, Views(f, w, sc), d, op);
  }

  lemma ReweighFields(c: S.Child, x: nat, base: int)
    requires S.ValidChild(c) && 1 <= x <= S.MAX_WEIGHT
    ensures var n := S.Reweigh(c, x, base);
            n == S.Child(x, c.lastWrite, n.penalty, n.cycle, c.order) && n.penalty < S.MAX_WEIGHT
  {
  }

  /** nghttp2_stream_next_outbound_item has passed through the queue of `d`. */
  lemma ChooseStep(f: Flags, w: WeightMap, sc: Sched, hist: Histories, d: Id, s: Id) returns (hist': Histories)
    requires Scheduled(f, w, sc, hist) && d in f.obq && s in f.obq[d] && d != s && s in sc && d in sc && d in hist
    requires hist[d].Sound? ==> S.IsTop(QueueOf(f, w, sc, d), s)
    ensures Scheduled(f, w, sc[d := sc[d].(base := sc[s].cycle)], hist') && Troubled(hist') <= Troubled(hist)
    ensures hist'.Keys == hist.Keys && forall n :: n in hist && n != d ==> hist'[n] == hist[n]
    ensures Regained(hist, hist', f.obq)
  {
    hide Tells, AllTell, Views, S.WellFormed, Troubled, QueueOf, Single, S.IsTop;
    var sc' := sc[d := sc[d].(base := sc[s].cycle)];
    assert Fielded(f, w, sc');
    hide Fielded;
    FieldedKeys(f, w, sc);
    DequeueSingle(f, d, s);
    QueueTold(f, w, sc, hist, d);
    QueueItems(f, w, sc, d);
    ChosenQueue(f, w, sc, d, s);
    var q, op := QueueOf(f, w, sc, d), S.Choose(s);
    SameViews(f, w, sc, f, w, sc', d, s, S.Apply(q, op));
    StepAt(hist, Views(f, w, sc), d, op);
    QueueItems(f, w, sc', d);
    RegainedAt(hist, Views(f, w, sc), d, op, f.obq);
    hist' := LogAt(hist, Views(f, w, sc), d, op);
  }

  lemma ChosenQueue(f: Flags, w: WeightMap, sc: Sched, d: Id, s: Id)
    requires Fielded(f, w, sc) && d in sc && s in sc && d != s && s in f.obq[d]
    requires Fielded(f, w, sc[d := sc[d].(base := sc[s].cycle)]) && S.WellFormed(QueueOf(f, w, sc, d))
    ensures QueueOf(f, w, sc[d := sc[d].(base := sc[s].cycle)], d) == S.Apply(QueueOf(f, w, sc, d), S.Choose(s))
  {
    hide S.WellFormed;
    assert QueueOf(f, w, sc[d := sc[d].(base := sc[s].cycle)], d).items == QueueOf(f, w, sc, d).items;
  }

  // ---- the walks up the tree ------------------------------------------------------------------

  predicate Weighted(weight: WeightMap, sc: Sched)
  {
    sc.Keys == weight.Keys && forall c :: c in weight ==> weight[c] > 0
  }

  /** The fields after stream_obq_push. */
  ghost function PushSched(dp: Parents, rank: Ranks, f: Flags, weight: WeightMap, sc: Sched, dep: Ref, s: Id): Sched
    requires Ranked(dp, rank) && f.obq.Keys == dp.Keys == sc.Keys && Weighted(weight, sc) && s in dp
    requires dep.Some? ==> dep.value in dp
    decreases if dep.Some? then rank[dep.value] + 1 else 0
  {
    if dep.None? || s in f.queued then sc
    else PushSched(dp, rank, Enqueue(f, dep.value, s),
                       weight, Pushed(sc, weight, dep.value, s), dp[dep.value], dep.value)
  }

  /** The fields after the loop of stream_obq_remove. */
  ghost function PullSched(dp: Parents, rank: Ranks, active: set<Id>, f: Flags, sc: Sched, s: Id): Sched
    requires Ranked(dp, rank) && f.obq.Keys == dp.Keys == sc.Keys && s in dp
    decreases rank[s]
  {
    match dp[s]
    case None => sc
    case Some(d) =>
      var f1 := Dequeue(f, d, s);
      if Busy(active, f1, d) then Pulled(sc, s) else PullSched(dp, rank, active, f1, Pulled(sc, s), d)
  }

  /** The fields after nghttp2_stream_reschedule. */
  ghost function RescheduleSched(dp: Parents, rank: Ranks, weight: WeightMap, sc: Sched, s: Id): Sched
    requires Ranked(dp, rank) && dp.Keys == sc.Keys && Weighted(weight, sc) && s in dp
    decreases rank[s]
  {
    match dp[s]
    case None => sc
    case Some(d) =>
      var sc1 := Pushed(sc, weight, d, s);
      RescheduleSched(dp, rank, weight, sc1[d := sc1[d].(lastWrite := sc1[s].lastWrite)], d)
  }

  /** What stream_obq_push leaves in the fields. */
  ghost predicate PushedTo(dp: Parents, rank: Ranks, f: Flags, weight: WeightMap, sc: Sched, dep: Ref, s: Id,
                           sc': Sched)
  {
    && Ranked(dp, rank) && f.obq.Keys == dp.Keys == sc.Keys && Weighted(weight, sc) && s in dp
    && (dep.Some? ==> dep.value in dp) && sc' == PushSched(dp, rank, f, weight, sc, dep, s)
  }

  /** What stream_obq_remove leaves in them and in the queues. */
  ghost predicate PulledTo(dp: Parents, rank: Ranks, active: set<Id>, f: Flags, sc: Sched, s: Id, f': Flags, sc': Sched)
  {
    && Ranked(dp, rank) && f.obq.Keys == dp.Keys == sc.Keys && s in dp
    && f' == (if s in f.queued then PullUp(dp, rank, active, f, s) else f)
    && sc' == if s in f.queued then PullSched(dp, rank, active, f, sc, s) else sc
  }

  /** What stream_obq_move leaves in them. */
  ghost predicate MovedTo(dp: Parents, rank: Ranks, f: Flags, weight: WeightMap, sc: Sched, dest: Id, src: Id, c: Id,
                          sc': Sched)
  {
    src in f.obq &&
    if c !in f.queued then sc' == sc else PushedTo(dp, rank, Dequeue(f, src, c), weight, sc, Some(dest), c, sc')
  }

  /** stream_obq_push of `s0`, which found `f0` and `sc0`, has come to `s`. */
  ghost predicate Pushing(dp: Parents, rank: Ranks, w: WeightMap, f0: Flags, sc0: Sched, dep0: Ref, s0: Id,
                          f: Flags, sc: Sched, dep: Ref, s: Id)
  {
    && Ranked(dp, rank) && f.obq.Keys == dp.Keys == sc.Keys && f0.obq.Keys == dp.Keys == sc0.Keys
    && Weighted(w, sc) && Weighted(w, sc0) && s in dp && s0 in dp && dep != Some(s)
    && (dep.Some? ==> dep.value in dp) && (dep0.Some? ==> dep0.value in dp)
    && PushUp(dp, rank, f, dep, s) == PushUp(dp, rank, f0, dep0, s0)
    && PushSched(dp, rank, f, w, sc, dep, s) == PushSched(dp, rank, f0, w, sc0, dep0, s0)
  }

  lemma PushStart(dp: Parents, rank: Ranks, w: WeightMap, f: Flags, sc: Sched, dep: Ref, s: Id)
    requires Ranked(dp, rank) && f.obq.Keys == dp.Keys == sc.Keys && Weighted(w, sc) && s in dp && dep != Some(s)
    requires dep.Some? ==> dep.value in dp
    ensures Pushing(dp, rank, w, f, sc, dep, s, f, sc, dep, s)
  {
  }

  lemma PushNext(dp: Parents, rank: Ranks, w: WeightMap, f0: Flags, sc0: Sched, dep0: Ref, s0: Id,
                 f: Flags, sc: Sched, d: Id, s: Id)
    requires Pushing(dp, rank, w, f0, sc0, dep0, s0, f, sc, Some(d), s) && s !in f.queued
    ensures d in dp && d in rank && d in sc && s in sc && d in f.obq && s in w && w[s] > 0 && d != s
    ensures dp[d].Some? ==> dp[d].value in rank && rank[dp[d].value] < rank[d]
    ensures Pushing(dp, rank, w, f0, sc0, dep0, s0, Enqueue(f, d, s), Pushed(sc, w, d, s), dp[d], d)
  {
    hide PushUp, PushSched, Enqueue;
    PushUnfold(dp, rank, f, w, sc, d, s);
  }

  lemma PushDone(dp: Parents, rank: Ranks, w: WeightMap, f0: Flags, sc0: Sched, dep0: Ref, s0: Id,
                 f: Flags, sc: Sched, dep: Ref, s: Id)
    requires Pushing(dp, rank, w, f0, sc0, dep0, s0, f, sc, dep, s) && (dep.None? || s in f.queued)
    ensures Ranked(dp, rank) && f0.obq.Keys == dp.Keys && (dep0.Some? ==> dep0.value in dp)
    ensures f == PushUp(dp, rank, f0, dep0, s0) && PushedTo(dp, rank, f0, w, sc0, dep0, s0, sc)
  {
    PushEnds(dp, rank, f, w, sc, dep, s);
  }

  lemma PushUnfold(dp: Parents, rank: Ranks, f: Flags, w: WeightMap, sc: Sched, d: Id, s: Id)
    requires Ranked(dp, rank) && f.obq.Keys == dp.Keys == sc.Keys && Weighted(w, sc) && s in dp && d in dp
    requires s !in f.queued
    ensures d in rank && (dp[d].Some? ==> dp[d].value in dp && dp[d].value in rank && rank[dp[d].value] < rank[d])
    ensures var f', sc' := Enqueue(f, d, s), Pushed(sc, w, d, s);
            && f'.obq.Keys == dp.Keys && sc'.Keys == sc.Keys
            && PushUp(dp, rank, f, Some(d), s) == PushUp(dp, rank, f', dp[d], d)
            && PushSched(dp, rank, f, w, sc, Some(d), s) == PushSched(dp, rank, f', w, sc', dp[d], d)
  {
    hide Pushed;
    PushedKeys(sc, w, d, s);
  }

  lemma PushedKeys(sc: Sched, w: WeightMap, d: Id, s: Id)
    requires d in sc && s in sc && s in w && w[s] > 0
    ensures Pushed(sc, w, d, s).Keys == sc.Keys
  {
  }

  lemma PushEnds(dp: Parents, rank: Ranks, f: Flags, w: WeightMap, sc: Sched, dep: Ref, s: Id)
    requires Ranked(dp, rank) && f.obq.Keys == dp.Keys == sc.Keys && Weighted(w, sc) && s in dp
    requires (dep.Some? ==> dep.value in dp) && (dep.None? || s in f.queued)
    ensures PushUp(dp, rank, f, dep, s) == f && PushSched(dp, rank, f, w, sc, dep, s) == sc
  {
  }

  /** stream_obq_remove of `s0`, which found `f0` and `sc0`, has come to `s`. */
  ghost predicate Pulling(dp: Parents, rank: Ranks, active: set<Id>, f0: Flags, sc0: Sched, s0: Id, f: Flags,
                          sc: Sched, s: Id)
  {
    && Ranked(dp, rank) && f.obq.Keys == dp.Keys == sc.Keys && f0.obq.Keys == dp.Keys == sc0.Keys && s in dp && s0 in dp
    && PullsQueued(dp, rank, active, f, s)
    && PullUp(dp, rank, active, f, s) == PullUp(dp, rank, active, f0, s0)
    && PullSched(dp, rank, active, f, sc, s) == PullSched(dp, rank, active, f0, sc0, s0)
  }

  lemma PullStart(dp: Parents, rank: Ranks, active: set<Id>, f: Flags, sc: Sched, s: Id)
    requires Ranked(dp, rank) && f.obq.Keys == dp.Keys == sc.Keys && s in dp && PullsQueued(dp, rank, active, f, s)
    ensures Pulling(dp, rank, active, f, sc, s, f, sc, s)
  {
  }

  lemma PullNext(dp: Parents, rank: Ranks, active: set<Id>, f0: Flags, sc0: Sched, s0: Id, f: Flags, sc: Sched, s: Id)
    requires Pulling(dp, rank, active, f0, sc0, s0, f, sc, s) && dp[s].Some?
    ensures var d := dp[s].value;
            && d in dp && d in f.obq && d in rank && s in rank && rank[d] < rank[s] && s in sc
            && s in f.queued && s in f.obq[d]
            && var f', sc' := Dequeue(f, d, s), Pulled(sc, s);
            && d in f'.obq
            && if Busy(active, f', d)
               then Ranked(dp, rank) && f0.obq.Keys == dp.Keys == sc0.Keys && s0 in dp
                    && f' == PullUp(dp, rank, active, f0, s0) && sc' == PullSched(dp, rank, active, f0, sc0, s0)
               else Pulling(dp, rank, active, f0, sc0, s0, f', sc', d) && f'.obq[d] == {}
  {
  }

  lemma PullEnds(dp: Parents, rank: Ranks, active: set<Id>, f0: Flags, sc0: Sched, s0: Id, f: Flags, sc: Sched, s: Id)
    requires Pulling(dp, rank, active, f0, sc0, s0, f, sc, s) && dp[s].None?
    ensures Ranked(dp, rank) && f0.obq.Keys == dp.Keys == sc0.Keys && s0 in dp
    ensures f == PullUp(dp, rank, active, f0, s0) && sc == PullSched(dp, rank, active, f0, sc0, s0)
  {
  }

  /** nghttp2_stream_reschedule of `s0`, which found `sc0`, has come to `s`. */
  ghost predicate Rescheduling(dp: Parents, rank: Ranks, w: WeightMap, sc0: Sched, s0: Id, sc: Sched, s: Id)
  {
    && Ranked(dp, rank) && dp.Keys == sc.Keys == sc0.Keys && Weighted(w, sc) && Weighted(w, sc0) && s in dp && s0 in dp
    && RescheduleSched(dp, rank, w, sc, s) == RescheduleSched(dp, rank, w, sc0, s0)
  }

  lemma RescheduleStart(dp: Parents, rank: Ranks, w: WeightMap, sc: Sched, s: Id, length: nat)
    requires Ranked(dp, rank) && dp.Keys == sc.Keys && Weighted(w, sc) && s in dp
    ensures var sc0 := sc[s := sc[s].(lastWrite := length)];
            && Rescheduling(dp, rank, w, sc0, s, sc0, s)
            && sc0[s := sc0[s].(lastWrite := sc[s].lastWrite)] == sc
  {
  }

  lemma WriteBack(sc: Sched, d: Id, length: nat)
    requires d in sc
    ensures var sc' := sc[d := sc[d].(lastWrite := length)];
            sc'[d := sc'[d].(lastWrite := sc[d].lastWrite)] == sc && sc'.Keys == sc.Keys && sc'[d].lastWrite == length
  {
  }

  lemma RescheduleNext(dp: Parents, rank: Ranks, w: WeightMap, sc0: Sched, s0: Id, sc: Sched, s: Id)
    requires Rescheduling(dp, rank, w, sc0, s0, sc, s) && dp[s].Some?
    ensures var d := dp[s].value;
            && d in dp && d in rank && s in rank && rank[d] < rank[s] && s in sc && d in sc && s in w && w[s] > 0
            && var sc1 := Pushed(sc, w, d, s);
            && sc1.Keys == sc.Keys
            && Rescheduling(dp, rank, w, sc0, s0, sc1[d := sc1[d].(lastWrite := sc1[s].lastWrite)], d)
  {
    hide Pushed;
    PushedKeys(sc, w, dp[s].value, s);
  }

  lemma RescheduleEnds(dp: Parents, rank: Ranks, w: WeightMap, sc0: Sched, s0: Id, sc: Sched, s: Id)
    requires Rescheduling(dp, rank, w, sc0, s0, sc, s) && dp[s].None?
    ensures Ranked(dp, rank) && dp.Keys == sc0.Keys && Weighted(w, sc0) && s0 in dp
    ensures sc == RescheduleSched(dp, rank, w, sc0, s0)
  {
  }

  ghost predicate RescheduledTo(dp: Parents, rank: Ranks, weight: WeightMap, sc: Sched, s: Id, length: nat, sc': Sched)
  {
    && Ranked(dp, rank) && dp.Keys == sc.Keys && Weighted(weight, sc) && s in dp
    && sc' == RescheduleSched(dp, rank, weight, sc[s := sc[s].(lastWrite := length)], s)
  }

  lemma ScheduledKeys(f: Flags, w: WeightMap, sc: Sched, hist: Histories)
    requires Scheduled(f, w, sc, hist)
    ensures sc.Keys == w.Keys == f.obq.Keys == hist.Keys && Weighted(w, sc)
    ensures forall c :: c in w ==> 1 <= w[c] <= S.MAX_WEIGHT
    ensures forall c :: c in sc ==> InRange(sc[c])
  {
  }

  /** The last_writelen of a stream outside all queues may be set freely. */
  lemma WriteFree(f: Flags, w: WeightMap, sc: Sched, hist: Histories, s: Id, length: nat)
    requires Scheduled(f, w, sc, hist) && s in sc && s !in f.queued && length <= S.MAX_FRAME_SIZE
    ensures Scheduled(f, w, sc[s := sc[s].(lastWrite := length)], hist)
  {
    hide AllTell, Single;
    var sc' := sc[s := sc[s].(lastWrite := length)];
    assert Fielded(f, w, sc');
    SameViews(f, w, sc, f, w, sc', s, s, QueueOf(f, w, sc', s));
    SameQueue(f, w, sc, f, w, sc', s);
    assert Views(f, w, sc') == Views(f, w, sc);
  }

  // ---- new and closed streams -----------------------------------------------------------------

  ghost function WithFlags(f: Flags, id: Id): Flags { Flags(f.queued, f.obq[id := {}]) }

  lemma NewScheduled(f: Flags, w: WeightMap, sc: Sched, hist: Histories, id: Id, x: int)
    requires Scheduled(f, w, sc, hist) && id !in sc && 1 <= x <= S.MAX_WEIGHT
    ensures Scheduled(WithFlags(f, id), w[id := x], sc[id := NEW_FIELDS], hist[id := Sound(S.EMPTY_QUEUE, [], false)])
    ensures Troubled(hist[id := Sound(S.EMPTY_QUEUE, [], false)]) <= Troubled(hist)
  {
    hide Views, Tells, Troubled, Fielded, Single, QueueOf, WithFlags;
    KeptTrouble(hist, hist[id := Sound(S.EMPTY_QUEUE, [], false)], id);
    NewFielded(f, w, sc, id, x);
    NewViews(f, w, sc, id, x);
    EmptyTells(S.EMPTY_QUEUE);
  }

  lemma NewViews(f: Flags, w: WeightMap, sc: Sched, id: Id, x: int)
    requires Fielded(f, w, sc) && Fielded(WithFlags(f, id), w[id := x], sc[id := NEW_FIELDS]) && id !in sc
    ensures Views(WithFlags(f, id), w[id := x], sc[id := NEW_FIELDS]) == Views(f, w, sc)[id := S.EMPTY_QUEUE]
  {
    hide QueueOf, Fielded, Single, Scheduled;
    var f', w', sc' := WithFlags(f, id), w[id := x], sc[id := NEW_FIELDS];
    FieldedKeys(f, w, sc);
    forall n | n in sc ensures QueueOf(f', w', sc', n) == QueueOf(f, w, sc, n) { SameQueue(f, w, sc, f', w', sc', n); }
    EmptyView(f', w', sc', id);
  }

  lemma KeptTrouble(hist: Histories, hist': Histories, id: Id)
    requires forall n :: n in hist' && n != id ==> n in hist && hist'[n] == hist[n]
    requires id in hist' ==> hist'[id].Sound? && !hist'[id].moved
    ensures Troubled(hist') <= Troubled(hist)
  {
  }

  lemma NewFielded(f: Flags, w: WeightMap, sc: Sched, id: Id, x: int)
    requires Fielded(f, w, sc) && Single(f) && id !in sc && 1 <= x <= S.MAX_WEIGHT
    ensures Fielded(WithFlags(f, id), w[id := x], sc[id := NEW_FIELDS]) && Single(WithFlags(f, id))
  {
  }

  lemma EmptyView(f: Flags, w: WeightMap, sc: Sched, id: Id)
    requires Fielded(f, w, sc) && id in sc && sc[id] == NEW_FIELDS && f.obq[id] == {}
    ensures QueueOf(f, w, sc, id) == S.EMPTY_QUEUE
  {
    assert QueueOf(f, w, sc, id).items == map[];
  }

  ghost function WithoutFlags(f: Flags, id: Id): Flags { Flags(f.queued, f.obq - {id}) }

  lemma DropScheduled(f: Flags, w: WeightMap, sc: Sched, hist: Histories, id: Id)
    requires Scheduled(f, w, sc, hist) && id in sc && id !in f.queued
    ensures Scheduled(WithoutFlags(f, id), w - {id}, sc - {id}, hist - {id})
    ensures Troubled(hist - {id}) <= Troubled(hist)
  {
    hide Views, Tells, Troubled, Fielded, Single, QueueOf, WithoutFlags;
    KeptTrouble(hist, hist - {id}, id);
    DropFielded(f, w, sc, id);
    DropViews(f, w, sc, id);
  }

  lemma DropViews(f: Flags, w: WeightMap, sc: Sched, id: Id)
    requires Fielded(f, w, sc) && Fielded(WithoutFlags(f, id), w - {id}, sc - {id})
    ensures Views(WithoutFlags(f, id), w - {id}, sc - {id}) == Views(f, w, sc) - {id}
  {
    hide QueueOf, Fielded, Single, Scheduled;
    var f', w', sc' := WithoutFlags(f, id), w - {id}, sc - {id};
    FieldedKeys(f, w, sc);
    FieldedKeys(f', w', sc');
    forall n | n in sc' ensures QueueOf(f', w', sc', n) == QueueOf(f, w, sc, n) { SameQueue(f, w, sc, f', w', sc', n); }
  }

  lemma DropFielded(f: Flags, w: WeightMap, sc: Sched, id: Id)
    requires Fielded(f, w, sc) && Single(f) && id in sc && id !in f.queued
    ensures Fielded(WithoutFlags(f, id), w - {id}, sc - {id}) && Single(WithoutFlags(f, id))
  {
  }

  lemma RootScheduled(f: Flags, w: WeightMap)
    requires f == Flags({}, map[0 := {}]) && w.Keys == {0} && 1 <= w[0] <= S.MAX_WEIGHT
    ensures var hist := map[0 := Sound(S.EMPTY_QUEUE, [], false)];
            Scheduled(f, w, map[0 := NEW_FIELDS], hist) && Troubled(hist) == {}
  {
    EmptyView(f, w, map[0 := NEW_FIELDS], 0);
    EmptyTells(S.EMPTY_QUEUE);
  }

  lemma PushedKeeps(sc: Sched, w: WeightMap, d: Id, s: Id)
    requires d in sc && s in sc && s in w && w[s] > 0 && d != s
    ensures Pushed(sc, w, d, s).Keys == sc.Keys
    ensures Pushed(sc, w, d, s)[s].lastWrite == sc[s].lastWrite && Pushed(sc, w, d, s)[d].lastWrite == sc[d].lastWrite
  {
  }

  /** In every queue that is not lost stream_less is a strict total order, however often cycles have wrapped. */
  lemma TreeOrder(f: Flags, w: WeightMap, sc: Sched, hist: Histories, n: Id)
    requires Scheduled(f, w, sc, hist) && n in sc && n in hist && !hist[n].Lost?
    ensures S.StrictTotalOrder(QueueOf(f, w, sc, n))
  {
    hide QueueOf, Tells, S.StrictTotalOrder;
    QueueTold(f, w, sc, hist, n);
    HistoryOrder(hist[n], QueueOf(f, w, sc, n));
  }

  // ---- the choice ---------------------------------------------------------------------------

  /** In a queue that has gone through a run, the top is first in unbounded time, whatever its base is. */
  lemma TopFirst(f: Flags, w: WeightMap, sc: Sched, hist: Histories, n: Id, id: Id)
    requires Scheduled(f, w, sc, hist) && n in sc && n in hist && hist[n].Sound?
    ensures S.IsTop(QueueOf(f, w, sc, n), id) <==> FirstInTime(hist[n], id)
  {
    hide QueueOf, Tells, S.IsTop, S.VIsTop, S.VRun, S.VLegal, S.StrictTotalOrder;
    QueueTold(f, w, sc, hist, n);
    SoundOrder(hist[n], QueueOf(f, w, sc, n));
  }

  /** Along a path every queue but the last has got the cycle of the next stream as its base. */
  ghost predicate Chosen(before: Sched, sc: Sched, path: seq<Id>)
  {
    && path != [] && sc.Keys == before.Keys && (forall x :: x in path ==> x in sc)
    && (forall j :: 0 <= j < |path| - 1 ==> sc[path[j]] == before[path[j]].(base := before[path[j + 1]].cycle))
    && forall n :: n in sc && n !in path[..|path| - 1] ==> sc[n] == before[n]
  }
}
