/**
 * The heaps of the streams of a tree: each stream embeds the nghttp2_pq of its queued children (lib/nghttp2_stream.h),
 * ordered by stream_less on the fields that the children carry.  Whatever happens to the tree, every one of them holds
 * exactly the queued children, and is a heap unless the order in it has been lost.
 */
module DepHeaps {
  import opened Bytes
  import opened DepLinks
  import opened DepQueues
  import opened DepWeights
  import opened QueueHistory
  import opened DepSchedule
  import PQ = PriorityQueue
  import S = Scheduler

  /** The array of an nghttp2_pq, and the positions its entries carry. */
  datatype Embedded = Embedded(q: seq<Id>, index: map<Id, nat>)

  const NO_ENTRIES := Embedded([], map[])

  type Heaps = map<Id, Embedded>

  predicate Before(x: Fields, y: Fields) { S.Less(AsChild(0, x), AsChild(0, y)) }

  /** stream_less on the streams of the tree. */
  function LessIn(sc: Sched): PQ.Order
  {
    (a: PQ.Entry, b: PQ.Entry) => a in sc && b in sc && Before(sc[a], sc[b])
  }

  ghost predicate HeapedAt(members: set<Id>, sc: Sched, h: History, p: Embedded)
  {
    PQ.Positions(p.q, p.index) && p.index.Keys == members && (!h.Lost? ==> PQ.Heap(p.q, LessIn(sc)))
  }

  ghost predicate Heaped(obq: map<Id, set<Id>>, sc: Sched, hist: Histories, pqs: Heaps)
  {
    pqs.Keys == obq.Keys == hist.Keys && forall n :: n in pqs ==> HeapedAt(obq[n], sc, hist[n], pqs[n])
  }

  ghost predicate Timely(f: Flags, w: WeightMap, sc: Sched, hist: Histories, pqs: Heaps)
  {
    Scheduled(f, w, sc, hist) && Heaped(f.obq, sc, hist, pqs)
  }

  // ---- one heap ---------------------------------------------------------------------------

  ghost predicate HasPushed(p: Embedded, less: PQ.Order, s: Id, p': Embedded)
  {
    && PQ.Positions(p'.q, p'.index) && p'.index.Keys == p.index.Keys + {s}
    && (PQ.Heap(p.q, less) && PQ.StrictWeakOrder(less, p'.index.Keys) ==> PQ.Heap(p'.q, less))
  }

  ghost predicate HasRemoved(p: Embedded, less: PQ.Order, s: Id, p': Embedded)
  {
    && PQ.Positions(p'.q, p'.index) && p'.index.Keys == p.index.Keys - {s}
    && (PQ.Heap(p.q, less) && PQ.StrictWeakOrder(less, p.index.Keys) ==> PQ.Heap(p'.q, less))
  }

  /** nghttp2_pq_push on an embedded queue. */
  method PqPush(p: Embedded, less: PQ.Order, s: Id) returns (p': Embedded)
    requires PQ.Positions(p.q, p.index) && s !in p.index
    ensures HasPushed(p, less, s, p')
  {
    hide PQ.Heap, PQ.StrictWeakOrder, PQ.Positions;
    var pq := new PQ.Pq.Embedded(p.q, p.index, less);
    ghost var ordered := PQ.Heap(p.q, less) && PQ.StrictWeakOrder(less, p.index.Keys + {s});
    if ordered { Fewer(less, p.index.Keys, p.index.Keys + {s}); }
    pq.Push(s);
    p' := Embedded(pq.q, pq.index);
  }

  /** nghttp2_pq_remove on an embedded queue. */
  method PqRemove(p: Embedded, less: PQ.Order, s: Id) returns (p': Embedded)
    requires PQ.Positions(p.q, p.index) && s in p.index
    ensures HasRemoved(p, less, s, p')
  {
    hide PQ.Heap, PQ.StrictWeakOrder, PQ.Positions;
    var pq := new PQ.Pq.Embedded(p.q, p.index, less);
    pq.Remove(s);
    p' := Embedded(pq.q, pq.index);
  }

  lemma PqRemoved(p: Embedded, less: PQ.Order, s: Id, p': Embedded)
    requires HasRemoved(p, less, s, p')
    ensures PQ.Positions(p'.q, p'.index) && s !in p'.index
  {
  }

  lemma Fewer(less: PQ.Order, a: set<Id>, b: set<Id>)
    requires PQ.StrictWeakOrder(less, b) && a <= b
    ensures PQ.StrictWeakOrder(less, a)
  {
  }

  // ---- the heaps a step leaves alone ---------------------------------------------------------

  predicate SameTime(x: Fields, y: Fields) { x.cycle == y.cycle && x.order == y.order }

  lemma SameBefore(sc: Sched, sc': Sched, a: Id, b: Id)
    requires a in sc && b in sc && a in sc' && b in sc' && SameTime(sc[a], sc'[a]) && SameTime(sc[b], sc'[b])
    ensures LessIn(sc')(a, b) == LessIn(sc)(a, b)
  {
    assert Before(sc[a], sc[b]) == Before(sc'[a], sc'[b]);
  }

  lemma SameHeap(p: Embedded, sc: Sched, sc': Sched)
    requires PQ.Heap(p.q, LessIn(sc)) && sc'.Keys == sc.Keys
    requires forall c :: c in p.q ==> c in sc && SameTime(sc[c], sc'[c])
    ensures PQ.Heap(p.q, LessIn(sc'))
  {
    forall k | 0 < k < |p.q| ensures PQ.Ok(p.q, LessIn(sc'), k) {
      assert PQ.Ok(p.q, LessIn(sc), k) && p.q[k] in p.q && p.q[PQ.Parent(k)] in p.q;
      SameBefore(sc, sc', p.q[k], p.q[PQ.Parent(k)]);
    }
  }

  lemma SameHeapAt(members: set<Id>, sc: Sched, h: History, p: Embedded, sc': Sched, h': History)
    requires HeapedAt(members, sc, h, p) && sc'.Keys == sc.Keys && members <= sc.Keys
    requires forall c :: c in members ==> SameTime(sc[c], sc'[c])
    requires h.Lost? && !h'.Lost? ==> members == {}
    ensures HeapedAt(members, sc', h', p)
  {
    assert forall k :: 0 <= k < |p.q| ==> p.q[k] in members;
    if !h.Lost? { SameHeap(p, sc, sc'); }
  }

  /** Only stream `s` and the heap of `d`, where it may be, have changed. */
  lemma HeapedStep(f: Flags, sc: Sched, hist: Histories, pqs: Heaps, f': Flags, sc': Sched, hist': Histories,
                   d: Id, s: Id, p: Embedded)
    requires Heaped(f.obq, sc, hist, pqs) && f'.obq.Keys == f.obq.Keys == sc.Keys == sc'.Keys && d in sc
    requires forall n :: n in f.obq ==> f.obq[n] <= sc.Keys
    requires forall n :: n in f.obq && n != d ==> f'.obq[n] == f.obq[n] && s !in f.obq[n]
    requires forall c :: c in sc && c != s ==> SameTime(sc[c], sc'[c])
    requires Regained(hist, hist', f'.obq) && HeapedAt(f'.obq[d], sc', hist'[d], p)
    ensures Heaped(f'.obq, sc', hist', pqs[d := p])
  {
    hide HeapedAt, SameTime;
    forall n | n in pqs && n != d ensures HeapedAt(f'.obq[n], sc', hist'[n], pqs[n]) {
      SameHeapAt(f.obq[n], sc, hist[n], pqs[n], sc', hist'[n]);
    }
  }

  /** A step that changes no queue. */
  lemma HeapedFree(f: Flags, sc: Sched, hist: Histories, pqs: Heaps, sc': Sched, hist': Histories, s: Id)
    requires Heaped(f.obq, sc, hist, pqs) && f.obq.Keys == sc.Keys == sc'.Keys
    requires forall n :: n in f.obq ==> f.obq[n] <= sc.Keys && (s in f.obq[n] ==> s in sc && SameTime(sc[s], sc'[s]))
    requires forall c :: c in sc && c != s ==> SameTime(sc[c], sc'[c])
    requires Regained(hist, hist', f.obq)
    ensures Heaped(f.obq, sc', hist', pqs)
  {
    hide HeapedAt, SameTime;
    forall n | n in pqs ensures HeapedAt(f.obq[n], sc', hist'[n], pqs[n]) {
      SameHeapAt(f.obq[n], sc, hist[n], pqs[n], sc', hist'[n]);
    }
  }

  // ---- the order in a heap --------------------------------------------------------------------

  lemma BeforeIsLess(w1: int, x: Fields, w2: int, y: Fields)
    requires w1 >= 0 && w2 >= 0
    ensures Before(x, y) == S.Less(AsChild(w1, x), AsChild(w2, y))
  {
  }

  lemma QueueWeakOrder(f: Flags, w: WeightMap, sc: Sched, hist: Histories, n: Id)
    requires Scheduled(f, w, sc, hist) && n in f.obq && n in hist && !hist[n].Lost?
    ensures PQ.StrictWeakOrder(LessIn(sc), f.obq[n])
  {
    hide Scheduled, QueueOf, Before, S.Less, AsChild;
    ScheduledParts(f, w, sc, hist);
    TreeOrder(f, w, sc, hist, n);
    QueueItems(f, w, sc, n);
    OrderIn(QueueOf(f, w, sc, n), w, sc);
  }

  lemma OrderIn(q: S.Queue, w: WeightMap, sc: Sched)
    requires S.StrictTotalOrder(q)
    requires forall c :: c in q.items ==> c in sc && c in w && w[c] >= 0 && q.items[c] == AsChild(w[c], sc[c])
    ensures PQ.StrictWeakOrder(LessIn(sc), q.items.Keys)
  {
    hide Before, S.Less, AsChild;
    forall a, b | a in q.items && b in q.items ensures LessIn(sc)(a, b) == S.Less(q.items[a], q.items[b]) {
      BeforeIsLess(w[a], sc[a], w[b], sc[b]);
    }
  }

  lemma ScheduledParts(f: Flags, w: WeightMap, sc: Sched, hist: Histories)
    requires Scheduled(f, w, sc, hist)
    ensures Fielded(f, w, sc) && Single(f) && sc.Keys == w.Keys == f.obq.Keys == hist.Keys
  {
  }

  lemma TimelyKeys(f: Flags, w: WeightMap, sc: Sched, hist: Histories, pqs: Heaps)
    requires Timely(f, w, sc, hist, pqs)
    ensures sc.Keys == w.Keys == f.obq.Keys == hist.Keys == pqs.Keys && Weighted(w, sc)
    ensures forall c :: c in w ==> 1 <= w[c] <= S.MAX_WEIGHT
    ensures forall c :: c in sc ==> InRange(sc[c])
    ensures forall n :: n in pqs ==> PQ.Positions(pqs[n].q, pqs[n].index) && pqs[n].index.Keys == f.obq[n]
    ensures forall n :: n in f.obq ==> f.obq[n] <= f.queued
  {
  }

  lemma TimelyScheduled(f: Flags, w: WeightMap, sc: Sched, hist: Histories, pqs: Heaps)
    requires Timely(f, w, sc, hist, pqs)
    ensures Scheduled(f, w, sc, hist)
  {
  }

  lemma SameWeight(f: Flags, w: WeightMap, sc: Sched, hist: Histories, pqs: Heaps, c: Id)
    requires Timely(f, w, sc, hist, pqs) && c in f.obq
    ensures c in w && c in sc && w[c := w[c]] == w && 1 <= w[c] <= S.MAX_WEIGHT
  {
    hide AllTell, Single, Heaped;
  }

  /** The queue of `n` delivers a stream that is least in its order. */
  lemma HeapTop(f: Flags, w: WeightMap, sc: Sched, hist: Histories, pqs: Heaps, n: Id)
    requires Timely(f, w, sc, hist, pqs) && n in f.obq && f.obq[n] != {}
    ensures n in pqs && pqs[n].q != [] && pqs[n].q[0] in f.obq[n] && n in hist && n in sc && Fielded(f, w, sc)
    ensures !hist[n].Lost? ==> S.IsTop(QueueOf(f, w, sc, n), pqs[n].q[0])
    ensures FirstInTime(hist[n], pqs[n].q[0])
  {
    hide Scheduled, QueueOf, Before, S.Less, AsChild, Fielded, S.VLegal, S.VIsTop, S.VRun;
    ScheduledParts(f, w, sc, hist);
    QueueItems(f, w, sc, n);
    var p := pqs[n];
    assert HeapedAt(f.obq[n], sc, hist[n], p);
    var x :| x in f.obq[n];
    assert p.index[x] < |p.q|;
    if !hist[n].Lost? {
      QueueWeakOrder(f, w, sc, hist, n);
      LeastIn(QueueOf(f, w, sc, n), w, sc, p);
    }
    if hist[n].Sound? { TopFirst(f, w, sc, hist, n, p.q[0]); }
  }

  lemma LeastIn(q: S.Queue, w: WeightMap, sc: Sched, p: Embedded)
    requires PQ.Positions(p.q, p.index) && p.index.Keys == q.items.Keys && p.q != []
    requires PQ.Heap(p.q, LessIn(sc)) && PQ.StrictWeakOrder(LessIn(sc), q.items.Keys)
    requires forall c :: c in q.items ==> c in sc && c in w && w[c] >= 0 && q.items[c] == AsChild(w[c], sc[c])
    ensures S.IsTop(q, p.q[0])
  {
    hide Before, S.Less, AsChild, PQ.Heap, PQ.StrictWeakOrder;
    assert PQ.Entries(p.q) == q.items.Keys by {
      forall x | x in q.items ensures x in p.q { assert p.q[p.index[x]] == x; }
    }
    assert p.q[0] in q.items;
    forall j | j in q.items ensures !S.Less(q.items[j], q.items[p.q[0]]) {
      PQ.RootLeast(p.q, LessIn(sc), p.index[j]);
      BeforeIsLess(w[j], sc[j], w[p.q[0]], sc[p.q[0]]);
    }
  }

  // ---- the steps of the source --------------------------------------------------------------

  /** One level of stream_obq_push. */
  lemma PushTimely(f: Flags, w: WeightMap, sc: Sched, hist: Histories, pqs: Heaps, d: Id, s: Id, p: Embedded)
    returns (hist': Histories)
    requires Timely(f, w, sc, hist, pqs) && d in sc && s in sc && d != s && s !in f.queued && d in pqs
    requires s in w && w[s] > 0 && HasPushed(pqs[d], LessIn(Pushed(sc, w, d, s)), s, p)
    ensures Timely(Enqueue(f, d, s), w, Pushed(sc, w, d, s), hist', pqs[d := p]) && Troubled(hist') <= Troubled(hist)
  {
    hide Scheduled, Troubled, Regained, Pushed, HeapedAt, HasPushed;
    hist' := PushStep(f, w, sc, hist, d, s);
    var f', sc' := Enqueue(f, d, s), Pushed(sc, w, d, s);
    StepFacts(f, w, sc, hist, f', w, sc', hist');
    PushedTimes(sc, w, d, s);
    assert s !in f.obq[d];
    StillLost(hist, hist', f'.obq, d, s);
    PushedHeap(f.obq[d], f', w, sc, sc', hist[d], hist', d, s, pqs[d], p);
    HeapedStep(f, sc, hist, pqs, f', sc', hist', d, s, p);
  }

  lemma StepFacts(f: Flags, w: WeightMap, sc: Sched, hist: Histories,
                  f': Flags, w': WeightMap, sc': Sched, hist': Histories)
    requires Scheduled(f, w, sc, hist) && Scheduled(f', w', sc', hist')
    ensures f.obq.Keys == sc.Keys == w.Keys == hist.Keys && f'.obq.Keys == sc'.Keys == w'.Keys == hist'.Keys
    ensures forall n :: n in f.obq ==> f.obq[n] <= sc.Keys && f.obq[n] <= f.queued
    ensures forall n, m :: n in f.obq && m in f.obq && n != m ==> f.obq[n] !! f.obq[m]
  {
    hide Tells, QueueOf;
  }

  lemma PushedTimes(sc: Sched, w: WeightMap, d: Id, s: Id)
    requires d in sc && s in sc && s in w && w[s] > 0 && d != s
    ensures Pushed(sc, w, d, s).Keys == sc.Keys
    ensures forall c :: c in sc && c != s ==> SameTime(sc[c], Pushed(sc, w, d, s)[c])
  {
    hide Charged;
  }

  /** The heap of `d` after `s`, with its new time, has been pushed. */
  lemma PushedHeap(members: set<Id>, f': Flags, w': WeightMap, sc: Sched, sc': Sched, h: History, hist': Histories,
                   d: Id, s: Id, p: Embedded, p': Embedded)
    requires HeapedAt(members, sc, h, p) && HasPushed(p, LessIn(sc'), s, p') && Scheduled(f', w', sc', hist')
    requires d in f'.obq && f'.obq[d] == members + {s} && s !in members && d in hist' && (h.Lost? ==> hist'[d].Lost?)
    requires sc'.Keys == sc.Keys && members <= sc.Keys && forall c :: c in members ==> SameTime(sc[c], sc'[c])
    ensures HeapedAt(f'.obq[d], sc', hist'[d], p')
  {
    hide Scheduled, SameTime, PQ.Heap, PQ.StrictWeakOrder;
    if !hist'[d].Lost? {
      QueueWeakOrder(f', w', sc', hist', d);
      SameHeapAt(members, sc, h, p, sc', h);
    }
  }

  lemma StillLost(hist: Histories, hist': Histories, obq: map<Id, set<Id>>, d: Id, s: Id)
    requires Regained(hist, hist', obq) && d in hist && d in obq && s in obq[d]
    ensures d in hist' && (hist[d].Lost? ==> hist'[d].Lost?)
  {
  }

  /** The heap of `d` after `s` has been taken out, while the fields were `sc`. */
  lemma TakenHeap(f: Flags, w: WeightMap, sc0: Sched, hist: Histories, sc: Sched, d: Id, s: Id, p: Embedded,
                  p': Embedded)
    requires Scheduled(f, w, sc0, hist) && d in f.obq && d in hist && HeapedAt(f.obq[d], sc0, hist[d], p)
    requires sc.Keys == sc0.Keys && f.obq[d] <= sc.Keys && forall c :: c in sc ==> SameTime(sc0[c], sc[c])
    requires HasRemoved(p, LessIn(sc), s, p')
    ensures HeapedAt(f.obq[d] - {s}, sc, hist[d], p')
  {
    hide Scheduled, PQ.Heap, PQ.StrictWeakOrder, SameTime;
    if !hist[d].Lost? {
      QueueWeakOrder(f, w, sc0, hist, d);
      SameWeak(sc0, sc, f.obq[d]);
      SameHeapAt(f.obq[d], sc0, hist[d], p, sc, hist[d]);
    }
  }

  lemma SameWeak(sc: Sched, sc': Sched, members: set<Id>)
    requires PQ.StrictWeakOrder(LessIn(sc), members) && sc'.Keys == sc.Keys && members <= sc.Keys
    requires forall c :: c in sc ==> SameTime(sc[c], sc'[c])
    ensures PQ.StrictWeakOrder(LessIn(sc'), members)
  {
    hide Before, SameTime;
    forall a, b | a in members && b in members ensures LessIn(sc')(a, b) == LessIn(sc)(a, b) {
      SameBefore(sc, sc', a, b);
    }
  }

  /** nghttp2_pq_remove, for a stream whose weight has just become `x`. */
  lemma TakeTimely(f: Flags, w: WeightMap, sc: Sched, hist: Histories, pqs: Heaps, d: Id, s: Id, x: int, p: Embedded)
    returns (hist': Histories)
    requires Timely(f, w, sc, hist, pqs) && d in f.obq && s in f.obq[d] && 1 <= x <= S.MAX_WEIGHT
    requires d in pqs && HasRemoved(pqs[d], LessIn(sc), s, p)
    ensures Timely(Dequeue(f, d, s), w[s := x], sc, hist', pqs[d := p]) && Troubled(hist') <= Troubled(hist)
  {
    hide Scheduled, Troubled, HeapedAt, HasRemoved;
    hist' := TakeStep(f, w, sc, hist, d, s, x);
    StepFacts(f, w, sc, hist, Dequeue(f, d, s), w[s := x], sc, hist');
    TakenHeap(f, w, sc, hist, sc, d, s, pqs[d], p);
    SameHeapAt(f.obq[d] - {s}, sc, hist[d], p, sc, hist'[d]);
    HeapedStep(f, sc, hist, pqs, Dequeue(f, d, s), sc, hist', d, s, p);
  }

  /** One level of stream_obq_remove. */
  lemma PullTimely(f: Flags, w: WeightMap, sc: Sched, hist: Histories, pqs: Heaps, d: Id, s: Id, p: Embedded)
    returns (hist': Histories)
    requires Timely(f, w, sc, hist, pqs) && d in f.obq && s in f.obq[d] && s in sc && d != s
    requires d in pqs && HasRemoved(pqs[d], LessIn(sc), s, p)
    ensures Timely(Dequeue(f, d, s), w, Pulled(sc, s), hist', pqs[d := p])
    ensures Troubled(hist') <= Troubled(hist) + (if f.obq[s] != {} then {s} else {})
  {
    hide Scheduled, Troubled, HeapedAt, HasRemoved;
    hist' := PullStep(f, w, sc, hist, d, s);
    StepFacts(f, w, sc, hist, Dequeue(f, d, s), w, Pulled(sc, s), hist');
    TakenHeap(f, w, sc, hist, sc, d, s, pqs[d], p);
    SameHeapAt(f.obq[d] - {s}, sc, hist[d], p, Pulled(sc, s), hist'[d]);
    HeapedStep(f, sc, hist, pqs, Dequeue(f, d, s), Pulled(sc, s), hist', d, s, p);
  }

  /** One level of nghttp2_stream_reschedule: the stream leaves the heap with its old time and enters with the new. */
  lemma RescheduleTimely(f: Flags, w: WeightMap, sc: Sched, hist: Histories, pqs: Heaps, d: Id, s: Id, before: nat,
                         p: Embedded, p': Embedded)
    returns (hist': Histories)
    requires d in f.obq && s in f.obq[d] && d != s && s in sc && d in sc && sc[s].lastWrite <= S.MAX_FRAME_SIZE
    requires Timely(f, w, sc[s := sc[s].(lastWrite := before)], hist, pqs)
    requires d in pqs && s in w && w[s] > 0 && HasRemoved(pqs[d], LessIn(sc), s, p)
    requires HasPushed(p, LessIn(Pushed(sc, w, d, s)), s, p')
    ensures Timely(f, w, Pushed(sc, w, d, s), hist', pqs[d := p']) && Troubled(hist') <= Troubled(hist)
  {
    hide Scheduled, Troubled, HeapedAt, HasRemoved, HasPushed, Pushed, Regained, LessIn;
    var sc0, sc' := sc[s := sc[s].(lastWrite := before)], Pushed(sc, w, d, s);
    hist' := RescheduleStep(f, w, sc, hist, d, s, before);
    StepFacts(f, w, sc0, hist, f, w, sc', hist');
    PushedTimes(sc, w, d, s);
    TakenHeap(f, w, sc0, hist, sc, d, s, pqs[d], p);
    StillLost(hist, hist', f.obq, d, s);
    PushedHeap(f.obq[d] - {s}, f, w, sc, sc', hist[d], hist', d, s, p, p');
    HeapedStep(f, sc0, hist, pqs, f, sc', hist', d, s, p');
  }

  /** nghttp2_stream_change_weight of a queued stream. */
  lemma ReweighTimely(f: Flags, w: WeightMap, sc: Sched, hist: Histories, pqs: Heaps, d: Id, s: Id, x: int,
                      p: Embedded, p': Embedded)
    returns (hist': Histories)
    requires Timely(f, w, sc, hist, pqs) && d in f.obq && s in f.obq[d] && d != s && s in sc && d in sc
    requires 1 <= x <= S.MAX_WEIGHT && s in w && 0 < w[s] != x
    requires d in pqs && HasRemoved(pqs[d], LessIn(sc), s, p) && HasPushed(p, LessIn(Reweighed(sc, w, d, s, x)), s, p')
    ensures Timely(f, w[s := x], Reweighed(sc, w, d, s, x), hist', pqs[d := p']) && Troubled(hist') <= Troubled(hist)
  {
    hide Scheduled, Troubled, HeapedAt, HasRemoved, HasPushed, S.Reweigh, Regained, LessIn;
    var sc' := Reweighed(sc, w, d, s, x);
    hist' := ReweighStep(f, w, sc, hist, d, s, x);
    StepFacts(f, w, sc, hist, f, w[s := x], sc', hist');
    TakenHeap(f, w, sc, hist, sc, d, s, pqs[d], p);
    StillLost(hist, hist', f.obq, d, s);
    PushedHeap(f.obq[d] - {s}, f, w[s := x], sc, sc', hist[d], hist', d, s, p, p');
    HeapedStep(f, sc, hist, pqs, f, sc', hist', d, s, p');
  }

  lemma NothingRegained(hist: Histories, obq: map<Id, set<Id>>)
    ensures Regained(hist, hist, obq)
  {
  }

  /** The weight of a stream outside all queues may be set freely. */
  lemma WeightTimely(f: Flags, w: WeightMap, sc: Sched, hist: Histories, pqs: Heaps, s: Id, x: int)
    requires Timely(f, w, sc, hist, pqs) && s in sc && s !in f.queued && 1 <= x <= S.MAX_WEIGHT
    ensures Timely(f, w[s := x], sc, hist, pqs)
  {
    hide Scheduled, Heaped;
    WeightFree(f, w, sc, hist, s, x);
  }

  /** So may its last_writelen. */
  lemma WriteTimely(f: Flags, w: WeightMap, sc: Sched, hist: Histories, pqs: Heaps, s: Id, length: nat)
    requires Timely(f, w, sc, hist, pqs) && s in sc && s !in f.queued && length <= S.MAX_FRAME_SIZE
    ensures Timely(f, w, sc[s := sc[s].(lastWrite := length)], hist, pqs)
  {
    hide Scheduled, HeapedAt;
    WriteFree(f, w, sc, hist, s, length);
    StepFacts(f, w, sc, hist, f, w, sc[s := sc[s].(lastWrite := length)], hist);
    NothingRegained(hist, f.obq);
    HeapedFree(f, sc, hist, pqs, sc[s := sc[s].(lastWrite := length)], hist, s);
  }

  /** nghttp2_stream_next_outbound_item has passed through the queue of `d`. */
  lemma ChooseTimely(f: Flags, w: WeightMap, sc: Sched, hist: Histories, pqs: Heaps, d: Id, s: Id)
    returns (hist': Histories)
    requires Timely(f, w, sc, hist, pqs)
    requires d in f.obq && s in f.obq[d] && d != s && s in sc && d in sc && d in hist
    requires hist[d].Sound? ==> S.IsTop(QueueOf(f, w, sc, d), s)
    ensures Timely(f, w, sc[d := sc[d].(base := sc[s].cycle)], hist', pqs) && Troubled(hist') <= Troubled(hist)
    ensures hist'.Keys == hist.Keys && forall n :: n in hist && n != d ==> hist'[n] == hist[n]
  {
    hide Scheduled, HeapedAt, Regained, Troubled, QueueOf, S.IsTop;
    hist' := ChooseStep(f, w, sc, hist, d, s);
    var sc' := sc[d := sc[d].(base := sc[s].cycle)];
    StepFacts(f, w, sc, hist, f, w, sc', hist');
    HeapedFree(f, sc, hist, pqs, sc', hist', d);
  }

  lemma NewTimely(f: Flags, w: WeightMap, sc: Sched, hist: Histories, pqs: Heaps, id: Id, x: int)
    requires Timely(f, w, sc, hist, pqs) && id !in sc && 1 <= x <= S.MAX_WEIGHT
    ensures Timely(WithFlags(f, id), w[id := x], sc[id := NEW_FIELDS], hist[id := Sound(S.EMPTY_QUEUE, [], false)],
                   pqs[id := NO_ENTRIES])
    ensures Troubled(hist[id := Sound(S.EMPTY_QUEUE, [], false)]) <= Troubled(hist)
  {
    hide Scheduled, Troubled, HeapedAt;
    NewScheduled(f, w, sc, hist, id, x);
    StepFacts(f, w, sc, hist, f, w, sc, hist);
    var sc' := sc[id := NEW_FIELDS];
    EmptyHeap(sc', Sound(S.EMPTY_QUEUE, [], false));
    forall n | n in pqs ensures HeapedAt(f.obq[n], sc', hist[n], pqs[n]) {
      OtherHeap(f.obq[n], sc, hist[n], pqs[n], sc');
    }
  }

  lemma EmptyHeap(sc: Sched, h: History)
    ensures HeapedAt({}, sc, h, NO_ENTRIES)
  {
  }

  /** Streams that are not in a queue do not count in it. */
  lemma OtherHeap(members: set<Id>, sc: Sched, h: History, p: Embedded, sc': Sched)
    requires HeapedAt(members, sc, h, p) && members <= sc.Keys && members <= sc'.Keys
    requires forall c :: c in members ==> sc'[c] == sc[c]
    ensures HeapedAt(members, sc', h, p)
  {
    assert forall k :: 0 <= k < |p.q| ==> p.q[k] in members;
    if !h.Lost? {
      forall k | 0 < k < |p.q| ensures PQ.Ok(p.q, LessIn(sc'), k) {
        assert PQ.Ok(p.q, LessIn(sc), k) && p.q[k] in members && p.q[PQ.Parent(k)] in members;
      }
    }
  }

  lemma DropTimely(f: Flags, w: WeightMap, sc: Sched, hist: Histories, pqs: Heaps, id: Id)
    requires Timely(f, w, sc, hist, pqs) && id in sc && id !in f.queued
    ensures Timely(WithoutFlags(f, id), w - {id}, sc - {id}, hist - {id}, pqs - {id})
    ensures Troubled(hist - {id}) <= Troubled(hist)
  {
    hide Scheduled, Troubled, HeapedAt;
    DropScheduled(f, w, sc, hist, id);
    StepFacts(f, w, sc, hist, f, w, sc, hist);
    forall n | n in pqs && n != id ensures HeapedAt(f.obq[n], sc - {id}, hist[n], pqs[n]) {
      assert id !in f.obq[n];
      OtherHeap(f.obq[n], sc, hist[n], pqs[n], sc - {id});
    }
  }

  lemma RootTimely(f: Flags, w: WeightMap)
    requires f == Flags({}, map[0 := {}]) && w.Keys == {0} && 1 <= w[0] <= S.MAX_WEIGHT
    ensures var hist := map[0 := Sound(S.EMPTY_QUEUE, [], false)];
            Timely(f, w, map[0 := NEW_FIELDS], hist, map[0 := NO_ENTRIES]) && Troubled(hist) == {}
  {
    hide Scheduled, Troubled, HeapedAt;
    RootScheduled(f, w);
    EmptyHeap(map[0 := NEW_FIELDS], Sound(S.EMPTY_QUEUE, [], false));
  }

  // ---- the choice ---------------------------------------------------------------------------

  /** Every stream on a way but the first is at the top of the queue of the one before, and least in its order. */
  ghost predicate Delivers(f: Flags, w: WeightMap, sc: Sched, hist: Histories, pqs: Heaps, path: seq<Id>)
  {
    forall j :: 0 <= j < |path| - 1 ==> DeliversAt(f, w, sc, hist, pqs, path[j], path[j + 1])
  }

  ghost predicate DeliversAt(f: Flags, w: WeightMap, sc: Sched, hist: Histories, pqs: Heaps, n: Id, c: Id)
  {
    && n in pqs && pqs[n].q != [] && c == pqs[n].q[0]
    && Fielded(f, w, sc) && n in sc && n in hist && (!hist[n].Lost? ==> S.IsTop(QueueOf(f, w, sc, n), c))
  }

  lemma TopDelivers(f: Flags, w: WeightMap, sc: Sched, hist: Histories, pqs: Heaps, n: Id)
    requires Timely(f, w, sc, hist, pqs) && n in f.obq && f.obq[n] != {}
    ensures n in pqs && pqs[n].q != [] && pqs[n].q[0] in f.obq[n] && n in hist && FirstInTime(hist[n], pqs[n].q[0])
    ensures DeliversAt(f, w, sc, hist, pqs, n, pqs[n].q[0])
  {
    hide Timely, Fielded, FirstInTime, S.IsTop;
    HeapTop(f, w, sc, hist, pqs, n);
  }

  lemma DeliversFurther(f: Flags, w: WeightMap, sc: Sched, hist: Histories, pqs: Heaps, path: seq<Id>, c: Id)
    requires path != [] && Delivers(f, w, sc, hist, pqs, path)
    requires DeliversAt(f, w, sc, hist, pqs, path[|path| - 1], c)
    ensures Delivers(f, w, sc, hist, pqs, path + [c])
  {
    hide DeliversAt;
    var more := path + [c];
    forall j | 0 <= j < |more| - 1 ensures DeliversAt(f, w, sc, hist, pqs, more[j], more[j + 1]) {
      if j < |path| - 1 { assert DeliversAt(f, w, sc, hist, pqs, path[j], path[j + 1]); }
    }
  }
}
