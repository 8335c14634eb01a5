/**
 * The dependency tree as the object the session updates in place, with the pointer writes and loops of
 * lib/nghttp2_stream.c.  The ghost fields `kids` and `rank` say which tree the pointers spell out and that it
 * has no cycle; `hist` tells by which run of `Scheduler` each queue has come about.
 */
module PriorityTree {
  import opened Bytes
  import opened DepLinks
  import opened DepQueues
  import opened DepWeights
  import opened DepTree
  import opened DepSession
  import opened QueueHistory
  import opened DepSchedule
  import opened DepHeaps
  import opened FrameHeader
  import S = Scheduler

  class StreamTree {
    var t: Tree
    var sc: Sched
    var pqs: Heaps
    ghost var kids: Kids
    ghost var rank: Ranks
    ghost var hist: Histories

    ghost predicate Valid()
      reads this
    {
      ValidBut(t, kids, rank, {}) && Timed()
    }

    ghost predicate Timed()
      reads this
    {
      Timely(t.flags, t.weight, sc, hist, pqs)
    }

    // ---- queues ---------------------------------------------------------------

    /** One level of stream_obq_push. */
    method PushOne(d: Id, s: Id)
      requires d in sc && s in sc && d != s && s !in t.flags.queued && Timely(t.flags, t.weight, sc, hist, pqs)
      modifies this`t, this`sc, this`hist, this`pqs
      ensures d in old(t).flags.obq && s in t.weight && t.weight[s] > 0
      ensures t == old(t).(flags := Enqueue(old(t).flags, d, s)) && sc == Pushed(old(sc), old(t).weight, d, s)
      ensures Timely(t.flags, t.weight, sc, hist, pqs) && Troubled(hist) <= Troubled(old(hist))
    {
      hide *;
      TimelyKeys(t.flags, t.weight, sc, hist, pqs);
      var sc' := Pushed(sc, t.weight, d, s);
      var p := PqPush(pqs[d], LessIn(sc'), s);
      ghost var told := PushTimely(t.flags, t.weight, sc, hist, pqs, d, s, p);
      sc := sc';
      pqs := pqs[d := p];
      t := t.(flags := Enqueue(t.flags, d, s));
      hist := told;
    }

    /** One level of stream_obq_remove. */
    method PullOne(d: Id, s: Id)
      requires d in t.flags.obq && s in t.flags.obq[d] && s in sc && d != s && s in t.flags.obq
      requires Timely(t.flags, t.weight, sc, hist, pqs)
      modifies this`t, this`sc, this`hist, this`pqs
      ensures t == old(t).(flags := Dequeue(old(t).flags, d, s)) && sc == Pulled(old(sc), s)
      ensures Timely(t.flags, t.weight, sc, hist, pqs)
      ensures Troubled(hist) <= Troubled(old(hist)) + (if old(t).flags.obq[s] != {} then {s} else {})
    {
      hide *;
      TimelyKeys(t.flags, t.weight, sc, hist, pqs);
      var p := PqRemove(pqs[d], LessIn(sc), s);
      ghost var told := PullTimely(t.flags, t.weight, sc, hist, pqs, d, s, p);
      pqs := pqs[d := p];
      t := t.(flags := Dequeue(t.flags, d, s));
      sc := Pulled(sc, s);
      hist := told;
    }

    /** nghttp2_pq_remove of a stream whose weight was `w` when it was last put in order. */
    method TakeOne(d: Id, s: Id, ghost w: int)
      requires d in t.flags.obq && s in t.flags.obq[d] && s in t.weight && 1 <= t.weight[s] <= S.MAX_WEIGHT
      requires Timely(t.flags, t.weight[s := w], sc, hist, pqs)
      modifies this`t, this`hist, this`pqs
      ensures t == old(t).(flags := Dequeue(old(t).flags, d, s))
      ensures Timely(t.flags, t.weight, sc, hist, pqs) && Troubled(hist) <= Troubled(old(hist))
    {
      hide *;
      TimelyKeys(t.flags, t.weight[s := w], sc, hist, pqs);
      assert t.weight[s := w][s := t.weight[s]] == t.weight;
      var p := PqRemove(pqs[d], LessIn(sc), s);
      ghost var told := TakeTimely(t.flags, t.weight[s := w], sc, hist, pqs, d, s, t.weight[s], p);
      pqs := pqs[d := p];
      t := t.(flags := Dequeue(t.flags, d, s));
      hist := told;
    }

    /** One level of nghttp2_stream_reschedule, after `s` has got its new last_writelen. */
    method RescheduleOne(d: Id, s: Id, ghost before: nat)
      requires d in t.flags.obq && s in t.flags.obq[d] && d != s && s in sc && d in sc
      requires sc[s].lastWrite <= S.MAX_FRAME_SIZE
      requires Timely(t.flags, t.weight, sc[s := sc[s].(lastWrite := before)], hist, pqs)
      modifies this`sc, this`hist, this`pqs
      ensures s in t.weight && t.weight[s] > 0 && sc == Pushed(old(sc), t.weight, d, s)
      ensures Timely(t.flags, t.weight, sc, hist, pqs) && Troubled(hist) <= Troubled(old(hist))
    {
      hide *;
      TimelyKeys(t.flags, t.weight, sc[s := sc[s].(lastWrite := before)], hist, pqs);
      var p := PqRemove(pqs[d], LessIn(sc), s);
      PqRemoved(pqs[d], LessIn(sc), s, p);
      var sc' := Pushed(sc, t.weight, d, s);
      var p' := PqPush(p, LessIn(sc'), s);
      ghost var told := RescheduleTimely(t.flags, t.weight, sc, hist, pqs, d, s, before, p, p');
      sc := sc';
      pqs := pqs[d := p'];
      hist := told;
    }

    /** nghttp2_stream_change_weight of a queued stream, whose weight was `before`. */
    method ReweighOne(d: Id, s: Id, before: int)
      requires d in t.flags.obq && s in t.flags.obq[d] && d != s && s in sc && d in sc && s in t.weight
      requires 1 <= t.weight[s] <= S.MAX_WEIGHT && 0 < before != t.weight[s]
      requires Timely(t.flags, t.weight[s := before], sc, hist, pqs)
      modifies this`sc, this`hist, this`pqs
      ensures sc == Reweighed(old(sc), t.weight[s := before], d, s, t.weight[s])
      ensures Timely(t.flags, t.weight, sc, hist, pqs) && Troubled(hist) <= Troubled(old(hist))
    {
      hide *;
      TimelyKeys(t.flags, t.weight[s := before], sc, hist, pqs);
      assert t.weight[s := before][s := t.weight[s]] == t.weight;
      var p := PqRemove(pqs[d], LessIn(sc), s);
      PqRemoved(pqs[d], LessIn(sc), s, p);
      var sc' := Reweighed(sc, t.weight[s := before], d, s, t.weight[s]);
      var p' := PqPush(p, LessIn(sc'), s);
      ghost var told := ReweighTimely(t.flags, t.weight[s := before], sc, hist, pqs, d, s, t.weight[s], p, p');
      sc := sc';
      pqs := pqs[d := p'];
      hist := told;
    }

    method ObqPush(dep0: Ref, s0: Id)
      requires Ranked(t.links.depPrev, rank) && t.flags.obq.Keys == t.links.depPrev.Keys
      requires (dep0.Some? ==> dep0.value in t.links.depPrev) && s0 in t.links.depPrev && dep0 != Some(s0)
      requires Timely(t.flags, t.weight, sc, hist, pqs)
      modifies this`t, this`sc, this`hist, this`pqs
      ensures t == old(t).(flags := PushUp(old(t).links.depPrev, rank, old(t).flags, dep0, s0))
      ensures PushedTo(t.links.depPrev, rank, old(t).flags, t.weight, old(sc), dep0, s0, sc)
      ensures Timely(t.flags, t.weight, sc, hist, pqs) && Troubled(hist) <= Troubled(old(hist))
    {
      hide *;
      TimelyKeys(t.flags, t.weight, sc, hist, pqs);
      var dep, s := dep0, s0;
      ghost var dp := t.links.depPrev;
      PushStart(dp, rank, t.weight, t.flags, sc, dep, s);
      while dep.Some? && s !in t.flags.queued
        invariant t == old(t).(flags := t.flags)
        invariant Pushing(dp, rank, t.weight, old(t).flags, old(sc), dep0, s0, t.flags, sc, dep, s)
        invariant Timely(t.flags, t.weight, sc, hist, pqs) && Troubled(hist) <= Troubled(old(hist))
        decreases if dep.Some? && dep.value in rank then rank[dep.value] + 1 else 0
      {
        PushNext(dp, rank, t.weight, old(t).flags, old(sc), dep0, s0, t.flags, sc, dep.value, s);
        PushOne(dep.value, s);
        s, dep := dep.value, t.links.depPrev[dep.value];
      }
      PushDone(dp, rank, t.weight, old(t).flags, old(sc), dep0, s0, t.flags, sc, dep, s);
    }

    /** Each stream taken off a queue, but perhaps the first, has an empty queue itself when its base is reset. */
    method ObqRemove(s0: Id)
      requires Ranked(t.links.depPrev, rank) && t.flags.obq.Keys == t.links.depPrev.Keys && s0 in t.links.depPrev
      requires s0 in t.flags.queued ==> PullsQueued(t.links.depPrev, rank, t.Active(), t.flags, s0)
      requires Timely(t.flags, t.weight, sc, hist, pqs)
      modifies this`t, this`sc, this`hist, this`pqs
      ensures t == old(t).(flags := t.flags)
      ensures PulledTo(t.links.depPrev, rank, t.Active(), old(t).flags, old(sc), s0, t.flags, sc)
      ensures Timely(t.flags, t.weight, sc, hist, pqs)
      ensures Troubled(hist) <= Troubled(old(hist)) + (if old(t).flags.obq[s0] != {} then {s0} else {})
    {
      hide Timely, Troubled, Pulled, PullUp, PullSched, PullsQueued, Ranked, Busy, Dequeue, Weighted, Pulling;
      TimelyKeys(t.flags, t.weight, sc, hist, pqs);
      var s := s0;
      var dep := t.links.depPrev[s];
      if s !in t.flags.queued { return; }
      ghost var dp, active, f0, sc0 := t.links.depPrev, t.Active(), t.flags, sc;
      ghost var own := if t.flags.obq[s0] != {} then {s0} else {};
      PullStart(dp, rank, active, f0, sc0, s0);
      while dep.Some?
        invariant t == old(t).(flags := t.flags) && s in dp && dep == dp[s]
        invariant s in t.flags.obq && (t.flags.obq[s] != {} ==> own == {s})
        invariant Pulling(dp, rank, active, f0, sc0, s0, t.flags, sc, s)
        invariant Timely(t.flags, t.weight, sc, hist, pqs) && Troubled(hist) <= Troubled(old(hist)) + own
        decreases if s in rank then rank[s] else 0
      {
        PullNext(dp, rank, active, f0, sc0, s0, t.flags, sc, s);
        assert s in t.flags.queued;
        PullOne(dep.value, s);
        if Busy(t.Active(), t.flags, dep.value) { return; }
        s, dep := dep.value, t.links.depPrev[dep.value];
      }
      PullEnds(dp, rank, active, f0, sc0, s0, t.flags, sc, s);
    }

    /** `w` is the weight the stream had when it was last put in order. */
    method ObqMove(dest: Id, src: Id, c: Id, ghost w: int)
      requires Ranked(t.links.depPrev, rank) && t.flags.obq.Keys == t.links.depPrev.Keys
      requires dest in t.links.depPrev && src in t.links.depPrev && c in t.links.depPrev && dest != c
      requires (c in t.flags.queued ==> c in t.flags.obq[src]) && c in t.weight && 1 <= t.weight[c] <= MAX_WEIGHT
      requires Timely(t.flags, t.weight[c := w], sc, hist, pqs)
      modifies this`t, this`sc, this`hist, this`pqs
      ensures t == old(t).(flags := Move(old(t).links.depPrev, rank, old(t).flags, dest, src, c))
      ensures MovedTo(t.links.depPrev, rank, old(t).flags, t.weight, old(sc), dest, src, c, sc)
      ensures Timely(t.flags, t.weight, sc, hist, pqs) && Troubled(hist) <= Troubled(old(hist))
    {
      hide Timely, Troubled, PushSched;
      TimelyKeys(t.flags, t.weight[c := w], sc, hist, pqs);
      if c !in t.flags.queued {
        WeightTimely(t.flags, t.weight[c := w], sc, hist, pqs, c, t.weight[c]);
        assert t.weight[c := w][c := t.weight[c]] == t.weight;
        TimelyKeys(t.flags, t.weight, sc, hist, pqs);
        return;
      }
      TakeOne(src, c, w);
      ObqPush(Some(dest), c);
    }

    // ---- items ----------------------------------------------------------------

    method AttachItem(s: Id)
      requires Valid() && s in kids && s != ROOT && s !in t.item && s !in t.deferFlow && s !in t.deferUser
      modifies this`t, this`sc, this`hist, this`pqs
      ensures Valid() && t == old(t).(item := old(t).item + {s}, flags := t.flags)
      ensures Troubled(hist) <= Troubled(old(hist))
    {
      hide ValidBut, PushUp, Ranked, Queues, Timely, PushSched, Troubled;
      NotOwnParent(t, kids, rank, s);
      ItemFacts(t, kids, rank);
      ghost var t' := t.(item := t.item + {s});
      assert t'.Active() == t.Active() + {s};
      ActivateValid(t, kids, rank, t', s);
      t := t.(item := t.item + {s});
      ObqPush(t.links.depPrev[s], s);
    }

    /** stream_update_dep_on_detach_item: the items have changed from those of `before`, where `s` was active. */
    method UpdateOnDetach(s: Id, ghost before: Tree)
      requires ValidBut(before, kids, rank, {}) && s in kids && s != ROOT
      requires t == before.(item := t.item, deferFlow := t.deferFlow, deferUser := t.deferUser)
      requires t.item <= before.item && t.Active() == before.Active() - {s} && Timed()
      modifies this`t, this`sc, this`hist, this`pqs
      ensures Valid() && t == old(t).(flags := t.flags)
      ensures Troubled(hist) <= Troubled(old(hist))
    {
      hide ValidBut, PullUp, PullsQueued, Ranked, Timely, PullSched, Troubled;
      DeactivateValid(before, kids, rank, t, s);
      if t.flags.obq[s] == {} { ObqRemove(s); }
    }

    method DetachItem(s: Id)
      requires Valid() && s in kids && s != ROOT
      modifies this`t, this`sc, this`hist, this`pqs
      ensures Valid()
      ensures t == old(t).(item := old(t).item - {s}, deferFlow := old(t).deferFlow - {s},
                           deferUser := old(t).deferUser - {s}, flags := t.flags)
      ensures Troubled(hist) <= Troubled(old(hist))
    {
      hide ValidBut, Timely, Troubled;
      t := t.(item := t.item - {s});
      t := t.(deferFlow := t.deferFlow - {s}, deferUser := t.deferUser - {s});
      assert t.Active() == old(t).Active() - {s};
      UpdateOnDetach(s, old(t));
    }

    /** The source keeps the two reasons to defer as flag bits. */
    method DeferItem(s: Id, flow: bool, user: bool)
      requires Valid() && s in t.item && s in kids && s != ROOT && (flow || user)
      modifies this`t, this`sc, this`hist, this`pqs
      ensures Valid()
      ensures t == old(t).(deferFlow := if flow then old(t).deferFlow + {s} else old(t).deferFlow,
                           deferUser := if user then old(t).deferUser + {s} else old(t).deferUser, flags := t.flags)
      ensures Troubled(hist) <= Troubled(old(hist))
    {
      hide ValidBut, Timely, Troubled;
      if flow { t := t.(deferFlow := t.deferFlow + {s}); }
      if user { t := t.(deferUser := t.deferUser + {s}); }
      assert t.Active() == old(t).Active() - {s};
      UpdateOnDetach(s, old(t));
    }

    method ResumeItem(s: Id, flow: bool, user: bool)
      requires Valid() && s in t.item && s in kids && s != ROOT
      modifies this`t, this`sc, this`hist, this`pqs
      ensures Valid()
      ensures t == old(t).(deferFlow := if flow then old(t).deferFlow - {s} else old(t).deferFlow,
                           deferUser := if user then old(t).deferUser - {s} else old(t).deferUser, flags := t.flags)
      ensures Troubled(hist) <= Troubled(old(hist))
    {
      hide ValidBut, PushUp, Ranked, Queues, Timely, PushSched, Troubled;
      NotOwnParent(t, kids, rank, s);
      ItemFacts(t, kids, rank);
      if flow { t := t.(deferFlow := t.deferFlow - {s}); }
      if user { t := t.(deferUser := t.deferUser - {s}); }
      if s in t.deferFlow || s in t.deferUser {
        assert t.Active() == old(t).Active();
        FlagsValid(old(t), kids, rank, t);
        return;
      }
      assert t.Active() == old(t).Active() + {s};
      ActivateValid(old(t), kids, rank, t, s);
      ObqPush(t.links.depPrev[s], s);
    }

    // ---- subtrees ------------------------------------------------------------------

    /** The stream leaves its place with everything below it; `p` and `i` tell where it was. */
    method DepRemoveSubtree(s: Id) returns (ghost p: Id, ghost i: nat)
      requires Valid() && s in kids && s != ROOT
      modifies this
      ensures s in old(t).links.depPrev && old(t).links.depPrev[s] == Some(p)
      ensures p in old(kids) && i < |old(kids)[p]| && old(kids)[p][i] == s
      ensures kids == TakeOut(old(kids), p, i) && rank == old(rank)
      ensures ValidBut(t, kids, rank, {s})
      ensures t == old(t).(links := SpliceLinks(old(t).links, p, old(kids)[p], i, []),
                           sumDep := t.sumDep, flags := t.flags)
      ensures Timed() && s in old(t).flags.obq
      ensures Troubled(hist) <= Troubled(old(hist)) + (if old(t).flags.obq[s] != {} then {s} else {})
    {
      hide ValidBut, Ranked, PullUp, PullsQueued, SpliceLinks, CutLinks, Alone, TakeOut, Timely, PullSched, Troubled;
      p, i := RemoveSubtreePlan(t, kids, rank, s);
      var dep := t.links.depPrev[s].value;
      t := t.(links := CutLinks(t.links, dep, s));
      t := t.(sumDep := t.sumDep[dep := t.sumDep[dep] - t.weight[s]]);
      if s in t.flags.queued { ObqRemove(s); }
      t := t.(links := Alone(t.links, s));
      kids := TakeOut(kids, p, i);
    }

    method DepAddSubtree(dep: Id, s: Id)
      requires Adoptable(t, kids, rank, dep, s) && Timed()
      modifies this
      ensures Valid() && kids == AddFirst(old(kids), dep, s)
      ensures t == old(t).(links := AddLinks(old(t).links, dep, s), sumDep := t.sumDep, flags := t.flags)
      ensures Troubled(hist) <= Troubled(old(hist))
    {
      hide ValidBut, Ranked, Above, PushUp, AddLinks, AttachRanks, InsertLinkDep, LinkDep, Timely, PushSched, Troubled;
      AddSubtreeValid(t, kids, rank, dep, s);
      AddIsLinks(t.links, dep, s);
      t := t.(sumDep := t.sumDep[dep := t.sumDep[dep] + t.weight[s]]);
      if t.links.depNext[dep].Some? {
        t := t.(links := InsertLinkDep(t.links, dep, s));
      } else {
        t := t.(links := LinkDep(t.links, dep, Some(s)));
      }
      rank := AttachRanks(old(t).links.depPrev, rank, dep, s);
      kids := AddFirst(kids, dep, s);
      if Busy(t.Active(), t.flags, s) { ObqPush(Some(dep), s); }
    }

    /** For a stream with nothing to send, itself or below it. */
    method DepAdd(dep: Id, s: Id)
      requires Adoptable(t, kids, rank, dep, s) && s in t.flags.obq && !Busy(t.Active(), t.flags, s) && Timed()
      modifies this
      ensures Valid() && kids == AddFirst(old(kids), dep, s)
      ensures t == old(t).(links := AddLinks(old(t).links, dep, s), sumDep := t.sumDep) && sc == old(sc)
      ensures hist == old(hist) && pqs == old(pqs)
    {
      hide ValidBut, Ranked, Above, PushUp, AddLinks, AttachRanks, InsertLinkDep, LinkDep, Timely;
      AddSubtreeValid(t, kids, rank, dep, s);
      AddIsLinks(t.links, dep, s);
      t := t.(sumDep := t.sumDep[dep := t.sumDep[dep] + t.weight[s]]);
      if t.links.depNext[dep] == None {
        t := t.(links := LinkDep(t.links, dep, Some(s)));
      } else {
        t := t.(links := InsertLinkDep(t.links, dep, s));
      }
      rank := AttachRanks(old(t).links.depPrev, rank, dep, s);
      kids := AddFirst(kids, dep, s);
    }

    /** stream_last_sib; `a` is the list of siblings from `first` on. */
    method LastSib(first: Id, ghost a: seq<Id>) returns (last: Id)
      requires a != [] && a[0] == first
      requires forall i :: 0 <= i < |a| ==> a[i] in t.links.sibNext && t.links.sibNext[a[i]] == At(a, i + 1)
      ensures last == a[|a| - 1]
    {
      last := first;
      ghost var i := 0;
      while t.links.sibNext[last].Some?
        invariant 0 <= i < |a| && last == a[i]
        decreases |a| - i
      {
        assert t.links.sibNext[a[i]] == At(a, i + 1);
        last := t.links.sibNext[last].value;
        i := i + 1;
      }
      assert t.links.sibNext[a[i]] == At(a, i + 1);
    }

    /** The stream becomes the only child of `dep`, and the children of `dep` become its last children. */
    method DepInsertSubtree(dep: Id, s: Id)
      requires Adoptable(t, kids, rank, dep, s) && Timed()
      modifies this
      ensures Valid() && kids == InsertAbove(old(kids), dep, s)
      ensures t == old(t).(links := InsertLinks(old(t).links, dep, s, old(kids)[s], old(kids)[dep]),
                           sumDep := t.sumDep, flags := t.flags)
      ensures Troubled(hist) <= Troubled(old(hist))
    {
      hide ValidBut, Ranked, Above, PushUp, AttachRanks, LinkDep, LinkSib, InsertLinks, Adopting, Adopted, Move,
        InsertAbove, Adoptable, Timely, PushSched, Troubled;
      AdoptFacts(t, kids, rank, dep, s);
      AdoptStart(t, kids, rank, dep, s);
      rank := AttachRanks(t.links.depPrev, rank, dep, s);
      t := t.(sumDep := t.sumDep[s := t.sumDep[s] + t.sumDep[dep]]);
      t := t.(sumDep := t.sumDep[dep := t.weight[s]]);
      LinkAbove(dep, s, old(t), old(rank));
      InsertParents(old(t).links, dep, s, kids[s], kids[dep]);
      InsertDone(old(t), kids, old(rank), dep, s, t.flags);
      if Busy(t.Active(), t.flags, s) { ObqPush(Some(dep), s); }
      kids := InsertAbove(kids, dep, s);
    }

    /** The stream is linked between `dep` and the former children of that. */
    method LinkAbove(dep: Id, s: Id, ghost t0: Tree, ghost rank0: Ranks)
      requires AdoptBegun(t0, kids, rank0, rank, dep, s, t) && Timed()
      modifies this`t, this`sc, this`hist, this`pqs
      ensures t == old(t).(links := t.links, flags := t.flags) && AdoptDone(t0, kids, dep, s, t)
      ensures Timed() && Troubled(hist) <= Troubled(old(hist))
    {
      hide ValidBut, Ranked, Above, AttachRanks, LinkDep, LinkSib, InsertLinks, Adopting, Adopted, Adoptable, Timely,
        Troubled;
      AdoptFacts(t0, kids, rank0, dep, s);
      if t.links.depNext[dep].Some? {
        var depNext := t.links.depNext[dep];
        InsertStartLinks(t0, kids, rank0, dep, s);
        t := t.(links := LinkDep(t.links, dep, Some(s)));
        LinkKeeps(t0.links, dep, s);
        if t.links.depNext[s].Some? {
          var last := LastSib(t.links.depNext[s].value, kids[s]);
          t := t.(links := LinkSib(t.links, last, depNext));
        } else {
          t := t.(links := LinkDep(t.links, s, depNext));
        }
        AdoptKids(dep, s, depNext, t0, rank0);
      } else {
        t := t.(links := LinkDep(t.links, dep, Some(s)));
        InsertNone(t0, kids, rank0, dep, s);
      }
    }

    /** The loop of nghttp2_stream_dep_insert_subtree over the former children of `dep`. */
    method AdoptKids(dep: Id, s: Id, depNext: Ref, ghost t0: Tree, ghost rank0: Ranks)
      requires AdoptReady(t0, kids, rank0, rank, dep, s, depNext, t)
      requires Timed()
      modifies this`t, this`sc, this`hist, this`pqs
      ensures t == old(t).(links := t.links, flags := t.flags) && AdoptDone(t0, kids, dep, s, t)
      ensures Timed() && Troubled(hist) <= Troubled(old(hist))
    {
      hide ValidBut, Ranked, Above, PushUp, AttachRanks, InsertLinks, Adopting, Adopted, Move, Adoptable, InsertStart,
        Timely, PushSched, Troubled, AdoptReady;
      AdoptReadyFacts(t0, kids, rank0, rank, dep, s, depNext, t);
      AdoptFacts(t0, kids, rank0, dep, s);
      InsertStartLinks(t0, kids, rank0, dep, s);
      ghost var b, k := kids[dep], 0;
      ghost var early := if kids[s] == [] then 1 else 0;
      var si := depNext;
      while si.Some?
        invariant 0 <= k <= |b| && si == At(b, k) && Adopting(t0, kids, dep, s, k, t.flags)
        invariant t == old(t).(links := t.links, flags := t.flags)
        invariant t.links == old(t).links.(depPrev := t.links.depPrev)
        invariant t.links.depPrev == Adopted(t0.links.depPrev, b, if k == 0 then early else k, s, Some(dep))
        invariant Timed() && Troubled(hist) <= Troubled(old(hist))
        decreases |b| - k
      {
        AdoptedChild(t0, kids, rank0, dep, s, k);
        AdoptingChild(t0, kids, rank0, dep, s, k, t.flags);
        AdoptedStep(t0.links.depPrev, b, k, s, Some(dep));
        AdoptNext(t0, kids, rank0, dep, s, k, t.flags);
        AdoptingKeys(t0, kids, dep, s, k, t.flags);
        SameWeight(t.flags, t.weight, sc, hist, pqs, si.value);
        t := t.(links := t.links.(depPrev := t.links.depPrev[si.value := Some(s)]));
        MoveIdle(t.links.depPrev, rank, t.flags, s, dep, si.value);
        if si.value in t.flags.queued { ObqMove(s, dep, si.value, t.weight[si.value]); }
        si := t.links.sibNext[si.value];
        k := k + 1;
      }
    }

    /** A new stream, with no children and nothing to send, becomes the only child of `dep`. */
    method DepInsert(dep: Id, s: Id)
      requires Adoptable(t, kids, rank, dep, s) && kids[s] == [] && s !in t.Active() && Timed()
      modifies this
      ensures Valid() && kids == InsertAbove(old(kids), dep, s)
      ensures t == old(t).(links := InsertLinks(old(t).links, dep, s, [], old(kids)[dep]),
                           sumDep := t.sumDep, flags := t.flags)
      ensures Troubled(hist) <= Troubled(old(hist))
    {
      hide ValidBut, Ranked, Above, PushUp, AttachRanks, InsertLinks, NewAdopting, Adopted, Move, InsertAbove,
        Adoptable,
        Timely, PushSched, Troubled;
      AdoptFacts(t, kids, rank, dep, s);
      NewAdoptStart(t, kids, rank, dep, s);
      NewSum(t, kids, rank, s);
      NewInsertLinks(t, kids, rank, dep, s);
      NewZero(t, kids, rank, dep, s);
      rank := AttachRanks(t.links.depPrev, rank, dep, s);
      t := t.(sumDep := t.sumDep[s := t.sumDep[dep]]);
      t := t.(sumDep := t.sumDep[dep := t.weight[s]]);
      if t.links.depNext[dep].Some? {
        NewAdoptKids(dep, s, old(t), old(rank));
        NewInsertDone(old(t), kids, old(rank), dep, s, t.flags);
        if Busy(t.Active(), t.flags, s) { ObqPush(Some(dep), s); }
        t := t.(links := t.links.(depNext := t.links.depNext[s := t.links.depNext[dep]]));
      } else {
        NewInsertDone(old(t), kids, old(rank), dep, s, t.flags);
        NoKidsNoQueue(old(t), kids, old(rank), {s}, s);
      }
      t := t.(links := t.links.(depNext := t.links.depNext[dep := Some(s)]));
      t := t.(links := t.links.(depPrev := t.links.depPrev[s := Some(dep)]));
      kids := InsertAbove(kids, dep, s);
    }

    /** The loop of nghttp2_stream_dep_insert. */
    method NewAdoptKids(dep: Id, s: Id, ghost t0: Tree, ghost rank0: Ranks)
      requires NewAdoptReady(t0, kids, rank0, rank, dep, s, t)
      requires Timed()
      modifies this`t, this`sc, this`hist, this`pqs
      ensures t == old(t).(links := t.links, flags := t.flags) && NewAdoptDone(t0, kids, dep, s, t)
      ensures Timed() && Troubled(hist) <= Troubled(old(hist))
    {
      hide ValidBut, Ranked, Above, PushUp, AttachRanks, NewAdopting, Adopted, Move, Adoptable, Timely, PushSched,
        Troubled, NewAdoptReady;
      NewAdoptReadyFacts(t0, kids, rank0, rank, dep, s, t);
      AdoptFacts(t0, kids, rank0, dep, s);
      NewZero(t0, kids, rank0, dep, s);
      ghost var b, k := kids[dep], 0;
      var si := t.links.depNext[dep];
      while si.Some?
        invariant 0 <= k <= |b| && si == At(b, k) && NewAdopting(t0, kids, dep, s, k, t.flags)
        invariant t == old(t).(links := t.links, flags := t.flags)
        invariant t.links == t0.links.(depPrev := Adopted(t0.links.depPrev, b, k, s, None))
        invariant Timed() && Troubled(hist) <= Troubled(old(hist))
        decreases |b| - k
      {
        AdoptedChild(t0, kids, rank0, dep, s, k);
        AdoptingChild(t0, kids, rank0, dep, s, k, t.flags);
        AdoptedStep(t0.links.depPrev, b, k, s, None);
        NewAdoptNext(t0, kids, rank0, dep, s, k, t.flags);
        NewAdoptingKeys(t0, kids, dep, s, k, t.flags);
        SameWeight(t.flags, t.weight, sc, hist, pqs, si.value);
        t := t.(links := t.links.(depPrev := t.links.depPrev[si.value := Some(s)]));
        MoveIdle(t.links.depPrev, rank, t.flags, s, dep, si.value);
        if si.value in t.flags.queued { ObqMove(s, dep, si.value, t.weight[si.value]); }
        si := t.links.sibNext[si.value];
        k := k + 1;
      }
    }

    /** set_dep_prev; `m` is the list of siblings from `first` on. */
    method SetDepPrev(first: Ref, dep: Id, ghost m: seq<Id>)
      requires first == At(m, 0)
      requires forall i :: 0 <= i < |m| ==>
                 m[i] in t.links.sibNext && t.links.sibNext[m[i]] == At(m, i + 1) && m[i] in t.links.depPrev
      modifies this`t
      ensures t == old(t).(links := old(t).links.(depPrev := Moved(old(t).links.depPrev, m, dep)))
    {
      hide Moved;
      var si := first;
      ghost var i := 0;
      MovedNone(t.links.depPrev, m, dep);
      while si.Some?
        invariant 0 <= i <= |m| && si == At(m, i)
        invariant t == old(t).(links := old(t).links.(depPrev := Moved(old(t).links.depPrev, m[..i], dep)))
        decreases |m| - i
      {
        MovedStep(old(t).links.depPrev, m, i, dep);
        t := t.(links := t.links.(depPrev := t.links.depPrev[si.value := Some(dep)]));
        si := t.links.sibNext[si.value];
        i := i + 1;
      }
      assert m[..|m|] == m;
    }

    /** unlink_sib if the stream has an elder sibling, unlink_dep if it is the first child. */
    method UnlinkStream(s: Id, ghost m: seq<Id>)
      requires s in t.links.sibPrev && s in t.links.sibNext && s in t.links.depNext && s in t.links.depPrev
      requires t.links.depPrev[s].Some? && t.links.depNext[s] == At(m, 0) && t.links.sibPrev[s] != Some(s)
      requires forall i :: 0 <= i < |m| ==>
                 && m[i] in t.links.sibNext && t.links.sibNext[m[i]] == At(m, i + 1) && m[i] in t.links.depPrev
                 && t.links.sibPrev[s] != Some(m[i]) && m[i] != s
      modifies this`t
      ensures t == old(t).(links := Unlink(old(t).links, old(t).links.depPrev[s].value, s, m))
    {
      var prev, dep, depNext := t.links.sibPrev[s], t.links.depPrev[s].value, t.links.depNext[s];
      if depNext.Some? {
        if prev.Some? {
          t := t.(links := LinkSib(t.links, prev.value, depNext));
        } else {
          t := t.(links := LinkDep(t.links, dep, depNext));
        }
        SetDepPrev(depNext, dep, m);
        if t.links.sibNext[s].Some? {
          var last := LastSib(depNext.value, m);
          t := t.(links := LinkSib(t.links, last, t.links.sibNext[s]));
        }
      } else if prev.Some? {
        t := t.(links := LinkSib(t.links, prev.value, t.links.sibNext[s]));
      } else if t.links.sibNext[s].Some? {
        var next := t.links.sibNext[s].value;
        t := t.(links := t.links.(sibPrev := t.links.sibPrev[next := None]));
        t := t.(links := LinkDep(t.links, dep, Some(next)));
      } else {
        t := t.(links := t.links.(depNext := t.links.depNext[dep := None]));
      }
    }

    /** The links of the stream, once its children are out of it. */
    method Unhang(s: Id, ghost m: seq<Id>)
      requires s in t.links.sibPrev && s in t.links.sibNext && s in t.links.depNext && s in t.links.depPrev
      requires t.links.depPrev[s].Some? && t.links.depNext[s] == At(m, 0) && t.links.sibPrev[s] != Some(s)
      requires forall i :: 0 <= i < |m| ==>
                 && m[i] in t.links.sibNext && t.links.sibNext[m[i]] == At(m, i + 1) && m[i] in t.links.depPrev
                 && t.links.sibPrev[s] != Some(m[i]) && m[i] != s
      modifies this`t
      ensures var l := Alone(Unlink(old(t).links, old(t).links.depPrev[s].value, s, m), s);
              t == old(t).(links := l.(depNext := l.depNext[s := None]), sumDep := old(t).sumDep[s := 0])
    {
      hide Unlink, Alone;
      UnlinkStream(s, m);
      t := t.(sumDep := t.sumDep[s := 0]);
      t := t.(links := Alone(t.links, s));
      t := t.(links := t.links.(depNext := t.links.depNext[s := None]));
    }

    /**
     * The stream leaves the tree: its children take its place among its siblings and share out its weight.
     * `p` and `i` tell where it was.
     */
    method DepRemove(s: Id) returns (ghost p: Id, ghost i: nat)
      requires Valid() && s in kids && s != ROOT
      modifies this
      ensures p in old(kids) && i < |old(kids)[p]| && old(kids)[p][i] == s && rank == old(rank)
      ensures ValidBut(t, kids, rank, {s}) && kids == ReplaceByKids(old(kids), p, i)
      ensures t == old(t).(links := ReplaceLinks(old(t).links, old(kids), p, i),
                           weight := Shared(old(t).weight, old(kids)[s], s, WeightOf(old(t).sumDep, s)),
                           sumDep := t.sumDep, flags := t.flags)
      ensures FairlyShared(old(t).weight, t.weight, old(kids)[s], WeightOf(old(t).weight, s))
      ensures Timed() && Troubled(hist) <= Troubled(old(hist))
    {
      hide ValidBut, Ranked, PullUp, PullsQueued, HandingOver, HandedOver, ReplaceLinks, ReplaceByKids, Shared, Sum,
        FairlyShared, Unlink, Alone, Queues, Timely, PullSched, Troubled;
      p, i := RemovePlan(t, kids, rank, s);
      UnlinkReady(t, kids, rank, s);
      var delta := ShareOut(s, p, i, kids[s]);
      var depPrev := t.links.depPrev[s].value;
      HandOverDone(old(t), kids, rank, p, i, s, t.flags);
      HandedEmpty(old(t), kids, rank, p, s, t.flags);
      RemoveValid(old(t), kids, rank, p, i, s, if s in t.flags.queued
                  then PullUp(t.links.depPrev, rank, t.Active(), t.flags, s) else t.flags);
      t := t.(sumDep := t.sumDep[depPrev := t.sumDep[depPrev] + delta]);
      if s in t.flags.queued { ObqRemove(s); }
      Unhang(s, kids[s]);
      kids := ReplaceByKids(kids, p, i);
    }

    /** The loop of nghttp2_stream_dep_remove over the children of `s`; returns the change of the parent's sum. */
    method ShareOut(s: Id, ghost p: Id, ghost i: nat, ghost m: seq<Id>) returns (delta: int)
      requires s in kids && s != ROOT && p in kids && i < |kids[p]| && kids[p][i] == s && m == kids[s]
      requires s in t.links.depPrev && t.links.depPrev[s] == Some(p)
      requires s in t.links.depNext && t.links.depNext[s] == At(m, 0)
      requires s in t.weight && s in t.sumDep && (m != [] ==> WeightOf(t.sumDep, s) > 0)
      requires HandingOver(t, kids, p, s, 0, t.flags) && ValidBut(t, kids, rank, {}) && Timed()
      modifies this`t, this`sc, this`hist, this`pqs
      ensures t == old(t).(weight := Shared(old(t).weight, m, s, WeightOf(old(t).sumDep, s)), flags := t.flags)
      ensures delta == Sum(t.weight, m) - WeightOf(old(t).weight, s)
      ensures FairlyShared(old(t).weight, t.weight, m, WeightOf(old(t).weight, s))
      ensures HandingOver(old(t), kids, p, s, |m|, t.flags)
      ensures Timed() && Troubled(hist) <= Troubled(old(hist))
    {
      hide ValidBut, Ranked, PushUp, Move, HandingOver, Shared, Sum, Share, Timely, PushSched, Troubled, FairlyShared;
      RemovedFairly(t, kids, rank, s);
      ghost var k, w, sum := 0, t.weight, t.sumDep[s];
      ShareNone(w, m, s, sum);
      delta := -t.weight[s];
      var si := t.links.depNext[s];
      while si.Some?
        invariant 0 <= k <= |m| && si == At(m, k) && HandingOver(old(t), kids, p, s, k, t.flags)
        invariant t == old(t).(weight := Shared(w, m[..k], s, sum), flags := t.flags)
        invariant delta == Sum(t.weight, m[..k]) - w[s]
        invariant Timed() && Troubled(hist) <= Troubled(old(hist))
        decreases |m| - k
      {
        HandingChild(old(t), kids, rank, p, s, k, t.flags);
        ShareInRange(old(t), kids, rank, s, k);
        GrandparentApart(old(t), kids, rank, p, s, k);
        ghost var before := t.weight;
        RemovedChild(old(t), kids, rank, s, k);
        ShareStep(w, m, k, s, sum);
        NotOwnChild(old(t), kids, rank, s);
        ShareKeeps(w, m, k, s, sum);
        HandOverNext(old(t), kids, rank, p, i, s, k, t.flags);
        HandingKeys(old(t), kids, p, s, k, t.flags);
        SameWeight(t.flags, t.weight, sc, hist, pqs, si.value);
        t := t.(weight := t.weight[si.value := Share(t.weight[s], t.weight[si.value], t.sumDep[s])]);
        delta := delta + t.weight[si.value];
        MoveIdle(t.links.depPrev, rank, t.flags, p, s, si.value);
        assert t.weight[si.value := before[si.value]] == before;
        if si.value in t.flags.queued {
          ObqMove(t.links.depPrev[s].value, s, si.value, before[si.value]);
        } else {
          WeightTimely(t.flags, before, sc, hist, pqs, si.value, t.weight[si.value]);
        }
        si := t.links.sibNext[si.value];
        k := k + 1;
      }
      assert m[..|m|] == m;
    }

    // ---- priorities ------------------------------------------------------------------

    /** Whether `target` is `stream` or one of its ancestors. */
    method FindAncestor(stream: Id, target: Id) returns (found: bool)
      requires Ranked(t.links.depPrev, rank) && stream in t.links.depPrev
      ensures found <==> Above(t.links.depPrev, rank, target, stream)
    {
      var s: Ref := Some(stream);
      while s.Some?
        invariant s.Some? ==> s.value in t.links.depPrev
        invariant s.Some? ==>
                  (Above(t.links.depPrev, rank, target, stream) <==> Above(t.links.depPrev, rank, target, s.value))
        invariant s.None? ==> !Above(t.links.depPrev, rank, target, stream)
        decreases if s.Some? then rank[s.value] + 1 else 0
      {
        if s.value == target { return true; }
        s := t.links.depPrev[s.value];
      }
      return false;
    }

    /** A queued stream takes its new place in the queue of its parent, and keeps its seq. */
    method ChangeWeight(s: Id, w: int)
      requires Valid() && s in kids && s != ROOT && 1 <= w <= MAX_WEIGHT
      modifies this`t, this`sc, this`hist, this`pqs
      ensures Valid() && t == old(t).(weight := old(t).weight[s := w], sumDep := t.sumDep)
      ensures ReweighedTo(old(t), old(sc), s, w, sc)
      ensures Troubled(hist) <= Troubled(old(hist))
    {
      hide ValidBut, Ranked, Timely, Troubled, Reweighed;
      StreamFacts(t, kids, rank, s);
      TimelyKeys(t.flags, t.weight, sc, hist, pqs);
      QueuedInParent(t, kids, rank, s);
      if t.weight[s] == w {
        assert t.weight[s := w] == t.weight;
        return;
      }
      var dep := t.links.depPrev[s].value;
      ReweighValid(t, kids, rank, s, w, dep);
      var before := t.weight[s];
      ghost var weights := t.weight;
      t := t.(weight := t.weight[s := w]);
      t := t.(sumDep := t.sumDep[dep := t.sumDep[dep] + w - before]);
      if s !in t.flags.queued {
        WeightTimely(t.flags, weights, sc, hist, pqs, s, w);
        return;
      }
      assert t.weight[s := before] == weights;
      ReweighOne(dep, s, before);
    }

    /**
     * reschedule_stream: `length` bytes of the stream have been written.  The stream and all its ancestors take new
     * places in the queues of their parents.
     */
    method Reschedule(s0: Id, length: nat)
      requires Valid() && s0 in t.Active() && length <= S.MAX_FRAME_SIZE
      modifies this`sc, this`hist, this`pqs
      ensures Valid()
      ensures RescheduledTo(t.links.depPrev, rank, t.weight, old(sc), s0, length, sc)
      ensures Troubled(hist) <= Troubled(old(hist))
    {
      hide ValidBut, Ranked, Timely, Troubled, Pushed, RescheduleSched, Rescheduling, Weighted;
      ActiveFacts(t, kids, rank, s0);
      TimelyKeys(t.flags, t.weight, sc, hist, pqs);
      StreamFacts(t, kids, rank, s0);
      KidsKeys(t, kids, rank);
      ghost var dp := t.links.depPrev;
      var s := s0;
      ghost var before := sc[s].lastWrite;
      RescheduleStart(dp, rank, t.weight, sc, s0, length);
      sc := sc[s := sc[s].(lastWrite := length)];
      ghost var sc0 := sc;
      var dep := t.links.depPrev[s];
      while dep.Some?
        invariant s in kids && s in sc && s in dp && dep == dp[s] && (dep.Some? ==> s in t.flags.queued)
        invariant sc.Keys == dp.Keys && sc[s].lastWrite == length
        invariant Timely(t.flags, t.weight, sc[s := sc[s].(lastWrite := before)], hist, pqs)
        invariant Rescheduling(dp, rank, t.weight, sc0, s0, sc, s)
        invariant Troubled(hist) <= Troubled(old(hist))
        decreases if s in rank then rank[s] else 0
      {
        QueuedInParent(t, kids, rank, s);
        RescheduleNext(dp, rank, t.weight, sc0, s0, sc, s);
        PushedKeeps(sc, t.weight, dep.value, s);
        RescheduleOne(dep.value, s, before);
        before := sc[dep.value].lastWrite;
        WriteBack(sc, dep.value, sc[s].lastWrite);
        sc := sc[dep.value := sc[dep.value].(lastWrite := sc[s].lastWrite)];
        s, dep := dep.value, t.links.depPrev[dep.value];
      }
      NoParentNotQueued(t, kids, rank, s);
      RescheduleEnds(dp, rank, t.weight, sc0, s0, sc, s);
      WriteTimely(t.flags, t.weight, sc[s := sc[s].(lastWrite := before)], hist, pqs, s, length);
      WriteBack(sc, s, before);
    }

    /** If `dep` is below `s`, it moves up to be a sibling of `s`. */
    method LiftDep(s: Id, dep: Id) returns (ghost below: bool)
      requires Valid() && s in kids && dep in kids && s != ROOT && dep != s
      modifies this
      ensures Valid() && kids.Keys == old(kids.Keys) && t.weight == old(t.weight)
      ensures s in old(t.links.depPrev) && dep in old(t.links.depPrev) && Ranked(old(t.links.depPrev), old(rank))
      ensures below == Above(old(t.links.depPrev), old(rank), s, dep)
      ensures t.links.depPrev == if below then old(t.links.depPrev)[dep := old(t.links.depPrev)[s]]
                                 else old(t.links.depPrev)
      ensures Ranked(t.links.depPrev, rank) && !Above(t.links.depPrev, rank, s, dep)
      ensures Troubled(hist) <= Troubled(old(hist)) + {dep}
    {
      hide ValidBut, Ranked, Above, Timely, Troubled;
      StreamFacts(t, kids, rank, s);
      below := false;
      if dep == ROOT {
        RootHasNoAncestor(t, kids, rank, s);
        return;
      }
      var found := FindAncestor(dep, s);
      below := found;
      if found { LiftBelow(s, dep); }
    }

    method LiftBelow(s: Id, dep: Id)
      requires s in kids && dep in kids && s != ROOT && dep != ROOT && dep != s
      requires s in t.links.depPrev && dep in t.links.depPrev && Ranked(t.links.depPrev, rank)
      requires Above(t.links.depPrev, rank, s, dep) && Valid()
      modifies this
      ensures Valid() && kids.Keys == old(kids.Keys) && t.weight == old(t.weight)
      ensures t.links.depPrev == old(t.links.depPrev)[dep := old(t.links.depPrev)[s]]
      ensures Ranked(t.links.depPrev, rank) && !Above(t.links.depPrev, rank, s, dep)
      ensures Troubled(hist) <= Troubled(old(hist)) + {dep}
    {
      hide ValidBut, Ranked, Above, SpliceLinks, AddLinks, Adoptable, TakeOut, AddFirst, Timely, Troubled;
      StreamFacts(t, kids, rank, s);
      ghost var dp := t.links.depPrev;
      MayGoAbove(dp, rank, s, dep);
      var up := t.links.depPrev[s].value;
      ghost var p, i := DepRemoveSubtree(dep);
      SpliceParents(old(t).links, p, old(kids)[p], i);
      TakeOutKeys(old(kids), p, i);
      LiftFacts(t, kids, rank, dp, up, dep);
      AdoptableAfterCut(t, kids, rank, dp, up, dep);
      AddedParents(t.links, up, dep);
      AddKeys(kids, up, dep);
      DepAddSubtree(up, dep);
      StreamFacts(t, kids, rank, s);
      SiblingNotBelow(t.links.depPrev, rank, s, dep);
    }

    /** nghttp2_session_reprioritize_stream once the stream `dep` to depend on is known. */
    method MoveStream(s: Id, dep: Id, w: int, exclusive: bool)
      requires Valid() && s in kids && dep in kids && s != ROOT && dep != s && 1 <= w <= MAX_WEIGHT
      modifies this
      ensures Valid() && kids.Keys == old(kids.Keys) && t.weight == old(t.weight)[s := w]
      ensures s in old(t.links.depPrev) && dep in old(t.links.depPrev) && Ranked(old(t.links.depPrev), old(rank))
      ensures t.links.depPrev.Keys == old(t.links.depPrev.Keys)
      ensures forall n :: n in old(t.links.depPrev) ==>
                t.links.depPrev[n] == NewParent(old(t.links.depPrev), s, dep, exclusive,
                                                Above(old(t.links.depPrev), old(rank), s, dep), n)
      ensures Troubled(hist) <= Troubled(old(hist)) + {s, dep}
    {
      hide ValidBut, Ranked, Above, NewParent, Timely, Troubled, Reweighed;
      StreamFacts(t, kids, rank, s);
      StreamFacts(t, kids, rank, dep);
      ghost var below := LiftDep(s, dep);
      ghost var dp, lifted := old(t.links.depPrev), t.links.depPrev;
      forall n | n in dp
        ensures n in lifted
        ensures NewParent(lifted, s, dep, exclusive, false, n) == NewParent(dp, s, dep, exclusive, below, n)
      {
        LiftedParents(dp, old(rank), s, dep, exclusive, below, n);
      }
      if t.links.depPrev[s] == Some(dep) && !exclusive {
        forall n | n in dp ensures NewParent(lifted, s, dep, exclusive, false, n) == lifted[n] {
          SameParents(lifted, s, dep, n);
        }
        ChangeWeight(s, w);
        return;
      }
      PlaceStream(s, dep, w, exclusive);
    }

    /** The stream is taken out and put under `dep`, which is not below it. */
    method PlaceStream(s: Id, dep: Id, w: int, exclusive: bool)
      requires s in kids && dep in kids && s != ROOT && dep != s && 1 <= w <= MAX_WEIGHT
      requires s in t.links.depPrev && dep in t.links.depPrev && Ranked(t.links.depPrev, rank)
      requires !Above(t.links.depPrev, rank, s, dep) && Valid()
      modifies this
      ensures Valid() && kids.Keys == old(kids.Keys) && t.weight == old(t.weight)[s := w]
      ensures t.links.depPrev.Keys == old(t.links.depPrev.Keys)
      ensures forall n :: n in old(t.links.depPrev) ==>
                t.links.depPrev[n] == NewParent(old(t.links.depPrev), s, dep, exclusive, false, n)
      ensures Troubled(hist) <= Troubled(old(hist)) + {s}
    {
      hide ValidBut, Ranked, Above, NewParent, SpliceLinks, AddLinks, InsertLinks, Adoptable, TakeOut, AddFirst,
        InsertAbove,
        Timely, Troubled;
      StreamFacts(t, kids, rank, s);
      ghost var dp := t.links.depPrev;
      MayGoUnder(dp, rank, s, dep);
      ghost var p, i := DepRemoveSubtree(s);
      SpliceParents(old(t).links, p, old(kids)[p], i);
      TakeOutKeys(old(kids), p, i);
      AdoptableAfterCut(t, kids, rank, dp, dep, s);
      AdoptableReweighed(t, kids, rank, dep, s, w);
      LooseNotQueued(t, kids, rank, dep, s);
      TimelyKeys(t.flags, t.weight, sc, hist, pqs);
      WeightTimely(t.flags, t.weight, sc, hist, pqs, s, w);
      t := t.(weight := t.weight[s := w]);
      AdoptFacts(t, kids, rank, dep, s);
      forall n | n in dp
        ensures var l' := if exclusive then InsertLinks(t.links, dep, s, kids[s], kids[dep])
                          else AddLinks(t.links, dep, s);
                n in l'.depPrev && l'.depPrev[n] == NewParent(dp, s, dep, exclusive, false, n)
      {
        PlacedParents(t, kids, rank, dp, dep, s, exclusive, n);
      }
      AddKeys(kids, dep, s);
      InsertKeys(kids, dep, s);
      if exclusive {
        DepInsertSubtree(dep, s);
      } else {
        DepAddSubtree(dep, s);
      }
      StreamFacts(t, kids, rank, s);
    }

    // ---- the streams of a session -------------------------------------------------------

    /** A session starts with the root alone. */
    constructor ()
      ensures Valid() && kids == map[ROOT := []] && t.item == {}
      ensures Troubled(hist) == {}
    {
      hide Timely, Troubled, ValidBut;
      var none: map<Id, Ref> := map[ROOT := None];
      t := Tree(Links(none, none, none, none), map[ROOT := DEFAULT_WEIGHT], map[ROOT := 0], {}, {}, {},
                Flags({}, map[ROOT := {}]));
      kids := map[ROOT := []];
      rank := map[ROOT := 0];
      sc := map[ROOT := NEW_FIELDS];
      pqs := map[ROOT := NO_ENTRIES];
      hist := map[ROOT := Sound(S.EMPTY_QUEUE, [], false)];
      new;
      RootTimely(t.flags, t.weight);
      RootValid(t);
    }

    /** nghttp2_stream_in_dep_tree. */
    predicate InDepTree(s: Id)
      reads this
      requires s in t.links.depPrev && s in t.links.depNext && s in t.links.sibPrev && s in t.links.sibNext
    {
      t.links.depPrev[s].Some? || t.links.depNext[s].Some? || t.links.sibPrev[s].Some? || t.links.sibNext[s].Some?
    }

    /** nghttp2_session_destroy_stream. */
    method DestroyStream(id: Id)
      requires Valid() && id in kids && id != ROOT
      modifies this
      ensures Valid() && kids.Keys == old(kids.Keys) - {id} && t.item == old(t.item) - {id}
      ensures t.links.depPrev == ParentsWithout(old(t.links.depPrev), id)
      ensures Troubled(hist) <= Troubled(old(hist))
    {
      hide ValidBut, Ranked, ReplaceLinks, ReplaceByKids, Shared, ParentsWithout, Timely, Troubled, FairlyShared;
      ghost var p, i := DepRemove(id);
      RemovedParents(old(t), old(kids), old(rank), p, i, id);
      RemovedKids(old(kids), p, i, id);
      DropValid(t, kids, rank, id);
      LooseUnqueued(t, kids, rank, id);
      TimelyKeys(t.flags, t.weight, sc, hist, pqs);
      DropTimely(t.flags, t.weight, sc, hist, pqs, id);
      t := WithoutStream(t, id);
      sc := sc - {id};
      pqs := pqs - {id};
      hist := hist - {id};
      kids := kids - {id};
      rank := rank - {id};
    }

    /** nghttp2_stream_init: the stream is known, but not in the tree yet. */
    method InitStream(id: Id, w: int)
      requires id !in sc && 1 <= w <= S.MAX_WEIGHT && Timed()
      modifies this
      ensures t == WithStream(old(t), id, w) && kids == old(kids)[id := []] && rank == old(rank)[id := 0]
      ensures Timed() && Troubled(hist) <= Troubled(old(hist))
    {
      hide Timely, Troubled;
      NewTimely(t.flags, t.weight, sc, hist, pqs, id, w);
      t := WithStream(t, id, w);
      sc := sc[id := NEW_FIELDS];
      pqs := pqs[id := NO_ENTRIES];
      hist := hist[id := Sound(S.EMPTY_QUEUE, [], false)];
      kids := kids[id := []];
      rank := rank[id := 0];
    }

    /** The part of nghttp2_session_open_stream that hangs a new stream under an existing one. */
    method HangNew(id: Id, dep: Id, w: int, exclusive: bool)
      requires Valid() && id !in kids && dep in kids && 1 <= w <= MAX_WEIGHT
      modifies this
      ensures Valid() && kids.Keys == old(kids.Keys) + {id} && id in t.weight && t.weight[id] == w
      ensures t.item == old(t.item)
      ensures t.links.depPrev == ParentsWith(old(t.links.depPrev), id, dep, exclusive)
      ensures Troubled(hist) <= Troubled(old(hist))
    {
      hide ValidBut, Ranked, ParentsWith, Adoptable, InsertLinks, AddLinks, AddFirst, InsertAbove, Above, Timely,
        Troubled;
      NewLeaf(t, kids, rank, id, w, dep);
      StreamFacts(t, kids, rank, dep);
      PlacedNew(WithStream(t, id, w), kids[id := []], rank[id := 0], t.links.depPrev, dep, id, exclusive);
      TimelyKeys(t.flags, t.weight, sc, hist, pqs);
      KidsKeys(t, kids, rank);
      InitStream(id, w);
      AddKeys(kids, dep, id);
      InsertKeys(kids, dep, id);
      if exclusive {
        DepInsert(dep, id);
      } else {
        DepAdd(dep, id);
      }
    }

    /** The stream to depend on, which is made if it is idle; the default priority if it is not known. */
    method FindDep(spec: PriSpec, idle: bool) returns (used: PriSpec)
      requires Valid() && 1 <= spec.weight <= MAX_WEIGHT
      modifies this
      ensures Valid() && 1 <= used.weight <= MAX_WEIGHT && t.item == old(t.item)
      ensures used == if spec.streamId != ROOT && spec.streamId !in old(kids) && !idle then DEFAULT_PRI else spec
      ensures kids.Keys == old(kids.Keys) + {used.streamId}
      ensures t.links.depPrev == if used.streamId in old(t.links.depPrev) then old(t.links.depPrev)
                                 else ParentsWith(old(t.links.depPrev), used.streamId, ROOT, false)
      ensures used.streamId in old(t.links.depPrev) ==> rank == old(rank)
      ensures Troubled(hist) <= Troubled(old(hist))
    {
      hide ValidBut, Ranked, ParentsWith, Timely, Troubled;
      RootFacts(t, kids, rank);
      used := spec;
      if spec.streamId != ROOT {
        if spec.streamId !in t.links.depPrev && idle {
          HangNew(spec.streamId, ROOT, DEFAULT_WEIGHT, false);
        } else if spec.streamId !in t.links.depPrev || !InDepTree(spec.streamId) {
          used := DEFAULT_PRI;
        }
      }
    }

    /**
     * nghttp2_session_open_stream.  An idle stream being opened loses its place and its children first.
     * `idle` tells whether the stream to depend on is idle; `used` is the priority that was applied.  The
     * callers have refused a stream that depends on itself.
     */
    method OpenStream(id: Id, spec: PriSpec, idle: bool) returns (used: PriSpec)
      requires Valid() && id != ROOT && id !in t.item && spec.streamId != id && 1 <= spec.weight <= MAX_WEIGHT
      modifies this
      ensures Valid() && id in t.weight && t.weight[id] == used.weight && t.item == old(t.item)
      ensures used == if spec.streamId != ROOT && spec.streamId !in old(kids) && !idle then DEFAULT_PRI else spec
      ensures kids.Keys == old(kids.Keys) + {id, used.streamId}
      ensures var base := ParentsWithout(old(t.links.depPrev), id);
              t.links.depPrev
              == ParentsWith(if used.streamId in base then base else ParentsWith(base, used.streamId, ROOT, false),
                             id, used.streamId, used.exclusive)
      ensures Troubled(hist) <= Troubled(old(hist))
    {
      hide ValidBut, Ranked, ParentsWith, Timely, Troubled;
      RootFacts(t, kids, rank);
      AbsentParents(t.links.depPrev, id);
      if id in t.links.depPrev { DestroyStream(id); }
      used := FindDep(spec, idle);
      HangNew(id, used.streamId, used.weight, used.exclusive);
    }

    /** nghttp2_session_reprioritize_stream. */
    method Reprioritize(s: Id, spec: PriSpec, idle: bool) returns (used: PriSpec)
      requires Valid() && s in kids && s != ROOT && spec.streamId != s && 1 <= spec.weight <= MAX_WEIGHT
      modifies this
      ensures Valid() && s in t.weight && t.weight[s] == used.weight
      ensures used == if spec.streamId != ROOT && spec.streamId !in old(kids) && !idle then DEFAULT_PRI else spec
      ensures kids.Keys == old(kids.Keys) + {used.streamId}
      ensures s in old(t.links.depPrev) && Ranked(old(t.links.depPrev), old(rank))
      ensures var dp := old(t.links.depPrev);
              var base := if used.streamId in dp then dp else ParentsWith(dp, used.streamId, ROOT, false);
              var below := used.streamId in dp && Above(dp, old(rank), s, used.streamId);
              && s in base && t.links.depPrev.Keys == base.Keys
              && forall n :: n in base ==>
                   t.links.depPrev[n] == NewParent(base, s, used.streamId, used.exclusive, below, n)
      ensures Troubled(hist) <= Troubled(old(hist)) + {s, used.streamId}
    {
      hide ValidBut, Ranked, ParentsWith, Above, NewParent, Timely, Troubled;
      RootFacts(t, kids, rank);
      StreamFacts(t, kids, rank, s);
      used := FindDep(spec, idle);
      CreatedUnderRoot(old(t.links.depPrev), t, kids, rank, s, used.streamId);
      MoveStream(s, used.streamId, used.weight, used.exclusive);
    }

    /**
     * nghttp2_stream_next_outbound_item from the root.  A stream with something to send is found exactly when there is
     * one; on the way to it every queue is left through the top of its heap.  That is the stream least in the order of
     * the queue wherever that is one, and first in unbounded time unless a move has come between; its cycle becomes
     * the base.
     */
    method NextOutboundItem() returns (r: Ref, ghost path: seq<Id>)
      requires Valid()
      modifies this`sc, this`hist
      ensures Valid()
      ensures r.Some? <==> t.Active() != {}
      ensures r.Some? ==> r.value in t.Active() && Leads(t, old(hist), path) && path[|path| - 1] == r.value
      ensures r.Some? ==> Delivers(t.flags, t.weight, old(sc), old(hist), pqs, path) && Chosen(old(sc), sc, path)
      ensures r.None? ==> sc == old(sc)
      ensures Troubled(hist) <= Troubled(old(hist))
    {
      hide ValidBut, Timely, Troubled, Delivers, Chosen, Leads, Ranked;
      r, path := Descend();
      if r.Some? {
        LeadsStart(t, hist, path);
        Ascend(r.value, path);
      }
    }

    /** The cycles of the streams on the way become the bases of the queues they are in. */
    method Ascend(s: Id, ghost path: seq<Id>)
      requires ValidBut(t, kids, rank, {}) && Timely(t.flags, t.weight, sc, hist, pqs)
      requires Leads(t, hist, path) && path != [] && path[|path| - 1] == s
      modifies this`sc, this`hist
      ensures Timely(t.flags, t.weight, sc, hist, pqs) && Chosen(old(sc), sc, path)
      ensures Troubled(hist) <= Troubled(old(hist))
    {
      hide *;
      var si := s;
      ghost var i := |path| - 1;
      TimelyScheduled(t.flags, t.weight, sc, hist, pqs);
      WayStart(t, kids, rank, sc, hist, path);
      while t.links.depPrev[si].Some?
        invariant 0 <= i < |path| && si == path[i] && si in t.links.depPrev
        invariant i > 0 <==> t.links.depPrev[si].Some?
        invariant Timely(t.flags, t.weight, sc, hist, pqs) && Troubled(hist) <= Troubled(old(hist))
        invariant OnWay(t, old(sc), sc, old(hist), hist, path, i)
        decreases i
      {
        var dep := t.links.depPrev[si].value;
        TimelyScheduled(t.flags, t.weight, sc, hist, pqs);
        PathStep(t, kids, rank, old(sc), sc, old(hist), hist, path, i);
        ghost var told := ChooseTimely(t.flags, t.weight, sc, hist, pqs, dep, si);
        WayStep(t, kids, rank, old(sc), sc, old(hist), hist, told, path, i);
        sc := sc[dep := sc[dep].(base := sc[si].cycle)];
        hist := told;
        si := dep;
        i := i - 1;
      }
      WayEnd(t, old(sc), sc, old(hist), hist, path);
    }

    /** The walk down to the first active stream. */
    method Descend() returns (r: Ref, ghost path: seq<Id>)
      requires Valid()
      ensures r.Some? <==> t.Active() != {}
      ensures r.Some? ==> r.value in t.Active() && Leads(t, hist, path) && path[|path| - 1] == r.value
      ensures r.Some? ==> Delivers(t.flags, t.weight, sc, hist, pqs, path)
    {
      hide Shape, Ranked, Weights, Rooted, Timely, DeliversAt, Fielded;
      RootQueue(t, kids, rank);
      ghost var bound := RankBound(rank, rank.Keys);
      var s := ROOT;
      path := [ROOT];
      while true
        invariant s in t.flags.obq && s in rank && (s != ROOT ==> Busy(t.Active(), t.flags, s))
        invariant Leads(t, hist, path) && path[|path| - 1] == s
        invariant Delivers(t.flags, t.weight, sc, hist, pqs, path)
        decreases bound - rank[s]
      {
        if s in t.Active() { return Some(s), path; }
        if t.flags.obq[s] == {} { return None, path; }
        TopDelivers(t.flags, t.weight, sc, hist, pqs, s);
        var c := pqs[s].q[0];
        ObqStep(t, kids, rank, s, c);
        LeadsFurther(t, hist, path, c);
        DeliversFurther(t.flags, t.weight, sc, hist, pqs, path, c);
        path := path + [c];
        s := c;
      }
    }
  }
}
