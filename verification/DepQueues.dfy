/**
 * Which streams wait in which queue (lib/nghttp2_stream.c).  A stream with something to send waits in the
 * queue of its parent, and so do all its ancestors; the two walks up the tree, stream_obq_push and
 * stream_obq_remove, keep it so.  The order inside a queue is the matter of `Scheduler`.
 */
module DepQueues {
  import opened Bytes
  import opened DepLinks

  type Parents = map<Id, Ref>
  type Ranks = map<Id, nat>

  /** The queued flags of the streams and the contents of their queues. */
  datatype Flags = Flags(queued: set<Id>, obq: map<Id, set<Id>>)

  /** No stream is its own ancestor: a parent has a smaller rank. */
  ghost predicate Ranked(dp: Parents, rank: Ranks)
  {
    dp.Keys == rank.Keys && forall c :: c in dp && dp[c].Some? ==> dp[c].value in rank && rank[dp[c].value] < rank[c]
  }

  /** stream_subtree_active. */
  predicate Busy(active: set<Id>, f: Flags, n: Id)
    requires n in f.obq
  {
    n in active || f.obq[n] != {}
  }

  ghost predicate Exact(dp: Parents, f: Flags)
  {
    && f.obq.Keys == dp.Keys && f.queued <= dp.Keys
    && forall n, c :: n in f.obq ==> (c in f.obq[n] <==> c in f.queued && c in dp && dp[c] == Some(n))
  }

  predicate NodeOk(dp: Parents, active: set<Id>, f: Flags, n: Id)
    requires n in dp && n in f.obq
  {
    if dp[n].Some? then n in f.queued <==> Busy(active, f, n) else n !in f.queued
  }

  /** Every queue holds exactly the queued children; a stream with a parent is queued exactly when it is busy. */
  ghost predicate QueuesBut(dp: Parents, active: set<Id>, f: Flags, except: set<Id>)
  {
    && Exact(dp, f)
    && forall n :: n in dp && n !in except ==> NodeOk(dp, active, f, n)
  }

  ghost predicate Queues(dp: Parents, active: set<Id>, f: Flags) { QueuesBut(dp, active, f, {}) }

  // ---- the two walks ------------------------------------------------------------

  function Enqueue(f: Flags, d: Id, s: Id): Flags
    requires d in f.obq
  {
    Flags(f.queued + {s}, f.obq[d := f.obq[d] + {s}])
  }

  function Dequeue(f: Flags, d: Id, s: Id): Flags
    requires d in f.obq
  {
    Flags(f.queued - {s}, f.obq[d := f.obq[d] - {s}])
  }

  /** stream_obq_push. */
  ghost function PushUp(dp: Parents, rank: Ranks, f: Flags, dep: Ref, s: Id): Flags
    requires Ranked(dp, rank) && f.obq.Keys == dp.Keys && (dep.Some? ==> dep.value in dp)
    decreases if dep.Some? then rank[dep.value] + 1 else 0
  {
    if dep.None? || s in f.queued then f
    else PushUp(dp, rank, Enqueue(f, dep.value, s), dp[dep.value], dep.value)
  }

  /** The loop of stream_obq_remove. */
  ghost function PullUp(dp: Parents, rank: Ranks, active: set<Id>, f: Flags, s: Id): Flags
    requires Ranked(dp, rank) && f.obq.Keys == dp.Keys && s in dp
    decreases rank[s]
  {
    match dp[s]
    case None => f
    case Some(d) =>
      var f1 := Dequeue(f, d, s);
      if Busy(active, f1, d) then f1 else PullUp(dp, rank, active, f1, d)
  }

  lemma EnqueueOk(dp: Parents, rank: Ranks, active: set<Id>, f: Flags, s: Id, except: set<Id>)
    requires Ranked(dp, rank) && QueuesBut(dp, active, f, except) && s in dp && dp[s].Some? && s !in f.queued
    requires Busy(active, f, s)
    ensures QueuesBut(dp, active, Enqueue(f, dp[s].value, s), except - {s} + {dp[s].value})
    ensures Busy(active, Enqueue(f, dp[s].value, s), dp[s].value)
  {
    var d := dp[s].value;
    var f1 := Enqueue(f, d, s);
    assert s in f1.obq[d];
    forall n | n in dp && n !in except - {s} + {d} ensures NodeOk(dp, active, f1, n) {
      if n != s { assert NodeOk(dp, active, f, n); }
    }
  }

  /** Pushing a busy stream that is not queued, and so on upwards, makes every stream right again. */
  lemma {:induction false} PushRestores(dp: Parents, rank: Ranks, active: set<Id>, f: Flags, s: Id)
    requires Ranked(dp, rank) && QueuesBut(dp, active, f, {s}) && s in dp
    requires dp[s].Some? ==> Busy(active, f, s)
    requires dp[s].None? ==> s !in f.queued
    ensures Queues(dp, active, PushUp(dp, rank, f, dp[s], s))
    decreases rank[s]
  {
    if dp[s].Some? && s !in f.queued {
      var d := dp[s].value;
      EnqueueOk(dp, rank, active, f, s, {s});
      if dp[d].None? {
        assert NodeOk(dp, active, f, d);
      }
      assert {s} - {s} + {d} == {d};
      PushRestores(dp, rank, active, Enqueue(f, d, s), d);
    }
  }

  lemma DequeueOk(dp: Parents, rank: Ranks, active: set<Id>, f: Flags, s: Id, except: set<Id>)
    requires Ranked(dp, rank) && QueuesBut(dp, active, f, except) && s in dp && dp[s].Some? && s in except
    ensures QueuesBut(dp, active, Dequeue(f, dp[s].value, s), except + {dp[s].value})
  {
    var d := dp[s].value;
    var f1 := Dequeue(f, d, s);
    forall n | n in dp && n !in except + {d} ensures NodeOk(dp, active, f1, n) {
      assert NodeOk(dp, active, f, n);
    }
  }

  /** Taking a stream out, and its ancestors as long as they are left idle, leaves every other stream right. */
  lemma {:induction false} PullRestores(dp: Parents, rank: Ranks, active: set<Id>, f: Flags, s: Id, except: set<Id>)
    requires Ranked(dp, rank) && QueuesBut(dp, active, f, except) && s in dp && s in except
    requires s in f.queued && dp[s].Some?
    requires forall n :: n in except ==> n in rank && rank[n] >= rank[s]
    ensures QueuesBut(dp, active, PullUp(dp, rank, active, f, s), except)
    ensures s !in PullUp(dp, rank, active, f, s).queued
    ensures forall n :: n in dp && rank[n] >= rank[s] ==> PullUp(dp, rank, active, f, s).obq[n] == f.obq[n]
    ensures forall n :: n in dp && rank[n] > rank[s] ==>
              (n in PullUp(dp, rank, active, f, s).queued <==> n in f.queued)
    decreases rank[s]
  {
    var d := dp[s].value;
    var f1 := Dequeue(f, d, s);
    assert rank[d] < rank[s] && d !in except;
    assert NodeOk(dp, active, f, d) && s in f.obq[d];
    DequeueOk(dp, rank, active, f, s, except);
    if Busy(active, f1, d) || dp[d].None? {
      PullStops(dp, active, f1, d, except);
    } else {
      PullRestores(dp, rank, active, f1, d, except + {d});
      PullStops(dp, active, PullUp(dp, rank, active, f1, d), d, except);
    }
  }

  /** Every stream that stream_obq_remove takes off a queue is queued, as it asserts, and in that queue. */
  ghost predicate PullsQueued(dp: Parents, rank: Ranks, active: set<Id>, f: Flags, s: Id)
    requires Ranked(dp, rank) && f.obq.Keys == dp.Keys && s in dp
    decreases rank[s]
  {
    match dp[s]
    case None => true
    case Some(d) =>
      && s in f.queued && s in f.obq[d]
      && var f1 := Dequeue(f, d, s);
      Busy(active, f1, d) || PullsQueued(dp, rank, active, f1, d)
  }

  lemma {:induction false} PullAsserts(dp: Parents, rank: Ranks, active: set<Id>, f: Flags, s: Id, except: set<Id>)
    requires Ranked(dp, rank) && QueuesBut(dp, active, f, except) && s in dp && s in except
    requires s in f.queued
    requires forall n :: n in except ==> n in rank && rank[n] >= rank[s]
    ensures PullsQueued(dp, rank, active, f, s)
    decreases rank[s]
  {
    if dp[s].Some? {
      var d := dp[s].value;
      assert rank[d] < rank[s] && d !in except;
      assert NodeOk(dp, active, f, d) && s in f.obq[d];
      DequeueOk(dp, rank, active, f, s, except);
      var f1 := Dequeue(f, d, s);
      if !Busy(active, f1, d) && dp[d].Some? { PullAsserts(dp, rank, active, f1, d, except + {d}); }
    }
  }

  lemma PullStops(dp: Parents, active: set<Id>, f: Flags, d: Id, except: set<Id>)
    requires d in dp && QueuesBut(dp, active, f, except + {d}) && NodeOk(dp, active, f, d)
    ensures QueuesBut(dp, active, f, except)
  {
  }

  // ---- ancestors ------------------------------------------------------------------

  /** `a` is `n` or an ancestor of `n`. */
  ghost predicate Above(dp: Parents, rank: Ranks, a: Id, n: Id)
    requires Ranked(dp, rank) && n in dp
    decreases rank[n]
  {
    n == a || (dp[n].Some? && Above(dp, rank, a, dp[n].value))
  }

  lemma {:induction false} AboveTrans(dp: Parents, rank: Ranks, a: Id, b: Id, c: Id)
    requires Ranked(dp, rank) && b in dp && c in dp && Above(dp, rank, a, b) && Above(dp, rank, b, c)
    ensures Above(dp, rank, a, c)
    decreases rank[c]
  {
    if b != c { AboveTrans(dp, rank, a, b, dp[c].value); }
  }

  lemma {:induction false} AboveRank(dp: Parents, rank: Ranks, a: Id, n: Id)
    requires Ranked(dp, rank) && n in dp && Above(dp, rank, a, n)
    ensures a in dp && rank[a] <= rank[n] && (a != n ==> rank[a] < rank[n])
    decreases rank[n]
  {
    if a != n { AboveRank(dp, rank, a, dp[n].value); }
  }

  /** An active stream has every ancestor queued, up to the one without a parent. */
  lemma {:induction false} ActiveQueuesAncestors(dp: Parents, rank: Ranks, active: set<Id>, f: Flags, a: Id, m: Id)
    requires Ranked(dp, rank) && Queues(dp, active, f) && m in dp && Above(dp, rank, a, m)
    requires m in active || f.obq[m] != {}
    ensures a in dp && Busy(active, f, a)
    decreases rank[m]
  {
    if a != m {
      var d := dp[m].value;
      assert NodeOk(dp, active, f, m);
      assert m in f.obq[d];
      ActiveQueuesAncestors(dp, rank, active, f, a, d);
    }
  }

  /** Below a busy stream there is an active one. */
  lemma {:induction false} BusyHasActive(dp: Parents, rank: Ranks, active: set<Id>, f: Flags, n: Id, bound: nat)
    returns (m: Id)
    requires Ranked(dp, rank) && Queues(dp, active, f) && n in dp && Busy(active, f, n)
    requires forall c :: c in rank ==> rank[c] <= bound
    ensures m in dp && m in active && Above(dp, rank, n, m)
    decreases bound - rank[n]
  {
    if n in active { return n; }
    var c :| c in f.obq[n];
    assert c in f.queued && c in dp && dp[c] == Some(n);
    assert NodeOk(dp, active, f, c);
    m := BusyHasActive(dp, rank, active, f, c, bound);
    assert Above(dp, rank, n, c);
    AboveTrans(dp, rank, n, c, m);
  }

  lemma {:induction false} RankBound(rank: Ranks, keys: set<Id>) returns (bound: nat)
    requires keys <= rank.Keys
    ensures forall c :: c in keys ==> rank[c] <= bound
    decreases |keys|
  {
    if keys == {} { return 0; }
    var k :| k in keys;
    var b := RankBound(rank, keys - {k});
    bound := if b < rank[k] then rank[k] else b;
  }

  lemma BusyIffActive(dp: Parents, rank: Ranks, active: set<Id>, f: Flags, n: Id)
    requires Ranked(dp, rank) && Queues(dp, active, f) && n in dp && n in f.obq
    ensures Busy(active, f, n) <==> exists m :: m in dp && m in active && Above(dp, rank, n, m)
  {
    hide Queues;
    var bound := RankBound(rank, rank.Keys);
    if Busy(active, f, n) {
      var m := BusyHasActive(dp, rank, active, f, n, bound);
    }
    forall m | m in dp && m in active && Above(dp, rank, n, m) ensures Busy(active, f, n) {
      ObqKeys(dp, active, f, m);
      ActiveQueuesAncestors(dp, rank, active, f, n, m);
    }
  }

  lemma ObqKeys(dp: Parents, active: set<Id>, f: Flags, n: Id)
    requires Queues(dp, active, f) && n in dp
    ensures n in f.obq && NodeOk(dp, active, f, n)
    ensures forall c :: c in f.obq[n] ==> c in dp && dp[c] == Some(n) && c in f.queued && c in f.obq
  {
  }

  /** A queue is not empty exactly when some stream properly below has something to send. */
  lemma QueueIffActiveBelow(dp: Parents, rank: Ranks, active: set<Id>, f: Flags, n: Id)
    requires Ranked(dp, rank) && Queues(dp, active, f) && n in dp && n in f.obq
    ensures f.obq[n] != {} <==> exists m :: m in dp && m in active && m != n && Above(dp, rank, n, m)
  {
    hide Queues;
    ObqKeys(dp, active, f, n);
    if f.obq[n] != {} {
      var c :| c in f.obq[n];
      ObqKeys(dp, active, f, c);
      BusyIffActive(dp, rank, active, f, c);
      var m :| m in dp && m in active && Above(dp, rank, c, m);
      AboveTrans(dp, rank, n, c, m);
      AboveRank(dp, rank, c, m);
    }
    forall m | m in dp && m in active && m != n && Above(dp, rank, n, m) ensures f.obq[n] != {} {
      ObqKeys(dp, active, f, m);
      ChildTowards(dp, rank, active, f, n, m);
    }
  }

  /** A stream with a parent is queued exactly when it or a stream below it has something to send. */
  lemma QueuedIffActiveBelow(dp: Parents, rank: Ranks, active: set<Id>, f: Flags, n: Id)
    requires Ranked(dp, rank) && Queues(dp, active, f) && n in dp && dp[n].Some?
    ensures n in f.queued <==> exists m :: m in dp && m in active && Above(dp, rank, n, m)
  {
    ObqKeys(dp, active, f, n);
    BusyIffActive(dp, rank, active, f, n);
  }

  lemma {:induction false} ChildTowards(dp: Parents, rank: Ranks, active: set<Id>, f: Flags, n: Id, m: Id)
    requires Ranked(dp, rank) && Queues(dp, active, f) && m in dp && m != n && Above(dp, rank, n, m)
    requires Busy(active, f, m)
    ensures n in dp && f.obq[n] != {}
    decreases rank[m]
  {
    var d := dp[m].value;
    assert NodeOk(dp, active, f, m);
    assert m in f.obq[d];
    if d != n { ChildTowards(dp, rank, active, f, n, d); }
  }

  // ---- hanging a subtree under another stream ----------------------------------------

  /** The streams of the subtree of `s`. */
  ghost function Subtree(dp: Parents, rank: Ranks, s: Id): set<Id>
    requires Ranked(dp, rank)
  {
    set n | n in dp && Above(dp, rank, s, n)
  }

  /** Ranks after `s` went under `dep`: below `dep` everything moves down far enough. */
  ghost function AttachRanks(dp: Parents, rank: Ranks, dep: Id, s: Id): Ranks
    requires Ranked(dp, rank) && dep in dp && s in dp
  {
    map n | n in rank ::
      if n in Subtree(dp, rank, s) then rank[n] + rank[dep] + 1
      else if rank[n] > rank[dep] then rank[n] + rank[s] + 1 else rank[n]
  }

  /** The new parents: `s` under `dep`, and possibly former children of `dep` under `s`. */
  ghost predicate Attached(dp: Parents, dp': Parents, dep: Id, s: Id)
  {
    && dp'.Keys == dp.Keys && s in dp && dp[s].None? && dp'[s] == Some(dep)
    && forall c :: c in dp && c != s ==> dp'[c] == dp[c] || (dp[c] == Some(dep) && dp'[c] == Some(s))
  }

  lemma SubtreeClosed(dp: Parents, rank: Ranks, s: Id, c: Id)
    requires Ranked(dp, rank) && c in dp && dp[c].Some? && c != s
    ensures c in Subtree(dp, rank, s) <==> dp[c].value in Subtree(dp, rank, s)
  {
  }

  lemma AttachRanked(dp: Parents, rank: Ranks, dp': Parents, dep: Id, s: Id)
    requires Ranked(dp, rank) && dep in dp && Attached(dp, dp', dep, s) && !Above(dp, rank, s, dep)
    ensures Ranked(dp', AttachRanks(dp, rank, dep, s))
  {
    var rank' := AttachRanks(dp, rank, dep, s);
    forall c | c in dp' && dp'[c].Some? ensures dp'[c].value in rank' && rank'[dp'[c].value] < rank'[c] {
      if c != s {
        SubtreeClosed(dp, rank, s, c);
      } else {
        assert s in Subtree(dp, rank, s);
      }
    }
  }

  /** Cutting edges, or skipping a generation, keeps the ranks. */
  lemma DetachRanked(dp: Parents, rank: Ranks, dp': Parents, s: Id)
    requires Ranked(dp, rank) && dp'.Keys == dp.Keys && s in dp && dp[s].Some?
    requires forall c :: c in dp ==> dp'[c] == dp[c] || dp'[c] == None || (dp[c] == Some(s) && dp'[c] == dp[s])
    ensures Ranked(dp', rank)
  {
  }

  // ---- the queues when the tree changes ------------------------------------------------

  lemma QueuesWeaken(dp: Parents, active: set<Id>, f: Flags, s: Id)
    requires Queues(dp, active, f)
    ensures QueuesBut(dp, active, f, {s})
  {
  }

  lemma QueuesFromBut(dp: Parents, active: set<Id>, f: Flags, s: Id)
    requires QueuesBut(dp, active, f, {s}) && s in dp && NodeOk(dp, active, f, s)
    ensures Queues(dp, active, f)
  {
  }

  /** A stream that is not queued may lose its parent, or get one. */
  lemma Reparent(dp: Parents, active: set<Id>, f: Flags, s: Id, p: Ref)
    requires QueuesBut(dp, active, f, {s}) && s in dp && s !in f.queued
    ensures QueuesBut(dp[s := p], active, f, {s})
    ensures p == None ==> Queues(dp[s := p], active, f)
  {
    var dp' := dp[s := p];
    forall n | n in dp' && n != s ensures NodeOk(dp', active, f, n) { assert NodeOk(dp, active, f, n); }
  }

  /** A busy or idle subtree has been hung under `dp[s]`. */
  lemma AttachedQueues(dp: Parents, rank: Ranks, active: set<Id>, f: Flags, s: Id)
    requires Ranked(dp, rank) && QueuesBut(dp, active, f, {s}) && s in dp && dp[s].Some?
    requires s in f.queued ==> Busy(active, f, s)
    ensures Queues(dp, active, if Busy(active, f, s) then PushUp(dp, rank, f, dp[s], s) else f)
  {
    if Busy(active, f, s) { PushRestores(dp, rank, active, f, s); } else { QueuesFromBut(dp, active, f, s); }
  }

  /** stream_obq_move. */
  ghost function Move(dp: Parents, rank: Ranks, f: Flags, dest: Id, src: Id, c: Id): Flags
    requires Ranked(dp, rank) && f.obq.Keys == dp.Keys && dest in dp && src in dp
  {
    if c !in f.queued then f else PushUp(dp, rank, Dequeue(f, src, c), Some(dest), c)
  }

  lemma MoveIdle(dp: Parents, rank: Ranks, f: Flags, dest: Id, src: Id, c: Id)
    requires Ranked(dp, rank) && f.obq.Keys == dp.Keys && dest in dp && src in dp
    ensures c !in f.queued ==> Move(dp, rank, f, dest, src, c) == f
  {
  }

  lemma MoveOneLevel(dp: Parents, rank: Ranks, f: Flags, dest: Id, src: Id, c: Id)
    requires Ranked(dp, rank) && f.obq.Keys == dp.Keys && dest in dp && src in dp && c in f.queued && c != dest
    requires dp[dest].None? || dest in f.queued
    ensures Move(dp, rank, f, dest, src, c) == Enqueue(Dequeue(f, src, c), dest, c)
  {
    var f2 := Enqueue(Dequeue(f, src, c), dest, c);
    assert PushUp(dp, rank, f2, dp[dest], dest) == f2;
  }

  /** The same queue changes from the tree in which `c` already has its new parent. */
  lemma Moved1(dp: Parents, active: set<Id>, f: Flags, dest: Id, src: Id, c: Id, except: set<Id>)
    requires QueuesBut(dp, active, f, except) && c in dp && dp[c] == Some(src) && dest in dp && src in dp
    requires c in f.queued && dest != src && c != dest && c != src
    ensures QueuesBut(dp[c := Some(dest)], active, Enqueue(Dequeue(f, src, c), dest, c), except + {dest, src})
  {
    var dp' := dp[c := Some(dest)];
    var f' := Enqueue(Dequeue(f, src, c), dest, c);
    forall n | n in dp' && n !in except + {dest, src} ensures NodeOk(dp', active, f', n) {
      assert NodeOk(dp, active, f, n);
    }
  }

  lemma Moved0(dp: Parents, active: set<Id>, f: Flags, c: Id, p: Id, except: set<Id>)
    requires QueuesBut(dp, active, f, except) && c in dp && dp[c].Some? && c !in f.queued
    ensures QueuesBut(dp[c := Some(p)], active, f, except)
  {
    var dp' := dp[c := Some(p)];
    forall n | n in dp' && n !in except ensures NodeOk(dp', active, f, n) { assert NodeOk(dp, active, f, n); }
  }

  /** One child of `src`, which is being removed, goes to the parent of `src`. */
  lemma HandOverStep(dp: Parents, dpv: Parents, rank: Ranks, active: set<Id>, f: Flags, p: Id, s: Id, c: Id)
    requires Ranked(dp, rank) && dpv.Keys == dp.Keys && QueuesBut(dpv, active, f, {s})
    requires p in dp && s in dp && c in dp && dpv[s] == Some(p) && dpv[c] == Some(s) && dp[p] == dpv[p]
    requires p != s && c != s && c != p && (c in f.queued ==> s in f.queued)
    ensures QueuesBut(dpv[c := Some(p)], active, Move(dp, rank, f, p, s, c), {s})
    ensures Move(dp, rank, f, p, s, c).queued == f.queued
  {
    if c in f.queued {
      assert s in f.obq[p];
      assert NodeOk(dpv, active, f, p);
      MoveOneLevel(dp, rank, f, p, s, c);
      Moved1(dpv, active, f, p, s, c, {s});
      var f' := Enqueue(Dequeue(f, s, c), p, c);
      assert NodeOk(dpv[c := Some(p)], active, f', p);
    } else {
      Moved0(dpv, active, f, c, p, {s});
    }
  }

  lemma {:induction false} PullAgree(dp: Parents, dpv: Parents, rank: Ranks, active: set<Id>, f: Flags, s: Id)
    requires Ranked(dp, rank) && Ranked(dpv, rank) && f.obq.Keys == dp.Keys && s in dp
    requires forall n :: n in dp && rank[n] <= rank[s] ==> dp[n] == dpv[n]
    ensures PullUp(dp, rank, active, f, s) == PullUp(dpv, rank, active, f, s)
    decreases rank[s]
  {
    if dp[s].Some? {
      var d := dp[s].value;
      var f1 := Dequeue(f, d, s);
      if !Busy(active, f1, d) { PullAgree(dp, dpv, rank, active, f1, d); }
    }
  }

  lemma {:induction false} PullsAgree(dp: Parents, dpv: Parents, rank: Ranks, active: set<Id>, f: Flags, s: Id)
    requires Ranked(dp, rank) && Ranked(dpv, rank) && f.obq.Keys == dp.Keys && s in dp
    requires forall n :: n in dp && rank[n] <= rank[s] ==> dp[n] == dpv[n]
    ensures PullsQueued(dp, rank, active, f, s) == PullsQueued(dpv, rank, active, f, s)
    decreases rank[s]
  {
    if dp[s].Some? {
      var d := dp[s].value;
      var f1 := Dequeue(f, d, s);
      if !Busy(active, f1, d) { PullsAgree(dp, dpv, rank, active, f1, d); }
    }
  }

  /** stream_obq_remove of a stream about to leave the tree. */
  lemma LeaveQueues(dp: Parents, rank: Ranks, active: set<Id>, f: Flags, s: Id)
    requires Ranked(dp, rank) && QueuesBut(dp, active, f, {s}) && s in dp && dp[s].Some?
    ensures var f' := if s in f.queued then PullUp(dp, rank, active, f, s) else f;
            Queues(dp[s := None], active, f')
  {
    if s in f.queued { PullRestores(dp, rank, active, f, s, {s}); }
    Reparent(dp, active, if s in f.queued then PullUp(dp, rank, active, f, s) else f, s, None);
  }

  /** One child of `dep` goes to `s`, which has been hung under `dep`. */
  lemma AdoptStep(dp: Parents, rank: Ranks, active: set<Id>, f: Flags, dep: Id, s: Id, c: Id)
    requires dep in dp && s in dp && c in dp && dp[s] == Some(dep) && dp[c] == Some(dep)
    requires c != s && dep != s && c != dep && Ranked(dp[c := Some(s)], rank)
    requires QueuesBut(dp, active, f, {s}) && (s in f.queued ==> Busy(active, f, s))
    ensures var f' := Move(dp[c := Some(s)], rank, f, s, dep, c);
            && QueuesBut(dp[c := Some(s)], active, f', {s})
            && (s in f'.queued ==> Busy(active, f', s))
  {
    var dp' := dp[c := Some(s)];
    if c in f.queued {
      assert c in f.obq[dep];
      assert NodeOk(dp, active, f, dep);
      var f2 := Enqueue(Dequeue(f, dep, c), s, c);
      assert c in f2.obq[s];
      Moved1(dp, active, f, s, dep, c, {s});
      if s in f.queued {
        MoveOneLevel(dp', rank, f, s, dep, c);
        assert s in f2.obq[dep];
        assert NodeOk(dp', active, f2, dep);
      } else {
        EnqueueAdopted(dp', rank, active, f2, dep, s);
      }
    } else {
      Moved0(dp, active, f, c, s, {s});
    }
  }

  lemma EnqueueAdopted(dp: Parents, rank: Ranks, active: set<Id>, f: Flags, dep: Id, s: Id)
    requires Ranked(dp, rank) && dep in dp && s in dp && dp[s] == Some(dep) && dep != s
    requires QueuesBut(dp, active, f, {s, dep}) && s !in f.queued && f.obq[s] != {}
    requires if dp[dep].Some? then dep in f.queued else dep !in f.queued
    ensures PushUp(dp, rank, f, Some(dep), s) == Enqueue(f, dep, s)
    ensures QueuesBut(dp, active, Enqueue(f, dep, s), {s}) && Busy(active, Enqueue(f, dep, s), s)
  {
    var f3 := Enqueue(f, dep, s);
    assert PushUp(dp, rank, f3, dp[dep], dep) == f3;
    assert s in f3.obq[dep];
    forall n | n in dp && n != s ensures NodeOk(dp, active, f3, n) {
      if n != dep { assert NodeOk(dp, active, f, n); }
    }
  }

  /** One child of `dep` goes to the new stream `s`, which has no parent yet. */
  lemma AdoptByNew(dp: Parents, rank: Ranks, active: set<Id>, f: Flags, dep: Id, s: Id, c: Id)
    requires dep in dp && s in dp && c in dp && dp[s] == None && dp[c] == Some(dep)
    requires c != s && dep != s && c != dep && Ranked(dp[c := Some(s)], rank)
    requires QueuesBut(dp, active, f, {dep}) && NewHolds(dp, active, f, dep, s)
    ensures var f' := Move(dp[c := Some(s)], rank, f, s, dep, c);
            QueuesBut(dp[c := Some(s)], active, f', {dep}) && NewHolds(dp[c := Some(s)], active, f', dep, s)
  {
    var dp' := dp[c := Some(s)];
    assert NodeOk(dp, active, f, s);
    if c in f.queued {
      assert c in f.obq[dep];
      MoveOneLevel(dp', rank, f, s, dep, c);
      Moved1(dp, active, f, s, dep, c, {dep});
      var f' := Enqueue(Dequeue(f, dep, c), s, c);
      assert c in f'.obq[s];
      assert NodeOk(dp', active, f', s);
    } else {
      Moved0(dp, active, f, c, s, {dep});
    }
  }

  /** Either nothing queued has moved to `s` and `dep` is right, or `dep` is still queued as it was. */
  predicate NewHolds(dp: Parents, active: set<Id>, f: Flags, dep: Id, s: Id)
    requires dep in dp && dep in f.obq && s in f.obq
  {
    if f.obq[s] == {} then NodeOk(dp, active, f, dep)
    else if dp[dep].Some? then dep in f.queued else dep !in f.queued
  }

  /** The new stream `s` gets its parent. */
  lemma NewAttached(dp: Parents, rank: Ranks, active: set<Id>, f: Flags, dep: Id, s: Id)
    requires Ranked(dp, rank) && dep in dp && s in dp && dp[s] == None && dep != s && s !in active
    requires QueuesBut(dp, active, f, {dep}) && NewHolds(dp, active, f, dep, s)
    ensures var f' := if Busy(active, f, s) then PushUp(dp, rank, f, Some(dep), s) else f;
            Queues(dp[s := Some(dep)], active, f')
  {
    var dp' := dp[s := Some(dep)];
    assert NodeOk(dp, active, f, s);
    if Busy(active, f, s) {
      var f' := Enqueue(f, dep, s);
      assert PushUp(dp, rank, f', dp[dep], dep) == f';
      assert s in f'.obq[dep];
      forall n | n in dp' ensures NodeOk(dp', active, f', n) {
        if n != dep && n != s { assert NodeOk(dp, active, f, n); }
      }
    } else {
      forall n | n in dp' ensures NodeOk(dp', active, f, n) {
        if n != dep { assert NodeOk(dp, active, f, n); }
      }
    }
  }

  // ---- items ------------------------------------------------------------------------

  /** stream_update_dep_on_attach_item: `s` has become active. */
  lemma ActivateQueues(dp: Parents, rank: Ranks, active: set<Id>, f: Flags, s: Id)
    requires Ranked(dp, rank) && Queues(dp, active, f) && s in dp && dp[s].Some?
    ensures Queues(dp, active + {s}, PushUp(dp, rank, f, dp[s], s))
  {
    forall n | n in dp && n != s ensures NodeOk(dp, active + {s}, f, n) { assert NodeOk(dp, active, f, n); }
    PushRestores(dp, rank, active + {s}, f, s);
  }

  /** stream_update_dep_on_detach_item: `s` is no longer active. */
  lemma DeactivateQueues(dp: Parents, rank: Ranks, active: set<Id>, f: Flags, s: Id)
    requires Ranked(dp, rank) && Queues(dp, active, f) && s in dp && dp[s].Some?
    ensures var f' := if f.obq[s] == {} && s in f.queued then PullUp(dp, rank, active - {s}, f, s) else f;
            Queues(dp, active - {s}, f')
  {
    var active' := active - {s};
    forall n | n in dp && n != s ensures NodeOk(dp, active', f, n) { assert NodeOk(dp, active, f, n); }
    assert NodeOk(dp, active, f, s);
    if f.obq[s] == {} && s in f.queued {
      PullRestores(dp, rank, active', f, s, {s});
      QueuesFromBut(dp, active', PullUp(dp, rank, active', f, s), s);
    }
  }
}
