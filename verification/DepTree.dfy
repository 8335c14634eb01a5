/**
 * What the operations on the dependency tree of lib/nghttp2_stream.c keep: pointers, weights, items, queued
 * flags and queues of all streams, tied to the lists of children `kids` and the ranks `rank` that show the
 * tree has no cycle.
 */
module DepTree {
  import opened Bytes
  import opened DepLinks
  import opened DepQueues
  import opened DepWeights

  const ROOT: Id := 0

  /** link_dep. */
  function LinkDep(l: Links, d: Id, s: Ref): Links
  {
    l.(depNext := l.depNext[d := s], depPrev := if s.Some? then l.depPrev[s.value := Some(d)] else l.depPrev)
  }

  /** link_sib. */
  function LinkSib(l: Links, a: Id, b: Ref): Links
  {
    l.(sibNext := l.sibNext[a := b], sibPrev := if b.Some? then l.sibPrev[b.value := Some(a)] else l.sibPrev)
  }

  /** The fields of all streams. */
  datatype Tree = Tree(
    links: Links, weight: WeightMap, sumDep: WeightMap,
    item: set<Id>, deferFlow: set<Id>, deferUser: set<Id>, flags: Flags)
  {
    /** stream_active of all streams. */
    function Active(): set<Id> { item - deferFlow - deferUser }
  }

  ghost predicate Structure(t: Tree, kids: Kids, rank: Ranks)
  {
    && Shape(t.links, kids) && Ranked(t.links.depPrev, rank) && Weights(t.weight, t.sumDep, kids)
    && ROOT in kids && t.links.depPrev[ROOT] == None && ROOT !in t.item && t.item <= kids.Keys
    && t.flags.obq.Keys == kids.Keys
  }

  /** All streams but those in `loose` have a parent, so that they hang in one tree under the root. */
  ghost predicate Rooted(t: Tree, loose: set<Id>)
  {
    forall n :: n in t.links.depPrev && n != ROOT ==> (t.links.depPrev[n] == None <==> n in loose)
  }

  ghost predicate ValidBut(t: Tree, kids: Kids, rank: Ranks, loose: set<Id>)
  {
    Structure(t, kids, rank) && Rooted(t, loose) && Queues(t.links.depPrev, t.Active(), t.flags)
  }

  lemma ValidFacts(t: Tree, kids: Kids, rank: Ranks, loose: set<Id>)
    requires ValidBut(t, kids, rank, loose)
    ensures t.links.depPrev.Keys == kids.Keys == t.flags.obq.Keys == t.weight.Keys == t.sumDep.Keys
    ensures t.links.depNext.Keys == kids.Keys == t.links.sibPrev.Keys == t.links.sibNext.Keys
    ensures Ranked(t.links.depPrev, rank) && Queues(t.links.depPrev, t.Active(), t.flags)
    ensures Shape(t.links, kids) && Weights(t.weight, t.sumDep, kids)
    ensures forall n :: n in kids && t.links.depPrev[n].Some? ==> t.links.depPrev[n].value in kids
    ensures ROOT in kids && t.links.depPrev[ROOT] == None && ROOT !in t.item
    ensures forall n :: n in kids && n != ROOT ==> (t.links.depPrev[n] == None <==> n in loose)
    ensures Rooted(t, loose)
  {
  }

  lemma ValidParts(t: Tree, kids: Kids, rank: Ranks, loose: set<Id>)
    requires ValidBut(t, kids, rank, loose)
    ensures t.links.depPrev.Keys == kids.Keys == t.flags.obq.Keys == t.weight.Keys == t.sumDep.Keys
    ensures Ranked(t.links.depPrev, rank) && Queues(t.links.depPrev, t.Active(), t.flags)
    ensures Shape(t.links, kids) && Weights(t.weight, t.sumDep, kids) && Rooted(t, loose)
    ensures ROOT in kids && t.links.depPrev[ROOT] == None
  {
  }

  /** The links, weights and queues may be rewritten as long as each part stays right. */
  lemma Assemble(t: Tree, kids: Kids, rank: Ranks, loose: set<Id>, t': Tree, kids': Kids, rank': Ranks, loose': set<Id>)
    requires ValidBut(t, kids, rank, loose) && kids'.Keys == kids.Keys
    requires t' == t.(links := t'.links, weight := t'.weight, sumDep := t'.sumDep, flags := t'.flags)
    requires Shape(t'.links, kids') && Ranked(t'.links.depPrev, rank') && Weights(t'.weight, t'.sumDep, kids')
    requires Queues(t'.links.depPrev, t.Active(), t'.flags)
    requires Rooted(t', loose') && ROOT in t'.links.depPrev && t'.links.depPrev[ROOT] == None
    ensures ValidBut(t', kids', rank', loose')
  {
    hide Shape, Weights, Queues, Ranked, Rooted;
    QueueKeys(t'.links.depPrev, t.Active(), t'.flags);
    ShapeKeys(t'.links, kids');
  }

  // ---- items --------------------------------------------------------------------

  /** Items, deferrals and queues may change as long as the queues stay right. */
  lemma FlagsValid(t: Tree, kids: Kids, rank: Ranks, t': Tree)
    requires ValidBut(t, kids, rank, {})
    requires t' == t.(item := t'.item, deferFlow := t'.deferFlow, deferUser := t'.deferUser, flags := t'.flags)
    requires t'.item <= kids.Keys && ROOT !in t'.item && Queues(t.links.depPrev, t'.Active(), t'.flags)
    ensures ValidBut(t', kids, rank, {})
  {
    QueueKeys(t.links.depPrev, t'.Active(), t'.flags);
    ValidFacts(t, kids, rank, {});
    hide Shape, Weights, Queues, Ranked;
  }

  lemma QueueKeys(dp: Parents, active: set<Id>, f: Flags)
    requires Queues(dp, active, f)
    ensures f.obq.Keys == dp.Keys
  {
  }

  lemma ActivateValid(t: Tree, kids: Kids, rank: Ranks, t': Tree, s: Id)
    requires ValidBut(t, kids, rank, {}) && s in kids && s != ROOT
    requires t' == t.(item := t'.item, deferFlow := t'.deferFlow, deferUser := t'.deferUser)
    requires t'.item <= kids.Keys && ROOT !in t'.item && t'.Active() == t.Active() + {s}
    ensures Ranked(t.links.depPrev, rank) && t.flags.obq.Keys == t.links.depPrev.Keys == kids.Keys
    ensures t.links.depPrev[s].Some? && t.links.depPrev[s].value in kids
    ensures ValidBut(t'.(flags := PushUp(t.links.depPrev, rank, t.flags, t.links.depPrev[s], s)), kids, rank, {})
  {
    ValidFacts(t, kids, rank, {});
    hide ValidBut, Queues, Ranked, PushUp;
    ActivateQueues(t.links.depPrev, rank, t.Active(), t.flags, s);
    FlagsValid(t, kids, rank, t'.(flags := PushUp(t.links.depPrev, rank, t.flags, t.links.depPrev[s], s)));
  }

  lemma DeactivateValid(t: Tree, kids: Kids, rank: Ranks, t': Tree, s: Id)
    requires ValidBut(t, kids, rank, {}) && s in kids && s != ROOT
    requires t' == t.(item := t'.item, deferFlow := t'.deferFlow, deferUser := t'.deferUser)
    requires t'.item <= t.item && t'.Active() == t.Active() - {s}
    ensures Ranked(t.links.depPrev, rank) && t.flags.obq.Keys == t.links.depPrev.Keys == kids.Keys
    ensures s in t.flags.queued ==> PullsQueued(t.links.depPrev, rank, t'.Active(), t.flags, s)
    ensures var f' := if t.flags.obq[s] == {} && s in t.flags.queued
                      then PullUp(t.links.depPrev, rank, t'.Active(), t.flags, s) else t.flags;
            ValidBut(t'.(flags := f'), kids, rank, {})
  {
    ValidFacts(t, kids, rank, {});
    DetachPulls(t.links.depPrev, rank, t.Active(), t.flags, s);
    hide ValidBut, Queues, Ranked, PullsQueued, PullUp;
    DeactivateQueues(t.links.depPrev, rank, t.Active(), t.flags, s);
    FlagsValid(t, kids, rank, t'.(flags := if t.flags.obq[s] == {} && s in t.flags.queued
                                           then PullUp(t.links.depPrev, rank, t'.Active(), t.flags, s) else t.flags));
  }

  lemma DetachPulls(dp: Parents, rank: Ranks, active: set<Id>, f: Flags, s: Id)
    requires Ranked(dp, rank) && Queues(dp, active, f) && s in dp
    ensures f.obq.Keys == dp.Keys
    ensures s in f.queued ==> PullsQueued(dp, rank, active - {s}, f, s)
  {
    if s in f.queued {
      forall n | n in dp && n != s ensures NodeOk(dp, active - {s}, f, n) { assert NodeOk(dp, active, f, n); }
      PullAsserts(dp, rank, active - {s}, f, s, {s});
    }
  }

  // ---- taking a subtree out and hanging it elsewhere -----------------------------------

  /** Where a stream with a parent stands among its siblings. */
  lemma Locate(t: Tree, kids: Kids, rank: Ranks, loose: set<Id>, s: Id) returns (p: Id, i: nat)
    requires ValidBut(t, kids, rank, loose) && s in kids && t.links.depPrev[s].Some?
    ensures t.links.depPrev[s] == Some(p) && p in kids && p != s && i < |kids[p]| && kids[p][i] == s
    ensures t.links.sibPrev[s] == At(kids[p], i - 1) && t.links.sibNext[s] == At(kids[p], i + 1)
    ensures t.links.depNext[p] == At(kids[p], 0) && t.links.depNext[s] == At(kids[s], 0)
    ensures t.links.depPrev[p] != Some(p)
    ensures forall c :: c in kids[p] ==> c in kids && t.links.depPrev[c] == Some(p)
    ensures forall c :: c in kids[s] ==> c in kids && t.links.depPrev[c] == Some(s)
    ensures Distinct(kids[p]) && Distinct(kids[s]) && Apart(kids[s], kids[p])
    ensures s !in kids[s] && p !in kids[s]
  {
    hide Shape, Weights, Queues;
    ValidFacts(t, kids, rank, loose);
    p := t.links.depPrev[s].value;
    ListedOf(t.links, kids, s);
    i :| 0 <= i < |kids[p]| && kids[p][i] == s;
    KidsOf(t.links, kids, p);
    KidsOf(t.links, kids, s);
    assert Stretch(t.links, p, kids[p], None, None);
    assert ChildLinks(t.links, p, kids[p], None, None, i);
  }

  lemma RemoveSubtreePulls(t: Tree, kids: Kids, rank: Ranks, s: Id)
    requires ValidBut(t, kids, rank, {}) && s in kids && s != ROOT
    ensures Ranked(t.links.depPrev, rank) && t.flags.obq.Keys == t.links.depPrev.Keys == kids.Keys
    ensures s in t.flags.queued ==> PullsQueued(t.links.depPrev, rank, t.Active(), t.flags, s)
  {
    hide Shape, Weights, PullsQueued;
    ValidFacts(t, kids, rank, {});
    if s in t.flags.queued {
      QueuesWeaken(t.links.depPrev, t.Active(), t.flags, s);
      PullAsserts(t.links.depPrev, rank, t.Active(), t.flags, s, {s});
    }
  }

  /** The state after nghttp2_stream_dep_remove_subtree. */
  ghost function SubtreeRemoved(t: Tree, kids: Kids, rank: Ranks, p: Id, i: nat): Tree
    requires p in kids && i < |kids[p]| && kids[p][i] in t.links.depPrev && p in t.sumDep && kids[p][i] in t.weight
    requires Ranked(t.links.depPrev, rank) && t.flags.obq.Keys == t.links.depPrev.Keys
  {
    var s := kids[p][i];
    t.(links := SpliceLinks(t.links, p, kids[p], i, []),
       sumDep := t.sumDep[p := t.sumDep[p] - t.weight[s]],
       flags := if s in t.flags.queued then PullUp(t.links.depPrev, rank, t.Active(), t.flags, s) else t.flags)
  }

  lemma SpliceParents(l: Links, p: Id, t: seq<Id>, i: nat)
    requires i < |t| && t[i] in l.depPrev
    ensures SpliceLinks(l, p, t, i, []).depPrev == l.depPrev[t[i] := None]
  {
  }

  lemma RemoveSubtreeValid(t: Tree, kids: Kids, rank: Ranks, p: Id, i: nat, s: Id)
    requires ValidBut(t, kids, rank, {}) && s in kids && s != ROOT
    requires p in kids && i < |kids[p]| && kids[p][i] == s && t.links.depPrev[s] == Some(p)
    ensures Ranked(t.links.depPrev, rank) && t.flags.obq.Keys == t.links.depPrev.Keys == kids.Keys
    ensures p in t.sumDep && s in t.weight
    ensures ValidBut(SubtreeRemoved(t, kids, rank, p, i), TakeOut(kids, p, i), rank, {s})
  {
    hide Shape, Weights, Queues, Ranked, SpliceLinks, PullUp, ValidBut, TakeOut, Spliced, Rooted;
    ValidParts(t, kids, rank, {});
    RankedStep(t.links.depPrev, rank, p);
    TakeOutKeys(kids, p, i);
    SpliceParents(t.links, p, kids[p], i);
    RootedCut(t, SubtreeRemoved(t, kids, rank, p, i), s);
    ShapeTakeOut(t.links, kids, p, i);
    WeightsTakeOut(t.weight, t.sumDep, kids, p, i);
    QueuesWeaken(t.links.depPrev, t.Active(), t.flags, s);
    LeaveQueues(t.links.depPrev, rank, t.Active(), t.flags, s);
    CutRanked(t.links.depPrev, rank, s);
    Assemble(t, kids, rank, {}, SubtreeRemoved(t, kids, rank, p, i), TakeOut(kids, p, i), rank, {s});
  }

  lemma TakeOutKeys(kids: Kids, p: Id, i: nat)
    requires p in kids && i < |kids[p]|
    ensures TakeOut(kids, p, i).Keys == kids.Keys
  {
  }

  lemma RootedCut(t: Tree, t': Tree, s: Id)
    requires Rooted(t, {}) && s != ROOT && s in t.links.depPrev && t'.links.depPrev == t.links.depPrev[s := None]
    ensures Rooted(t', {s})
  {
  }

  lemma RankedStep(dp: Parents, rank: Ranks, p: Id)
    requires Ranked(dp, rank) && p in dp
    ensures dp[p] != Some(p)
  {
  }

  lemma CutRanked(dp: Parents, rank: Ranks, s: Id)
    requires Ranked(dp, rank) && s in dp
    ensures Ranked(dp[s := None], rank)
  {
  }

  /** The state after nghttp2_stream_dep_add_subtree, or nghttp2_stream_dep_add of an idle stream. */
  ghost function SubtreeAdded(t: Tree, rank': Ranks, dep: Id, s: Id): Tree
    requires dep in t.links.depNext && dep in t.links.depPrev && dep in t.sumDep && s in t.weight && s in t.flags.obq
    requires t.flags.obq.Keys == t.links.depPrev.Keys && Ranked(AddLinks(t.links, dep, s).depPrev, rank')
  {
    var links := AddLinks(t.links, dep, s);
    t.(links := links, sumDep := t.sumDep[dep := t.sumDep[dep] + t.weight[s]],
       flags := if Busy(t.Active(), t.flags, s) then PushUp(links.depPrev, rank', t.flags, Some(dep), s) else t.flags)
  }

  lemma AddRanked(t: Tree, rank: Ranks, dep: Id, s: Id)
    requires dep in t.links.depNext && dep in t.links.depPrev && s in t.links.depPrev && t.links.depPrev[s] == None
    requires Ranked(t.links.depPrev, rank) && !Above(t.links.depPrev, rank, s, dep)
    ensures AddLinks(t.links, dep, s).depPrev == t.links.depPrev[s := Some(dep)]
    ensures Ranked(t.links.depPrev[s := Some(dep)], AttachRanks(t.links.depPrev, rank, dep, s))
  {
    AttachRanked(t.links.depPrev, rank, t.links.depPrev[s := Some(dep)], dep, s);
  }

  lemma NotQueued(dp: Parents, active: set<Id>, f: Flags, s: Id)
    requires Queues(dp, active, f) && s in dp && dp[s] == None
    ensures s !in f.queued && QueuesBut(dp, active, f, {s})
  {
    QueuesWeaken(dp, active, f, s);
    assert s in f.obq && NodeOk(dp, active, f, s);
  }

  lemma RootedJoin(t: Tree, t': Tree, dep: Id, s: Id)
    requires Rooted(t, {s}) && s != ROOT && s in t.links.depPrev && t'.links.depPrev.Keys == t.links.depPrev.Keys
    requires t'.links.depPrev[s] == Some(dep)
    requires forall c :: c in t.links.depPrev && c != s ==>
               (t'.links.depPrev[c] == None <==> t.links.depPrev[c] == None)
    ensures Rooted(t', {})
  {
  }

  lemma AddSubtreeValid(t: Tree, kids: Kids, rank: Ranks, dep: Id, s: Id)
    requires ValidBut(t, kids, rank, {s}) && dep in kids && s in kids && s != ROOT && dep != s
    requires t.links.depPrev.Keys == kids.Keys && Ranked(t.links.depPrev, rank)
    requires !Above(t.links.depPrev, rank, s, dep)
    ensures dep in t.links.depNext && dep in t.sumDep && s in t.weight && s in t.flags.obq
    ensures t.flags.obq.Keys == t.links.depPrev.Keys == AddLinks(t.links, dep, s).depPrev.Keys
    ensures t.links.depPrev[s] == None
    ensures var rank' := AttachRanks(t.links.depPrev, rank, dep, s);
            && Ranked(AddLinks(t.links, dep, s).depPrev, rank')
            && ValidBut(SubtreeAdded(t, rank', dep, s), AddFirst(kids, dep, s), rank', {})
  {
    hide Shape, Weights, Queues, QueuesBut, Ranked, AddLinks, PushUp, ValidBut, AddFirst, Rooted, AttachRanks, Above;
    ValidParts(t, kids, rank, {s});
    ShapeKeys(t.links, kids);
    LooseStream(t, s);
    AddRanked(t, rank, dep, s);
    var rank' := AttachRanks(t.links.depPrev, rank, dep, s);
    var t' := SubtreeAdded(t, rank', dep, s);
    RootedJoin(t, t', dep, s);
    ShapeAdd(t.links, kids, dep, s);
    AddKeys(kids, dep, s);
    WeightsAdd(t.weight, t.sumDep, kids, dep, s);
    NotQueued(t.links.depPrev, t.Active(), t.flags, s);
    Reparent(t.links.depPrev, t.Active(), t.flags, s, Some(dep));
    AttachedQueues(t'.links.depPrev, rank', t.Active(), t.flags, s);
    Assemble(t, kids, rank, {s}, t', AddFirst(kids, dep, s), rank', {});
  }

  lemma AddKeys(kids: Kids, dep: Id, s: Id)
    requires dep in kids
    ensures AddFirst(kids, dep, s).Keys == kids.Keys
  {
  }

  lemma LooseStream(t: Tree, s: Id)
    requires Rooted(t, {s}) && s in t.links.depPrev && s != ROOT
    ensures t.links.depPrev[s] == None
  {
  }

  // ---- the pointer writes -------------------------------------------------------------

  function InsertLinkDep(l: Links, dep: Id, s: Id): Links
    requires dep in l.depNext
  {
    LinkDep(LinkSib(l, s, l.depNext[dep]), dep, Some(s))
  }

  /** The pointer writes of nghttp2_stream_dep_remove_subtree, without those to the stream itself. */
  function CutLinks(l: Links, p: Id, s: Id): Links
    requires s in l.sibPrev && s in l.sibNext
  {
    var next := l.sibNext[s];
    if l.sibPrev[s].Some? then LinkSib(l, l.sibPrev[s].value, next)
    else
      var l1 := LinkDep(l, p, next);
      if next.Some? then l1.(sibPrev := l1.sibPrev[next.value := None]) else l1
  }

  function Alone(l: Links, s: Id): Links
  {
    l.(sibPrev := l.sibPrev[s := None], sibNext := l.sibNext[s := None], depPrev := l.depPrev[s := None])
  }

  lemma CutIsSplice(l: Links, kids: Kids, p: Id, i: nat, s: Id)
    requires p in kids && i < |kids[p]| && kids[p][i] == s
    requires s in l.sibPrev && s in l.sibNext && s in l.depPrev && p in l.depNext
    requires l.sibPrev[s] == At(kids[p], i - 1) && l.sibNext[s] == At(kids[p], i + 1)
    requires forall c :: c in kids[p] ==> c in l.depPrev && l.depPrev[c] == Some(p)
    ensures CutLinks(l, p, s).depPrev == l.depPrev
    ensures Alone(CutLinks(l, p, s), s) == SpliceLinks(l, p, kids[p], i, [])
  {
    Neighbours(kids[p], i);
    SpliceParents(l, p, kids[p], i);
    assert CutLinks(l, p, s).depPrev == l.depPrev;
  }

  /** All that nghttp2_stream_dep_remove_subtree relies on. */
  lemma RemoveSubtreePlan(t: Tree, kids: Kids, rank: Ranks, s: Id) returns (p: Id, i: nat)
    requires ValidBut(t, kids, rank, {}) && s in kids && s != ROOT
    ensures s in t.links.depPrev && t.links.depPrev[s] == Some(p) && s in t.links.sibPrev && s in t.links.sibNext
    ensures p in kids && i < |kids[p]| && kids[p][i] == s && p in t.sumDep && s in t.weight
    ensures Ranked(t.links.depPrev, rank) && t.flags.obq.Keys == t.links.depPrev.Keys
    ensures s in t.flags.queued ==> PullsQueued(t.links.depPrev, rank, t.Active(), t.flags, s)
    ensures CutLinks(t.links, p, s).depPrev == t.links.depPrev
    ensures Alone(CutLinks(t.links, p, s), s) == SpliceLinks(t.links, p, kids[p], i, [])
    ensures ValidBut(SubtreeRemoved(t, kids, rank, p, i), TakeOut(kids, p, i), rank, {s})
  {
    hide ValidBut, Shape, Ranked, Queues, PullUp, PullsQueued, SpliceLinks, CutLinks, Alone, TakeOut, Weights;
    ValidFacts(t, kids, rank, {});
    p, i := Locate(t, kids, rank, {}, s);
    RemoveSubtreePulls(t, kids, rank, s);
    RemoveSubtreeValid(t, kids, rank, p, i, s);
    CutIsSplice(t.links, kids, p, i, s);
  }

  lemma AddIsLinks(l: Links, dep: Id, s: Id)
    requires dep in l.depNext
    ensures (if l.depNext[dep].Some? then InsertLinkDep(l, dep, s) else LinkDep(l, dep, Some(s))) == AddLinks(l, dep, s)
  {
  }

  // ---- inserting above all children ------------------------------------------------------

  /** The parents when the first `k` children of `dep` have gone to `s`, which hangs under `up`. */
  function Adopted(dp: Parents, b: seq<Id>, k: nat, s: Id, up: Ref): Parents
    requires k <= |b|
  {
    Moved(dp, b[..k], s)[s := up]
  }

  /** What the loops over the children of `dep` know about those children. */
  ghost predicate Adoptable(t: Tree, kids: Kids, rank: Ranks, dep: Id, s: Id)
  {
    && ValidBut(t, kids, rank, {s}) && dep in kids && s in kids && s != ROOT && dep != s
    && t.links.depPrev.Keys == kids.Keys && Ranked(t.links.depPrev, rank)
    && !Above(t.links.depPrev, rank, s, dep)
  }

  lemma AdoptedStep(dp: Parents, b: seq<Id>, k: nat, s: Id, up: Ref)
    requires k < |b| && Distinct(b) && b[k] in dp && b[k] != s
    ensures Adopted(dp, b, k, s, up)[b[k] := Some(s)] == Adopted(dp, b, k + 1, s, up)
    ensures Adopted(dp, b, k + 1, s, up)[b[k] := Some(s)] == Adopted(dp, b, k + 1, s, up)
    ensures b[k] in Adopted(dp, b, k, s, up) && Adopted(dp, b, k, s, up)[b[k]] == dp[b[k]]
  {
    assert b[..k + 1] == b[..k] + [b[k]];
    DistinctPrefix(b, k);
  }

  /** The child of `dep` that the loop has reached. */
  lemma AdoptedChild(t: Tree, kids: Kids, rank: Ranks, dep: Id, s: Id, k: nat)
    requires Adoptable(t, kids, rank, dep, s) && k < |kids[dep]|
    ensures var c := kids[dep][k];
            && c in kids && c != s && c != dep && c in t.links.depPrev && t.links.depPrev[c] == Some(dep)
            && c in t.links.sibNext && t.links.sibNext[c] == At(kids[dep], k + 1)
            && (kids[s] != [] ==> c != kids[s][|kids[s]| - 1])
    ensures Distinct(kids[dep])
  {
    hide ValidBut, Shape, Ranked, Above;
    ValidParts(t, kids, rank, {s});
    ShapeKeys(t.links, kids);
    var b, c := kids[dep], kids[dep][k];
    KidsOf(t.links, kids, dep);
    KidsOf(t.links, kids, s);
    LooseStream(t, s);
    assert c in b;
    assert ChildLinks(t.links, dep, b, None, None, k);
    if kids[s] != [] { assert kids[s][|kids[s]| - 1] in kids[s]; }
    RankedStep(t.links.depPrev, rank, dep);
  }

  lemma DistinctPrefix(b: seq<Id>, k: nat)
    requires Distinct(b) && k < |b|
    ensures b[k] !in b[..k]
  {
  }

  lemma AdoptedAttached(dp: Parents, b: seq<Id>, k: nat, dep: Id, s: Id)
    requires k <= |b| && s in dp && dp[s] == None && forall c :: c in b ==> c in dp && dp[c] == Some(dep)
    ensures Attached(dp, Adopted(dp, b, k, s, Some(dep)), dep, s)
    ensures Adopted(dp, b, k, s, None) == Adopted(dp, b, k, s, Some(dep))[s := None]
  {
    forall c | c in b[..k] ensures c in b { }
  }

  lemma AdoptedRanked(t: Tree, kids: Kids, rank: Ranks, dep: Id, s: Id, k: nat, up: Ref)
    requires Adoptable(t, kids, rank, dep, s) && k <= |kids[dep]| && (up == None || up == Some(dep))
    ensures Ranked(Adopted(t.links.depPrev, kids[dep], k, s, up), AttachRanks(t.links.depPrev, rank, dep, s))
    ensures Adopted(t.links.depPrev, kids[dep], k, s, up).Keys == kids.Keys
  {
    hide ValidBut, Shape, Ranked, Above, AttachRanks, Adopted, Chain;
    ValidParts(t, kids, rank, {s});
    KidsOf(t.links, kids, dep);
    LooseStream(t, s);
    var dp := t.links.depPrev;
    AdoptedAttached(dp, kids[dep], k, dep, s);
    AttachRanked(dp, rank, Adopted(dp, kids[dep], k, s, Some(dep)), dep, s);
    CutRanked(Adopted(dp, kids[dep], k, s, Some(dep)), AttachRanks(dp, rank, dep, s), s);
  }

  /** The links of nghttp2_stream_dep_insert_subtree before the loop, when `dep` has children. */
  function InsertStart(l: Links, dep: Id, s: Id, a: seq<Id>, first: Ref): Links
  {
    var l1 := LinkDep(l, dep, Some(s));
    if a != [] then LinkSib(l1, a[|a| - 1], first) else LinkDep(l1, s, first)
  }

  lemma InsertStartLinks(t: Tree, kids: Kids, rank: Ranks, dep: Id, s: Id)
    requires Adoptable(t, kids, rank, dep, s) && kids[dep] != []
    ensures var a, b := kids[s], kids[dep];
            var l0 := InsertStart(t.links, dep, s, a, Some(b[0]));
            && l0.depPrev == Adopted(t.links.depPrev, b, if a == [] then 1 else 0, s, Some(dep))
            && l0.(depPrev := Adopted(t.links.depPrev, b, |b|, s, Some(dep))) == InsertLinks(t.links, dep, s, a, b)
            && l0.sibNext == if a == [] then t.links.sibNext else t.links.sibNext[a[|a| - 1] := Some(b[0])]
  {
    hide ValidBut, Shape, Ranked, Above, Adopted, Moved;
    var a, b := kids[s], kids[dep];
    AdoptedChild(t, kids, rank, dep, s, 0);
    AdoptedStep(t.links.depPrev, b, 0, s, Some(dep));
    AdoptedZero(t.links.depPrev, b, s, Some(dep));
    InsertParents(t.links, dep, s, a, b);
    UpdateSwap(t.links.depPrev, s, Some(dep), b[0], Some(s));
  }

  lemma AdoptedZero(dp: Parents, b: seq<Id>, s: Id, up: Ref)
    ensures Adopted(dp, b, 0, s, up) == dp[s := up]
  {
  }

  lemma UpdateSwap(m: Parents, x: Id, y: Ref, x': Id, y': Ref)
    ensures x != x' ==> m[x := y][x' := y'] == m[x' := y'][x := y]
  {
  }

  /** The siblings that stream_last_sib and set_dep_prev walk over. */
  lemma SiblingWalk(t: Tree, kids: Kids, rank: Ranks, loose: set<Id>, n: Id)
    requires ValidBut(t, kids, rank, loose) && n in kids
    ensures n in t.links.depNext && t.links.depNext[n] == At(kids[n], 0)
    ensures forall i :: 0 <= i < |kids[n]| ==>
              kids[n][i] in t.links.sibNext && t.links.sibNext[kids[n][i]] == At(kids[n], i + 1)
  {
    hide Ranked, Queues, Weights, Rooted;
    KidsOf(t.links, kids, n);
    forall i | 0 <= i < |kids[n]|
      ensures kids[n][i] in t.links.sibNext && t.links.sibNext[kids[n][i]] == At(kids[n], i + 1)
    {
      assert ChildLinks(t.links, n, kids[n], None, None, i);
    }
  }

  /** The queues while the children of `dep` go to `s`, which already hangs under `dep`. */
  ghost predicate Adopting(t: Tree, kids: Kids, dep: Id, s: Id, k: nat, f: Flags)
  {
    && dep in kids && k <= |kids[dep]| && f.obq.Keys == kids.Keys && s in kids
    && QueuesBut(Adopted(t.links.depPrev, kids[dep], k, s, Some(dep)), t.Active(), f, {s})
    && (s in f.queued ==> Busy(t.Active(), f, s))
  }

  lemma AdoptStart(t: Tree, kids: Kids, rank: Ranks, dep: Id, s: Id)
    requires Adoptable(t, kids, rank, dep, s)
    ensures Adopting(t, kids, dep, s, 0, t.flags)
  {
    hide ValidBut, Queues, QueuesBut, Ranked, Above;
    ValidParts(t, kids, rank, {s});
    LooseStream(t, s);
    NotQueued(t.links.depPrev, t.Active(), t.flags, s);
    Reparent(t.links.depPrev, t.Active(), t.flags, s, Some(dep));
    assert Adopted(t.links.depPrev, kids[dep], 0, s, Some(dep)) == t.links.depPrev[s := Some(dep)];
  }

  lemma AdoptNext(t: Tree, kids: Kids, rank: Ranks, dep: Id, s: Id, k: nat, f: Flags)
    requires Adoptable(t, kids, rank, dep, s) && Adopting(t, kids, dep, s, k, f) && k < |kids[dep]|
    ensures var dp' := Adopted(t.links.depPrev, kids[dep], k + 1, s, Some(dep));
            var rank' := AttachRanks(t.links.depPrev, rank, dep, s);
            && Ranked(dp', rank') && dp'.Keys == kids.Keys && dep in dp' && s in dp'
            && Adopting(t, kids, dep, s, k + 1, Move(dp', rank', f, s, dep, kids[dep][k]))
  {
    hide ValidBut, Queues, QueuesBut, Ranked, Above, Adopted, Move, AttachRanks, Shape, Weights;
    var dp, b := t.links.depPrev, kids[dep];
    var rank' := AttachRanks(dp, rank, dep, s);
    AdoptedChild(t, kids, rank, dep, s, k);
    AdoptedStep(dp, b, k, s, Some(dep));
    AdoptedRanked(t, kids, rank, dep, s, k, Some(dep));
    AdoptedRanked(t, kids, rank, dep, s, k + 1, Some(dep));
    AdoptedUp(dp, b, k, s, Some(dep));
    AdoptStep(Adopted(dp, b, k, s, Some(dep)), rank', t.Active(), f, dep, s, b[k]);
    ButKeys(Adopted(dp, b, k + 1, s, Some(dep)), t.Active(),
            Move(Adopted(dp, b, k + 1, s, Some(dep)), rank', f, s, dep, b[k]), {s});
  }

  lemma ButKeys(dp: Parents, active: set<Id>, f: Flags, except: set<Id>)
    requires QueuesBut(dp, active, f, except)
    ensures f.obq.Keys == dp.Keys
  {
  }

  lemma AdoptedUp(dp: Parents, b: seq<Id>, k: nat, s: Id, up: Ref)
    requires k <= |b|
    ensures s in Adopted(dp, b, k, s, up) && Adopted(dp, b, k, s, up)[s] == up
  {
  }

  /** The state after nghttp2_stream_dep_insert_subtree, or nghttp2_stream_dep_insert of a new stream. */
  ghost function InsertedAbove(t: Tree, kids: Kids, dep: Id, s: Id, f: Flags): Tree
    requires dep in kids && s in kids && dep in t.sumDep && s in t.sumDep && s in t.weight
  {
    t.(links := InsertLinks(t.links, dep, s, kids[s], kids[dep]),
       sumDep := t.sumDep[s := t.sumDep[s] + t.sumDep[dep]][dep := t.weight[s]],
       flags := f)
  }

  lemma InsertParents(l: Links, dep: Id, s: Id, a: seq<Id>, b: seq<Id>)
    ensures InsertLinks(l, dep, s, a, b).depPrev == Adopted(l.depPrev, b, |b|, s, Some(dep))
  {
    assert b[..|b|] == b;
  }

  lemma InsertValid(t: Tree, kids: Kids, rank: Ranks, dep: Id, s: Id, f: Flags)
    requires Adoptable(t, kids, rank, dep, s)
    requires Queues(Adopted(t.links.depPrev, kids[dep], |kids[dep]|, s, Some(dep)), t.Active(), f)
    ensures dep in t.sumDep && s in t.sumDep && s in t.weight
    ensures ValidBut(InsertedAbove(t, kids, dep, s, f), InsertAbove(kids, dep, s),
                     AttachRanks(t.links.depPrev, rank, dep, s), {})
  {
    hide ValidBut, Shape, Queues, Ranked, Above, Adopted, AttachRanks, Weights, InsertLinks, InsertAbove, Rooted, Chain;
    ValidParts(t, kids, rank, {s});
    LooseStream(t, s);
    InsertParents(t.links, dep, s, kids[s], kids[dep]);
    AdoptedRanked(t, kids, rank, dep, s, |kids[dep]|, Some(dep));
    AdoptedUp(t.links.depPrev, kids[dep], |kids[dep]|, s, Some(dep));
    ShapeInsert(t.links, kids, dep, s);
    InsertKeys(kids, dep, s);
    WeightsInsert(t.weight, t.sumDep, kids, dep, s);
    KidsOf(t.links, kids, dep);
    AdoptedNone(t.links.depPrev, kids[dep], s, dep);
    var t' := InsertedAbove(t, kids, dep, s, f);
    RootedJoin(t, t', dep, s);
    Assemble(t, kids, rank, {s}, t', InsertAbove(kids, dep, s), AttachRanks(t.links.depPrev, rank, dep, s), {});
  }

  lemma AdoptedNone(dp: Parents, b: seq<Id>, s: Id, dep: Id)
    requires s in dp && forall c :: c in b ==> c in dp && dp[c] == Some(dep)
    ensures var dp' := Adopted(dp, b, |b|, s, Some(dep));
            dp'.Keys == dp.Keys && forall c :: c in dp && c != s ==> (dp'[c] == None <==> dp[c] == None)
  {
    assert b[..|b|] == b;
  }

  lemma InsertKeys(kids: Kids, dep: Id, s: Id)
    requires dep in kids && s in kids
    ensures InsertAbove(kids, dep, s).Keys == kids.Keys
  {
  }

  lemma InsertDone(t: Tree, kids: Kids, rank: Ranks, dep: Id, s: Id, f: Flags)
    requires Adoptable(t, kids, rank, dep, s) && Adopting(t, kids, dep, s, |kids[dep]|, f)
    ensures var dp' := Adopted(t.links.depPrev, kids[dep], |kids[dep]|, s, Some(dep));
            var rank' := AttachRanks(t.links.depPrev, rank, dep, s);
            && Ranked(dp', rank') && f.obq.Keys == dp'.Keys == kids.Keys
            && dep in t.sumDep && s in t.sumDep && s in t.weight
            && ValidBut(InsertedAbove(t, kids, dep, s,
                                      if Busy(t.Active(), f, s) then PushUp(dp', rank', f, Some(dep), s) else f),
                        InsertAbove(kids, dep, s), rank', {})
  {
    hide ValidBut, Queues, QueuesBut, Ranked, Above, Adopted, AttachRanks, InsertedAbove, InsertAbove, PushUp;
    var dp' := Adopted(t.links.depPrev, kids[dep], |kids[dep]|, s, Some(dep));
    var rank' := AttachRanks(t.links.depPrev, rank, dep, s);
    AdoptedRanked(t, kids, rank, dep, s, |kids[dep]|, Some(dep));
    AdoptedUp(t.links.depPrev, kids[dep], |kids[dep]|, s, Some(dep));
    AttachedQueues(dp', rank', t.Active(), f, s);
    InsertValid(t, kids, rank, dep, s, if Busy(t.Active(), f, s) then PushUp(dp', rank', f, Some(dep), s) else f);
  }

  lemma ItemFacts(t: Tree, kids: Kids, rank: Ranks)
    requires ValidBut(t, kids, rank, {})
    ensures t.item <= kids.Keys && ROOT !in t.item && Queues(t.links.depPrev, t.Active(), t.flags)
  {
  }

  lemma AdoptFacts(t: Tree, kids: Kids, rank: Ranks, dep: Id, s: Id)
    requires Adoptable(t, kids, rank, dep, s)
    ensures ValidBut(t, kids, rank, {s})
    ensures dep in kids && s in kids && dep != s && dep in t.sumDep && s in t.sumDep && s in t.weight
    ensures s in t.flags.obq
    ensures s in t.links.depPrev && dep in t.links.depPrev && Ranked(t.links.depPrev, rank)
    ensures dep in t.links.depNext && s in t.links.depNext && t.links.depNext[dep] == At(kids[dep], 0)
    ensures t.links.depNext[s] == At(kids[s], 0)
    ensures forall i :: 0 <= i < |kids[s]| ==>
              kids[s][i] in t.links.sibNext && t.links.sibNext[kids[s][i]] == At(kids[s], i + 1)
  {
    hide ValidBut, Ranked, Above;
    ValidParts(t, kids, rank, {s});
    SiblingWalk(t, kids, rank, {s}, s);
    SiblingWalk(t, kids, rank, {s}, dep);
  }

  /** A queued child that has not been adopted yet is in the queue of `dep`. */
  lemma AdoptingChild(t: Tree, kids: Kids, rank: Ranks, dep: Id, s: Id, k: nat, f: Flags)
    requires Adoptable(t, kids, rank, dep, s) && k < |kids[dep]|
    requires Adopting(t, kids, dep, s, k, f) || (kids[s] == [] && NewAdopting(t, kids, dep, s, k, f))
    ensures dep in f.obq && kids[dep][k] in kids && (kids[dep][k] in f.queued ==> kids[dep][k] in f.obq[dep])
  {
    hide ValidBut, Shape, Weights, Ranked, Rooted, Queues, Chain, Adopted, Above;
    ValidParts(t, kids, rank, {s});
    KidsOf(t.links, kids, dep);
    AdoptedChild(t, kids, rank, dep, s, k);
    AdoptedStep(t.links.depPrev, kids[dep], k, s, Some(dep));
    AdoptedStep(t.links.depPrev, kids[dep], k, s, None);
  }

  /** The loop of nghttp2_stream_dep_insert_subtree is about to start, with the links and sums already changed. */
  ghost predicate AdoptReady(t0: Tree, kids: Kids, rank0: Ranks, rank: Ranks, dep: Id, s: Id, depNext: Ref, t: Tree)
  {
    && Adoptable(t0, kids, rank0, dep, s) && Adopting(t0, kids, dep, s, 0, t.flags) && kids[dep] != []
    && depNext == Some(kids[dep][0]) && s in t0.links.depPrev && rank == AttachRanks(t0.links.depPrev, rank0, dep, s)
    && t.links == InsertStart(t0.links, dep, s, kids[s], depNext)
    && t == t0.(links := t.links, sumDep := t.sumDep)
  }

  lemma AdoptReadyFacts(t0: Tree, kids: Kids, rank0: Ranks, rank: Ranks, dep: Id, s: Id, depNext: Ref, t: Tree)
    requires AdoptReady(t0, kids, rank0, rank, dep, s, depNext, t)
    ensures Adoptable(t0, kids, rank0, dep, s) && Adopting(t0, kids, dep, s, 0, t.flags)
    ensures dep in kids && s in kids && kids[dep] != [] && depNext == Some(kids[dep][0])
    ensures s in t0.links.depPrev && dep in t0.links.depPrev && Ranked(t0.links.depPrev, rank0)
    ensures rank == AttachRanks(t0.links.depPrev, rank0, dep, s)
    ensures t.links == InsertStart(t0.links, dep, s, kids[s], depNext) && t == t0.(links := t.links, sumDep := t.sumDep)
  {
    hide ValidBut, Ranked, Above, AttachRanks, InsertStart, Adopting;
  }

  /** nghttp2_stream_dep_insert_subtree has set the sums, and no link yet. */
  ghost predicate AdoptBegun(t0: Tree, kids: Kids, rank0: Ranks, rank: Ranks, dep: Id, s: Id, t: Tree)
  {
    && Adoptable(t0, kids, rank0, dep, s) && Adopting(t0, kids, dep, s, 0, t.flags)
    && s in t0.links.depPrev && rank == AttachRanks(t0.links.depPrev, rank0, dep, s)
    && t == t0.(sumDep := t.sumDep)
  }

  ghost predicate AdoptDone(t0: Tree, kids: Kids, dep: Id, s: Id, t: Tree)
  {
    && dep in kids && s in kids && t.links == InsertLinks(t0.links, dep, s, kids[s], kids[dep])
    && Adopting(t0, kids, dep, s, |kids[dep]|, t.flags)
  }

  ghost predicate NewAdoptReady(t0: Tree, kids: Kids, rank0: Ranks, rank: Ranks, dep: Id, s: Id, t: Tree)
  {
    && Adoptable(t0, kids, rank0, dep, s) && kids[s] == [] && NewAdopting(t0, kids, dep, s, 0, t.flags)
    && s in t0.links.depPrev && rank == AttachRanks(t0.links.depPrev, rank0, dep, s)
    && t == t0.(sumDep := t.sumDep)
  }

  lemma NewAdoptReadyFacts(t0: Tree, kids: Kids, rank0: Ranks, rank: Ranks, dep: Id, s: Id, t: Tree)
    requires NewAdoptReady(t0, kids, rank0, rank, dep, s, t)
    ensures Adoptable(t0, kids, rank0, dep, s) && NewAdopting(t0, kids, dep, s, 0, t.flags)
    ensures dep in kids && s in kids && kids[s] == []
    ensures s in t0.links.depPrev && dep in t0.links.depPrev && Ranked(t0.links.depPrev, rank0)
    ensures rank == AttachRanks(t0.links.depPrev, rank0, dep, s) && t == t0.(sumDep := t.sumDep)
  {
    hide ValidBut, Ranked, Above, AttachRanks, NewAdopting;
  }

  ghost predicate NewAdoptDone(t0: Tree, kids: Kids, dep: Id, s: Id, t: Tree)
  {
    && dep in kids && t.links == t0.links.(depPrev := Adopted(t0.links.depPrev, kids[dep], |kids[dep]|, s, None))
    && NewAdopting(t0, kids, dep, s, |kids[dep]|, t.flags)
  }

  lemma AdoptingKeys(t: Tree, kids: Kids, dep: Id, s: Id, k: nat, f: Flags)
    requires Adopting(t, kids, dep, s, k, f)
    ensures f.obq.Keys == kids.Keys
  {
  }

  lemma LinkKeeps(l: Links, dep: Id, s: Id)
    requires dep in l.depNext && s in l.depNext
    ensures LinkDep(l, dep, Some(s)).sibNext == l.sibNext
    ensures dep != s ==> s in LinkDep(l, dep, Some(s)).depNext && LinkDep(l, dep, Some(s)).depNext[s] == l.depNext[s]
  {
  }

  lemma InsertNone(t: Tree, kids: Kids, rank: Ranks, dep: Id, s: Id)
    requires Adoptable(t, kids, rank, dep, s) && kids[dep] == []
    ensures LinkDep(t.links, dep, Some(s)) == InsertLinks(t.links, dep, s, kids[s], kids[dep])
    ensures LinkDep(t.links, dep, Some(s)).depPrev == Adopted(t.links.depPrev, kids[dep], 0, s, Some(dep))
  {
    hide ValidBut, Ranked, Above;
    AdoptFacts(t, kids, rank, dep, s);
    assert Moved(t.links.depPrev, [], s) == t.links.depPrev;
  }

  // ---- inserting a new stream ----------------------------------------------------------

  /** The queues while the children of `dep` go to the new stream `s`, which has no parent yet. */
  ghost predicate NewAdopting(t: Tree, kids: Kids, dep: Id, s: Id, k: nat, f: Flags)
  {
    && dep in kids && k <= |kids[dep]| && f.obq.Keys == kids.Keys && s in kids
    && var dp := Adopted(t.links.depPrev, kids[dep], k, s, None);
    && dep in dp && QueuesBut(dp, t.Active(), f, {dep}) && NewHolds(dp, t.Active(), f, dep, s)
  }

  lemma QueuedAreKids(t: Tree, kids: Kids, rank: Ranks, loose: set<Id>, s: Id, c: Id)
    requires ValidBut(t, kids, rank, loose) && s in kids && s in t.flags.obq && c in t.flags.obq[s]
    ensures c in kids[s]
  {
    hide ValidBut, Shape, Weights, Ranked, Rooted;
    ValidParts(t, kids, rank, loose);
    ListedOf(t.links, kids, c);
  }

  lemma NoKidsNoQueue(t: Tree, kids: Kids, rank: Ranks, loose: set<Id>, s: Id)
    requires ValidBut(t, kids, rank, loose) && s in kids && kids[s] == []
    ensures s in t.flags.obq && t.flags.obq[s] == {}
  {
    hide ValidBut, Shape, Weights, Ranked, Rooted, Queues;
    ValidParts(t, kids, rank, loose);
    forall c | c in t.flags.obq[s] ensures c in kids[s] { QueuedAreKids(t, kids, rank, loose, s, c); }
    assert t.flags.obq[s] == {};
  }

  lemma NewAdoptStart(t: Tree, kids: Kids, rank: Ranks, dep: Id, s: Id)
    requires Adoptable(t, kids, rank, dep, s) && kids[s] == []
    ensures NewAdopting(t, kids, dep, s, 0, t.flags)
  {
    hide ValidBut, Ranked, Above, Shape, Weights, Adopted;
    ValidParts(t, kids, rank, {s});
    NoKidsNoQueue(t, kids, rank, {s}, s);
    LooseStream(t, s);
    AdoptedZero(t.links.depPrev, kids[dep], s, None);
    assert t.links.depPrev[s := None] == t.links.depPrev;
  }

  lemma NewAdoptNext(t: Tree, kids: Kids, rank: Ranks, dep: Id, s: Id, k: nat, f: Flags)
    requires Adoptable(t, kids, rank, dep, s) && NewAdopting(t, kids, dep, s, k, f) && k < |kids[dep]|
    ensures var dp' := Adopted(t.links.depPrev, kids[dep], k + 1, s, None);
            var rank' := AttachRanks(t.links.depPrev, rank, dep, s);
            && Ranked(dp', rank') && dp'.Keys == kids.Keys && dep in dp' && s in dp'
            && NewAdopting(t, kids, dep, s, k + 1, Move(dp', rank', f, s, dep, kids[dep][k]))
  {
    hide ValidBut, Queues, QueuesBut, NewHolds, Ranked, Above, Adopted, Move, AttachRanks, Shape, Weights;
    var dp, b := t.links.depPrev, kids[dep];
    var rank' := AttachRanks(dp, rank, dep, s);
    AdoptedChild(t, kids, rank, dep, s, k);
    AdoptedStep(dp, b, k, s, None);
    AdoptedRanked(t, kids, rank, dep, s, k, None);
    AdoptedRanked(t, kids, rank, dep, s, k + 1, None);
    AdoptedUp(dp, b, k, s, None);
    AdoptByNew(Adopted(dp, b, k, s, None), rank', t.Active(), f, dep, s, b[k]);
    ButKeys(Adopted(dp, b, k + 1, s, None), t.Active(),
            Move(Adopted(dp, b, k + 1, s, None), rank', f, s, dep, b[k]), {dep});
  }

  lemma NewInsertDone(t: Tree, kids: Kids, rank: Ranks, dep: Id, s: Id, f: Flags)
    requires Adoptable(t, kids, rank, dep, s) && NewAdopting(t, kids, dep, s, |kids[dep]|, f)
    requires s !in t.Active()
    ensures var dp' := Adopted(t.links.depPrev, kids[dep], |kids[dep]|, s, None);
            var rank' := AttachRanks(t.links.depPrev, rank, dep, s);
            && Ranked(dp', rank') && f.obq.Keys == dp'.Keys == kids.Keys
            && dep in t.sumDep && s in t.sumDep && s in t.weight
            && ValidBut(InsertedAbove(t, kids, dep, s,
                                      if Busy(t.Active(), f, s) then PushUp(dp', rank', f, Some(dep), s) else f),
                        InsertAbove(kids, dep, s), rank', {})
  {
    hide ValidBut, Queues, QueuesBut, NewHolds, Ranked, Above, Adopted, AttachRanks, InsertedAbove, InsertAbove, PushUp;
    var b := kids[dep];
    var dp' := Adopted(t.links.depPrev, b, |b|, s, None);
    var rank' := AttachRanks(t.links.depPrev, rank, dep, s);
    AdoptedRanked(t, kids, rank, dep, s, |b|, None);
    AdoptedUp(t.links.depPrev, b, |b|, s, None);
    AdoptedSwitch(t.links.depPrev, b, |b|, s, dep);
    NewAttached(dp', rank', t.Active(), f, dep, s);
    InsertValid(t, kids, rank, dep, s, if Busy(t.Active(), f, s) then PushUp(dp', rank', f, Some(dep), s) else f);
  }

  lemma AdoptedSwitch(dp: Parents, b: seq<Id>, k: nat, s: Id, dep: Id)
    requires k <= |b|
    ensures Adopted(dp, b, k, s, None)[s := Some(dep)] == Adopted(dp, b, k, s, Some(dep))
  {
  }

  /** The links nghttp2_stream_dep_insert writes besides those of the adopted children. */
  lemma NewInsertLinks(t: Tree, kids: Kids, rank: Ranks, dep: Id, s: Id)
    requires Adoptable(t, kids, rank, dep, s) && kids[s] == []
    ensures dep in t.links.depNext
    ensures var dp' := Adopted(t.links.depPrev, kids[dep], |kids[dep]|, s, None);
            var depNext := if kids[dep] == [] then t.links.depNext else t.links.depNext[s := t.links.depNext[dep]];
            t.links.(depPrev := dp'[s := Some(dep)], depNext := depNext[dep := Some(s)])
            == InsertLinks(t.links, dep, s, kids[s], kids[dep])
  {
    hide ValidBut, Ranked, Above, Adopted, Moved;
    AdoptFacts(t, kids, rank, dep, s);
    AdoptedSwitch(t.links.depPrev, kids[dep], |kids[dep]|, s, dep);
    InsertParents(t.links, dep, s, kids[s], kids[dep]);
    if kids[dep] == [] { assert t.links.depNext[s := None] == t.links.depNext; }
  }

  lemma NewAdoptingKeys(t: Tree, kids: Kids, dep: Id, s: Id, k: nat, f: Flags)
    requires NewAdopting(t, kids, dep, s, k, f)
    ensures f.obq.Keys == kids.Keys
  {
  }

  lemma NewZero(t: Tree, kids: Kids, rank: Ranks, dep: Id, s: Id)
    requires Adoptable(t, kids, rank, dep, s)
    ensures Adopted(t.links.depPrev, kids[dep], 0, s, None) == t.links.depPrev
  {
    hide ValidBut, Ranked, Above, Adopted, Shape, Weights, Queues;
    ValidParts(t, kids, rank, {s});
    LooseStream(t, s);
    AdoptedZero(t.links.depPrev, kids[dep], s, None);
    assert t.links.depPrev[s := None] == t.links.depPrev;
  }

  lemma NewSum(t: Tree, kids: Kids, rank: Ranks, s: Id)
    requires ValidBut(t, kids, rank, {s}) && s in kids && kids[s] == []
    ensures s in t.sumDep && t.sumDep[s] == 0
  {
    hide Shape, Ranked, Queues, Rooted;
  }

  // ---- removing a stream ---------------------------------------------------------------

  /** The parents as the queues see them when the first `k` children of `s` have gone to its parent `p`. */
  function HandedOver(dp: Parents, m: seq<Id>, k: nat, p: Id): Parents
    requires k <= |m|
  {
    Moved(dp, m[..k], p)
  }

  ghost predicate HandingOver(t: Tree, kids: Kids, p: Id, s: Id, k: nat, f: Flags)
  {
    && s in kids && k <= |kids[s]| && f.obq.Keys == kids.Keys && f.queued == t.flags.queued
    && QueuesBut(HandedOver(t.links.depPrev, kids[s], k, p), t.Active(), f, {s})
  }

  lemma HandOverStart(t: Tree, kids: Kids, rank: Ranks, p: Id, s: Id)
    requires ValidBut(t, kids, rank, {}) && s in kids
    ensures HandingOver(t, kids, p, s, 0, t.flags)
  {
    hide ValidBut, Shape, Weights, Ranked, Rooted, Queues, QueuesBut;
    ValidParts(t, kids, rank, {});
    QueuesWeaken(t.links.depPrev, t.Active(), t.flags, s);
    assert HandedOver(t.links.depPrev, kids[s], 0, p) == t.links.depPrev;
  }

  lemma HandedStep(dp: Parents, m: seq<Id>, k: nat, p: Id)
    requires k < |m| && Distinct(m) && m[k] in dp
    ensures HandedOver(dp, m, k, p)[m[k] := Some(p)] == HandedOver(dp, m, k + 1, p)
    ensures m[k] in HandedOver(dp, m, k, p) && HandedOver(dp, m, k, p)[m[k]] == dp[m[k]]
  {
    assert m[..k + 1] == m[..k] + [m[k]];
    DistinctPrefix(m, k);
  }

  lemma HandedKeeps(dp: Parents, m: seq<Id>, k: nat, p: Id, n: Id)
    requires k <= |m| && n in dp && n !in m
    ensures HandedOver(dp, m, k, p).Keys == dp.Keys && HandedOver(dp, m, k, p)[n] == dp[n]
  {
    forall c | c in m[..k] ensures c in m { }
  }

  /** A queued child makes its parent queued, since that has a parent too. */
  lemma QueuedChild(t: Tree, kids: Kids, rank: Ranks, s: Id, c: Id)
    requires ValidBut(t, kids, rank, {}) && s in kids && c in kids && s != ROOT
    requires t.links.depPrev.Keys == kids.Keys && t.links.depPrev[c] == Some(s) && c in t.flags.queued
    ensures s in t.flags.queued
  {
    hide ValidBut, Shape, Weights, Ranked;
    ValidParts(t, kids, rank, {});
    assert c in t.flags.obq[s];
    assert NodeOk(t.links.depPrev, t.Active(), t.flags, s);
  }

  lemma HandOverNext(t: Tree, kids: Kids, rank: Ranks, p: Id, i: nat, s: Id, k: nat, f: Flags)
    requires ValidBut(t, kids, rank, {}) && s in kids && s != ROOT && k < |kids[s]|
    requires p in kids && i < |kids[p]| && kids[p][i] == s
    requires HandingOver(t, kids, p, s, k, f)
    ensures Ranked(t.links.depPrev, rank) && t.links.depPrev.Keys == kids.Keys
    ensures HandingOver(t, kids, p, s, k + 1, Move(t.links.depPrev, rank, f, p, s, kids[s][k]))
  {
    hide ValidBut, Shape, Weights, Ranked, Rooted, Queues, QueuesBut, HandedOver, Move;
    ValidParts(t, kids, rank, {});
    ChildOf(t.links, kids, p, s);
    var p', i' := Locate(t, kids, rank, {}, s);
    var dp, m, c := t.links.depPrev, kids[s], kids[s][k];
    assert c in m;
    HandedStep(dp, m, k, p);
    HandedKeeps(dp, m, k, p, s);
    HandedKeeps(dp, m, k, p, p);
    if c in f.queued { QueuedChild(t, kids, rank, s, c); }
    HandOverStep(dp, HandedOver(dp, m, k, p), rank, t.Active(), f, p, s, c);
    ButKeys(HandedOver(dp, m, k + 1, p), t.Active(), Move(dp, rank, f, p, s, c), {s});
    HandedKeeps(dp, m, k + 1, p, s);
  }

  lemma HandedRanked(dp: Parents, rank: Ranks, m: seq<Id>, p: Id, s: Id)
    requires Ranked(dp, rank) && s in dp && dp[s] == Some(p) && forall c :: c in m ==> c in dp && dp[c] == Some(s)
    ensures Ranked(HandedOver(dp, m, |m|, p), rank)
    ensures forall n :: n in dp && rank[n] <= rank[s] ==> dp[n] == HandedOver(dp, m, |m|, p)[n]
  {
    assert m[..|m|] == m;
    DetachRanked(dp, rank, HandedOver(dp, m, |m|, p), s);
  }

  /** After the loop the stream itself leaves its queue, and the tree of the queues is the new one. */
  lemma HandOverDone(t: Tree, kids: Kids, rank: Ranks, p: Id, i: nat, s: Id, f: Flags)
    requires ValidBut(t, kids, rank, {}) && s in kids && s != ROOT
    requires p in kids && i < |kids[p]| && kids[p][i] == s
    requires HandingOver(t, kids, p, s, |kids[s]|, f)
    ensures Ranked(t.links.depPrev, rank) && t.links.depPrev.Keys == kids.Keys == f.obq.Keys
    ensures s in f.queued ==> PullsQueued(t.links.depPrev, rank, t.Active(), f, s)
    ensures var f' := if s in f.queued then PullUp(t.links.depPrev, rank, t.Active(), f, s) else f;
            Queues(HandedOver(t.links.depPrev, kids[s], |kids[s]|, p)[s := None], t.Active(), f')
  {
    hide ValidBut, Shape, Weights, Ranked, Rooted, Queues, QueuesBut, HandedOver, PullUp, PullsQueued, Chain;
    ValidParts(t, kids, rank, {});
    ChildOf(t.links, kids, p, s);
    KidsOf(t.links, kids, s);
    var dp, m := t.links.depPrev, kids[s];
    HandedRanked(dp, rank, m, p, s);
    var dpv := HandedOver(dp, m, |m|, p);
    RankedStep(dp, rank, s);
    HandedKeeps(dp, m, |m|, p, s);
    if s in f.queued {
      PullAsserts(dpv, rank, t.Active(), f, s, {s}) by { RankKeys(dpv, rank); }
      PullsAgree(dp, dpv, rank, t.Active(), f, s) by { RankKeys(dp, rank); }
      PullAgree(dp, dpv, rank, t.Active(), f, s) by { RankKeys(dp, rank); }
    }
    LeaveQueues(dpv, rank, t.Active(), f, s);
  }

  lemma RankKeys(dp: Parents, rank: Ranks)
    requires Ranked(dp, rank)
    ensures rank.Keys == dp.Keys
  {
  }

  /** The state after nghttp2_stream_dep_remove. */
  ghost function Removed(t: Tree, kids: Kids, p: Id, i: nat, f: Flags): Tree
    requires p in kids && i < |kids[p]| && kids[p][i] in kids
  {
    var s := kids[p][i];
    var weight := Shared(t.weight, kids[s], s, WeightOf(t.sumDep, s));
    t.(links := ReplaceLinks(t.links, kids, p, i), weight := weight,
       sumDep := t.sumDep[p := WeightOf(t.sumDep, p) - WeightOf(t.weight, s) + Sum(weight, kids[s])][s := 0],
       flags := f)
  }

  lemma ReplaceParents(l: Links, kids: Kids, p: Id, i: nat, s: Id)
    requires p in kids && i < |kids[p]| && kids[p][i] == s && s in kids
    ensures ReplaceLinks(l, kids, p, i).depPrev == HandedOver(l.depPrev, kids[s], |kids[s]|, p)[s := None]
  {
    assert kids[s][..|kids[s]|] == kids[s];
  }

  lemma KidsApart(t: Tree, kids: Kids, rank: Ranks, s: Id)
    requires ValidBut(t, kids, rank, {}) && s in kids
    ensures forall c :: c in kids[s] ==> c in kids
    ensures forall n :: n in kids && n != s ==> Apart(kids[s], kids[n])
  {
    hide ValidBut, Shape, Weights, Ranked, Rooted, Queues, Chain;
    ValidParts(t, kids, rank, {});
    KidsOf(t.links, kids, s);
    forall n | n in kids && n != s ensures Apart(kids[s], kids[n]) { KidsOf(t.links, kids, n); }
  }

  lemma RemoveWeights(t: Tree, kids: Kids, rank: Ranks, p: Id, i: nat, s: Id)
    requires s in kids && p in kids && i < |kids[p]| && kids[p][i] == s && p != s && ValidBut(t, kids, rank, {})
    ensures s in t.weight && p in t.sumDep && s in t.sumDep && (kids[s] != [] ==> t.sumDep[s] > 0)
    ensures var t' := Removed(t, kids, p, i, t.flags); Weights(t'.weight, t'.sumDep, ReplaceByKids(kids, p, i))
  {
    hide ValidBut, Shape, Weights, Ranked, Rooted, Queues, ReplaceByKids, ReplaceLinks, Shared, Sum, Apart, Chain;
    ValidParts(t, kids, rank, {});
    KidsApart(t, kids, rank, s);
    WeightsReplace(t.weight, t.sumDep, kids, p, i, s);
  }

  lemma RemoveLinks(t: Tree, kids: Kids, rank: Ranks, p: Id, i: nat, s: Id, t': Tree)
    requires ValidBut(t, kids, rank, {}) && s in kids && p in kids && i < |kids[p]| && kids[p][i] == s && p != s
    requires s != ROOT && s in t.links.depPrev && t.links.depPrev[s] == Some(p)
    requires t'.links == ReplaceLinks(t.links, kids, p, i)
    ensures Shape(t'.links, ReplaceByKids(kids, p, i)) && Ranked(t'.links.depPrev, rank)
    ensures t'.links.depPrev == HandedOver(t.links.depPrev, kids[s], |kids[s]|, p)[s := None]
    ensures Rooted(t', {s}) && ROOT in t'.links.depPrev && t'.links.depPrev[ROOT] == None
  {
    hide ValidBut, Shape, Weights, Ranked, Rooted, Queues, HandedOver, ReplaceLinks, ReplaceByKids, Chain;
    ValidParts(t, kids, rank, {});
    RankedStep(t.links.depPrev, rank, p);
    ShapeReplace(t.links, kids, p, i);
    ReplaceParents(t.links, kids, p, i, s);
    KidsOf(t.links, kids, s);
    HandedRanked(t.links.depPrev, rank, kids[s], p, s);
    CutRanked(HandedOver(t.links.depPrev, kids[s], |kids[s]|, p), rank, s) by {
      assert HandedOver(t.links.depPrev, kids[s], |kids[s]|, p).Keys == rank.Keys by {
        RankKeys(HandedOver(t.links.depPrev, kids[s], |kids[s]|, p), rank);
      }
      RankKeys(t.links.depPrev, rank);
    }
    RootedHanded(t, t', kids[s], p, s);
  }

  lemma RemoveValid(t: Tree, kids: Kids, rank: Ranks, p: Id, i: nat, s: Id, f: Flags)
    requires ValidBut(t, kids, rank, {}) && s in kids && s != ROOT
    requires p in kids && i < |kids[p]| && kids[p][i] == s && p != s
    requires s in t.links.depPrev && t.links.depPrev[s] == Some(p)
    requires Queues(HandedOver(t.links.depPrev, kids[s], |kids[s]|, p)[s := None], t.Active(), f)
    ensures ValidBut(Removed(t, kids, p, i, f), ReplaceByKids(kids, p, i), rank, {s})
  {
    hide ValidBut, Shape, Weights, Ranked, Rooted, Queues, HandedOver, ReplaceLinks, ReplaceByKids, Shared, Sum;
    RemoveWeights(t, kids, rank, p, i, s);
    RemoveLinks(t, kids, rank, p, i, s, Removed(t, kids, p, i, f));
    ReplaceKeys(kids, p, i);
    Assemble(t, kids, rank, {}, Removed(t, kids, p, i, f), ReplaceByKids(kids, p, i), rank, {s});
  }

  lemma ReplaceKeys(kids: Kids, p: Id, i: nat)
    requires p in kids && i < |kids[p]| && kids[p][i] in kids
    ensures ReplaceByKids(kids, p, i).Keys == kids.Keys
  {
  }

  lemma RootedHanded(t: Tree, t': Tree, m: seq<Id>, p: Id, s: Id)
    requires Rooted(t, {}) && s != ROOT && s in t.links.depPrev && ROOT in t.links.depPrev
    requires t.links.depPrev[ROOT] == None
    requires t'.links.depPrev == HandedOver(t.links.depPrev, m, |m|, p)[s := None]
    requires forall c :: c in m ==> c in t.links.depPrev && t.links.depPrev[c] == Some(s)
    ensures Rooted(t', {s}) && ROOT in t'.links.depPrev && t'.links.depPrev[ROOT] == None
  {
    assert m[..|m|] == m;
  }

  // ---- the pointer writes of a removal ---------------------------------------------------

  /** unlink_sib or unlink_dep of `s`, whose children are `m`. */
  function Unlink(l: Links, p: Id, s: Id, m: seq<Id>): Links
    requires s in l.sibPrev && s in l.sibNext
  {
    var next := l.sibNext[s];
    if m == [] then CutLinks(l, p, s)
    else
      var l1 := if l.sibPrev[s].Some? then LinkSib(l, l.sibPrev[s].value, Some(m[0])) else LinkDep(l, p, Some(m[0]));
      var l2 := l1.(depPrev := Moved(l1.depPrev, m, p));
      if next.Some? then LinkSib(l2, m[|m| - 1], next) else l2
  }

  lemma UnlinkDeps(l: Links, t: seq<Id>, p: Id, i: nat, s: Id, m: seq<Id>)
    requires i < |t| && t[i] == s && s in l.sibPrev && s in l.sibNext && s != p && m != []
    requires l.sibPrev[s] == At(t, i - 1) && l.sibNext[s] == At(t, i + 1)
    requires m[0] in l.depPrev
    ensures var l', r := Unlink(l, p, s, m), SpliceLinks(l, p, t, i, m);
            l'.depPrev[s := None] == r.depPrev && l'.depNext[s := None] == r.depNext[s := None]
  {
    assert m[0] in m;
  }

  lemma UnlinkSibs(l: Links, t: seq<Id>, p: Id, i: nat, s: Id, m: seq<Id>)
    requires i < |t| && t[i] == s && s in l.sibPrev && s in l.sibNext && m != [] && Apart(m, t)
    requires l.sibPrev[s] == At(t, i - 1) && l.sibNext[s] == At(t, i + 1)
    requires m[0] in l.sibPrev && m[|m| - 1] in l.sibNext && l.sibPrev[m[0]] == None && l.sibNext[m[|m| - 1]] == None
    ensures var l', r := Unlink(l, p, s, m), SpliceLinks(l, p, t, i, m);
            l'.sibPrev[s := None] == r.sibPrev && l'.sibNext[s := None] == r.sibNext
  {
    assert m[0] in m && m[|m| - 1] in m;
    Neighbours(t, i);
  }

  lemma UnlinkIsReplace(l: Links, kids: Kids, p: Id, i: nat, s: Id)
    requires SameKeys(l, kids) && p in kids && i < |kids[p]| && kids[p][i] == s && s in kids && s != p
    requires l.sibPrev[s] == At(kids[p], i - 1) && l.sibNext[s] == At(kids[p], i + 1)
    requires Chain(l, s, kids[s]) && Apart(kids[s], kids[p])
    requires forall c :: c in kids[p] ==> c in kids && l.depPrev[c] == Some(p)
    ensures var l' := Alone(Unlink(l, p, s, kids[s]), s);
            l'.(depNext := l'.depNext[s := None]) == ReplaceLinks(l, kids, p, i)
  {
    hide CutLinks, SpliceLinks, LinkDep, LinkSib;
    var t, m := kids[p], kids[s];
    if m == [] {
      CutIsSplice(l, kids, p, i, s);
    } else {
      assert m[0] in m && m[|m| - 1] in m;
      assert ChildLinks(l, s, m, None, None, 0) && ChildLinks(l, s, m, None, None, |m| - 1);
      UnlinkDeps(l, t, p, i, s, m);
      UnlinkSibs(l, t, p, i, s, m);
    }
  }

  /** What nghttp2_stream_dep_remove relies on. */
  lemma RemovePlan(t: Tree, kids: Kids, rank: Ranks, s: Id) returns (p: Id, i: nat)
    requires ValidBut(t, kids, rank, {}) && s in kids && s != ROOT
    ensures s in t.links.depPrev && t.links.depPrev[s] == Some(p) && p in kids && i < |kids[p]| && kids[p][i] == s
    ensures p != s
    ensures s in t.links.sibPrev && s in t.links.sibNext && s in t.links.depNext && t.links.depNext[s] == At(kids[s], 0)
    ensures s in t.weight && p in t.sumDep && s in t.sumDep && (kids[s] != [] ==> t.sumDep[s] > 0)
    ensures var l' := Alone(Unlink(t.links, p, s, kids[s]), s);
            l'.(depNext := l'.depNext[s := None]) == ReplaceLinks(t.links, kids, p, i)
    ensures HandingOver(t, kids, p, s, 0, t.flags)
  {
    hide ValidBut, Shape, Weights, Ranked, Rooted, Queues, ReplaceLinks, Chain, HandingOver, Unlink, Alone, Apart;
    ValidFacts(t, kids, rank, {});
    p, i := Locate(t, kids, rank, {}, s);
    RemoveWeights(t, kids, rank, p, i, s);
    KidsOf(t.links, kids, s);
    ShapeKeys(t.links, kids);
    UnlinkIsReplace(t.links, kids, p, i, s);
    HandOverStart(t, kids, rank, p, s);
  }

  /** The weight of the removed stream is shared out fairly. */
  lemma RemovedFairly(t: Tree, kids: Kids, rank: Ranks, s: Id)
    requires ValidBut(t, kids, rank, {}) && s in kids && s != ROOT
    ensures s in t.weight
    ensures FairlyShared(t.weight, Shared(t.weight, kids[s], s, WeightOf(t.sumDep, s)), kids[s], t.weight[s])
  {
    hide ValidBut, Shape, Ranked, Rooted, Queues, Chain, FairlyShared, Shared, Sum;
    ValidFacts(t, kids, rank, {});
    KidsOf(t.links, kids, s);
    SharesFairly(t.weight, kids[s], s);
  }

  lemma HandingKeys(t: Tree, kids: Kids, p: Id, s: Id, k: nat, f: Flags)
    requires HandingOver(t, kids, p, s, k, f)
    ensures f.obq.Keys == kids.Keys && s in kids
  {
  }

  /** A queued child that has not been handed over yet is in the queue of the stream being removed. */
  lemma HandingChild(t: Tree, kids: Kids, rank: Ranks, p: Id, s: Id, k: nat, f: Flags)
    requires ValidBut(t, kids, rank, {}) && HandingOver(t, kids, p, s, k, f) && k < |kids[s]|
    ensures s in f.obq && kids[s][k] in kids && (kids[s][k] in f.queued ==> kids[s][k] in f.obq[s])
  {
    hide ValidBut, Shape, Weights, Ranked, Rooted, Queues, Chain, HandedOver;
    ValidParts(t, kids, rank, {});
    KidsOf(t.links, kids, s);
    HandedStep(t.links.depPrev, kids[s], k, p);
  }

  lemma HandedAway(t: Tree, kids: Kids, rank: Ranks, p: Id, s: Id, c: Id)
    requires ValidBut(t, kids, rank, {}) && s in kids && p != s && c in t.links.depPrev
    ensures c in HandedOver(t.links.depPrev, kids[s], |kids[s]|, p)
    ensures HandedOver(t.links.depPrev, kids[s], |kids[s]|, p)[c] != Some(s)
  {
    hide ValidBut, Shape, Weights, Ranked, Rooted, Queues, Chain;
    ValidParts(t, kids, rank, {});
    assert kids[s][..|kids[s]|] == kids[s];
    if c !in kids[s] && t.links.depPrev[c] == Some(s) { ListedOf(t.links, kids, c); }
  }

  /** When all children are handed over, its queue is empty. */
  lemma HandedEmpty(t: Tree, kids: Kids, rank: Ranks, p: Id, s: Id, f: Flags)
    requires ValidBut(t, kids, rank, {}) && s in kids && HandingOver(t, kids, p, s, |kids[s]|, f) && p != s
    ensures s in f.obq && f.obq[s] == {}
  {
    hide ValidBut, Shape, Weights, Ranked, Rooted, Queues, Chain, HandedOver;
    ValidParts(t, kids, rank, {});
    forall c | c in t.links.depPrev
      ensures c in HandedOver(t.links.depPrev, kids[s], |kids[s]|, p)
      ensures HandedOver(t.links.depPrev, kids[s], |kids[s]|, p)[c] != Some(s)
    {
      HandedAway(t, kids, rank, p, s, c);
    }
    HandedKeys(t.links.depPrev, kids[s], p);
  }

  lemma HandedKeys(dp: Parents, m: seq<Id>, p: Id)
    ensures HandedOver(dp, m, |m|, p).Keys == dp.Keys
  {
  }

  /** The `k`th child of the stream being removed. */
  lemma RemovedChild(t: Tree, kids: Kids, rank: Ranks, s: Id, k: nat)
    requires ValidBut(t, kids, rank, {}) && s in kids && k < |kids[s]|
    ensures var c := kids[s][k]; c in kids && c in t.weight && c != s && c in t.links.sibNext
    ensures t.links.sibNext[kids[s][k]] == At(kids[s], k + 1) && Distinct(kids[s])
  {
    hide ValidBut, Shape, Weights, Ranked, Rooted, Queues, Chain;
    ValidParts(t, kids, rank, {});
    SiblingWalk(t, kids, rank, {}, s);
    KidsOf(t.links, kids, s);
    assert kids[s][k] in kids[s];
    DistinctKids(t.links, kids, s);
    RankedStep(t.links.depPrev, rank, s);
  }

  /** One step of redistributing the weight of `s` over its children `m`. */
  lemma ShareStep(w: WeightMap, m: seq<Id>, k: nat, s: Id, sum: int)
    requires k < |m| && Distinct(m) && s in w && m[k] in w && m[k] != s && sum > 0
    ensures var wk, c := Shared(w, m[..k], s, sum), m[k];
            && c in wk && wk[c] == w[c] && s in wk
            && wk[c := Share(w[s], w[c], sum)] == Shared(w, m[..k + 1], s, sum)
            && Sum(Shared(w, m[..k + 1], s, sum), m[..k + 1]) == Sum(wk, m[..k]) + Share(w[s], w[c], sum)
  {
    var wk, c := Shared(w, m[..k], s, sum), m[k];
    DistinctPrefix(m, k);
    assert m[..k + 1] == m[..k] + [c];
    var w' := Shared(w, m[..k + 1], s, sum);
    assert wk[c := Share(w[s], w[c], sum)] == w';
    SumSplit(w', m[..k], [c]);
    SumFrame(wk, w', m[..k]);
    assert Sum(w', [c]) == w'[c];
  }

  lemma GrandparentApart(t: Tree, kids: Kids, rank: Ranks, p: Id, s: Id, k: nat)
    requires ValidBut(t, kids, rank, {}) && s in kids && k < |kids[s]|
    requires s in t.links.depPrev && t.links.depPrev[s] == Some(p)
    ensures kids[s][k] != p
  {
    hide ValidBut, Shape, Weights, Rooted, Queues, Chain;
    ValidParts(t, kids, rank, {});
    KidsOf(t.links, kids, s);
    assert kids[s][k] in kids[s];
  }

  lemma ShareInRange(t: Tree, kids: Kids, rank: Ranks, s: Id, k: nat)
    requires ValidBut(t, kids, rank, {}) && s in kids && k < |kids[s]|
    ensures s in t.weight && kids[s][k] in t.weight && s in t.sumDep && t.sumDep[s] > 0
    ensures 1 <= Share(t.weight[s], t.weight[kids[s][k]], t.sumDep[s]) <= MAX_WEIGHT
  {
    hide ValidBut, Shape, Ranked, Rooted, Queues, Chain, Share;
    ValidParts(t, kids, rank, {});
    KidsOf(t.links, kids, s);
    assert kids[s][k] in kids[s];
    SumMember(t.weight, kids[s], kids[s][k]);
    ShareRange(t.weight[s], t.weight[kids[s][k]], t.sumDep[s]);
  }

  lemma ShareNone(w: WeightMap, m: seq<Id>, s: Id, sum: int)
    ensures Shared(w, m[..0], s, sum) == w && Sum(w, m[..0]) == 0
  {
  }

  lemma ShareKeeps(w: WeightMap, m: seq<Id>, k: nat, s: Id, sum: int)
    requires k <= |m| && s in w && s !in m
    ensures s in Shared(w, m[..k], s, sum) && Shared(w, m[..k], s, sum)[s] == w[s]
  {
    forall c | c in m[..k] ensures c in m { }
  }

  lemma MovedStep(dp: Parents, m: seq<Id>, k: nat, p: Id)
    requires k < |m| && m[k] in dp
    ensures Moved(dp, m[..k], p)[m[k] := Some(p)] == Moved(dp, m[..k + 1], p)
  {
    assert m[..k + 1] == m[..k] + [m[k]];
  }

  lemma MovedNone(dp: Parents, m: seq<Id>, p: Id)
    ensures Moved(dp, m[..0], p) == dp
  {
  }

  /** The conditions under which the loops of unlink_sib and unlink_dep walk over the children of `s`. */
  lemma UnlinkReady(t: Tree, kids: Kids, rank: Ranks, s: Id)
    requires ValidBut(t, kids, rank, {}) && s in kids && s != ROOT
    ensures s in t.links.sibPrev && t.links.sibPrev[s] != Some(s)
    ensures forall i :: 0 <= i < |kids[s]| ==>
              && kids[s][i] in t.links.sibNext && t.links.sibNext[kids[s][i]] == At(kids[s], i + 1)
              && kids[s][i] in t.links.depPrev && t.links.sibPrev[s] != Some(kids[s][i]) && kids[s][i] != s
  {
    hide ValidBut, Shape, Weights, Ranked, Rooted, Queues, Chain;
    ValidFacts(t, kids, rank, {});
    var p, j := Locate(t, kids, rank, {}, s);
    SiblingWalk(t, kids, rank, {}, s);
    Neighbours(kids[p], j);
    forall i | 0 <= i < |kids[s]|
      ensures kids[s][i] in t.links.depPrev && t.links.sibPrev[s] != Some(kids[s][i]) && kids[s][i] != s
    {
      assert kids[s][i] in kids[s];
    }
  }

  lemma NotOwnChild(t: Tree, kids: Kids, rank: Ranks, s: Id)
    requires ValidBut(t, kids, rank, {}) && s in kids
    ensures s !in kids[s]
  {
    hide ValidBut, Shape, Weights, Ranked, Rooted, Queues, Chain;
    ValidParts(t, kids, rank, {});
    KidsOf(t.links, kids, s);
    RankedStep(t.links.depPrev, rank, s);
  }
}
